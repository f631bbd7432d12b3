/**
 What lexing means, said with the characters of T-SQL: what quotes and comments hide, where they end,
 and which references are read.
 */
module LexingLaws {
  import opened Runes
  import opened Lexing

  /** No reference starts in s. */
  predicate NoReference(s: string) {
    forall i | 0 <= i < |s| :: !Pair(s, i, '$', '(')
  }

  /** s with every c doubled. */
  function Escaped(s: string, c: char): string {
    if s == "" then "" else (if s[0] == c then [c, c] else [s[0]]) + Escaped(s[1..], c)
  }

  /** s stands in t from i on. */
  predicate StandsAt(t: string, i: nat, s: string) {
    i + |s| <= |t| && t[i..i + |s|] == s
  }

  lemma StandsIn(t: string, i: nat, a: string, b: string)
    requires StandsAt(t, i, a + b)
    ensures StandsAt(t, i, a) && StandsAt(t, i + |a|, b)
  {
    SliceOfSlice(t, i, i + |a + b|, 0, |a|);
    SliceOfSlice(t, i, i + |a + b|, |a|, |a + b|);
    assert (a + b)[0..|a|] == a && (a + b)[|a|..|a + b|] == b;
  }

  lemma RuneAt(t: string, i: nat, s: string, k: nat)
    requires StandsAt(t, i, s) && k < |s|
    ensures t[i + k] == s[k]
  {
    assert t[i..i + |s|][k] == s[k];
  }

  lemma NoReferenceRest(s: string)
    requires s != "" && NoReference(s)
    ensures NoReference(s[1..]) && (|s| > 1 ==> !(s[0] == '$' && s[1] == '('))
  {
    assert !Pair(s, 0, '$', '(');
    forall i | 0 <= i < |s[1..]| ensures !Pair(s[1..], i, '$', '(') {
      assert !Pair(s, i + 1, '$', '(');
    }
  }

  // ---------- Single quotes and brackets ----------

  /** An opening and a closing character whose doubling stands for the closing one. */
  predicate Brackets(open: char, close: char) {
    (open == '\'' && close == '\'') || (open == '[' && close == ']')
  }

  lemma {:induction false} EscapedStep(s: string, c: char)
    requires s != ""
    ensures Escaped(s, c) == (if s[0] == c then [c, c] else [s[0]]) + Escaped(s[1..], c)
    ensures |s| > 1 && s[1] != c ==> Escaped(s[1..], c)[0] == s[1]
    ensures |s| == 1 || s[1] == c ==> Escaped(s[1..], c) == "" || Escaped(s[1..], c)[0] == c
  {
  }

  /** One character of quoted text, or two that stand for one. */
  lemma {:induction false} QuotedStep(t: string, i: nat, s: string, open: char, close: char, rest: string, refs: Refs,
                                      vars: bool)
    requires Brackets(open, close) && s != "" && NoReference(s)
    requires StandsAt(t, i, Escaped(s, close) + rest) && (rest == "" ==> i + |Escaped(s, close)| == |t|)
    requires rest != "" ==> rest[0] == close
    ensures var n := if s[0] == close then 2 else 1;
      && StandsAt(t, i + n, Escaped(s[1..], close) + rest)
      && Lex(t, i, Quoted(open), refs, vars) == Lex(t, i + n, Quoted(open), refs, vars)
  {
    hide Lex, Escaped;
    EscapedStep(s, close);
    NoReferenceRest(s);
    var head := if s[0] == close then [close, close] else [s[0]];
    var tail := Escaped(s[1..], close) + rest;
    Regroup(head, Escaped(s[1..], close), rest);
    StandsIn(t, i, head, tail);
    RuneAt(t, i, head, 0);
    if s[0] == close {
      RuneAt(t, i, head, 1);
    } else if tail != "" {
      RuneAt(t, i + 1, tail, 0);
    }
    LexStep(t, i, Quoted(open), refs, vars);
  }

  lemma {:induction false} QuotedSkips(t: string, i: nat, s: string, open: char, close: char, refs: Refs, vars: bool)
    requires Brackets(open, close) && NoReference(s)
    requires StandsAt(t, i, Escaped(s, close) + [close])
    requires var e := i + |Escaped(s, close)| + 1; e < |t| ==> t[e] != close
    ensures Lex(t, i, Quoted(open), refs, vars) == Lex(t, i + |Escaped(s, close)| + 1, Code, refs, vars)
    decreases |s|
  {
    hide Lex;
    if s == "" {
      assert Escaped(s, close) + [close] == [close];
      RuneAt(t, i, [close], 0);
      LexStep(t, i, Quoted(open), refs, vars);
    } else {
      QuotedStep(t, i, s, open, close, [close], refs, vars);
      NoReferenceRest(s);
      QuotedSkips(t, i + if s[0] == close then 2 else 1, s[1..], open, close, refs, vars);
    }
  }

  lemma {:induction false} QuotedStays(t: string, i: nat, s: string, open: char, close: char, refs: Refs, vars: bool)
    requires Brackets(open, close) && NoReference(s)
    requires StandsAt(t, i, Escaped(s, close)) && i + |Escaped(s, close)| == |t|
    ensures Lex(t, i, Quoted(open), refs, vars) == Open(Quoted(open), refs)
    decreases |s|
  {
    hide Lex;
    if s == "" {
      LexNothing(t, Quoted(open), refs, vars);
    } else {
      assert Escaped(s, close) + "" == Escaped(s, close);
      QuotedStep(t, i, s, open, close, "", refs, vars);
      NoReferenceRest(s);
      assert Escaped(s[1..], close) + "" == Escaped(s[1..], close);
      QuotedStays(t, i + if s[0] == close then 2 else 1, s[1..], open, close, refs, vars);
    }
  }

  lemma LexNothing(t: string, mode: Mode, refs: Refs, vars: bool)
    ensures Lex(t, |t|, mode, refs, vars) == Open(mode, refs)
  {
  }

  /**
   Whatever text s is, between single quotes with its quotes doubled, or between brackets with its `]`
   doubled, it is one quoted text: lexing goes on in code behind it. Without the closer it stays open.
   */
  lemma QuotesAndBracketsHide(before: string, s: string, after: string, vars: bool, refs: Refs)
    requires NoReference(s)
    ensures var t := "'" + Escaped(s, '\'') + "'";
      !(after != "" && after[0] == '\'') ==>
        Lex(before + t + after, |before|, Code, refs, vars) == Lex(before + t + after, |before| + |t|, Code, refs, vars)
    ensures var t := "[" + Escaped(s, ']') + "]";
      !(after != "" && after[0] == ']') ==>
        Lex(before + t + after, |before|, Code, refs, vars) == Lex(before + t + after, |before| + |t|, Code, refs, vars)
    ensures var t := before + "'" + Escaped(s, '\'');
      Lex(t, |before|, Code, refs, vars) == Open(Quoted('\''), refs)
    ensures var t := before + "[" + Escaped(s, ']');
      Lex(t, |before|, Code, refs, vars) == Open(Quoted('['), refs)
  {
    hide Lex, Escaped;
    if !(after != "" && after[0] == '\'') {
      OpenAndSkip(before, s, '\'', '\'', after, refs, vars);
    }
    if !(after != "" && after[0] == ']') {
      OpenAndSkip(before, s, '[', ']', after, refs, vars);
    }
    OpenAndStay(before, s, '\'', '\'', refs, vars);
    OpenAndStay(before, s, '[', ']', refs, vars);
  }

  lemma OpenAndSkip(before: string, s: string, open: char, close: char, after: string, refs: Refs, vars: bool)
    requires Brackets(open, close) && NoReference(s) && !(after != "" && after[0] == close)
    ensures var t := [open] + Escaped(s, close) + [close];
      Lex(before + t + after, |before|, Code, refs, vars) == Lex(before + t + after, |before| + |t|, Code, refs, vars)
  {
    hide Lex, Escaped;
    var body := Escaped(s, close) + [close];
    var t := [open] + Escaped(s, close) + [close];
    var all := before + t + after;
    Regroup([open], Escaped(s, close), [close]);
    assert all[|before|] == open;
    assert all[|before| + 1..|before| + 1 + |body|] == body;
    assert after != "" ==> all[|before| + |t|] == after[0];
    LexStep(all, |before|, Code, refs, vars);
    QuotedSkips(all, |before| + 1, s, open, close, refs, vars);
  }

  lemma OpenAndStay(before: string, s: string, open: char, close: char, refs: Refs, vars: bool)
    requires Brackets(open, close) && NoReference(s)
    ensures Lex(before + [open] + Escaped(s, close), |before|, Code, refs, vars) == Open(Quoted(open), refs)
  {
    hide Lex, Escaped;
    var all := before + [open] + Escaped(s, close);
    assert all[|before|] == open;
    assert all[|before| + 1..|before| + 1 + |Escaped(s, close)|] == Escaped(s, close);
    LexStep(all, |before|, Code, refs, vars);
    QuotedStays(all, |before| + 1, s, open, close, refs, vars);
  }

  // ---------- Double quotes ----------

  /** One character between double quotes. */
  lemma DoubleQuotedStep(t: string, i: nat, refs: Refs, vars: bool)
    requires i < |t| && (t[i] == '"' || !Pair(t, i, '$', '('))
    ensures Lex(t, i, Quoted('"'), refs, vars) ==
            if t[i] == '"' then Lex(t, i + 1, Code, refs, vars) else Lex(t, i + 1, Quoted('"'), refs, vars)
  {
    hide Lex;
    LexStep(t, i, Quoted('"'), refs, vars);
  }

  lemma {:induction false} DoubleQuotedSkips(t: string, i: nat, e: nat, refs: Refs, vars: bool)
    requires i <= e <= |t| && (e < |t| ==> t[e] == '"')
    requires forall k | i <= k < e :: t[k] != '"' && !Pair(t, k, '$', '(')
    ensures Lex(t, i, Quoted('"'), refs, vars) ==
      if e < |t| then Lex(t, e + 1, Code, refs, vars) else Open(Quoted('"'), refs)
    decreases e - i
  {
    hide Lex;
    if i == |t| {
      LexNothing(t, Quoted('"'), refs, vars);
    } else {
      DoubleQuotedStep(t, i, refs, vars);
      if i < e {
        DoubleQuotedSkips(t, i + 1, e, refs, vars);
      }
    }
  }

  /** What s holds where it stands in front of a double quote or the end. */
  lemma NoReferenceAt(t: string, i: nat, s: string)
    requires NoReference(s) && '"' !in s && StandsAt(t, i, s) && (i + |s| < |t| ==> t[i + |s|] == '"')
    ensures forall k | i <= k < i + |s| :: t[k] != '"' && !Pair(t, k, '$', '(')
  {
    forall k | i <= k < i + |s| ensures t[k] != '"' && !Pair(t, k, '$', '(') {
      RuneAt(t, i, s, k - i);
      if k + 1 < i + |s| {
        RuneAt(t, i, s, k + 1 - i);
      }
      assert s[k - i] in s && !Pair(s, k - i, '$', '(');
    }
  }

  /** Between double quotes the next double quote closes; there is no doubling. */
  lemma DoubleQuotesHide(before: string, s: string, after: string, vars: bool, refs: Refs)
    requires NoReference(s) && '"' !in s
    ensures var t := before + "\"" + s + "\"" + after;
      Lex(t, |before|, Code, refs, vars) == Lex(t, |before| + |s| + 2, Code, refs, vars)
    ensures Lex(before + "\"" + s, |before|, Code, refs, vars) == Open(Quoted('"'), refs)
  {
    hide Lex;
    var t, open := before + "\"" + s + "\"" + after, before + "\"" + s;
    var from := |before| + 1;
    assert t[|before|] == '"' == open[|before|] == t[from + |s|];
    assert t[from..from + |s|] == s == open[from..from + |s|];
    LexStep(t, |before|, Code, refs, vars);
    LexStep(open, |before|, Code, refs, vars);
    NoReferenceAt(t, from, s);
    NoReferenceAt(open, from, s);
    DoubleQuotedSkips(t, from, from + |s|, refs, vars);
    DoubleQuotedSkips(open, from, from + |s|, refs, vars);
  }

  // ---------- Comments ----------

  lemma {:induction false} CommentSkips(t: string, i: nat, e: nat, refs: Refs, vars: bool)
    requires i <= e && (e == |t| || Pair(t, e, '*', '/')) && forall k | i <= k < e :: !Pair(t, k, '*', '/')
    ensures Lex(t, i, Comment, refs, vars) == if e == |t| then Open(Comment, refs) else Lex(t, e + 2, Code, refs, vars)
    decreases e - i
  {
    hide Lex;
    if i == |t| {
      LexNothing(t, Comment, refs, vars);
    } else {
      LexStep(t, i, Comment, refs, vars);
      if i < e {
        CommentSkips(t, i + 1, e, refs, vars);
      }
    }
  }

  /** From `/*` on everything is comment up to the next `*/`, references and quotes as well. */
  lemma BlockCommentHides(before: string, s: string, after: string, vars: bool, refs: Refs)
    requires forall i | 0 <= i < |s| :: !Pair(s, i, '*', '/')
    ensures var t := before + "/*" + s + "*/" + after;
      Lex(t, |before|, Code, refs, vars) == Lex(t, |before| + |s| + 4, Code, refs, vars)
    ensures Lex(before + "/*" + s, |before|, Code, refs, vars) == Open(Comment, refs)
  {
    hide Lex;
    var t, open, n := before + "/*" + s + "*/" + after, before + "/*" + s, |before|;
    assert Pair(t, n, '/', '*') && Pair(open, n, '/', '*') && Pair(t, n + 2 + |s|, '*', '/');
    forall k | n + 2 <= k < n + 2 + |s| ensures !Pair(t, k, '*', '/') && !Pair(open, k, '*', '/') {
      assert t[k] == s[k - n - 2] == open[k];
      assert k + 1 < n + 2 + |s| ==> t[k + 1] == s[k + 1 - n - 2] == open[k + 1];
      assert !Pair(s, k - n - 2, '*', '/');
    }
    LexStep(t, n, Code, refs, vars);
    LexStep(open, n, Code, refs, vars);
    CommentSkips(t, n + 2, n + 2 + |s|, refs, vars);
    CommentSkips(open, n + 2, n + 2 + |s|, refs, vars);
  }

  lemma {:induction false} LineEndIs(t: string, i: nat, e: nat)
    requires i <= e <= |t| && (e < |t| ==> t[e] == '\n') && forall k | i <= k < e :: t[k] != '\n'
    ensures LineEnd(t, i) == e
    decreases e - i
  {
    if i < e {
      LineEndIs(t, i + 1, e);
    }
  }

  /** From `--` on everything is comment up to the end of the line. */
  lemma LineCommentHides(before: string, s: string, after: string, vars: bool, refs: Refs)
    requires '\n' !in s
    ensures var t := before + "--" + s + "\n" + after;
      Lex(t, |before|, Code, refs, vars) == Lex(t, |before| + |s| + 2, Code, refs, vars)
    ensures Lex(before + "--" + s, |before|, Code, refs, vars) == Open(Code, refs)
  {
    hide Lex;
    var t, open, n := before + "--" + s + "\n" + after, before + "--" + s, |before|;
    assert Pair(t, n, '-', '-') && Pair(open, n, '-', '-') && t[n + 2 + |s|] == '\n';
    forall k | n <= k < n + 2 + |s| ensures t[k] != '\n' && open[k] != '\n' {
      assert k >= n + 2 ==> t[k] == s[k - n - 2] == open[k] && s[k - n - 2] in s;
    }
    LineEndIs(t, n, n + 2 + |s|);
    LineEndIs(open, n, n + 2 + |s|);
    LexStep(t, n, Code, refs, vars);
    LexStep(open, n, Code, refs, vars);
    LexNothing(open, Code, refs, vars);
  }

  // ---------- References and other text ----------

  lemma {:induction false} RefEndIs(t: string, i: nat, e: nat)
    requires i <= e < |t| && t[e] == ')' && forall k | i <= k < e :: NameRune(t[k])
    ensures RefEnd(t, i) == Some(e)
    decreases e - i
  {
    if i < e {
      RefEndIs(t, i + 1, e);
    }
  }

  /** A letter, a digit, an underscore or a hyphen, of ASCII. */
  predicate InName(c: char) {
    'a' <= c <= 'z' || 'A' <= c <= 'Z' || '0' <= c <= '9' || c in ['_', '-']
  }

  lemma {:induction false} NoRefEnd(t: string, i: nat, e: nat)
    requires i <= e <= |t| && (forall k | i <= k < e :: InName(t[k])) && (e < |t| ==> t[e] != ')' && !InName(t[e]))
    ensures RefEnd(t, i) == None
    decreases e - i
  {
    if i < e {
      NoRefEnd(t, i + 1, e);
    }
  }

  /** A reference that is not closed behind its name is an error, wherever one would be read. */
  lemma UnclosedIsMalformed(before: string, name: string, after: string, mode: Mode, refs: Refs)
    requires mode in {Code, Quoted('\''), Quoted('"'), Quoted('[')} && forall c | c in name :: InName(c)
    requires after != "" ==> after[0] != ')' && !InName(after[0])
    ensures Lex(before + "$(" + name + after, |before|, mode, refs, true) == Malformed
  {
    hide Lex, RefEnd;
    var t, n := before + "$(" + name + after, |before|;
    var e := n + 2 + |name|;
    assert t[n] == '$' && t[n + 1] == '(' && t[n + 2..e] == name && t[e..] == after;
    forall k | n + 2 <= k < e ensures InName(t[k]) {
      assert t[k] == name[k - n - 2] && name[k - n - 2] in name;
    }
    assert e < |t| ==> t[e] == after[0];
    NoRefEnd(t, n + 2, e);
    LexStep(t, n, mode, refs, true);
  }

  /** A reference is read in code and in every kind of quoted text, when references are enabled. */
  lemma ReferencesAreRead(before: string, name: string, after: string, mode: Mode, refs: Refs)
    requires mode in {Code, Quoted('\''), Quoted('"'), Quoted('[')} && forall c | c in name :: InName(c)
    ensures var t := before + "$(" + name + ")" + after;
      Lex(t, |before|, mode, refs, true) == Lex(t, |before| + |name| + 3, mode, refs + [Ref(|before|, name)], true)
  {
    hide Lex;
    var t, n := before + "$(" + name + ")" + after, |before|;
    assert Pair(t, n, '$', '(') && t[n + 2..n + 2 + |name|] == name && t[n + 2 + |name|] == ')';
    forall k | n + 2 <= k < n + 2 + |name| ensures NameRune(t[k]) {
      assert t[k] == name[k - n - 2] && name[k - n - 2] in name;
    }
    RefEndIs(t, n + 2, n + 2 + |name|);
    AdvanceReference(t, n, mode);
    LexStep(t, n, mode, refs, true);
  }

  /** Text without quotes, comments and references is passed over. */
  lemma {:induction false} CodeSkips(t: string, i: nat, e: nat, refs: Refs, vars: bool)
    requires i <= e <= |t|
    requires forall k | i <= k < e :: t[k] != '\'' && t[k] != '"' && t[k] != '['
    requires forall k | i <= k < e :: !Pair(t, k, '-', '-') && !Pair(t, k, '/', '*') && !(vars && Pair(t, k, '$', '('))
    ensures Lex(t, i, Code, refs, vars) == Lex(t, e, Code, refs, vars)
    decreases e - i
  {
    hide Lex;
    if i < e {
      LexStep(t, i, Code, refs, vars);
      CodeSkips(t, i + 1, e, refs, vars);
    }
  }

  /** The laws for a text on its own. */
  lemma WholeTexts(s: string, vars: bool)
    requires NoReference(s)
    ensures LexText("'" + Escaped(s, '\'') + "'", vars) == Open(Code, [])
    ensures LexText("[" + Escaped(s, ']') + "]", vars) == Open(Code, [])
    ensures LexText("'" + Escaped(s, '\''), vars) == Open(Quoted('\''), [])
    ensures LexText("[" + Escaped(s, ']'), vars) == Open(Quoted('['), [])
  {
    hide Lex, Escaped;
    QuotesAndBracketsHide("", s, "", vars, []);
    var a, b, c, d := "'" + Escaped(s, '\'') + "'", "[" + Escaped(s, ']') + "]", "'" + Escaped(s, '\''), "[" + Escaped(s, ']');
    assert "" + a + "" == a && "" + b + "" == b && "" + "'" + Escaped(s, '\'') == c && "" + "[" + Escaped(s, ']') == d;
    LexNothing(a, Code, [], vars);
    LexNothing(b, Code, [], vars);
  }

  /** The same for double quotes and comments, which have no way of writing their closer. */
  lemma WholeTextsWithoutCloser(s: string, vars: bool)
    ensures NoReference(s) && '"' !in s ==>
              && LexText("\"" + s + "\"", vars) == Open(Code, [])
              && LexText("\"" + s, vars) == Open(Quoted('"'), [])
    ensures (forall i | 0 <= i < |s| :: !Pair(s, i, '*', '/')) ==>
              && LexText("/*" + s + "*/", vars) == Open(Code, [])
              && LexText("/*" + s, vars) == Open(Comment, [])
    ensures '\n' !in s ==> LexText("--" + s, vars) == Open(Code, [])
  {
    hide Lex;
    var quoted, comment := "\"" + s + "\"", "/*" + s + "*/";
    LexNothing(quoted, Code, [], vars);
    LexNothing(comment, Code, [], vars);
    assert "" + "\"" + s + "\"" + "" == quoted && "" + "/*" + s + "*/" + "" == comment;
    assert "" + "\"" + s == "\"" + s && "" + "/*" + s == "/*" + s && "" + "--" + s == "--" + s;
    if NoReference(s) && '"' !in s {
      DoubleQuotesHide("", s, "", vars, []);
    }
    if forall i | 0 <= i < |s| :: !Pair(s, i, '*', '/') {
      BlockCommentHides("", s, "", vars, []);
    }
    if '\n' !in s {
      LineCommentHides("", s, "", vars, []);
    }
  }
}
