/**
 What the read-only check means, said with the characters and keywords of T-SQL: what quotes and
 comments hide from it, which statements it turns away, and which it lets through.
 */
module ReadOnlyLaws {
  import opened Runes
  import opened Unicode
  import opened LexingLaws
  import opened ReadOnly
  import opened ReadOnlyLocal
  import opened ReadOnlyWords

  // ---------- Quoted texts ----------

  lemma {:induction false} QuoteEndIs(t: string, i: nat, s: string, c: char)
    requires StandsAt(t, i, Escaped(s, c) + [c])
    requires var e := i + |Escaped(s, c)| + 1; e < |t| ==> t[e] != c
    ensures QuoteEnd(t, i, c) == i + |Escaped(s, c)| + 1
    decreases |s|
  {
    hide Escaped;
    if s == "" {
      EscapedNothing(c);
      RuneAt(t, i, [c], 0);
    } else {
      EscapedStep(s, c);
      var head := if s[0] == c then [c, c] else [s[0]];
      Regroup(head, Escaped(s[1..], c), [c]);
      StandsIn(t, i, head, Escaped(s[1..], c) + [c]);
      RuneAt(t, i, head, 0);
      if s[0] == c {
        RuneAt(t, i, head, 1);
      }
      QuoteEndIs(t, i + |head|, s[1..], c);
    }
  }

  lemma EscapedNothing(c: char)
    ensures Escaped("", c) == "" && "" + [c] == [c]
  {
  }

  lemma TokenIsQuoted(before: string, s: string, open: char, close: char, after: string)
    requires (open == '\'' && close == '\'') || (open == '"' && close == '"') || (open == '[' && close == ']')
    requires !(after != "" && after[0] == close)
    ensures var t := [open] + Escaped(s, close) + [close];
      TokenEnd(before + t + after, |before|) == |before| + |t|
  {
    hide Escaped, QuoteEnd;
    var t := [open] + Escaped(s, close) + [close];
    var all := before + t + after;
    Regroup([open], Escaped(s, close), [close]);
    assert all[|before|] == open;
    assert all[|before| + 1..|before| + 1 + |Escaped(s, close) + [close]|] == Escaped(s, close) + [close];
    assert after != "" ==> all[|before| + |t|] == after[0];
    QuoteEndIs(all, |before| + 1, s, close);
  }

  /**
   Whatever text s is, between single quotes, double quotes or brackets, with the closing character
   doubled in it, it is one token of the scan.
   */
  lemma QuotesHide(before: string, s: string, after: string)
    ensures var t := "'" + Escaped(s, '\'') + "'";
      !(after != "" && after[0] == '\'') ==> TokenEnd(before + t + after, |before|) == |before| + |t|
    ensures var t := "\"" + Escaped(s, '"') + "\"";
      !(after != "" && after[0] == '"') ==> TokenEnd(before + t + after, |before|) == |before| + |t|
    ensures var t := "[" + Escaped(s, ']') + "]";
      !(after != "" && after[0] == ']') ==> TokenEnd(before + t + after, |before|) == |before| + |t|
  {
    hide Escaped, TokenEnd;
    if !(after != "" && after[0] == '\'') {
      TokenIsQuoted(before, s, '\'', '\'', after);
    }
    if !(after != "" && after[0] == '"') {
      TokenIsQuoted(before, s, '"', '"', after);
    }
    if !(after != "" && after[0] == ']') {
      TokenIsQuoted(before, s, '[', ']', after);
    }
  }

  // ---------- Comments ----------

  lemma {:induction false} LineCommentEndIs(t: string, i: nat, e: nat)
    requires i <= e < |t| && t[e] == '\n' && forall k | i <= k < e :: t[k] != '\n'
    ensures LineCommentEnd(t, i) == e + 1
    decreases e - i
  {
    if i < e {
      LineCommentEndIs(t, i + 1, e);
    }
  }

  lemma {:induction false} CommentGoesOn(t: string, i: nat, e: nat, depth: nat)
    requires i <= e <= |t| && depth > 0
    requires forall k | i <= k < e :: !Pair(t, k, '/', '*') && !Pair(t, k, '*', '/')
    ensures BlockCommentEnd(t, i, depth) == BlockCommentEnd(t, e, depth)
    decreases e - i
  {
    if i < e {
      CommentGoesOn(t, i + 1, e, depth);
    }
  }

  /** Comments: a text with neither of the two comment signs in it, also where it meets its neighbours. */
  predicate NoSigns(t: string, i: nat, e: nat) {
    forall k | i <= k < e :: !Pair(t, k, '/', '*') && !Pair(t, k, '*', '/')
  }

  /** A `--` comment ends behind its line feed. */
  lemma LineCommentHides(before: string, s: string, after: string)
    requires '\n' !in s
    ensures TokenEnd(before + "--" + s + "\n" + after, |before|) == |before| + |s| + 3
  {
    var t, n := before + "--" + s + "\n" + after, |before|;
    assert t[n] == '-' && t[n + 1] == '-' && t[n + 2 + |s|] == '\n';
    forall k | n + 2 <= k < n + 2 + |s| ensures t[k] != '\n' {
      assert t[k] == s[k - n - 2] && s[k - n - 2] in s;
    }
    LineCommentEndIs(t, n + 2, n + 2 + |s|);
  }

  /** A block comment with another one in it ends with the second end, and one alone with the first. */
  lemma BlockCommentsNest(t: string, i: nat, open: nat, close: nat, end: nat)
    requires i + 2 <= open && open + 2 <= close && close + 2 <= end && end + 2 <= |t|
    requires Pair(t, i, '/', '*') && Pair(t, open, '/', '*') && Pair(t, close, '*', '/') && Pair(t, end, '*', '/')
    requires NoSigns(t, i + 2, open) && NoSigns(t, open + 2, close) && NoSigns(t, close + 2, end)
    ensures TokenEnd(t, i) == end + 2 && TokenEnd(t, open) == close + 2
  {
    hide BlockCommentEnd;
    CommentGoesOn(t, i + 2, open, 1);
    CommentStep(t, open, 1);
    CommentGoesOn(t, open + 2, close, 2);
    CommentStep(t, close, 2);
    CommentGoesOn(t, close + 2, end, 1);
    CommentStep(t, end, 1);
    CommentGoesOn(t, open + 2, close, 1);
    CommentStep(t, close, 1);
  }

  lemma {:induction false} CommentStep(t: string, i: nat, depth: nat)
    requires i + 2 <= |t| && depth > 0
    ensures Pair(t, i, '/', '*') ==> BlockCommentEnd(t, i, depth) == BlockCommentEnd(t, i + 2, depth + 1)
    ensures Pair(t, i, '*', '/') && depth > 1 ==> BlockCommentEnd(t, i, depth) == BlockCommentEnd(t, i + 2, depth - 1)
    ensures Pair(t, i, '*', '/') && depth == 1 ==> BlockCommentEnd(t, i, depth) == i + 2
  {
  }

  // ---------- Keywords ----------

  /** The first character behind p that is not blank is a `#`. */
  ghost predicate HashAfter(u: Alphabet, r: string, p: nat) {
    exists k :: p <= k < |r| && r[k] == '#' && forall j | p <= j < k :: u.isSpace(r[j])
  }

  lemma {:induction false} TempIsHashAfter(u: Alphabet, r: string, p: nat)
    requires ValidAlphabet(u) && p <= |r|
    ensures TempAt(u, r, p) <==> HashAfter(u, r, p)
    decreases |r| - p
  {
    if p < |r| && u.isSpace(r[p]) {
      TempIsHashAfter(u, r, p + 1);
      if TempAt(u, r, p) {
        var k :| p + 1 <= k < |r| && r[k] == '#' && forall j | p + 1 <= j < k :: u.isSpace(r[j]);
      }
      if HashAfter(u, r, p) {
        var k :| p <= k < |r| && r[k] == '#' && forall j | p <= j < k :: u.isSpace(r[j]);
        assert k > p;
      }
    } else if p < |r| && r[p] == '#' {
      assert HashAfter(u, r, p);
    }
  }

  /** CREATE is accepted exactly for a TABLE whose name starts with `#`. */
  lemma CreateAcceptedIff(u: Alphabet, r: string, p: nat, allowExec: bool)
    requires ValidAlphabet(u) && p <= |r|
    ensures var ws, v := Words(u, r, p), Classify(u, r, p, "CREATE", allowExec);
      && (v.rejected == None <==> ws != [] && ws[0].word == "TABLE" && HashAfter(u, r, ws[0].end))
      && (v.rejected.Some? ==> v.rejected.value == "CREATE")
  {
    hide Words, NextWord, WordEnd, TempAt, HashAfter, ValidAlphabet;
    KeywordsApart();
    WordsStep(u, r, p);
    NoWordHere(u, r, p);
    var w := NextWord(u, r, p);
    TempIsHashAfter(u, r, WordEnd(u, r, w));
  }

  /** BEGIN is rejected exactly when it begins a transaction, with both words. */
  lemma BeginRejectedIff(u: Alphabet, r: string, p: nat, allowExec: bool)
    requires p <= |r|
    ensures var ws, v := Words(u, r, p), Classify(u, r, p, "BEGIN", allowExec);
      if ws != [] && ws[0].word == "TRAN" then v.rejected == Some("BEGIN TRAN")
      else if ws != [] && ws[0].word == "TRANSACTION" then v.rejected == Some("BEGIN TRANSACTION")
      else v.rejected == None
  {
    hide Words, NextWord, WordEnd;
    KeywordsApart();
    WordsStep(u, r, p);
    NoWordHere(u, r, p);
    assert "BEGIN " + "TRAN" == "BEGIN TRAN" && "BEGIN " + "TRANSACTION" == "BEGIN TRANSACTION";
  }

  lemma KeywordsApart()
    ensures "CREATE" !in ALLOWED && "BEGIN" !in ALLOWED
  {
  }

  /** Where no word is, there is no keyword. */
  lemma NoWordHere(u: Alphabet, r: string, p: nat)
    requires p <= |r|
    ensures var w := NextWord(u, r, p); WordEnd(u, r, w) == w ==> Word(u, r, w) == ""
  {
    hide NextWord, WordEnd;
  }

  /** Statements that change data, objects, permissions or the server. */
  const WRITING: seq<string> := [
    "INSERT", "UPDATE", "DELETE", "DROP", "ALTER", "TRUNCATE", "MERGE", "GRANT", "REVOKE", "DENY", "BULK", "BACKUP",
    "RESTORE", "DBCC", "SHUTDOWN", "KILL", "OPEN", "CLOSE", "DEALLOCATE", "FETCH", "COMMIT", "ROLLBACK", "SAVE"]

  lemma WritingIsNotAllowed(k: nat)
    requires k < |WRITING|
    ensures var word := WRITING[k];
      word !in ALLOWED && word != "BEGIN" && word != "CREATE" && word != "WITH" && word != "EXEC" && word != "EXECUTE"
  {
  }

  /** A statement that starts with one of these is rejected with its keyword, whatever follows and is allowed. */
  lemma WritingIsRejected(u: Alphabet, r: string, p: nat, keyword: string, allowExec: bool)
    requires p <= |r| && keyword in WRITING
    ensures Classify(u, r, p, keyword, allowExec).rejected == Some(keyword)
  {
    hide ALLOWED, SelectInto, BeginTran, CreateTemp, Cte, WRITING;
    var k :| 0 <= k < |WRITING| && WRITING[k] == keyword;
    WritingIsNotAllowed(k);
  }

  /** No statement of an accepted text starts with one of these, or with EXEC unless that is allowed. */
  lemma AcceptedDoesNotWrite(u: Alphabet, statements: seq<string>, allowExec: bool, k: nat)
    requires ValidAlphabet(u) && forall j | 0 <= j < |statements| :: Statement(u, statements[j])
    requires Check(u, Join(statements, ";"), 0, allowExec) == None && k < |statements|
    ensures var s := statements[k];
      var w := GapEnd(u, s, 0);
      w < |s| ==>
        && Word(u, s, w) !in WRITING
        && (!allowExec ==> Word(u, s, w) != "EXEC" && Word(u, s, w) != "EXECUTE")
  {
    hide Join, Check, GapEnd, Word, Statement, Classify, WRITING, MayStart;
    AcceptedStartsAllowed(u, statements, allowExec, k);
    var s := statements[k];
    var w := GapEnd(u, s, 0);
    if w < |s| {
      MayStartIsNotWriting(Word(u, s, w), allowExec);
    }
  }

  lemma MayStartIsNotWriting(keyword: string, allowExec: bool)
    requires MayStart(keyword, allowExec)
    ensures keyword !in WRITING
    ensures !allowExec ==> keyword != "EXEC" && keyword != "EXECUTE"
  {
    hide WRITING, ALLOWED;
    if keyword in WRITING {
      var k :| 0 <= k < |WRITING| && WRITING[k] == keyword;
      WritingIsNotAllowed(k);
    }
    ExecIsNotAllowed();
  }

  lemma ExecIsNotAllowed()
    ensures "EXEC" !in ALLOWED && "EXECUTE" !in ALLOWED
  {
  }

  /** Statements that neither read further nor write are accepted for their keyword alone. */
  lemma HarmlessIsAccepted(u: Alphabet, r: string, p: nat, keyword: string, allowExec: bool)
    requires p <= |r|
    requires keyword in ["SET", "DECLARE", "PRINT", "USE", "IF", "ELSE", "END", "WHILE", "RETURN", "THROW", "RAISERROR",
                         "WAITFOR", "BREAK", "CONTINUE", "GOTO", "TRY", "CATCH"]
    ensures Classify(u, r, p, keyword, allowExec).rejected == None
  {
    hide SelectInto, BeginTran, CreateTemp, Cte;
  }
}
