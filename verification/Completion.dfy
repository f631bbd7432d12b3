/** Completion of T-SQL keywords: binary search for a prefix in a sorted table. */
module Completion {
  import opened Runes
  import opened Unicode

  /** Lexicographic comparison. */
  function Compare(a: string, b: string): (r: int)
    ensures -1 <= r <= 1
  {
    if a == "" then if b == "" then 0 else -1
    else if b == "" then 1
    else if a[0] != b[0] then if a[0] < b[0] then -1 else 1
    else Compare(a[1..], b[1..])
  }

  /** Where the words starting with p lie, seen from w: below, here, or above. */
  function Side(p: string, w: string): (r: int)
    ensures -1 <= r <= 1
  {
    if p == "" then 0
    else if w == "" then 1
    else if p[0] != w[0] then if p[0] < w[0] then -1 else 1
    else Side(p[1..], w[1..])
  }

  predicate StartsWith(p: string, w: string) {
    |p| <= |w| && w[..|p|] == p
  }

  lemma StartsWithRest(p: string, w: string)
    requires p != "" && w != "" && p[0] == w[0]
    ensures StartsWith(p, w) <==> StartsWith(p[1..], w[1..])
  {
    if |p| <= |w| {
      var cut, rest := w[..|p|], w[1..][..|p| - 1];
      assert cut == [w[0]] + rest && p == [p[0]] + p[1..];
      assert cut[1..] == rest;
    }
  }

  lemma {:induction false} HereIffStartsWith(p: string, w: string)
    ensures Side(p, w) == 0 <==> StartsWith(p, w)
  {
    if p != "" && w != "" && p[0] == w[0] {
      HereIffStartsWith(p[1..], w[1..]);
      StartsWithRest(p, w);
    }
  }

  /** Comparing with the word cut to the length of the prefix tells the side. */
  lemma {:induction false} CutCompareIsSide(p: string, w: string)
    ensures Compare(p, if |w| >= |p| then w[..|p|] else w) == Side(p, w)
  {
    if p != "" && w != "" && p[0] == w[0] {
      CutCompareIsSide(p[1..], w[1..]);
      if |w| >= |p| {
        assert w[..|p|][1..] == w[1..][..|p| - 1];
      }
    }
  }

  lemma {:induction false} SideIsMonotone(p: string, a: string, b: string)
    requires Compare(a, b) <= 0
    ensures Side(p, a) >= Side(p, b)
  {
    if p != "" && a != "" && b != "" && a[0] == b[0] {
      SideIsMonotone(p[1..], a[1..], b[1..]);
    }
  }

  predicate Sorted(table: seq<string>) {
    forall i, j | 0 <= i < j < |table| :: Compare(table[i], table[j]) <= 0
  }

  /** Sorted as far as the search for this prefix can see. */
  predicate SortedFor(p: string, table: seq<string>) {
    forall i, j | 0 <= i < j < |table| :: Side(p, table[i]) >= Side(p, table[j])
  }

  /** A sorted table will do for every prefix. */
  lemma SortedIsSortedFor(p: string, table: seq<string>)
    requires Sorted(table)
    ensures SortedFor(p, table)
  {
    forall i, j | 0 <= i < j < |table| ensures Side(p, table[i]) >= Side(p, table[j]) {
      SideIsMonotone(p, table[i], table[j]);
    }
  }

  /** The keywords that start with the prefix, in the order of the table. */
  function Matching(p: string, table: seq<string>): seq<string> {
    if table == [] then []
    else (if StartsWith(p, table[0]) then [table[0]] else []) + Matching(p, table[1..])
  }

  lemma {:induction false} MatchingSnoc(p: string, table: seq<string>, w: string)
    ensures Matching(p, table + [w]) == Matching(p, table) + if StartsWith(p, w) then [w] else []
  {
    var all := table + [w];
    if table == [] {
      assert all[1..] == [];
    } else {
      MatchingSnoc(p, table[1..], w);
      assert all[1..] == table[1..] + [w];
    }
  }

  /** Exactly the words from lo up to hi match. */
  ghost predicate IsStretch(p: string, table: seq<string>, lo: nat, hi: nat) {
    lo <= hi <= |table| && forall k | 0 <= k < |table| :: StartsWith(p, table[k]) <==> lo <= k < hi
  }

  /** The part of the stretch that lies before n. */
  function StretchBefore(table: seq<string>, n: nat, lo: nat, hi: nat): seq<string>
    requires lo <= hi <= |table| && n <= |table|
  {
    if n <= lo then [] else table[lo..if n < hi then n else hi]
  }

  lemma StretchGrows(table: seq<string>, n: nat, lo: nat, hi: nat)
    requires lo <= hi <= |table| && n < |table|
    ensures StretchBefore(table, n + 1, lo, hi) ==
      StretchBefore(table, n, lo, hi) + if lo <= n < hi then [table[n]] else []
  {
    if lo <= n < hi {
      SplitSlice(table, lo, n, n + 1);
      assert table[n..n + 1] == [table[n]];
      assert table[lo..lo] == [];
    }
  }

  lemma {:induction false} MatchingUpTo(p: string, table: seq<string>, n: nat, lo: nat, hi: nat)
    requires IsStretch(p, table, lo, hi) && n <= |table|
    ensures Matching(p, table[..n]) == StretchBefore(table, n, lo, hi)
  {
    hide StartsWith, StretchBefore;
    if n == 0 {
      StretchStart(table, lo, hi);
    } else {
      MatchingUpTo(p, table, n - 1, lo, hi);
      StretchGrows(table, n - 1, lo, hi);
      TakeMore(table, n - 1, n);
      assert table[n - 1..n] == [table[n - 1]];
      MatchingSnoc(p, table[..n - 1], table[n - 1]);
    }
  }

  lemma StretchStart(table: seq<string>, lo: nat, hi: nat)
    requires lo <= hi <= |table|
    ensures StretchBefore(table, 0, lo, hi) == [] && StretchBefore(table, |table|, lo, hi) == table[lo..hi]
  {
  }

  /** The filter of a table whose matches stand together is that stretch. */
  lemma MatchingIsStretch(p: string, table: seq<string>, lo: nat, hi: nat)
    requires IsStretch(p, table, lo, hi)
    ensures lo <= hi <= |table| && Matching(p, table) == table[lo..hi]
  {
    hide StartsWith, Matching, StretchBefore;
    StretchStart(table, lo, hi);
    MatchingUpTo(p, table, |table|, lo, hi);
    assert table[..|table|] == table;
  }

  /** In a table that is sorted for p, the matches around one match stand together. */
  lemma SidesMakeStretch(p: string, table: seq<string>, first: int, last: nat)
    requires SortedFor(p, table) && -1 <= first && first + 1 < last <= |table|
    requires forall k | first < k < last :: Side(p, table[k]) == 0
    requires first >= 0 ==> Side(p, table[first]) != 0
    requires last < |table| ==> Side(p, table[last]) != 0
    ensures IsStretch(p, table, first + 1, last)
  {
    hide StartsWith, Side;
    forall k | 0 <= k < |table| ensures StartsWith(p, table[k]) <==> first + 1 <= k < last {
      HereIffStartsWith(p, table[k]);
      if k <= first {
        assert Side(p, table[k]) >= Side(p, table[first]) >= Side(p, table[first + 1]);
      } else if k >= last {
        assert Side(p, table[last - 1]) >= Side(p, table[last]) >= Side(p, table[k]);
      }
    }
  }

  function AsciiLower(s: string): (r: string)
    ensures |r| == |s|
  {
    seq(|s|, k requires 0 <= k < |s| => if 'A' <= s[k] <= 'Z' then s[k] - 'A' + 'a' else s[k])
  }

  predicate Separates(c: char) {
    c == ' ' || c == ';'
  }

  /** The position after the last blank or semicolon. */
  function WordStart(line: string): (k: nat)
    ensures k <= |line|
    ensures k > 0 ==> Separates(line[k - 1])
    ensures forall i | k <= i < |line| :: !Separates(line[i])
  {
    if line == "" then 0
    else if Separates(line[|line| - 1]) then |line|
    else WordStart(line[..|line| - 1])
  }

  /** The line with its last word replaced by the keyword, in the case of the word's first letter. */
  function Merged(line: string, keyword: string): string
    requires WordStart(line) < |line|
  {
    var k := WordStart(line);
    line[..k] + if 'A' <= line[k] <= 'Z' then keyword else AsciiLower(keyword)
  }

  function MergedAll(line: string, keywords: seq<string>): (r: seq<string>)
    requires WordStart(line) < |line|
    ensures |r| == |keywords|
  {
    seq(|keywords|, k requires 0 <= k < |keywords| => Merged(line, keywords[k]))
  }

  /** What completing a line should give. */
  function Completions(u: Alphabet, line: string, table: seq<string>): seq<string> {
    var k := WordStart(line);
    if k == |line| then [] else MergedAll(line, Matching(Upper(u, line[k..]), table))
  }

  lemma {:induction false} MatchingAreMembers(p: string, table: seq<string>, w: string)
    ensures w in Matching(p, table) <==> w in table && StartsWith(p, w)
  {
    if table != [] {
      MatchingAreMembers(p, table[1..], w);
    }
  }

  /** Keywords are written in capital letters and underscores. */
  predicate IsKeyword(w: string) {
    forall k | 0 <= k < |w| :: 'A' <= w[k] <= 'Z' || w[k] == '_'
  }

  lemma LowerReadsAsUpper(u: Alphabet, w: string)
    requires ValidAlphabet(u) && IsKeyword(w)
    ensures Upper(u, w) == w && Upper(u, AsciiLower(w)) == w
  {
  }

  /** A completion keeps the line up to its last word, and reads on as the keyword in either case. */
  lemma MergedReadsAsKeyword(u: Alphabet, line: string, w: string)
    requires ValidAlphabet(u) && IsKeyword(w) && WordStart(line) < |line|
    ensures var r, k := Merged(line, w), WordStart(line);
      |r| >= k && r[..k] == line[..k] && Upper(u, r[k..]) == w
  {
    hide WordStart, Upper, ValidAlphabet;
    LowerReadsAsUpper(u, w);
    var k := WordStart(line);
    var tail := if 'A' <= line[k] <= 'Z' then w else AsciiLower(w);
    assert (line[..k] + tail)[..k] == line[..k] && (line[..k] + tail)[k..] == tail;
  }

  /** The letter c in its other case or its own: low is what c reads like in lower case. */
  predicate LowerOf(low: char, c: char) {
    if c == '_' then low == '_' else 'a' <= low <= 'z' && low as int - 'a' as int == c as int - 'A' as int
  }

  lemma LowerIsLower(w: string)
    requires IsKeyword(w)
    ensures forall k :: 0 <= k < |w| ==> LowerOf(AsciiLower(w)[k], w[k])
  {
  }

  lemma {:induction false} WordStartIs(before: string, word: string)
    requires before != "" ==> before[|before| - 1] == ' ' || before[|before| - 1] == ';'
    requires forall c | c in word :: c != ' ' && c != ';'
    ensures WordStart(before + word) == |before|
    decreases |word|
  {
    var line := before + word;
    if word != "" {
      var init, last := word[..|word| - 1], word[|word| - 1];
      assert last in word && forall c | c in init :: c in word;
      assert line[..|line| - 1] == before + init && line[|line| - 1] == last;
      WordStartIs(before, init);
    } else {
      assert line == before;
    }
  }

  /**
   The last word of a line is what stands behind its last blank or semicolon. If it starts with a capital
   letter it becomes the keyword as it stands in the table, otherwise the keyword in lower case.
   */
  lemma LastWordIsCompleted(before: string, word: string, w: string)
    requires before != "" ==> before[|before| - 1] == ' ' || before[|before| - 1] == ';'
    requires word != "" && IsKeyword(w) && forall c | c in word :: c != ' ' && c != ';'
    ensures WordStart(before + word) == |before|
    ensures var r := Merged(before + word, w);
            && |r| == |before| + |w| && r[..|before|] == before
            && if 'A' <= word[0] <= 'Z' then r[|before|..] == w
               else forall k :: 0 <= k < |w| ==> LowerOf(r[|before| + k], w[k])
  {
    hide WordStart, IsKeyword, AsciiLower, LowerOf;
    var line := before + word;
    WordStartIs(before, word);
    LowerIsLower(w);
    assert line[..|before|] == before && line[|before|] == word[0];
  }

  /** A line that ends in a blank or a semicolon, like an empty one, has no word to complete. */
  lemma NoLastWord(line: string)
    ensures WordStart(line) == |line| <==> line == "" || line[|line| - 1] == ' ' || line[|line| - 1] == ';'
  {
  }

  /** A keyword is offered exactly when the last word, in any case, is the start of it. */
  lemma OfferedIff(u: Alphabet, line: string, table: seq<string>, w: string)
    requires ValidAlphabet(u) && (forall v | v in table :: IsKeyword(v)) && IsKeyword(w)
    requires WordStart(line) < |line|
    ensures Merged(line, w) in Completions(u, line, table) <==>
      w in table && StartsWith(Upper(u, line[WordStart(line)..]), w)
  {
    hide WordStart, Upper, ValidAlphabet, Matching, Merged, StartsWith, IsKeyword;
    var p := Upper(u, line[WordStart(line)..]);
    var found := Matching(p, table);
    MatchingAreMembers(p, table, w);
    var all := MergedAll(line, found);
    if w in found {
      var i :| 0 <= i < |found| && found[i] == w;
      assert all[i] == Merged(line, w);
    } else if Merged(line, w) in all {
      var i :| 0 <= i < |all| && all[i] == Merged(line, w);
      MatchingAreMembers(p, table, found[i]);
      MergedReadsAsKeyword(u, line, w);
      MergedReadsAsKeyword(u, line, found[i]);
    }
  }

  // ---------- The search ----------

  /** The binary search between left and right: a word that starts with p, if it comes upon one. */
  function Probe(p: string, table: seq<string>, left: int, right: int): (r: Option<nat>)
    requires 0 <= left && right < |table|
    ensures r.Some? ==> left <= r.value <= right && Side(p, table[r.value]) == 0
    decreases right - left + 1
  {
    if left > right then None
    else
      var mid := (left + right) / 2;
      if Side(p, table[mid]) < 0 then Probe(p, table, left, mid - 1)
      else if Side(p, table[mid]) > 0 then Probe(p, table, mid + 1, right)
      else Some(mid)
  }

  /** The nearest position at or below i whose word does not match. */
  function Down(p: string, table: seq<string>, i: int): (r: int)
    requires -1 <= i < |table|
    ensures -1 <= r <= i && forall k | r < k <= i :: StartsWith(p, table[k])
    ensures r >= 0 ==> !StartsWith(p, table[r])
  {
    if i >= 0 && StartsWith(p, table[i]) then Down(p, table, i - 1) else i
  }

  /** The nearest position at or above i whose word does not match. */
  function Up(p: string, table: seq<string>, i: nat): (r: nat)
    requires i <= |table|
    ensures i <= r <= |table| && forall k | i <= k < r :: StartsWith(p, table[k])
    ensures r < |table| ==> !StartsWith(p, table[r])
    decreases |table| - i
  {
    if i < |table| && StartsWith(p, table[i]) then Up(p, table, i + 1) else i
  }

  /** What the search finds in any table, sorted or not. */
  function Found(p: string, table: seq<string>): seq<string> {
    match Probe(p, table, 0, |table| - 1)
    case None => []
    case Some(mid) => table[Down(p, table, mid - 1) + 1..Up(p, table, mid + 1)]
  }

  lemma {:induction false} ProbeMisses(p: string, table: seq<string>, left: int, right: int)
    requires 0 <= left && right < |table| && SortedFor(p, table) && Probe(p, table, left, right) == None
    ensures forall k | left <= k <= right :: Side(p, table[k]) != 0
    decreases right - left + 1
  {
    hide Side;
    if left <= right {
      var mid := (left + right) / 2;
      if Side(p, table[mid]) < 0 {
        ProbeMisses(p, table, left, mid - 1);
      } else if Side(p, table[mid]) > 0 {
        ProbeMisses(p, table, mid + 1, right);
      }
    }
  }

  /** In a table that is sorted for p the search finds exactly what a filter of the table finds. */
  lemma FoundIsMatching(p: string, table: seq<string>)
    requires SortedFor(p, table)
    ensures Found(p, table) == Matching(p, table)
  {
    hide Side, Matching, StartsWith, SortedFor, IsStretch, Probe;
    match Probe(p, table, 0, |table| - 1) {
      case None =>
        ProbeMisses(p, table, 0, |table| - 1);
        NoStretch(p, table);
        MatchingIsStretch(p, table, 0, 0);
      case Some(mid) =>
        var first, last := Down(p, table, mid - 1), Up(p, table, mid + 1);
        forall k | 0 <= k < |table| ensures Side(p, table[k]) == 0 <==> StartsWith(p, table[k]) {
          HereIffStartsWith(p, table[k]);
        }
        SidesMakeStretch(p, table, first, last);
        MatchingIsStretch(p, table, first + 1, last);
    }
  }

  lemma NoStretch(p: string, table: seq<string>)
    requires forall k | 0 <= k < |table| :: Side(p, table[k]) != 0
    ensures IsStretch(p, table, 0, 0)
  {
    hide StartsWith, Side;
    forall k | 0 <= k < |table| ensures !StartsWith(p, table[k]) {
      HereIffStartsWith(p, table[k]);
    }
  }

  /** One unfolding of Probe, for proofs that hide its definition. */
  lemma {:induction false} ProbeStep(p: string, table: seq<string>, left: int, right: int)
    requires 0 <= left && right < |table|
    ensures Probe(p, table, left, right) ==
      if left > right then None
      else
        var mid := (left + right) / 2;
        if Side(p, table[mid]) < 0 then Probe(p, table, left, mid - 1)
        else if Side(p, table[mid]) > 0 then Probe(p, table, mid + 1, right)
        else Some(mid)
  {
    hide Side;
  }

  lemma FoundByProbe(p: string, table: seq<string>)
    ensures match Probe(p, table, 0, |table| - 1)
      case None => Found(p, table) == []
      case Some(mid) => Found(p, table) == table[Down(p, table, mid - 1) + 1..Up(p, table, mid + 1)]
  {
    hide Probe, Down, Up;
  }

  /** The words are those of the table from lo up to hi, and all of them start with p. */
  ghost predicate IsPiece(p: string, table: seq<string>, words: seq<string>, lo: nat, hi: nat) {
    lo <= hi <= |table| && words == table[lo..hi] && forall k | lo <= k < hi :: StartsWith(p, table[k])
  }

  lemma NoPiece(p: string, table: seq<string>)
    ensures IsPiece(p, table, [], 0, 0)
  {
  }

  lemma PieceAround(p: string, table: seq<string>, mid: nat)
    requires mid < |table| && StartsWith(p, table[mid])
    ensures var lo, hi := Down(p, table, mid - 1) + 1, Up(p, table, mid + 1);
            IsPiece(p, table, table[lo..hi], lo, hi)
  {
    hide StartsWith, Down, Up;
  }

  /** Even in a table that is not sorted, whatever is found stands together and starts with p. */
  lemma FoundMatches(p: string, table: seq<string>)
    ensures exists lo: nat, hi: nat :: IsPiece(p, table, Found(p, table), lo, hi)
  {
    hide StartsWith, Side, Probe, Found, Down, Up, IsPiece;
    FoundByProbe(p, table);
    NoPiece(p, table);
    match Probe(p, table, 0, |table| - 1) {
      case None =>
        assert IsPiece(p, table, Found(p, table), 0, 0);
      case Some(mid) =>
        HereIffStartsWith(p, table[mid]);
        var lo: nat, hi: nat := Down(p, table, mid - 1) + 1, Up(p, table, mid + 1);
        PieceAround(p, table, mid);
        assert IsPiece(p, table, Found(p, table), lo, hi);
    }
  }

  lemma CompletionsBySearch(u: Alphabet, line: string, table: seq<string>)
    ensures WordStart(line) == |line| ==> Completions(u, line, table) == []
    ensures var p := Upper(u, line[WordStart(line)..]);
      SortedFor(p, table) && WordStart(line) < |line| ==> Completions(u, line, table) == MergedAll(line, Found(p, table))
  {
    hide Matching, Found, MergedAll, SortedFor, WordStart, Upper;
    var p := Upper(u, line[WordStart(line)..]);
    if SortedFor(p, table) {
      FoundIsMatching(p, table);
    }
  }

  /** Completes the last word of the line to the keywords the search finds for it. */
  method CompleteLine(u: Alphabet, line: string, table: seq<string>) returns (lines: seq<string>)
    ensures WordStart(line) == |line| ==> lines == []
    ensures WordStart(line) < |line| ==> lines == MergedAll(line, Found(Upper(u, line[WordStart(line)..]), table))
    ensures SortedFor(Upper(u, line[WordStart(line)..]), table) ==> lines == Completions(u, line, table)
  {
    hide Probe, Found, Down, Up, Completions, MergedAll, Side, Compare, StartsWith, Merged, WordStart, Upper, SortedFor;
    CompletionsBySearch(u, line, table);
    var idx := WordStart(line);
    if idx == |line| {
      return [];
    }
    var prefix := Upper(u, line[idx..]);
    FoundByProbe(prefix, table);
    var left, right := 0, |table| - 1;
    while left <= right
      invariant 0 <= left <= right + 1 <= |table|
      invariant Probe(prefix, table, 0, |table| - 1) == Probe(prefix, table, left, right)
    {
      ProbeStep(prefix, table, left, right);
      var mid := (left + right) / 2;
      var comp := Compare(prefix, if |table[mid]| >= |prefix| then table[mid][..|prefix|] else table[mid]);
      CutCompareIsSide(prefix, table[mid]);
      if comp < 0 {
        right := mid - 1;
      } else if comp > 0 {
        left := mid + 1;
      } else {
        lines := Neighbours(line, prefix, table, mid);
        return;
      }
    }
    ProbeStep(prefix, table, left, right);
    NothingMerged(line);
    return [];
  }

  lemma NothingMerged(line: string)
    requires WordStart(line) < |line|
    ensures MergedAll(line, []) == []
  {
    hide WordStart, Merged;
  }

  /** Looks up and down the table from a match and merges every word of the stretch. */
  method Neighbours(line: string, prefix: string, table: seq<string>, mid: nat) returns (lines: seq<string>)
    requires WordStart(line) < |line| && mid < |table|
    ensures lines == MergedAll(line, table[Down(prefix, table, mid - 1) + 1..Up(prefix, table, mid + 1)])
  {
    var first := LookDown(prefix, table, mid);
    var last := LookUp(prefix, table, mid);
    hide Down, Up, MergedAll, WordStart;
    lines := MergeLines(line, table[first + 1..last]);
  }

  method LookDown(prefix: string, table: seq<string>, mid: nat) returns (first: int)
    requires mid < |table|
    ensures first == Down(prefix, table, mid - 1)
  {
    hide StartsWith;
    first := mid - 1;
    while first >= 0 && StartsWith(prefix, table[first])
      invariant -1 <= first < mid
      invariant Down(prefix, table, mid - 1) == Down(prefix, table, first)
    {
      first := first - 1;
    }
  }

  method LookUp(prefix: string, table: seq<string>, mid: nat) returns (last: nat)
    requires mid < |table|
    ensures last == Up(prefix, table, mid + 1)
  {
    hide StartsWith;
    last := mid + 1;
    while last < |table| && StartsWith(prefix, table[last])
      invariant mid < last <= |table|
      invariant Up(prefix, table, mid + 1) == Up(prefix, table, last)
    {
      last := last + 1;
    }
  }

  method MergeLines(line: string, words: seq<string>) returns (lines: seq<string>)
    requires WordStart(line) < |line|
    ensures lines == MergedAll(line, words)
  {
    hide Merged, WordStart;
    lines := [];
    for i := 0 to |words|
      invariant lines == MergedAll(line, words[..i])
    {
      assert words[..i + 1] == words[..i] + [words[i]];
      lines := lines + [Merged(line, words[i])];
    }
    assert words[..|words|] == words;
  }

  // ---------- The shipped order ----------

  /** A table of the shipped length and order: one pair of neighbours is not in byte order. */
  ghost predicate ShippedOrder(table: seq<string>) {
    && |table| == 180
    && table[44] == "DELETE" && table[66] == "FREETEXT" && table[76] == "IDENTITY"
    && table[77] == "IDENTITY_INSERT" && table[78] == "IDENTITYCOL" && table[79] == "IF" && table[89] == "KILL"
    && forall i, j | 0 <= i < j < |table| && !(i == 77 && j == 78) :: Compare(table[i], table[j]) <= 0
  }

  lemma {:induction false} SideOfCommon(c: string, p: string, x: string, y: string)
    requires Side(p, c + x) != Side(p, c + y)
    ensures |p| > |c| && p[..|c|] == c
  {
    if c == "" {
      assert c + x == x && c + y == y;
    } else {
      assert (c + x)[1..] == c[1..] + x && (c + y)[1..] == c[1..] + y;
      SideOfCommon(c[1..], p[1..], x, y);
      assert p[..|c|] == [p[0]] + p[1..][..|c| - 1] && c == [c[0]] + c[1..];
    }
  }

  lemma {:induction false} SideAfterCommon(c: string, q: string, x: string)
    ensures Side(c + q, c + x) == Side(q, x)
  {
    if c == "" {
      assert c + q == q && c + x == x;
    } else {
      assert (c + q)[1..] == c[1..] + q && (c + x)[1..] == c[1..] + x;
      SideAfterCommon(c[1..], q, x);
    }
  }

  /** Where a word that reads on past IDENTITY stands to the words the search comes upon. */
  lemma PastIdentity(p: string, q: string)
    requires p == "IDENTITY" + q && q != ""
    ensures Side(p, "KILL") < 0 && Side(p, "IF") < 0
    ensures Side(p, "DELETE") > 0 && Side(p, "FREETEXT") > 0 && Side(p, "IDENTITY") > 0
    ensures Side(p, "IDENTITY_INSERT") == Side(q, "_INSERT") && Side(p, "IDENTITYCOL") == Side(q, "COL")
    ensures Side(q, "_INSERT") == 0 ==> Side(q, "COL") > 0
    ensures Side(q, "COL") == 0 ==> Side(q, "_INSERT") < 0
  {
    assert p[0] == 'I' && p[1] == 'D' && p[1..][0] == 'D' && "IF"[1..] == "F";
    assert "IDENTITY" + "" == "IDENTITY" && "IDENTITY" + "_INSERT" == "IDENTITY_INSERT" && "IDENTITY" + "COL" == "IDENTITYCOL";
    SideAfterCommon("IDENTITY", q, "");
    SideAfterCommon("IDENTITY", q, "_INSERT");
    SideAfterCommon("IDENTITY", q, "COL");
  }

  /** With the shipped order, a prefix for which the table is not sorted reads on past IDENTITY. */
  lemma UnsortedIsPastIdentity(p: string, table: seq<string>)
    requires ShippedOrder(table) && !SortedFor(p, table)
    ensures |p| > 8 && p[..8] == "IDENTITY" && Side(p, table[77]) < Side(p, table[78])
  {
    hide Side, Compare;
    var i, j :| 0 <= i < j < |table| && Side(p, table[i]) < Side(p, table[j]);
    if !(i == 77 && j == 78) {
      SideIsMonotone(p, table[i], table[j]);
    }
    assert "IDENTITY" + "_INSERT" == "IDENTITY_INSERT" && "IDENTITY" + "COL" == "IDENTITYCOL";
    SideOfCommon("IDENTITY", p, "_INSERT", "COL");
  }

  lemma {:induction false} ProbeBelow(p: string, table: seq<string>, left: int, right: int)
    requires 0 <= left && right < |table| && forall k | left <= k <= right :: Side(p, table[k]) > 0
    ensures Probe(p, table, left, right) == None
    decreases right - left + 1
  {
    hide Side;
    if left <= right {
      ProbeBelow(p, table, (left + right) / 2 + 1, right);
    }
  }

  /** The sides of all words but the pair, for a prefix that reads on past IDENTITY. */
  lemma SidesPastIdentity(p: string, table: seq<string>)
    requires ShippedOrder(table) && |p| > 8 && p[..8] == "IDENTITY"
    ensures forall k | 0 <= k <= 76 :: Side(p, table[k]) > 0
    ensures forall k | 79 <= k < 180 :: Side(p, table[k]) < 0
    ensures Side(p, table[77]) == 0 ==> Side(p, table[78]) > 0
    ensures Side(p, table[78]) == 0 ==> Side(p, table[77]) < 0
  {
    hide Side, Compare;
    assert p == "IDENTITY" + p[8..];
    PastIdentity(p, p[8..]);
    forall k | 0 <= k <= 76 ensures Side(p, table[k]) > 0 {
      if k < 76 {
        SideIsMonotone(p, table[k], table[76]);
      }
    }
    forall k | 79 <= k < 180 ensures Side(p, table[k]) < 0 {
      if k > 79 {
        SideIsMonotone(p, table[79], table[k]);
      }
    }
  }

  /**
   With the shipped order, the search finds what it should exactly for the prefixes other than
   IDENTITYC, IDENTITYCO and IDENTITYCOL; for these it misses IDENTITYCOL.
   */
  lemma ShippedSearchIff(p: string, table: seq<string>)
    requires ShippedOrder(table)
    ensures Found(p, table) == Matching(p, table) <==> !(|p| > 8 && StartsWith(p, "IDENTITYCOL"))
  {
    hide Side, Compare, Matching, StartsWith, Found, SortedFor;
    HereIffStartsWith(p, "IDENTITYCOL");
    if SortedFor(p, table) {
      FoundIsMatching(p, table);
      if |p| > 8 && StartsWith(p, "IDENTITYCOL") {
        CutOfIdentity(p);
        SidesPastIdentity(p, table);
        PairIsSorted(p, table);
      }
    } else {
      UnsortedIsPastIdentity(p, table);
      SidesPastIdentity(p, table);
      ShippedFound(p, table);
      if Side(p, table[77]) == 0 {
        SidesMakeOne(p, table);
        MatchingIsStretch(p, table, 77, 78);
      } else if Side(p, table[78]) != 0 {
        NoStretch(p, table);
        MatchingIsStretch(p, table, 0, 0);
      } else {
        MatchingAreMembers(p, table, table[78]);
      }
    }
  }

  lemma CutOfIdentity(p: string)
    requires |p| > 8 && StartsWith(p, "IDENTITYCOL")
    ensures p[..8] == "IDENTITY"
  {
    var word := "IDENTITYCOL";
    assert word[..|p|][..8] == word[..8] == "IDENTITY";
  }

  lemma PairIsSorted(p: string, table: seq<string>)
    requires |table| > 78 && SortedFor(p, table)
    ensures Side(p, table[77]) >= Side(p, table[78])
  {
    hide Side;
  }

  lemma SidesMakeOne(p: string, table: seq<string>)
    requires |table| == 180 && Side(p, table[77]) == 0
    requires forall k | 0 <= k < 180 && k != 77 :: Side(p, table[k]) != 0
    ensures IsStretch(p, table, 77, 78)
  {
    hide Side, StartsWith;
    forall k | 0 <= k < |table| ensures StartsWith(p, table[k]) <==> 77 <= k < 78 {
      HereIffStartsWith(p, table[k]);
    }
  }

  /** The search comes upon the pair by way of KILL, DELETE and FREETEXT. */
  lemma ShippedFound(p: string, table: seq<string>)
    requires ShippedOrder(table) && |p| > 8 && p[..8] == "IDENTITY" && Side(p, table[77]) < Side(p, table[78])
    ensures Found(p, table) == if Side(p, table[77]) == 0 then table[77..78] else []
  {
    hide Side, Compare, StartsWith;
    SidesPastIdentity(p, table);
    assert Probe(p, table, 0, 179) == Probe(p, table, 0, 88);
    assert Probe(p, table, 0, 88) == Probe(p, table, 45, 88);
    assert Probe(p, table, 45, 88) == Probe(p, table, 67, 88);
    if Side(p, table[77]) == 0 {
      HereIffStartsWith(p, table[76]);
      HereIffStartsWith(p, table[78]);
    } else {
      ProbeBelow(p, table, 67, 76);
    }
  }
}
