/**
 Plan files: the runner writes one plan document a line, and the analyser splits the file into
 documents again by looking for the root element's tags.
 */
module PlanFile {
  import opened Runes

  const OPEN := "<ShowPlanXML"
  const CLOSE := "</ShowPlanXML>"

  predicate OccursAt(t: string, sub: string, i: nat) {
    i + |sub| <= |t| && t[i..i + |sub|] == sub
  }

  /** First occurrence of sub in t at i or later. */
  function IndexFrom(t: string, sub: string, i: nat): (r: Option<nat>)
    ensures r.Some? ==> i <= r.value && OccursAt(t, sub, r.value) && forall j | i <= j < r.value :: !OccursAt(t, sub, j)
    ensures r.None? ==> forall j | i <= j :: !OccursAt(t, sub, j)
    decreases |t| - i
  {
    if OccursAt(t, sub, i) then Some(i)
    else if i >= |t| then None
    else IndexFrom(t, sub, i + 1)
  }

  function Index(t: string, sub: string): Option<nat> {
    IndexFrom(t, sub, 0)
  }

  /** The documents in text. */
  function Chunks(text: string): seq<string>
    decreases |text|
  {
    match Index(text, OPEN)
    case None => []
    case Some(i) =>
      var remaining := text[i..];
      match Index(remaining, CLOSE)
      case None => [remaining]
      case Some(e) => [remaining[..e + |CLOSE|]] + Chunks(remaining[e + |CLOSE|..])
  }

  method SplitPlanDocuments(text: string) returns (chunks: seq<string>)
    ensures chunks == Chunks(text)
  {
    chunks := [];
    var remaining := text;
    assert chunks + Chunks(remaining) == Chunks(text);
    while true
      invariant chunks + Chunks(remaining) == Chunks(text)
      decreases |remaining|
    {
      ghost var before, was := chunks, remaining;
      var idx := Index(remaining, OPEN);
      if idx.None? {
        break;
      }
      remaining := remaining[idx.value..];
      var end := Index(remaining, CLOSE);
      if end.None? {
        chunks := chunks + [remaining];
        break;
      }
      var stop := end.value + |CLOSE|;
      chunks := chunks + [remaining[..stop]];
      remaining := remaining[stop..];
      Regroup(before, [was[idx.value..][..stop]], Chunks(remaining));
    }
  }

  // ---------- Writing and reading back ----------

  /** A document starts with its root element and ends with the only end tag of one. */
  predicate IsDocument(d: string) {
    OccursAt(d, OPEN, 0) && |CLOSE| <= |d| && Index(d, CLOSE) == Some(|d| - |CLOSE|)
  }

  lemma CloseStarts(t: string, j: nat)
    ensures OccursAt(t, CLOSE, j) ==> t[j] == '<' && t[j + 1] == '/'
  {
    if OccursAt(t, CLOSE, j) {
      assert t[j] == t[j..j + |CLOSE|][0] && t[j + 1] == t[j..j + |CLOSE|][1];
    }
  }

  /** A root element whose content holds no further tag is a document. */
  lemma RootElementIsDocument(content: string)
    requires '<' !in content
    ensures IsDocument("<ShowPlanXML" + content + "</ShowPlanXML>")
  {
    var d := "<ShowPlanXML" + content + "</ShowPlanXML>";
    var k := 12 + |content|;
    assert d[..12] == "<ShowPlanXML" && d[k..] == "</ShowPlanXML>";
    forall j | 0 <= j < k ensures !OccursAt(d, CLOSE, j) {
      assert j < 12 ==> d[j] == "<ShowPlanXML"[j] && d[1] == "<ShowPlanXML"[1];
      assert j >= 12 ==> d[j] == content[j - 12] && content[j - 12] in content;
      CloseStarts(d, j);
    }
    assert d[k..k + |CLOSE|] == CLOSE;
    IndexIs(d, CLOSE, 0, k);
  }

  /** What the runner writes: every document on a line. */
  function Written(docs: seq<string>): string {
    if docs == [] then "" else (docs[0] + "\n") + Written(docs[1..])
  }

  method WritePlans(docs: seq<string>) returns (file: string)
    ensures file == Written(docs)
  {
    file := "";
    var i := 0;
    assert docs[0..] == docs;
    while i < |docs|
      invariant 0 <= i <= |docs|
      invariant file + Written(docs[i..]) == Written(docs)
    {
      Regroup(file, docs[i] + "\n", Written(docs[i + 1..]));
      file := file + (docs[i] + "\n");
      i := i + 1;
    }
  }

  /** Whether sub occurs at i inside d does not depend on what follows d. */
  lemma OccursInFront(d: string, rest: string, sub: string, i: nat)
    requires i + |sub| <= |d|
    ensures OccursAt(d + rest, sub, i) == OccursAt(d, sub, i)
  {
    assert (d + rest)[i..i + |sub|] == d[i..i + |sub|];
  }

  lemma {:induction false} IndexIs(t: string, sub: string, i: nat, k: nat)
    requires i <= k && OccursAt(t, sub, k) && forall j | i <= j < k :: !OccursAt(t, sub, j)
    ensures IndexFrom(t, sub, i) == Some(k)
    decreases k - i
  {
    if i < k {
      IndexIs(t, sub, i + 1, k);
    }
  }

  /** In front of any text, a document is the first chunk. */
  lemma DocumentFirst(d: string, rest: string)
    requires IsDocument(d)
    ensures Chunks(d + rest) == [d] + Chunks(rest)
  {
    var t := d + rest;
    OccursInFront(d, rest, OPEN, 0);
    assert Index(t, OPEN) == Some(0);
    assert t[0..] == t;
    var e := |d| - |CLOSE|;
    OccursInFront(d, rest, CLOSE, e);
    forall j | 0 <= j < e ensures !OccursAt(t, CLOSE, j) {
      OccursInFront(d, rest, CLOSE, j);
    }
    IndexIs(t, CLOSE, 0, e);
    assert t[..|d|] == d && t[|d|..] == rest;
  }

  lemma {:induction false} IndexBehind(c: char, rest: string, sub: string, i: nat)
    ensures IndexFrom([c] + rest, sub, i + 1) ==
            match IndexFrom(rest, sub, i) case None => None case Some(k) => Some(k + 1)
    decreases |rest| - i
  {
    var t := [c] + rest;
    if i + |sub| <= |rest| {
      assert t[i + 1..i + 1 + |sub|] == rest[i..i + |sub|];
    }
    if i < |rest| && !OccursAt(rest, sub, i) {
      IndexBehind(c, rest, sub, i + 1);
    }
  }

  lemma NewlineSkipped(rest: string)
    ensures Chunks("\n" + rest) == Chunks(rest)
  {
    hide IndexFrom;
    var t := "\n" + rest;
    assert ['\n'] + rest == t;
    IndexBehind('\n', rest, OPEN, 0);
    NotAtNewline(rest);
    var i := Index(rest, OPEN);
    if i.Some? {
      assert t[i.value + 1..] == rest[i.value..];
    }
  }

  lemma NotAtNewline(rest: string)
    ensures Index("\n" + rest, OPEN) == IndexFrom("\n" + rest, OPEN, 1)
  {
    var t := "\n" + rest;
    if |t| >= |OPEN| {
      assert t[0..|OPEN|][0] == '\n';
    }
  }

  /** Plan files round-trip: splitting what was written gives the documents back, in order. */
  lemma {:induction false} SplitOfWritten(docs: seq<string>)
    requires forall k | 0 <= k < |docs| :: IsDocument(docs[k])
    ensures Chunks(Written(docs)) == docs
  {
    if docs == [] {
      assert Index("", OPEN) == None;
    } else {
      var d, rest := docs[0], Written(docs[1..]);
      SplitOfWritten(docs[1..]);
      Regroup(d, "\n", rest);
      DocumentFirst(d, "\n" + rest);
      NewlineSkipped(rest);
      assert docs == [d] + docs[1..];
    }
  }

  // ---------- Any text ----------

  /** The text between the chunks: before, between and after them. */
  function Gaps(text: string): seq<string>
    decreases |text|
  {
    match Index(text, OPEN)
    case None => [text]
    case Some(i) =>
      var remaining := text[i..];
      match Index(remaining, CLOSE)
      case None => [text[..i], ""]
      case Some(e) => [text[..i]] + Gaps(remaining[e + |CLOSE|..])
  }

  function Weave(gaps: seq<string>, chunks: seq<string>): string {
    if gaps == [] then ""
    else if chunks == [] then gaps[0]
    else (gaps[0] + chunks[0]) + Weave(gaps[1..], chunks[1..])
  }

  /**
   The text is the chunks woven into the gaps. No gap contains the start of a document, every chunk
   starts with one, and every chunk but possibly the last is a document.
   */
  ghost predicate Woven(text: string, gaps: seq<string>, chunks: seq<string>) {
    && |gaps| == |chunks| + 1 && Weave(gaps, chunks) == text
    && (forall k | 0 <= k < |chunks| :: OccursAt(chunks[k], OPEN, 0))
    && (forall k | 0 <= k < |chunks| - 1 :: IsDocument(chunks[k]))
    && (forall k | 0 <= k < |gaps| :: Index(gaps[k], OPEN) == None)
  }

  lemma {:induction false} WovenCons(gap: string, d: string, rest: string, gaps: seq<string>, chunks: seq<string>)
    requires Index(gap, OPEN) == None && IsDocument(d) && Woven(rest, gaps, chunks)
    ensures Woven((gap + d) + rest, [gap] + gaps, [d] + chunks)
  {
    assert ([gap] + gaps)[1..] == gaps && ([d] + chunks)[1..] == chunks;
  }

  lemma {:induction false} WovenLast(gap: string, d: string)
    requires Index(gap, OPEN) == None && OccursAt(d, OPEN, 0)
    ensures Woven(gap + d, [gap, ""], [d])
  {
    assert [gap, ""][1..] == [""] && [d][1..] == [];
    assert (gap + d) + "" == gap + d;
    assert !OccursAt("", OPEN, 0);
  }

  /** On any text the chunks are substrings of it, in order and apart. */
  lemma {:induction false} ChunksInOrder(text: string)
    ensures Woven(text, Gaps(text), Chunks(text))
    decreases |text|
  {
    hide Woven, IsDocument, IndexFrom;
    var idx := Index(text, OPEN);
    if idx.None? {
      NoChunks(text);
    } else {
      var i := idx.value;
      var gap, remaining := text[..i], text[i..];
      assert text == gap + remaining;
      GapHasNoOpen(text, i);
      assert text[i..i + |OPEN|] == remaining[0..|OPEN|];
      var end := Index(remaining, CLOSE);
      if end.None? {
        WovenLast(gap, remaining);
      } else {
        var stop := end.value + |CLOSE|;
        var d, rest := remaining[..stop], remaining[stop..];
        ChunksInOrder(rest);
        FirstClose(remaining, end.value);
        WovenCons(gap, d, rest, Gaps(rest), Chunks(rest));
        assert remaining == d + rest;
        Regroup(gap, d, rest);
      }
    }
  }

  lemma NoChunks(text: string)
    requires Index(text, OPEN) == None
    ensures Woven(text, [text], [])
  {
  }

  lemma GapHasNoOpen(text: string, i: nat)
    requires Index(text, OPEN) == Some(i)
    ensures Index(text[..i], OPEN) == None
  {
    var gap, rest := text[..i], text[i..];
    assert gap + rest == text;
    forall j | 0 <= j && j + |OPEN| <= |gap| ensures !OccursAt(gap, OPEN, j) {
      OccursInFront(gap, rest, OPEN, j);
      assert !OccursAt(text, OPEN, j);
    }
  }

  /** Up to its first end tag, a text that starts a document is one. */
  lemma FirstClose(remaining: string, e: nat)
    requires OccursAt(remaining, OPEN, 0) && Index(remaining, CLOSE) == Some(e)
    ensures IsDocument(remaining[..e + |CLOSE|])
  {
    var stop := e + |CLOSE|;
    var d, rest := remaining[..stop], remaining[stop..];
    assert d + rest == remaining;
    OpenBeforeClose(remaining, e);
    OccursInFront(d, rest, OPEN, 0);
    OccursInFront(d, rest, CLOSE, e);
    forall j | 0 <= j < e ensures !OccursAt(d, CLOSE, j) {
      OccursInFront(d, rest, CLOSE, j);
    }
    IndexIs(d, CLOSE, 0, e);
  }

  lemma OpenBeforeClose(remaining: string, e: nat)
    requires OccursAt(remaining, OPEN, 0) && OccursAt(remaining, CLOSE, e)
    ensures e + |CLOSE| >= |OPEN|
  {
  }
}
