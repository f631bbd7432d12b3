/**
 Unique names: a name that is taken gets a number, from 2 on. The search ends, by counting: with n
 names taken it tries no number above n + 1.
 */
module UniqueNames {
  import opened Runes

  function Digit(d: nat): char
    requires d < 10
  {
    '0' + d as char
  }

  /** Decimal representation. */
  function Itoa(n: nat): (s: string)
    ensures s != ""
  {
    if n < 10 then [Digit(n)] else Itoa(n / 10) + [Digit(n % 10)]
  }

  function Value(s: string): int {
    if s == "" then 0 else 10 * Value(s[..|s| - 1]) + (s[|s| - 1] as int - '0' as int)
  }

  lemma {:induction false} ValueOfItoa(n: nat)
    ensures Value(Itoa(n)) == n
  {
    if n >= 10 {
      ValueOfItoa(n / 10);
      assert Itoa(n)[..|Itoa(n)| - 1] == Itoa(n / 10);
    }
  }

  function Numbered(name: string, k: nat): string {
    name + Itoa(k)
  }

  /** Different numbers make different names, and none of them is the name itself. */
  lemma NumberedInjective(name: string, j: nat, k: nat)
    ensures Numbered(name, j) == Numbered(name, k) ==> j == k
    ensures Numbered(name, k) != name
  {
    if Numbered(name, j) == Numbered(name, k) {
      assert Numbered(name, j)[|name|..] == Itoa(j);
      assert Numbered(name, k)[|name|..] == Itoa(k);
      ValueOfItoa(j);
      ValueOfItoa(k);
    }
    assert |Numbered(name, k)| > |name|;
  }

  function Names(taken: seq<string>): set<string> {
    set s | s in taken
  }

  /** Taken names that carry no number below k: what the search from k may still meet. */
  ghost function Ahead(taken: seq<string>, name: string, k: nat): set<string> {
    set s | s in taken && forall j: nat :: j < k ==> s != Numbered(name, j)
  }

  /** The first number from k on whose name is free. */
  function FirstFree(taken: seq<string>, name: string, k: nat): (r: nat)
    ensures r >= k && Numbered(name, r) !in taken
    ensures forall j | k <= j < r :: Numbered(name, j) in taken
    decreases |Ahead(taken, name, k)|
  {
    if Numbered(name, k) !in taken then k
    else
      AheadShrinks(taken, name, k);
      FirstFree(taken, name, k + 1)
  }

  lemma AheadShrinks(taken: seq<string>, name: string, k: nat)
    requires Numbered(name, k) in taken
    ensures |Ahead(taken, name, k + 1)| < |Ahead(taken, name, k)|
  {
    var now, later := Ahead(taken, name, k), Ahead(taken, name, k + 1);
    var s := Numbered(name, k);
    forall j: nat | j < k ensures s != Numbered(name, j) {
      NumberedInjective(name, j, k);
    }
    assert s in now && s !in later;
    assert later <= now - {s};
    SubsetSize(later, now - {s});
  }

  lemma {:induction false} SubsetSize(a: set<string>, b: set<string>)
    requires a <= b
    ensures |a| <= |b|
  {
    if a != {} {
      var x :| x in a;
      SubsetSize(a - {x}, b - {x});
    }
  }

  /** The name itself, or the name with the first free number from 2 on. */
  function UniqueName(taken: seq<string>, name: string): (r: string)
    ensures r !in taken
  {
    if name !in taken then name else Numbered(name, FirstFree(taken, name, 2))
  }

  /** A taken name gets the least number from 2 on that makes it a free one, written in decimal behind it. */
  lemma TakenGetsNumber(taken: seq<string>, name: string) returns (n: nat)
    requires name in taken
    ensures var r := UniqueName(taken, name);
            && |r| >= |name| && r[..|name|] == name && Value(r[|name|..]) == n
            && n >= 2 && forall j :: 2 <= j < n ==> name + Itoa(j) in taken
    ensures name + "2" !in taken ==> UniqueName(taken, name) == name + "2"
  {
    n := FirstFree(taken, name, 2);
    ValueOfItoa(n);
    var r := UniqueName(taken, name);
    assert r[..|name|] == name && r[|name|..] == Itoa(n);
    assert Itoa(2) == "2";
    forall j | 2 <= j < n ensures name + Itoa(j) in taken {
      assert Numbered(name, j) in taken;
    }
    assert n > 2 ==> Numbered(name, 2) in taken;
  }

  /** The names with numbers from 2 up to, not including, k. */
  ghost function Tried(name: string, k: nat): set<string>
    requires k >= 2
  {
    set j | 2 <= j < k :: Numbered(name, j)
  }

  lemma {:induction false} TriedSize(name: string, k: nat)
    requires k >= 2
    ensures |Tried(name, k)| == k - 2
    decreases k
  {
    if k > 2 {
      TriedSize(name, k - 1);
      var last := Numbered(name, k - 1);
      assert Tried(name, k) == Tried(name, k - 1) + {last};
      if last in Tried(name, k - 1) {
        var j :| 2 <= j < k - 1 && Numbered(name, j) == last;
        NumberedInjective(name, j, k - 1);
      }
    } else {
      assert Tried(name, k) == {};
    }
  }

  lemma {:induction false} NamesSize(taken: seq<string>)
    ensures |Names(taken)| <= |taken|
  {
    if taken != [] {
      NamesSize(taken[1..]);
      assert Names(taken) == Names(taken[1..]) + {taken[0]};
    } else {
      assert Names(taken) == {};
    }
  }

  /** By pigeonhole, the number that is found is at most one more than there are names. */
  lemma NumberIsBounded(taken: seq<string>, name: string)
    requires name in taken
    ensures 2 <= FirstFree(taken, name, 2) <= |taken| + 1
  {
    var k := FirstFree(taken, name, 2);
    var used := Tried(name, k) + {name};
    TriedSize(name, k);
    forall j | 2 <= j < k ensures Numbered(name, j) != name {
      NumberedInjective(name, j, j);
    }
    assert name !in Tried(name, k);
    assert used <= Names(taken);
    SubsetSize(used, Names(taken));
    NamesSize(taken);
  }

  method NameExists(names: seq<string>, name: string) returns (exists_: bool)
    ensures exists_ <==> name in names
  {
    exists_ := false;
    var i := 0;
    while i < |names|
      invariant 0 <= i <= |names| && name !in names[..i] && !exists_
    {
      if names[i] == name {
        exists_ := true;
        break;
      }
      i := i + 1;
    }
  }

  /** The search of FindUniqueEndpointName and FindUniqueUserName. */
  method FindUniqueName(taken: seq<string>, name: string) returns (unique: string)
    ensures unique == UniqueName(taken, name)
  {
    var taken_ := NameExists(taken, name);
    if !taken_ {
      return name;
    }
    var postfixNumber: nat := 2;
    while true
      invariant postfixNumber >= 2 && FirstFree(taken, name, 2) == FirstFree(taken, name, postfixNumber)
      decreases |Ahead(taken, name, postfixNumber)|
    {
      unique := Numbered(name, postfixNumber);
      taken_ := NameExists(taken, unique);
      if !taken_ {
        break;
      }
      AheadShrinks(taken, name, postfixNumber);
      postfixNumber := postfixNumber + 1;
    }
  }
}
