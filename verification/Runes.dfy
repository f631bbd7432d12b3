/** Characters and small text helpers shared by the script front end. */
module Runes {

  datatype Option<+T> = None | Some(value: T)

  /** The two line terminators the program is built with (one a platform). */
  predicate ValidEol(eol: string) {
    eol == "\n" || eol == "\r\n"
  }

  /** The characters `a` and `b` stand at positions i and i + 1 of t. */
  predicate Pair(t: string, i: nat, a: char, b: char) {
    i + 1 < |t| && t[i] == a && t[i + 1] == b
  }

  /** A character allowed in the name of a scripting variable reference. */
  predicate NameRune(c: char) {
    || 'a' <= c <= 'z'
    || 'A' <= c <= 'Z'
    || '0' <= c <= '9'
    || c == '_'
    || c == '-'
  }

  /** A Unicode control character (categories Cc). */
  predicate IsControl(c: char) {
    c < ' ' || '\U{7F}' <= c <= '\U{9F}'
  }

  /** Characters that end the text handed to the command matcher. */
  predicate EndsCommand(c: char) {
    c == '\0' || (IsControl(c) && c != '\t')
  }

  /** A line without any character that would cut a command short. */
  predicate Plain(line: string) {
    forall c | c in line :: !EndsCommand(c)
  }

  /** Lines joined by the line terminator. */
  function Join(lines: seq<string>, eol: string): string {
    if lines == [] then ""
    else if |lines| == 1 then lines[0]
    else lines[0] + eol + Join(lines[1..], eol)
  }

  lemma {:induction false} JoinSnoc(lines: seq<string>, last: string, eol: string)
    requires lines != []
    ensures Join(lines + [last], eol) == Join(lines, eol) + eol + last
  {
    if |lines| > 1 {
      JoinSnoc(lines[1..], last, eol);
      assert (lines + [last])[1..] == lines[1..] + [last];
    } else {
      assert (lines + [last])[1..] == [last];
    }
  }

  lemma SliceOfSlice<T>(t: seq<T>, a: nat, b: nat, i: nat, j: nat)
    requires a <= b <= |t| && i <= j <= b - a
    ensures t[a..b][i..j] == t[a + i..a + j]
  {
    forall k | 0 <= k < j - i ensures t[a..b][i..j][k] == t[a + i..a + j][k] {
      assert t[a..b][i..j][k] == t[a..b][i + k];
    }
    assert t[a..b][i..j] == t[a + i..a + j];
  }

  lemma SplitSlice<T>(t: seq<T>, i: nat, j: nat, k: nat)
    requires i <= j <= k <= |t|
    ensures t[i..k] == t[i..j] + t[j..k]
  {
  }

  lemma TakeMore<T>(t: seq<T>, i: nat, j: nat)
    requires i <= j <= |t|
    ensures t[..j] == t[..i] + t[i..j]
  {
  }

  lemma SplitRest<T>(t: seq<T>, i: nat, j: nat)
    requires i <= j <= |t|
    ensures t[i..] == t[i..j] + t[j..]
  {
  }

  lemma Regroup<T>(a: seq<T>, b: seq<T>, c: seq<T>)
    ensures (a + b) + c == a + (b + c)
  {
  }

  lemma Regroup4<T>(a: seq<T>, b: seq<T>, c: seq<T>, d: seq<T>)
    ensures a + ((b + c) + d) == ((a + b) + c) + d
  {
  }

  /** n copies of x. */
  function Copies<T>(x: T, n: nat): (r: seq<T>)
    ensures |r| == n
    ensures forall k | 0 <= k < n :: r[k] == x
  {
    seq(n, _ => x)
  }

  /** Any element of a set: the next key of a map iteration. */
  method Pick<T>(s: set<T>) returns (x: T)
    requires s != {}
    ensures x in s
  {
    x :| x in s;
  }
}
