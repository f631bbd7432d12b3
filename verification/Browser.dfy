/** The reply of the SQL Server Browser service: a list of instances, each a list of named values. */
module Browser {
  import opened Runes
  import opened Unicode

  datatype Field = Field(key: string, value: string)

  /** One instance: its fields in the order of the reply. */
  type Record = seq<Field>
  type Values = map<string, string>
  type Instances = map<string, Values>

  // ---------- Reading ----------

  /** The text between separators; a text without separators is one piece. */
  function Split(t: string, sep: char): (r: seq<string>)
    ensures r != []
  {
    if t == "" then [""]
    else
      var rest := Split(t[1..], sep);
      if t[0] == sep then [""] + rest else [[t[0]] + rest[0]] + rest[1..]
  }

  function InstanceName(values: Values): string {
    if "InstanceName" in values then values["InstanceName"] else ""
  }

  /**
   Reads tokens in turns: a name, then its value. An empty name closes the instance, or the reply
   when the instance has no fields.
   */
  function Decode(u: Alphabet, tokens: seq<string>, values: Values, name: Option<string>, found: Instances): Instances {
    if tokens == [] then found
    else if name.Some? then Decode(u, tokens[1..], values[name.value := tokens[0]], None, found)
    else if tokens[0] != "" then Decode(u, tokens[1..], values, Some(tokens[0]), found)
    else if values == map[] then found
    else Decode(u, tokens[1..], map[], None, found[Upper(u, InstanceName(values)) := values])
  }

  /** A reply is a type byte, two bytes of length, and the text; anything else holds no instances. */
  function Parsed(u: Alphabet, msg: string): Instances {
    if |msg| > 3 && msg[0] == '\U{5}' then Decode(u, Split(msg[3..], ';'), map[], None, map[]) else map[]
  }

  method ParseInstances(u: Alphabet, msg: string) returns (found: Instances)
    ensures found == Parsed(u, msg)
  {
    found := map[];
    if |msg| > 3 && msg[0] == '\U{5}' {
      var tokens := Split(msg[3..], ';');
      var values: Values := map[];
      var gotName, name := false, "";
      for i := 0 to |tokens|
        invariant Decode(u, tokens, map[], None, map[]) ==
          Decode(u, tokens[i..], values, if gotName then Some(name) else None, found)
      {
        var token := tokens[i];
        assert tokens[i..][1..] == tokens[i + 1..];
        if gotName {
          values := values[name := token];
          gotName := false;
        } else {
          name := token;
          if |name| == 0 {
            if |values| == 0 {
              break;
            }
            found := found[Upper(u, InstanceName(values)) := values];
            values := map[];
            continue;
          }
          gotName := true;
        }
      }
    }
  }

  // ---------- Writing ----------

  function PrintField(f: Field): string {
    f.key + ";" + f.value + ";"
  }

  function PrintRecord(r: Record): string {
    if r == [] then ";" else PrintField(r[0]) + PrintRecord(r[1..])
  }

  function PrintRecords(rs: seq<Record>): string {
    if rs == [] then "" else PrintRecord(rs[0]) + PrintRecords(rs[1..])
  }

  /** A reply of the server: section 2.2.5 of [MC-SQLR], with any two bytes of length. */
  function Print(size: string, rs: seq<Record>): string {
    "\U{5}" + size + PrintRecords(rs)
  }

  predicate Clean(t: string) {
    ';' !in t
  }

  predicate WellFormed(r: Record) {
    r != [] && forall f | f in r :: f.key != "" && Clean(f.key) && Clean(f.value)
  }

  function ValuesOf(r: Record, start: Values): Values {
    if r == [] then start else ValuesOf(r[1..], start[r[0].key := r[0].value])
  }

  /** The instances by name in upper case; a later one replaces an earlier one of the same name. */
  function Collected(u: Alphabet, rs: seq<Record>, start: Instances): Instances {
    if rs == [] then start
    else
      var values := ValuesOf(rs[0], map[]);
      Collected(u, rs[1..], start[Upper(u, InstanceName(values)) := values])
  }

  // ---------- Round trip ----------

  lemma {:induction false} SplitClean(t: string, rest: string)
    requires Clean(t)
    ensures Split(t + ";" + rest, ';') == [t] + Split(rest, ';')
  {
    var all := t + ";" + rest;
    if t == "" {
      assert all[1..] == rest;
    } else {
      SplitClean(t[1..], rest);
      assert all[1..] == t[1..] + ";" + rest;
      assert all[0] == t[0] && [t[0]] + t[1..] == t;
    }
  }

  lemma SplitField(f: Field, rest: string)
    requires Clean(f.key) && Clean(f.value)
    ensures Split(PrintField(f) + rest, ';') == [f.key, f.value] + Split(rest, ';')
  {
    assert PrintField(f) + rest == f.key + ";" + (f.value + ";" + rest);
    SplitClean(f.key, f.value + ";" + rest);
    SplitClean(f.value, rest);
  }

  lemma DecodeField(u: Alphabet, f: Field, tokens: seq<string>, values: Values, found: Instances)
    requires f.key != ""
    ensures Decode(u, [f.key, f.value] + tokens, values, None, found) ==
      Decode(u, tokens, values[f.key := f.value], None, found)
  {
    var all := [f.key, f.value] + tokens;
    assert all[1..] == [f.value] + tokens && all[1..][1..] == tokens;
  }

  lemma {:induction false} DecodeRecord(u: Alphabet, r: Record, rest: string, values: Values, found: Instances)
    requires forall f | f in r :: f.key != "" && Clean(f.key) && Clean(f.value)
    requires r != [] || values != map[]
    ensures var after := ValuesOf(r, values);
      Decode(u, Split(PrintRecord(r) + rest, ';'), values, None, found) ==
        Decode(u, Split(rest, ';'), map[], None, found[Upper(u, InstanceName(after)) := after])
  {
    hide Decode, Split, PrintField, Upper, InstanceName;
    if r == [] {
      assert PrintRecord(r) + rest == "" + ";" + rest;
      SplitClean("", rest);
      DecodeClosing(u, Split(rest, ';'), values, found);
    } else {
      Regroup(PrintField(r[0]), PrintRecord(r[1..]), rest);
      SplitField(r[0], PrintRecord(r[1..]) + rest);
      DecodeField(u, r[0], Split(PrintRecord(r[1..]) + rest, ';'), values, found);
      assert r[0].key in values[r[0].key := r[0].value];
      DecodeRecord(u, r[1..], rest, values[r[0].key := r[0].value], found);
    }
  }

  lemma DecodeClosing(u: Alphabet, tokens: seq<string>, values: Values, found: Instances)
    requires values != map[]
    ensures Decode(u, [""] + tokens, values, None, found) ==
      Decode(u, tokens, map[], None, found[Upper(u, InstanceName(values)) := values])
  {
    assert ([""] + tokens)[1..] == tokens;
  }

  lemma {:induction false} DecodeRecords(u: Alphabet, rs: seq<Record>, found: Instances)
    requires forall r | r in rs :: WellFormed(r)
    ensures Decode(u, Split(PrintRecords(rs), ';'), map[], None, found) == Collected(u, rs, found)
  {
    hide PrintRecord, ValuesOf, Upper, InstanceName;
    if rs != [] {
      var after := ValuesOf(rs[0], map[]);
      assert rs[0] in rs;
      DecodeRecord(u, rs[0], PrintRecords(rs[1..]), map[], found);
      DecodeRecords(u, rs[1..], found[Upper(u, InstanceName(after)) := after]);
    }
  }

  /** Round trip: reading a printed reply gives the instances that were printed. */
  lemma PrintedIsParsed(u: Alphabet, size: string, rs: seq<Record>)
    requires |size| == 2 && forall r | r in rs :: WellFormed(r)
    ensures Parsed(u, Print(size, rs)) == Collected(u, rs, map[])
  {
    hide Decode, Split, Upper;
    var msg := Print(size, rs);
    assert msg[3..] == PrintRecords(rs);
    DecodeRecords(u, rs, map[]);
    if rs != [] {
      PrintedIsNotEmpty(rs);
    }
  }

  lemma PrintedIsNotEmpty(rs: seq<Record>)
    requires rs != []
    ensures |PrintRecords(rs)| > 0
  {
    assert |PrintRecord(rs[0])| > 0;
  }

  function NameOf(u: Alphabet, r: Record): string {
    Upper(u, InstanceName(ValuesOf(r, map[])))
  }

  /** When the names differ in upper case, every instance is there under its name, and nothing else is. */
  lemma {:induction false} CollectedIsExact(u: Alphabet, rs: seq<Record>, start: Instances)
    requires forall i, j | 0 <= i < j < |rs| :: NameOf(u, rs[i]) != NameOf(u, rs[j])
    ensures forall i | 0 <= i < |rs| ::
      NameOf(u, rs[i]) in Collected(u, rs, start) && Collected(u, rs, start)[NameOf(u, rs[i])] == ValuesOf(rs[i], map[])
    ensures forall k | (forall i | 0 <= i < |rs| :: NameOf(u, rs[i]) != k) ::
      (k in Collected(u, rs, start) <==> k in start) && (k in start ==> Collected(u, rs, start)[k] == start[k])
  {
    if rs != [] {
      var tail := rs[1..];
      assert forall i | 0 <= i < |tail| :: tail[i] == rs[i + 1];
      CollectedIsExact(u, tail, start[NameOf(u, rs[0]) := ValuesOf(rs[0], map[])]);
    }
  }

  /** When the keys of an instance differ, its values are exactly its fields. */
  lemma {:induction false} ValuesAreExact(r: Record, start: Values)
    requires forall i, j | 0 <= i < j < |r| :: r[i].key != r[j].key
    ensures forall f | f in r :: f.key in ValuesOf(r, start) && ValuesOf(r, start)[f.key] == f.value
    ensures forall k | (forall f | f in r :: f.key != k) ::
      (k in ValuesOf(r, start) <==> k in start) && (k in start ==> ValuesOf(r, start)[k] == start[k])
  {
    if r != [] {
      var tail := r[1..];
      assert forall i | 0 <= i < |tail| :: tail[i] == r[i + 1];
      ValuesAreExact(tail, start[r[0].key := r[0].value]);
      assert forall f | f in r :: f == r[0] || f in tail;
    }
  }

  ghost predicate DistinctKeys(r: Record) {
    forall i, j | 0 <= i < j < |r| :: r[i].key != r[j].key
  }

  /** The values are those of the fields, and there are no others. */
  ghost predicate Exactly(values: Values, r: Record) {
    && (forall f | f in r :: f.key in values && values[f.key] == f.value)
    && (forall k | k in values :: exists f :: f in r && f.key == k)
  }

  lemma RecordIsExact(r: Record)
    requires DistinctKeys(r)
    ensures Exactly(ValuesOf(r, map[]), r)
  {
    ValuesAreExact(r, map[]);
    forall k | k in ValuesOf(r, map[]) ensures exists f :: f in r && f.key == k {
      if forall f | f in r :: f.key != k {
        assert false;
      }
    }
  }

  /** The value of the field that names an instance, or nothing. */
  function Title(r: Record): string {
    if r == [] then "" else if r[0].key == "InstanceName" then r[0].value else Title(r[1..])
  }

  lemma {:induction false} TitleIsField(r: Record)
    ensures (exists f :: f in r && f.key == "InstanceName" && f.value == Title(r)) ||
            ((forall f | f in r :: f.key != "InstanceName") && Title(r) == "")
  {
    if r != [] {
      TitleIsField(r[1..]);
      assert r == [r[0]] + r[1..];
    }
  }

  lemma TitleIsName(u: Alphabet, r: Record)
    requires DistinctKeys(r)
    ensures Upper(u, Title(r)) == NameOf(u, r)
  {
    hide ValuesOf, Title;
    ValuesAreExact(r, map[]);
    TitleIsField(r);
  }

  /**
   The whole round trip: with distinct keys in every instance and names that differ in upper case,
   reading a printed reply finds an instance under each of the names, with exactly its fields, and no
   other instance.
   */
  lemma ReplyIsExact(u: Alphabet, size: string, rs: seq<Record>)
    requires |size| == 2 && forall r | r in rs :: WellFormed(r) && DistinctKeys(r)
    requires forall i, j | 0 <= i < j < |rs| :: Upper(u, Title(rs[i])) != Upper(u, Title(rs[j]))
    ensures var found := Parsed(u, Print(size, rs));
            && (forall r | r in rs :: Upper(u, Title(r)) in found && Exactly(found[Upper(u, Title(r))], r))
            && (forall k | k in found :: exists r :: r in rs && Upper(u, Title(r)) == k)
  {
    hide Parsed, Print, Collected, NameOf, WellFormed, DistinctKeys, Exactly, ValuesOf, Upper, Title;
    PrintedIsParsed(u, size, rs);
    forall r | r in rs ensures Upper(u, Title(r)) == NameOf(u, r) {
      TitleIsName(u, r);
    }
    CollectedIsExact(u, rs, map[]);
    var found := Collected(u, rs, map[]);
    forall r | r in rs ensures Upper(u, Title(r)) in found && Exactly(found[Upper(u, Title(r))], r) {
      var i :| 0 <= i < |rs| && rs[i] == r;
      RecordIsExact(r);
    }
    forall k | k in found ensures exists r :: r in rs && Upper(u, Title(r)) == k {
      if forall i | 0 <= i < |rs| :: Upper(u, Title(rs[i])) != k {
        assert false;
      }
    }
  }

  /** Every instance has fields and stands under its own name. */
  ghost predicate Filed(u: Alphabet, found: Instances) {
    forall k | k in found :: found[k] != map[] && k == Upper(u, InstanceName(found[k]))
  }

  lemma FiledNext(u: Alphabet, values: Values, found: Instances)
    requires Filed(u, found) && values != map[]
    ensures Filed(u, found[Upper(u, InstanceName(values)) := values])
  {
  }

  lemma {:induction false} DecodeFiles(u: Alphabet, tokens: seq<string>, values: Values,
                                       name: Option<string>, found: Instances)
    requires Filed(u, found)
    ensures Filed(u, Decode(u, tokens, values, name, found))
  {
    hide Filed, Upper, InstanceName;
    if tokens != [] {
      if name.Some? {
        DecodeFiles(u, tokens[1..], values[name.value := tokens[0]], None, found);
      } else if tokens[0] != "" {
        DecodeFiles(u, tokens[1..], values, Some(tokens[0]), found);
      } else if values != map[] {
        FiledNext(u, values, found);
        DecodeFiles(u, tokens[1..], map[], None, found[Upper(u, InstanceName(values)) := values]);
      }
    }
  }

  /** Whatever bytes arrive, well formed or not, the instances found are filed under their own names. */
  lemma ParsedIsFiled(u: Alphabet, msg: string)
    ensures Filed(u, Parsed(u, msg))
  {
    hide Decode, Split, Upper;
    if |msg| > 3 && msg[0] == '\U{5}' {
      DecodeFiles(u, Split(msg[3..], ';'), map[], None, map[]);
    }
  }
}
