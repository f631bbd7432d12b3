/**
 Scripting variables: the quoting of values, and the store in which names are upper-cased and
 default variables never disappear.
 */
module Variables {
  import opened Runes
  import opened Unicode

  // ---------- Quoted values ----------

  /** A value with every quote doubled. */
  function Doubled(v: string): string {
    if v == "" then "" else (if v[0] == '"' then "\"\"" else [v[0]]) + Doubled(v[1..])
  }

  function Quoted(v: string): string {
    "\"" + Doubled(v) + "\""
  }

  predicate Blank(c: char) {
    c == '\t' || c == '\n' || c == '\r' || c == ' '
  }

  lemma {:induction false} DoubledConcat(a: string, b: string)
    ensures Doubled(a + b) == Doubled(a) + Doubled(b)
  {
    if a == "" {
      assert a + b == b;
    } else {
      assert (a + b)[0] == a[0] && (a + b)[1..] == a[1..] + b;
      DoubledConcat(a[1..], b);
      Regroup(if a[0] == '"' then "\"\"" else [a[0]], Doubled(a[1..]), Doubled(b));
    }
  }

  /** In a doubled value, text without quotes stays as it is and a quote becomes two. */
  lemma DoublingIs(a: string, b: string)
    requires '"' !in a
    ensures Doubled(a + ("\"" + b)) == a + ("\"\"" + Doubled(b))
  {
    hide Doubled;
    NothingToDouble(a);
    QuoteIsDoubled();
    DoubledConcat(a, "\"" + b);
    DoubledConcat("\"", b);
  }

  lemma QuoteIsDoubled()
    ensures Doubled("\"") == "\"\""
  {
  }

  lemma {:induction false} NothingToDouble(a: string)
    requires '"' !in a
    ensures Doubled(a) == a
  {
    if a != "" {
      assert a[0] in a && forall c | c in a[1..] :: c in a;
      NothingToDouble(a[1..]);
      assert [a[0]] + a[1..] == a;
    }
  }

  lemma DoubledOne(c: char)
    ensures Doubled([c]) == if c == '"' then "\"\"" else [c]
  {
    assert [c][1..] == "";
  }

  /** After reading a whole number of characters, doubling reads on at the same place. */
  predicate Pairs(s: string) {
    if s == "" then true
    else if s[0] != '"' then Pairs(s[1..])
    else |s| > 1 && s[1] == '"' && Pairs(s[2..])
  }

  lemma {:induction false} DoubledPairs(v: string)
    ensures Pairs(Doubled(v))
  {
    if v != "" {
      DoubledPairs(v[1..]);
      if v[0] == '"' {
        assert Doubled(v)[2..] == Doubled(v[1..]);
      } else {
        assert Doubled(v)[1..] == Doubled(v[1..]);
      }
    }
  }

  /** Pairs of a text that starts with a doubled value is pairs of the rest. */
  lemma {:induction false} PairsAfter(v: string, rest: string)
    ensures Pairs(Doubled(v) + rest) == Pairs(rest)
  {
    var t := Doubled(v) + rest;
    if v == "" {
      assert t == rest;
    } else {
      PairsAfter(v[1..], rest);
      if v[0] == '"' {
        assert t[2..] == Doubled(v[1..]) + rest;
      } else {
        assert t[1..] == Doubled(v[1..]) + rest;
      }
    }
  }

  lemma {:induction false} DoubledInjective(v: string, w: string)
    requires Doubled(v) == Doubled(w)
    ensures v == w
  {
    if v != "" && w != "" {
      var d := Doubled(v);
      assert d[0] == v[0] == w[0];
      var n := if v[0] == '"' then 2 else 1;
      assert d[n..] == Doubled(v[1..]);
      assert Doubled(w)[n..] == Doubled(w[1..]);
      DoubledInjective(v[1..], w[1..]);
      assert v == [v[0]] + v[1..] && w == [w[0]] + w[1..];
    }
  }

  /** Reads the runes between the outer quotes; a quote must come with its double. */
  method ReadDoubled(inner: string) returns (r: Option<string>)
    ensures r.Some? ==> inner == Doubled(r.value)
    ensures r.None? ==> forall v :: inner != Doubled(v)
  {
    hide Doubled;
    var quoted := false;
    var b, i := "", 0;
    NothingDoubled();
    while i < |inner|
      invariant 0 <= i <= |inner|
      invariant inner[..i] == if quoted then Doubled(b) + "\"" else Doubled(b)
    {
      var c := inner[i];
      TakeMore(inner, i, i + 1);
      assert inner[i..i + 1] == [c];
      DoubledConcat(b, [c]);
      DoubledOne(c);
      if quoted && c == '"' {
        Regroup(Doubled(b), "\"", "\"");
        b := b + ['"'];
        quoted := false;
      } else if quoted {
        assert inner == inner[..i] + inner[i..];
        Unpaired(inner, b, inner[i..]);
        return None;
      } else if c == '"' {
        quoted := true;
      } else {
        b := b + [c];
      }
      i := i + 1;
    }
    assert inner[..i] == inner;
    if quoted {
      assert inner == inner + "";
      Unpaired(inner, b, "");
      return None;
    }
    return Some(b);
  }

  lemma NothingDoubled()
    ensures Doubled("") == ""
  {
  }

  /**
   The value a `:setvar` argument stands for: unquoted text without blanks is its own value, and
   quoted text stands for the value whose quoting it is.
   */
  ghost function Parsed(val: string): Option<string>
    requires val != ""
  {
    if val[0] != '"' then
      if exists c :: c in val && Blank(c) then None else Some(val)
    else if exists v :: val == Quoted(v) then
      var v :| val == Quoted(v);
      Some(v)
    else
      None
  }

  /** Quoting round trip: quoting a value and parsing it gives the value back. */
  lemma ParsedQuoted(v: string)
    ensures Parsed(Quoted(v)) == Some(v)
  {
    hide Doubled;
    var val := Quoted(v);
    assert val[0] == '"';
    var w := Parsed(val).value;
    QuotedIsInjective(v, w);
  }

  method ParseValue(val: string) returns (r: Option<string>)
    requires val != ""
    ensures r == Parsed(val)
  {
    hide Doubled;
    var quoted := val[0] == '"';
    if !quoted {
      var blank := ContainsBlank(val);
      return if blank then None else Some(val);
    }
    if |val| == 1 || val[|val| - 1] != '"' {
      NotQuoted(val);
      return None;
    }
    r := ReadDoubled(val[1..|val| - 1]);
    assert val == "\"" + val[1..|val| - 1] + "\"";
    if r.Some? {
      ParsedQuoted(r.value);
    } else {
      forall v ensures val != Quoted(v) {
        assert Quoted(v)[1..|Quoted(v)| - 1] == Doubled(v);
      }
    }
  }

  method ContainsBlank(val: string) returns (found: bool)
    ensures found <==> exists c :: c in val && Blank(c)
  {
    var i := 0;
    while i < |val|
      invariant 0 <= i <= |val| && forall k | 0 <= k < i :: !Blank(val[k])
    {
      if Blank(val[i]) {
        return true;
      }
      i := i + 1;
    }
    return false;
  }

  lemma NotQuoted(val: string)
    requires val == "\"" || (val != "" && val[|val| - 1] != '"')
    ensures forall v :: val != Quoted(v)
  {
    forall v ensures val != Quoted(v) {
      assert Quoted(v)[|Quoted(v)| - 1] == '"' && |Quoted(v)| >= 2;
    }
  }

  /** A quote that is followed by something else, or by nothing, is not part of a doubled value. */
  lemma Unpaired(inner: string, b: string, rest: string)
    requires inner == (Doubled(b) + "\"") + rest && (rest == "" || rest[0] != '"')
    ensures forall v :: inner != Doubled(v)
  {
    Regroup(Doubled(b), "\"", rest);
    PairsAfter(b, "\"" + rest);
    assert !Pairs(inner);
    forall v ensures inner != Doubled(v) {
      DoubledPairs(v);
    }
  }

  /** Quoting round trip: the value of a quoted value is that value, and no other text has it. */
  lemma QuotedIsInjective(v: string, w: string)
    requires Quoted(v) == Quoted(w)
    ensures v == w
  {
    assert Quoted(v)[1..|Quoted(v)| - 1] == Doubled(v);
    assert Quoted(w)[1..|Quoted(w)| - 1] == Doubled(w);
    DoubledInjective(v, w);
  }

  // ---------- The variable store ----------

  /** What varies between platforms: the Unicode tables and the default editor. */
  datatype Platform = Platform(alphabet: Alphabet, editor: string)

  ghost predicate ValidPlatform(p: Platform) {
    ValidAlphabet(p.alphabet) && Stable(p.alphabet)
  }

  const READ_ONLY: seq<string> := [
    "SQLCMDDBNAME", "SQLCMDINI", "SQLCMDPACKETSIZE", "SQLCMDSERVER", "SQLCMDUSER", "SQLCMDWORKSTATION"]

  /** Variables that can be reset but not removed. */
  function Defaults(p: Platform): map<string, string> {
    map[
      "SQLCMDCOLSEP" := " ",
      "SQLCMDCOLWIDTH" := "0",
      "SQLCMDEDITOR" := p.editor,
      "SQLCMDERRORLEVEL" := "0",
      "SQLCMDHEADERS" := "0",
      "SQLCMDLOGINTIMEOUT" := "30",
      "SQLCMDMAXFIXEDTYPEWIDTH" := "0",
      "SQLCMDMAXVARTYPEWIDTH" := "256",
      "SQLCMDSTATTIMEOUT" := "0"]
  }

  type Values = map<string, string>

  predicate NameStart(u: Alphabet, c: char) {
    u.isLetter(c) || c == '_'
  }

  predicate NamePart(u: Alphabet, c: char) {
    NameStart(u, c) || u.isDigit(c) || c == '-'
  }

  /** A letter or underscore, then letters, digits, underscores and hyphens; or nothing at all. */
  predicate ValidName(u: Alphabet, name: string) {
    name != "" ==> NameStart(u, name[0]) && forall c | c in name :: NamePart(u, c)
  }

  /** The store refuses to change this variable, when it is named in exactly this way. */
  predicate Locked(vars: Values, name: string) {
    name in READ_ONLY && name in vars && vars[name] != ""
  }

  datatype Outcome = Accepted | InvalidName | ReadOnlyVariable | UndefinedVariable | InvalidValue

  ghost function Judge(p: Platform, vars: Values, name: string, value: string): Outcome {
    if !ValidName(p.alphabet, name) then InvalidName
    else if Locked(vars, name) then ReadOnlyVariable
    else if value == "" then
      if Upper(p.alphabet, name) in vars then Accepted else UndefinedVariable
    else if Parsed(value).None? then InvalidValue
    else Accepted
  }

  /** The store after `:setvar name value`. */
  ghost function AfterSetvar(p: Platform, vars: Values, name: string, value: string): Values {
    var key := Upper(p.alphabet, name);
    if Judge(p, vars, name, value) != Accepted then vars
    else if value != "" then vars[key := Parsed(value).value]
    else if key in Defaults(p) then vars[key := Defaults(p)[key]]
    else vars - {key}
  }

  /** Names of ASCII characters: a letter or an underscore, then letters, digits, underscores and hyphens. */
  lemma AsciiNames(u: Alphabet, name: string)
    requires ValidAlphabet(u) && forall c | c in name :: c < '\U{80}'
    ensures ValidName(u, name) <==>
            name == "" ||
            (('A' <= name[0] <= 'Z' || 'a' <= name[0] <= 'z' || name[0] == '_') &&
             forall c | c in name :: 'A' <= c <= 'Z' || 'a' <= c <= 'z' || '0' <= c <= '9' || c == '_' || c == '-')
  {
    if name != "" {
      assert name[0] in name;
      assert forall c | c in name :: u.isLetter(c) == AsciiLetter(c) && u.isDigit(c) == ('0' <= c <= '9');
      assert forall c :: AsciiLetter(c) <==> 'A' <= c <= 'Z' || 'a' <= c <= 'z';
    }
  }

  /** The variables that stand for the connection cannot be set once they have a value; others can. */
  lemma ConnectionIsLocked(p: Platform, vars: Values, name: string, value: string)
    requires ValidName(p.alphabet, name) && name in vars && vars[name] != ""
    ensures Judge(p, vars, name, value) == ReadOnlyVariable <==>
            name == "SQLCMDDBNAME" || name == "SQLCMDINI" || name == "SQLCMDPACKETSIZE" || name == "SQLCMDSERVER" ||
            name == "SQLCMDUSER" || name == "SQLCMDWORKSTATION"
  {
    hide ValidName, Parsed;
    assert READ_ONLY[0] in READ_ONLY && READ_ONLY[1] in READ_ONLY && READ_ONLY[2] in READ_ONLY && READ_ONLY[3] in READ_ONLY
      && READ_ONLY[4] in READ_ONLY && READ_ONLY[5] in READ_ONLY;
  }

  /**
   What an accepted `:setvar` gives: the variable has the value as it stands or as it was quoted; without
   a value it has its default again, or none. No other variable changes.
   */
  lemma SetvarGives(p: Platform, vars: Values, name: string, value: string, asked: string)
    requires Judge(p, vars, name, value) == Accepted
    ensures var after, key := AfterSetvar(p, vars, name, value), Upper(p.alphabet, asked);
            if key != Upper(p.alphabet, name) then
              (key in after <==> key in vars) && (key in vars ==> after[key] == vars[key])
            else if value == "" then
              (key in after <==> key in Defaults(p)) && (key in after ==> after[key] == Defaults(p)[key])
            else
              && key in after
              && (value[0] != '"' ==> after[key] == value && forall c | c in value :: !Blank(c))
              && (forall v :: value == Quoted(v) ==> after[key] == v)
              && (value[0] == '"' ==> value == Quoted(after[key]))
  {
    hide Doubled, ValidName, Locked, Defaults;
    if value != "" && exists v :: value == Quoted(v) {
      var v :| value == Quoted(v);
      ParsedQuoted(v);
      forall w | value == Quoted(w) ensures w == v {
        QuotedIsInjective(v, w);
      }
    }
  }

  /** One `:setvar` command. */
  datatype Request = Request(name: string, value: string)

  ghost function AfterAll(p: Platform, vars: Values, run: seq<Request>): Values
    decreases |run|
  {
    if run == [] then vars
    else AfterAll(p, AfterSetvar(p, vars, run[0].name, run[0].value), run[1..])
  }

  /** Names are stored in upper case, and every default variable has a value. */
  predicate Sound(p: Platform, vars: Values) {
    && (forall k | k in vars :: Upper(p.alphabet, k) == k)
    && Defaults(p).Keys <= vars.Keys
  }

  lemma SetvarKeepsSound(p: Platform, vars: Values, name: string, value: string)
    requires Stable(p.alphabet) && Sound(p, vars)
    ensures Sound(p, AfterSetvar(p, vars, name, value))
  {
    hide Parsed, Judge, Defaults;
    UpperTwice(p.alphabet, name);
  }

  /** Over any run of `:setvar`, names stay in upper case and no default variable disappears. */
  lemma {:induction false} RunKeepsSound(p: Platform, vars: Values, run: seq<Request>)
    requires Stable(p.alphabet) && Sound(p, vars)
    ensures Sound(p, AfterAll(p, vars, run))
    decreases |run|
  {
    hide Parsed, Judge, AfterSetvar;
    if run != [] {
      SetvarKeepsSound(p, vars, run[0].name, run[0].value);
      RunKeepsSound(p, AfterSetvar(p, vars, run[0].name, run[0].value), run[1..]);
    }
  }

  /** No read-only variable is a default variable. */
  lemma ReadOnlyIsNotDefault(p: Platform, key: string)
    requires key in READ_ONLY
    ensures key !in Defaults(p)
  {
    var lengths := [12, 9, 16, 12, 10, 17];
    var i :| 0 <= i < |READ_ONLY| && key == READ_ONLY[i];
    assert |key| == lengths[i] && key[6] == READ_ONLY[i][6] && key[7] == READ_ONLY[i][7];
  }

  /**
   When a non-empty read-only variable changes: exactly when the request names it in other letters
   than its own (the guard looks the name up as it was written) and brings another value or none.
   */
  lemma ReadOnlyChangesIff(p: Platform, vars: Values, name: string, value: string, key: string)
    requires key in READ_ONLY && key in vars && vars[key] != ""
    requires Upper(p.alphabet, key) == key
    ensures var after := AfterSetvar(p, vars, name, value);
      (key !in after || after[key] != vars[key]) <==>
        && Upper(p.alphabet, name) == key
        && name != key
        && ValidName(p.alphabet, name)
        && !Locked(vars, name)
        && (value != "" ==> Parsed(value).Some? && Parsed(value).value != vars[key])
  {
    hide Parsed, ValidName, Defaults, READ_ONLY;
    ReadOnlyIsNotDefault(p, key);
  }

  /** Names written in upper case never change a non-empty read-only variable, however long the run. */
  lemma {:induction false} UpperCaseRunsAreSafe(p: Platform, vars: Values, run: seq<Request>, key: string)
    requires key in READ_ONLY && key in vars && vars[key] != ""
    requires forall r | r in run :: Upper(p.alphabet, r.name) == r.name
    ensures key in AfterAll(p, vars, run) && AfterAll(p, vars, run)[key] == vars[key]
    decreases |run|
  {
    hide Parsed, ValidName, Defaults, READ_ONLY;
    if run != [] {
      assert run[0] in run;
      UpperCaseRunsAreSafe(p, AfterSetvar(p, vars, run[0].name, run[0].value), run[1..], key);
    }
  }

  /** Lower-case letters get past the guard. */
  lemma LowerCaseChangesServer(p: Platform, vars: Values)
    requires ValidPlatform(p) && "SQLCMDSERVER" in vars
    ensures AfterSetvar(p, vars, "sqlcmdserver", "other") == vars["SQLCMDSERVER" := "other"]
  {
    var u, name, value := p.alphabet, "sqlcmdserver", "other";
    assert Upper(u, name) == "SQLCMDSERVER";
    assert forall k | 0 <= k < |name| :: NameStart(u, name[k]);
    assert forall k | 0 <= k < |value| :: !Blank(value[k]);
    assert name !in READ_ONLY by {
      assert forall k | 0 <= k < |READ_ONLY| :: READ_ONLY[k][0] == 'S';
    }
  }

  /** The scripting variables. */
  class VariableStore {
    const platform: Platform
    var vars: Values

    ghost predicate Valid()
      reads this
    {
      ValidPlatform(platform) && Sound(platform, vars)
    }

    /** The store as the program sets it up, with values taken over from the environment if asked for. */
    constructor (platform: Platform, hostname: string, fromEnvironment: bool, environment: map<string, string>)
      requires ValidPlatform(platform)
      ensures this.platform == platform && Valid()
      ensures vars.Keys == Defaults(platform).Keys + Initially().Keys + {"SQLCMDWORKSTATION"}
      ensures forall k | k in vars ::
        vars[k] == if fromEnvironment && k in environment then environment[k]
        else if k == "SQLCMDWORKSTATION" then hostname
        else if k in Initially() then Initially()[k]
        else Defaults(platform)[k]
    {
      hide Upper, Defaults, Initially;
      this.platform := platform;
      new;
      vars := Defaults(platform) + Initially();
      DefaultsAreUpper(platform);
      InitialNamesAreUpper(platform.alphabet);
      Set("SQLCMDWORKSTATION", hostname);
      if fromEnvironment {
        var keys := vars.Keys;
        ghost var initial := vars;
        while keys != {}
          invariant Valid() && keys <= initial.Keys == vars.Keys
          invariant forall k | k in vars ::
            vars[k] == if k !in keys && k in environment then environment[k] else initial[k]
        {
          var v := Pick(keys);
          if v in environment {
            Set(v, environment[v]);
          }
          keys := keys - {v};
        }
      }
    }

    method Set(name: string, value: string)
      modifies this
      ensures vars == old(vars)[Upper(platform.alphabet, name) := value]
      ensures old(Valid()) ==> Valid()
    {
      var key := Upper(platform.alphabet, name);
      if Stable(platform.alphabet) {
        UpperTwice(platform.alphabet, name);
      }
      vars := vars[key := value];
    }

    method Unset(name: string)
      modifies this
      ensures vars == old(vars) - {Upper(platform.alphabet, name)}
    {
      var key := Upper(platform.alphabet, name);
      vars := vars - {key};
    }

    /** The value under any spelling of the name that has the same upper case. */
    method Get(name: string) returns (value: Option<string>)
      ensures value.Some? <==> Upper(platform.alphabet, name) in vars
      ensures value.Some? ==> value.value == vars[Upper(platform.alphabet, name)]
    {
      var key := Upper(platform.alphabet, name);
      return if key in vars then Some(vars[key]) else None;
    }

    method CheckReadOnly(key: string) returns (locked: bool)
      ensures locked == Locked(vars, key)
    {
      if key in vars {
        for i := 0 to |READ_ONLY|
          invariant forall k | 0 <= k < i :: READ_ONLY[k] != key || vars[key] == ""
        {
          if READ_ONLY[i] == key && vars[key] != "" {
            return true;
          }
        }
      }
      return false;
    }

    /** The `:setvar` command. */
    method Setvar(name: string, value: string) returns (outcome: Outcome)
      requires Valid()
      modifies this
      ensures Valid()
      ensures outcome == Judge(platform, old(vars), name, value)
      ensures vars == AfterSetvar(platform, old(vars), name, value)
    {
      hide Parsed, Sound, Defaults, READ_ONLY, Stable, ValidAlphabet;
      SetvarKeepsSound(platform, vars, name, value);
      var valid := ValidIdentifier(platform.alphabet, name);
      if !valid {
        return InvalidName;
      }
      var locked := CheckReadOnly(name);
      if locked {
        return ReadOnlyVariable;
      }
      var text: string;
      if value == "" {
        var current := Get(name);
        if current.None? {
          return UndefinedVariable;
        }
        var key := Upper(platform.alphabet, name);
        if key in Defaults(platform) {
          text := Defaults(platform)[key];
        } else {
          Unset(name);
          return Accepted;
        }
      } else {
        var parsed := ParseValue(value);
        if parsed.None? {
          return InvalidValue;
        }
        text := parsed.value;
      }
      Set(name, text);
      return Accepted;
    }
  }

  /** The variables the program starts with beside the defaults and the host name. */
  function Initially(): Values {
    map[
      "SQLCMDDBNAME" := "",
      "SQLCMDINI" := "",
      "SQLCMDPACKETSIZE" := "4096",
      "SQLCMDSERVER" := "",
      "SQLCMDUSER" := "",
      "SQLCMDUSEAAD" := "",
      "SQLCMDCOLORSCHEME" := "",
      "SQLCMDFORMAT" := ""]
  }

  /** Capital ASCII letters are their own upper case. */
  lemma CapitalsAreUpper(u: Alphabet, s: string)
    requires ValidAlphabet(u) && forall i | 0 <= i < |s| :: 'A' <= s[i] <= 'Z'
    ensures Upper(u, s) == s
  {
  }

  lemma DefaultsAreUpper(p: Platform)
    requires ValidPlatform(p)
    ensures forall k | k in Defaults(p) :: Upper(p.alphabet, k) == k
  {
    hide ValidAlphabet, Upper;
    forall k | k in Defaults(p) ensures Upper(p.alphabet, k) == k {
      CapitalsAreUpper(p.alphabet, k);
    }
  }

  lemma InitialNamesAreUpper(u: Alphabet)
    requires ValidAlphabet(u)
    ensures forall k | k in Initially() || k == "SQLCMDWORKSTATION" :: Upper(u, k) == k
  {
    hide ValidAlphabet, Upper;
    forall k | k in Initially() ensures Upper(u, k) == k {
      CapitalsAreUpper(u, k);
    }
    CapitalsAreUpper(u, "SQLCMDWORKSTATION");
  }

  /** Whether a name may be used for a variable. */
  method ValidIdentifier(u: Alphabet, name: string) returns (valid: bool)
    ensures valid == ValidName(u, name)
  {
    var first := true;
    for i := 0 to |name|
      invariant first == (i == 0)
      invariant i > 0 ==> NameStart(u, name[0])
      invariant forall k | 0 <= k < i :: NamePart(u, name[k])
    {
      var c := name[i];
      if !u.isLetter(c) && c != '_' && (first || (!u.isDigit(c) && c != '_' && c != '-')) {
        assert name[i] in name;
        return false;
      }
      first := false;
    }
    return true;
  }
}
