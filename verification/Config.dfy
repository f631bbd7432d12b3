/**
 The configuration of contexts, endpoints and users as a state machine: what each operation does to
 it, when an operation panics or never returns, and the invariant of every run.
 */
module Config {
  import opened Runes
  import opened UniqueNames

  datatype Endpoint = Endpoint(name: string, address: string, port: int, container: Option<Container>)
  datatype Container = Container(id: string, image: string)
  datatype Context = Context(name: string, endpoint: string, user: Option<string>)
  datatype BasicAuth = BasicAuth(username: string, passwordEncryption: string, password: string)
  datatype User = User(name: string, authenticationType: string, basicAuth: Option<BasicAuth>)

  datatype Store = Store(contexts: seq<Context>, endpoints: seq<Endpoint>, users: seq<User>, current: string)

  const EMPTY := Store([], [], [], "")

  function ContextNames(cs: seq<Context>): (r: seq<string>)
    ensures |r| == |cs|
  {
    seq(|cs|, i requires 0 <= i < |cs| => cs[i].name)
  }

  function EndpointNames(es: seq<Endpoint>): (r: seq<string>)
    ensures |r| == |es|
  {
    seq(|es|, i requires 0 <= i < |es| => es[i].name)
  }

  function UserNames(us: seq<User>): (r: seq<string>)
    ensures |r| == |us|
  {
    seq(|us|, i requires 0 <= i < |us| => us[i].name)
  }

  /** First position of name, or the length. */
  function FirstIndex(names: seq<string>, name: string): (i: nat)
    ensures i <= |names| && name !in names[..i]
    ensures i < |names| ==> names[i] == name
    ensures name in names <==> i < |names|
  {
    if names == [] then 0
    else if names[0] == name then 0
    else
      var i := FirstIndex(names[1..], name);
      assert names[..i + 1] == [names[0]] + names[1..][..i];
      1 + i
  }

  /** The list without its element at i, or the list itself when i is past its end. */
  function Without<T>(xs: seq<T>, i: nat): seq<T> {
    if i < |xs| then xs[..i] + xs[i + 1..] else xs
  }

  function FirstName(cs: seq<Context>): string {
    if cs == [] then "" else cs[0].name
  }

  // ---------- Unique context names ----------

  function Login(username: string, name: string): string {
    username + "@" + name
  }

  /** Both the context name and the user name that goes with it are free. */
  predicate BothFree(st: Store, name: string, username: string) {
    name !in ContextNames(st.contexts) && Login(username, name) !in UserNames(st.users)
  }

  /** The first number whose context name is free. */
  function Stop(st: Store, name: string): nat {
    FirstFree(ContextNames(st.contexts), name, 2)
  }

  /** The search ends: at the name itself, or at the first free context name. */
  predicate Settles(st: Store, name: string, username: string) {
    BothFree(st, name, username) || BothFree(st, Numbered(name, Stop(st, name)), username)
  }

  function UniqueContext(st: Store, name: string, username: string): (r: string)
    requires Settles(st, name, username)
    ensures BothFree(st, r, username)
  {
    if BothFree(st, name, username) then name else Numbered(name, Stop(st, name))
  }

  /** One round of the search at a number: None ends it, otherwise the number of the next round. */
  function SearchRound(st: Store, name: string, username: string, k: nat): Option<nat> {
    if Numbered(name, k) in ContextNames(st.contexts) then Some(k + 1)
    else if Login(username, Numbered(name, k)) in UserNames(st.users) then Some(k)
    else None
  }

  /** The number after n rounds; None when the search has ended. */
  function SearchAfter(st: Store, name: string, username: string, n: nat): Option<nat> {
    if n == 0 then Some(2)
    else
      match SearchAfter(st, name, username, n - 1)
      case None => None
      case Some(k) => SearchRound(st, name, username, k)
  }

  lemma {:induction false} SearchClimbs(st: Store, name: string, username: string, n: nat)
    requires n <= Stop(st, name) - 2
    ensures SearchAfter(st, name, username, n) == Some(2 + n)
  {
    if n > 0 {
      SearchClimbs(st, name, username, n - 1);
    }
  }

  lemma {:induction false} SearchSpins(st: Store, name: string, username: string, n: nat)
    requires Login(username, Numbered(name, Stop(st, name))) in UserNames(st.users)
    requires n >= Stop(st, name) - 2
    ensures SearchAfter(st, name, username, n) == Some(Stop(st, name))
    decreases n
  {
    if n == Stop(st, name) - 2 {
      SearchClimbs(st, name, username, n);
    } else {
      SearchSpins(st, name, username, n - 1);
    }
  }

  /**
   The numbered search of FindUniqueContextName ends exactly when the user name that goes with the
   first free context name is free too; otherwise it stays at that number for ever.
   */
  lemma SearchEndsIff(st: Store, name: string, username: string)
    ensures (exists n: nat :: SearchAfter(st, name, username, n) == None) <==>
            Login(username, Numbered(name, Stop(st, name))) !in UserNames(st.users)
  {
    var k := Stop(st, name);
    SearchClimbs(st, name, username, k - 2);
    if Login(username, Numbered(name, k)) in UserNames(st.users) {
      forall n: nat ensures SearchAfter(st, name, username, n).Some? {
        if n >= k - 2 {
          SearchSpins(st, name, username, n);
        } else {
          SearchClimbs(st, name, username, n);
        }
      }
    } else {
      assert SearchAfter(st, name, username, k - 2 + 1) == None;
    }
  }

  // ---------- Operations ----------

  datatype Op =
    | AddContext(context: Context)
    | DeleteContext(name: string)
    | SetCurrent(name: string)
    | RemoveCurrent
    | AddEndpoint(endpoint: Endpoint)
    | DeleteEndpoint(name: string)
    | AddUser(user: User)
    | DeleteUser(name: string)
    | AddWithContainer(contextName: string, image: string, port: int, id: string, username: string,
                       password: string, passwordEncryption: string, encrypted: string)
    | Clean

  /** An operation returns, panics, or searches for ever. */
  datatype Outcome = Returned(store: Store) | Panicked | Diverges

  function ContextUser(context: Context): string {
    if context.user.Some? then context.user.value else ""
  }

  function WithoutContext(st: Store, i: nat): Store {
    var cs := Without(st.contexts, i);
    st.(contexts := cs, current := FirstName(cs))
  }

  /** The current context goes, with the first endpoint and the first user that it names. */
  function WithoutCurrent(st: Store): Store {
    var i := FirstIndex(ContextNames(st.contexts), st.current);
    if i == |st.contexts| then st.(current := FirstName(st.contexts))
    else
      var c := st.contexts[i];
      var es := Without(st.endpoints, FirstIndex(EndpointNames(st.endpoints), c.endpoint));
      var us := if c.user.Some? then Without(st.users, FirstIndex(UserNames(st.users), c.user.value)) else st.users;
      WithoutContext(st.(endpoints := es, users := us), i)
  }

  function Apply(st: Store, op: Op): Outcome {
    match op
    case AddContext(c) =>
      if c.endpoint == "" || c.endpoint !in EndpointNames(st.endpoints) then Panicked
      else if !Settles(st, c.name, ContextUser(c)) then Diverges
      else
        var name := UniqueContext(st, c.name, ContextUser(c));
        var user := if c.user == Some("") then None else c.user;
        Returned(st.(contexts := st.contexts + [c.(name := name, user := user)]))
    case DeleteContext(name) =>
      if name in ContextNames(st.contexts) then
        Returned(WithoutContext(st, FirstIndex(ContextNames(st.contexts), name)))
      else Returned(st)
    case SetCurrent(name) =>
      if name in ContextNames(st.contexts) then Returned(st.(current := name)) else Panicked
    case RemoveCurrent => Returned(WithoutCurrent(st))
    case AddEndpoint(e) =>
      Returned(st.(endpoints := st.endpoints + [e.(name := UniqueName(EndpointNames(st.endpoints), e.name))]))
    case DeleteEndpoint(name) =>
      if name == "" then Panicked
      else Returned(st.(endpoints := Without(st.endpoints, FirstIndex(EndpointNames(st.endpoints), name))))
    case AddUser(u) =>
      if u.authenticationType == "basic" && (u.basicAuth.None? || u.basicAuth.value.username == "") then Panicked
      else Returned(st.(users := st.users + [u.(name := UniqueName(UserNames(st.users), u.name))]))
    case DeleteUser(name) =>
      Returned(st.(users := Without(st.users, FirstIndex(UserNames(st.users), name))))
    case AddWithContainer(contextName, image, port, id, username, password, passwordEncryption, encrypted) =>
      if id == "" || image == "" || port == 0 || username == "" || password == "" || contextName == "" then Panicked
      else if !Settles(st, contextName, username) then Diverges
      else
        var name := UniqueContext(st, contextName, username);
        var endpointName := UniqueName(EndpointNames(st.endpoints), name);
        var userName := Login(username, name);
        Returned(Store(
          st.contexts + [Context(name, endpointName, Some(userName))],
          st.endpoints + [Endpoint(endpointName, "127.0.0.1", port, Some(Container(id, image)))],
          st.users + [User(userName, "basic", Some(BasicAuth(username, passwordEncryption, encrypted)))],
          name))
    case Clean => Returned(EMPTY)
  }

  // ---------- The invariant ----------

  ghost predicate Distinct(names: seq<string>) {
    forall i, j | 0 <= i < j < |names| :: names[i] != names[j]
  }

  /** Names are distinct in each list, and the current context is none or one that exists. */
  ghost predicate Consistent(st: Store) {
    && Distinct(ContextNames(st.contexts))
    && Distinct(EndpointNames(st.endpoints))
    && Distinct(UserNames(st.users))
    && (st.current == "" || st.current in ContextNames(st.contexts))
  }

  lemma DistinctSnoc(names: seq<string>, name: string)
    requires Distinct(names) && name !in names
    ensures Distinct(names + [name])
  {
  }

  lemma DistinctWithout(names: seq<string>, i: nat)
    requires Distinct(names)
    ensures Distinct(Without(names, i))
  {
  }

  /** Names of a list that grew or shrank. */
  lemma NamesOfLists(st: Store, c: Context, e: Endpoint, u: User, i: nat)
    ensures ContextNames(st.contexts + [c]) == ContextNames(st.contexts) + [c.name]
    ensures EndpointNames(st.endpoints + [e]) == EndpointNames(st.endpoints) + [e.name]
    ensures UserNames(st.users + [u]) == UserNames(st.users) + [u.name]
    ensures ContextNames(Without(st.contexts, i)) == Without(ContextNames(st.contexts), i)
    ensures EndpointNames(Without(st.endpoints, i)) == Without(EndpointNames(st.endpoints), i)
    ensures UserNames(Without(st.users, i)) == Without(UserNames(st.users), i)
  {
  }

  lemma FirstNameExists(cs: seq<Context>)
    ensures FirstName(cs) == "" || FirstName(cs) in ContextNames(cs)
  {
    if cs != [] {
      assert ContextNames(cs)[0] == cs[0].name;
    }
  }

  lemma RemovalKeepsConsistent(st: Store, i: nat, j: nat, k: nat)
    requires Consistent(st)
    ensures Consistent(Store(Without(st.contexts, i), Without(st.endpoints, j), Without(st.users, k),
                             FirstName(Without(st.contexts, i))))
  {
    hide Distinct;
    var (c, e, u) := (Context("", "", None), Endpoint("", "", 0, None), User("", "", None));
    NamesOfLists(st, c, e, u, i);
    NamesOfLists(st, c, e, u, j);
    NamesOfLists(st, c, e, u, k);
    DistinctWithout(ContextNames(st.contexts), i);
    DistinctWithout(EndpointNames(st.endpoints), j);
    DistinctWithout(UserNames(st.users), k);
    FirstNameExists(Without(st.contexts, i));
  }

  /** Endpoints and users may be cut while the contexts and the current one stay. */
  lemma CutKeepsConsistent(st: Store, j: nat, k: nat)
    requires Consistent(st)
    ensures Consistent(st.(endpoints := Without(st.endpoints, j)))
    ensures Consistent(st.(users := Without(st.users, k)))
  {
    hide Distinct;
    var (c, e, u) := (Context("", "", None), Endpoint("", "", 0, None), User("", "", None));
    NamesOfLists(st, c, e, u, j);
    NamesOfLists(st, c, e, u, k);
    DistinctWithout(EndpointNames(st.endpoints), j);
    DistinctWithout(UserNames(st.users), k);
  }

  lemma AdditionKeepsConsistent(st: Store, c: Context, e: Endpoint, u: User)
    requires Consistent(st)
    ensures c.name !in ContextNames(st.contexts) ==> Consistent(st.(contexts := st.contexts + [c]))
    ensures e.name !in EndpointNames(st.endpoints) ==> Consistent(st.(endpoints := st.endpoints + [e]))
    ensures u.name !in UserNames(st.users) ==> Consistent(st.(users := st.users + [u]))
    ensures c.name !in ContextNames(st.contexts) && e.name !in EndpointNames(st.endpoints) && u.name !in UserNames(st.users)
            ==> Consistent(Store(st.contexts + [c], st.endpoints + [e], st.users + [u], c.name))
  {
    hide Distinct;
    NamesOfLists(st, c, e, u, 0);
    if c.name !in ContextNames(st.contexts) {
      DistinctSnoc(ContextNames(st.contexts), c.name);
    }
    if e.name !in EndpointNames(st.endpoints) {
      DistinctSnoc(EndpointNames(st.endpoints), e.name);
    }
    if u.name !in UserNames(st.users) {
      DistinctSnoc(UserNames(st.users), u.name);
    }
  }

  lemma ApplyKeepsConsistent(st: Store, op: Op)
    requires Consistent(st)
    ensures Apply(st, op).Returned? ==> Consistent(Apply(st, op).store)
  {
    hide Consistent, Settles, UniqueName, FirstIndex;
    var (c, e, u) := (Context("", "", None), Endpoint("", "", 0, None), User("", "", None));
    match op {
      case AddContext(context) =>
        if Settles(st, context.name, ContextUser(context)) {
          var name := UniqueContext(st, context.name, ContextUser(context));
          AdditionKeepsConsistent(st, context.(name := name, user := if context.user == Some("") then None else context.user), e, u);
        }
      case DeleteContext(name) =>
        RemovalKeepsConsistent(st, FirstIndex(ContextNames(st.contexts), name), |st.endpoints|, |st.users|);
      case SetCurrent(name) =>
        if name in ContextNames(st.contexts) {
          CurrentKeepsConsistent(st, name);
        }
      case RemoveCurrent => RemoveCurrentKeepsConsistent(st);
      case AddEndpoint(endpoint) =>
        AdditionKeepsConsistent(st, c, endpoint.(name := UniqueName(EndpointNames(st.endpoints), endpoint.name)), u);
      case DeleteEndpoint(name) =>
        CutKeepsConsistent(st, FirstIndex(EndpointNames(st.endpoints), name), 0);
      case AddUser(user) =>
        AdditionKeepsConsistent(st, c, e, user.(name := UniqueName(UserNames(st.users), user.name)));
      case DeleteUser(name) =>
        CutKeepsConsistent(st, 0, FirstIndex(UserNames(st.users), name));
      case AddWithContainer(contextName, image, port, id, username, password, passwordEncryption, encrypted) =>
        if Settles(st, contextName, username) {
          var name := UniqueContext(st, contextName, username);
          var endpointName := UniqueName(EndpointNames(st.endpoints), name);
          var userName := Login(username, name);
          AdditionKeepsConsistent(
            st, Context(name, endpointName, Some(userName)),
            Endpoint(endpointName, "127.0.0.1", port, Some(Container(id, image))),
            User(userName, "basic", Some(BasicAuth(username, passwordEncryption, encrypted))));
        }
      case Clean => EmptyIsConsistent();
    }
  }

  lemma EmptyIsConsistent()
    ensures Consistent(EMPTY)
  {
  }

  lemma CurrentKeepsConsistent(st: Store, name: string)
    requires Consistent(st) && name in ContextNames(st.contexts)
    ensures Consistent(st.(current := name))
  {
  }

  lemma RemoveCurrentKeepsConsistent(st: Store)
    requires Consistent(st)
    ensures Consistent(WithoutCurrent(st))
  {
    hide Consistent, FirstIndex;
    var i := FirstIndex(ContextNames(st.contexts), st.current);
    if i < |st.contexts| {
      var c := st.contexts[i];
      RemovalKeepsConsistent(
        st, i, FirstIndex(EndpointNames(st.endpoints), c.endpoint),
        if c.user.Some? then FirstIndex(UserNames(st.users), c.user.value) else |st.users|);
    } else {
      RemovalKeepsConsistent(st, i, |st.endpoints|, |st.users|);
    }
  }

  /** The store after the operations, up to the first that does not return. */
  function RunOps(st: Store, ops: seq<Op>): Store
    decreases |ops|
  {
    if ops == [] || !Apply(st, ops[0]).Returned? then st
    else RunOps(Apply(st, ops[0]).store, ops[1..])
  }

  /**
   In every configuration reachable from the empty one, names are distinct and the current context
   is none or one that exists.
   */
  lemma {:induction false} RunKeepsConsistent(st: Store, ops: seq<Op>)
    requires Consistent(st)
    ensures Consistent(RunOps(st, ops))
    decreases |ops|
  {
    if ops != [] && Apply(st, ops[0]).Returned? {
      ApplyKeepsConsistent(st, ops[0]);
      RunKeepsConsistent(Apply(st, ops[0]).store, ops[1..]);
    }
  }

  lemma ReachableIsConsistent(ops: seq<Op>)
    ensures Consistent(RunOps(EMPTY, ops))
  {
    EmptyIsConsistent();
    RunKeepsConsistent(EMPTY, ops);
  }

  // ---------- A search that never ends ----------

  /** A request to add a container's context that lacks nothing. */
  predicate Complete(op: Op) {
    && op.AddWithContainer?
    && op.id != "" && op.image != "" && op.port != 0 && op.username != "" && op.password != "" && op.contextName != ""
  }

  lemma AddedNames(st: Store, op: Op)
    requires Complete(op) && Settles(st, op.contextName, op.username)
    ensures Apply(st, op).Returned?
    ensures var name, st' := UniqueContext(st, op.contextName, op.username), Apply(st, op).store;
      && ContextNames(st'.contexts) == ContextNames(st.contexts) + [name]
      && UserNames(st'.users) == UserNames(st.users) + [Login(op.username, name)]
  {
  }

  /** Deleting the only or the first context of that name leaves the users alone. */
  lemma DeletedFirst(st: Store, name: string)
    requires st.contexts != [] && st.contexts[0].name == name
    ensures Apply(st, DeleteContext(name)) == Returned(WithoutContext(st, 0))
    ensures ContextNames(WithoutContext(st, 0).contexts) == ContextNames(st.contexts)[1..]
  {
    assert ContextNames(st.contexts)[0] == name;
  }

  lemma SecondNumber(taken: seq<string>, name: string)
    requires Numbered(name, 2) !in taken
    ensures FirstFree(taken, name, 2) == 2
  {
  }

  /**
   Adding a container's context twice and deleting both contexts leaves their users behind, and adding
   it once more searches for ever.
   */
  lemma LeftoverUsersBlockTheName(add: Op)
    requires Complete(add)
    ensures var name := add.contextName;
      var st := RunOps(EMPTY, [add, add, DeleteContext(name), DeleteContext(Numbered(name, 2))]);
      st.contexts == [] && Apply(st, add) == Diverges
  {
    hide UniqueContext, Itoa, FirstFree, Apply, RunOps;
    var name, user := add.contextName, add.username;
    var second := Numbered(name, 2);
    NumberedInjective(name, 2, 2);
    var ops := [add, add, DeleteContext(name), DeleteContext(second)];

    AddedNames(EMPTY, add);
    var st1 := Apply(EMPTY, add).store;
    UniqueIsPlain(EMPTY, name, user);
    assert ContextNames(st1.contexts) == [name] && UserNames(st1.users) == [Login(user, name)];

    SecondNumber(ContextNames(st1.contexts), name);
    assert |Login(user, second)| > |Login(user, name)|;
    UniqueIsSecond(st1, name, user);
    AddedNames(st1, add);
    var st2 := Apply(st1, add).store;
    assert ContextNames(st2.contexts) == [name, second];
    assert UserNames(st2.users) == [Login(user, name), Login(user, second)];

    assert st2.contexts[0].name == ContextNames(st2.contexts)[0];
    DeletedFirst(st2, name);
    var st3 := WithoutContext(st2, 0);
    assert ContextNames(st3.contexts) == [second];
    assert st3.contexts[0].name == ContextNames(st3.contexts)[0];
    DeletedFirst(st3, second);
    var st4 := WithoutContext(st3, 0);
    assert |ContextNames(st4.contexts)| == 0;

    RunOfFour(EMPTY, ops, st1, st2, st3, st4);
    SecondNumber(ContextNames(st4.contexts), name);
    assert UserNames(st4.users)[0] == Login(user, name) && UserNames(st4.users)[1] == Login(user, second);
    UnsettledDiverges(st4, add);
  }

  lemma UnsettledDiverges(st: Store, op: Op)
    requires Complete(op) && !Settles(st, op.contextName, op.username)
    ensures Apply(st, op) == Diverges
  {
  }

  lemma UniqueIsPlain(st: Store, name: string, username: string)
    requires BothFree(st, name, username)
    ensures UniqueContext(st, name, username) == name
  {
  }

  lemma UniqueIsSecond(st: Store, name: string, username: string)
    requires !BothFree(st, name, username) && Stop(st, name) == 2 && BothFree(st, Numbered(name, 2), username)
    ensures Settles(st, name, username) && UniqueContext(st, name, username) == Numbered(name, 2)
  {
  }

  lemma RunOfFour(st0: Store, ops: seq<Op>, st1: Store, st2: Store, st3: Store, st4: Store)
    requires |ops| == 4 && Apply(st0, ops[0]) == Returned(st1) && Apply(st1, ops[1]) == Returned(st2)
    requires Apply(st2, ops[2]) == Returned(st3) && Apply(st3, ops[3]) == Returned(st4)
    ensures RunOps(st0, ops) == st4
  {
    hide Apply;
    var tail := ops[1..];
    assert tail[1..] == ops[2..] && ops[2..][1..] == ops[3..] && ops[3..][1..] == [];
    assert RunOps(st4, []) == st4;
    assert RunOps(st3, ops[3..]) == RunOps(st4, ops[3..][1..]);
    assert RunOps(st2, ops[2..]) == RunOps(st3, ops[2..][1..]);
    assert RunOps(st1, tail) == RunOps(st2, tail[1..]);
  }
}
