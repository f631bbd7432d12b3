/**
 Which server and login the current context stands for, when asking for it panics, and that a context
 that was just created stands for what it was created with.
 */
module Connections {
  import opened Runes
  import opened UniqueNames
  import opened Config
  import opened ConfigLaws

  datatype Connection = Connection(endpoint: Option<Endpoint>, user: Option<User>)

  const NOTHING := Connection(None, None)

  /** A context names a user if its user is there and not the empty name. */
  predicate NamesUser(c: Context) {
    c.user.Some? && c.user.value != ""
  }

  /** What a context of the current name puts in place of what was found before. */
  function Through(st: Store, c: Context, found: Connection): Connection {
    var e := FirstIndex(EndpointNames(st.endpoints), c.endpoint);
    var u := if NamesUser(c) then FirstIndex(UserNames(st.users), c.user.value) else |st.users|;
    Connection(
      if e < |st.endpoints| then Some(st.endpoints[e]) else found.endpoint,
      if u < |st.users| then Some(st.users[u]) else found.user)
  }

  /** The contexts one after the other; a later one of the current name replaces an earlier one. */
  function Sought(st: Store, contexts: seq<Context>, found: Connection): Connection {
    if contexts == [] then found
    else Sought(st, contexts[1..], if contexts[0].name == st.current then Through(st, contexts[0], found) else found)
  }

  /** The endpoint and the user of the current context; without an endpoint, the call panics. */
  function Current(st: Store): Option<(Endpoint, Option<User>)> {
    if st.current == "" then None
    else
      match Sought(st, st.contexts, NOTHING)
      case Connection(None, _) => None
      case Connection(Some(endpoint), user) => Some((endpoint, user))
  }

  // ---------- When there is a connection ----------

  lemma {:induction false} SoughtNothing(st: Store, contexts: seq<Context>, found: Connection)
    requires forall k :: 0 <= k < |contexts| ==> contexts[k].name != st.current
    ensures Sought(st, contexts, found) == found
  {
    if contexts != [] {
      SoughtNothing(st, contexts[1..], found);
    }
  }

  lemma {:induction false} SoughtOne(st: Store, contexts: seq<Context>, i: nat, found: Connection)
    requires i < |contexts| && contexts[i].name == st.current
    requires forall k :: 0 <= k < |contexts| && k != i ==> contexts[k].name != st.current
    ensures Sought(st, contexts, found) == Through(st, contexts[i], found)
  {
    hide Through;
    if i == 0 {
      SoughtNothing(st, contexts[1..], Through(st, contexts[0], found));
    } else {
      SoughtOne(st, contexts[1..], i - 1, found);
    }
  }

  /** The one context of the current name, in a consistent configuration. */
  lemma OnlyCurrent(st: Store, i: nat)
    requires Consistent(st) && i < |st.contexts| && st.contexts[i].name == st.current
    ensures Sought(st, st.contexts, NOTHING) == Through(st, st.contexts[i], NOTHING)
  {
    hide Sought, Through;
    forall k | 0 <= k < |st.contexts| && k != i ensures st.contexts[k].name != st.current {
      assert ContextNames(st.contexts)[k] == st.contexts[k].name && ContextNames(st.contexts)[i] == st.current;
    }
    SoughtOne(st, st.contexts, i, NOTHING);
  }

  /**
   Asking for the current context gives its endpoint, and its user if it has one, exactly when there is
   a current context and its endpoint exists; in every other case it panics.
   */
  lemma CurrentIff(st: Store)
    requires Consistent(st)
    ensures Current(st).Some? <==>
            st.current != "" && exists i :: 0 <= i < |st.contexts| && Stands(st, i)
    ensures forall i :: 0 <= i < |st.contexts| && Stands(st, i) && st.current != "" ==>
              && Current(st).value.0 in st.endpoints && Current(st).value.0.name == st.contexts[i].endpoint
              && (Current(st).value.1.Some? ==>
                    && Current(st).value.1.value in st.users
                    && st.contexts[i].user == Some(Current(st).value.1.value.name))
  {
    hide Sought, FirstIndex, Distinct;
    if st.current != "" {
      var names := ContextNames(st.contexts);
      var i := FirstIndex(names, st.current);
      assert names[i] == st.contexts[i].name;
      OnlyCurrent(st, i);
      forall j | 0 <= j < |st.contexts| && Stands(st, j) ensures j == i {
        SameName(st, i, j);
      }
      assert Current(st).Some? <==> Stands(st, i);
    }
  }

  lemma SameName(st: Store, i: nat, j: nat)
    requires Consistent(st) && i < |st.contexts| && j < |st.contexts| && st.contexts[i].name == st.contexts[j].name
    ensures i == j
  {
    var names := ContextNames(st.contexts);
    assert names[i] == st.contexts[i].name && names[j] == st.contexts[j].name;
  }

  /** The context at i is the current one, and its endpoint exists. */
  predicate Stands(st: Store, i: nat)
    requires i < |st.contexts|
  {
    st.contexts[i].name == st.current && st.contexts[i].endpoint in EndpointNames(st.endpoints)
  }

  /** With every context connected, there is a connection whenever there is a current context. */
  lemma ConnectedHasCurrent(st: Store)
    requires Consistent(st) && Connected(st) && st.current != ""
    ensures Current(st).Some?
  {
    hide Current;
    var names := ContextNames(st.contexts);
    var i := FirstIndex(names, st.current);
    assert names[i] == st.contexts[i].name;
    assert Stands(st, i);
    CurrentIff(st);
  }

  /** A run of operations that leave endpoints alone never makes asking for the current context panic. */
  lemma {:induction false} RunStaysConnected(st: Store, ops: seq<Op>)
    requires Consistent(st) && Connected(st) && Considerate(st, ops)
    ensures var after := RunOps(st, ops);
            Connected(after) && (after.current != "" ==> Current(after).Some?)
    decreases |ops|
  {
    hide Connected, Consistent, Apply, LeavesEndpoints, Current;
    if ops == [] || !Apply(st, ops[0]).Returned? {
      if st.current != "" {
        ConnectedHasCurrent(st);
      }
    } else {
      ApplyKeepsConsistent(st, ops[0]);
      ConnectedIff(st, ops[0]);
      RunStaysConnected(Apply(st, ops[0]).store, ops[1..]);
    }
  }

  /** No operation of the run takes away an endpoint that a context names which stays. */
  predicate Considerate(st: Store, ops: seq<Op>)
    decreases |ops|
  {
    ops != [] && Apply(st, ops[0]).Returned? ==>
      LeavesEndpoints(st, ops[0]) && Considerate(Apply(st, ops[0]).store, ops[1..])
  }

  // ---------- Created contexts ----------

  lemma LastIsFirst(names: seq<string>, name: string)
    requires name !in names
    ensures FirstIndex(names + [name], name) == |names|
  {
    AtTheEnd(names, names, name, name);
  }

  /** A context created for a container is current, and stands for its server and login. */
  lemma CreatedIsCurrent(st: Store, contextName: string, image: string, port: int, id: string, username: string,
                         password: string, passwordEncryption: string, encrypted: string)
    requires Consistent(st)
    requires Apply(st, AddWithContainer(contextName, image, port, id, username, password, passwordEncryption, encrypted)).Returned?
    ensures var added := Apply(st, AddWithContainer(contextName, image, port, id, username, password, passwordEncryption, encrypted)).store;
            var r := Current(added);
            && r.Some? && r.value.0.address == "127.0.0.1" && r.value.0.port == port
            && r.value.0.container == Some(Container(id, image))
            && added.contexts[|st.contexts|].name == added.current
            && r.value.1.Some? && r.value.1.value.name == username + "@" + added.current
            && r.value.1.value.authenticationType == "basic"
            && r.value.1.value.basicAuth == Some(BasicAuth(username, passwordEncryption, encrypted))
  {
    hide FirstIndex, UniqueName, FirstFree, Sought, Consistent;
    var op := AddWithContainer(contextName, image, port, id, username, password, passwordEncryption, encrypted);
    var added := Apply(st, op).store;
    ApplyKeepsConsistent(st, op);
    var (c, e, u) := (added.contexts[|st.contexts|], added.endpoints[|st.endpoints|], added.users[|st.users|]);
    NamesOfLists(st, c, e, u, 0);
    LastIsFirst(EndpointNames(st.endpoints), e.name);
    LastIsFirst(UserNames(st.users), u.name);
    assert c.name != "" by {
      NumberedIsLonger(contextName, Stop(st, contextName));
    }
    OnlyCurrent(added, |st.contexts|);
  }

  lemma NumberedIsLonger(name: string, k: nat)
    ensures |Numbered(name, k)| >= |name|
  {
  }

  // ---------- A context that lost its endpoint ----------

  /** Two contexts of one endpoint, the first of them current. */
  function Shared(a: string, b: string, endpoint: Endpoint): Store {
    Store([Context(a, endpoint.name, None), Context(b, endpoint.name, None)], [endpoint], [], a)
  }

  lemma SharedIsConnected(a: string, b: string, endpoint: Endpoint)
    requires a != "" && b != "" && a != b
    ensures var st := Shared(a, b, endpoint); Consistent(st) && Connected(st) && Current(st).Some?
  {
    hide Current;
    var st := Shared(a, b, endpoint);
    assert ContextNames(st.contexts) == [a, b] && EndpointNames(st.endpoints) == [endpoint.name] && UserNames(st.users) == [];
    assert [a, b][0] == a && [endpoint.name][0] == endpoint.name;
    ConnectedHasCurrent(st);
  }

  lemma SharedWithoutCurrent(a: string, b: string, endpoint: Endpoint)
    requires a != "" && b != "" && a != b
    ensures WithoutCurrent(Shared(a, b, endpoint)) == Store([Context(b, endpoint.name, None)], [], [], b)
  {
    var st := Shared(a, b, endpoint);
    assert ContextNames(st.contexts) == [a, b] && EndpointNames(st.endpoints) == [endpoint.name];
    assert [a, b][0] == a && [endpoint.name][0] == endpoint.name;
  }

  /** Removing the current one of the two leaves the other current, and without an endpoint. */
  lemma SharedEndpointIsLost(a: string, b: string, endpoint: Endpoint)
    requires a != "" && b != "" && a != b
    ensures var st := Shared(a, b, endpoint);
            && Consistent(st) && Connected(st) && Current(st).Some?
            && Apply(st, RemoveCurrent) == Returned(Store([Context(b, endpoint.name, None)], [], [], b))
            && Current(Apply(st, RemoveCurrent).store) == None
  {
    hide Current, WithoutCurrent, Consistent, Connected;
    SharedIsConnected(a, b, endpoint);
    SharedWithoutCurrent(a, b, endpoint);
    ApplyKeepsConsistent(Shared(a, b, endpoint), RemoveCurrent);
    CurrentIff(Store([Context(b, endpoint.name, None)], [], [], b));
  }
}
