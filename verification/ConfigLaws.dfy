/**
 What configuration operations take away: which context, endpoint and user are gone and which stay, which
 context is current then, what one call undoes of another, and when a context loses its endpoint.
 */
module ConfigLaws {
  import opened Runes
  import opened UniqueNames
  import opened Config

  /** after is before without its element at i, or before itself when there is no i. */
  predicate Gone<T(==)>(before: seq<T>, after: seq<T>, i: Option<nat>) {
    match i
    case None => after == before
    case Some(k) =>
      && |after| + 1 == |before| && k < |before|
      && (forall j :: 0 <= j < k ==> after[j] == before[j])
      && (forall j :: k < j < |before| ==> after[j - 1] == before[j])
  }

  /** i is where name stands first, if it does. */
  predicate First(names: seq<string>, name: string, i: Option<nat>) {
    match i
    case None => forall j :: 0 <= j < |names| ==> names[j] != name
    case Some(k) => k < |names| && names[k] == name && forall j :: 0 <= j < k ==> names[j] != name
  }

  predicate FirstContext(st: Store, name: string, i: Option<nat>) {
    First(ContextNames(st.contexts), name, i)
  }

  function Where(names: seq<string>, name: string): (i: Option<nat>)
    ensures First(names, name, i)
  {
    var k := FirstIndex(names, name);
    if k < |names| then
      assert forall j | 0 <= j < k :: names[j] == names[..k][j];
      Some(k)
    else None
  }

  lemma WithoutIsGone<T>(xs: seq<T>, names: seq<string>, name: string)
    requires |names| == |xs|
    ensures Gone(xs, Without(xs, FirstIndex(names, name)), Where(names, name))
  {
    hide FirstIndex;
  }

  // ---------- What goes and what stays ----------

  /** Deleting a user takes away the first of that name and nothing else. */
  lemma DeletedUser(st: Store, name: string)
    ensures var r := Apply(st, DeleteUser(name));
            && r.Returned? && r.store == st.(users := r.store.users)
            && Gone(st.users, r.store.users, Where(UserNames(st.users), name))
  {
    WithoutIsGone(st.users, UserNames(st.users), name);
  }

  lemma DeletedEndpoint(st: Store, name: string)
    ensures var r := Apply(st, DeleteEndpoint(name));
            && (r.Panicked? <==> name == "")
            && (name != "" ==>
                  && r.Returned? && r.store == st.(endpoints := r.store.endpoints)
                  && Gone(st.endpoints, r.store.endpoints, Where(EndpointNames(st.endpoints), name)))
  {
    WithoutIsGone(st.endpoints, EndpointNames(st.endpoints), name);
  }

  /** The first context is current, if there is one. */
  predicate FirstIsCurrent(st: Store) {
    st.current == if st.contexts == [] then "" else st.contexts[0].name
  }

  /** Deleting a context leaves its endpoint and its user; the first context that is left becomes current. */
  lemma DeletedContext(st: Store, name: string)
    ensures var r := Apply(st, DeleteContext(name));
            var i := Where(ContextNames(st.contexts), name);
            && r.Returned? && r.store == st.(contexts := r.store.contexts, current := r.store.current)
            && Gone(st.contexts, r.store.contexts, i)
            && (i.Some? ==> FirstIsCurrent(r.store)) && (i.None? ==> r.store == st)
  {
    WithoutIsGone(st.contexts, ContextNames(st.contexts), name);
  }

  /** Removing the current context takes its endpoint and its user with it. */
  lemma RemovedCurrent(st: Store)
    ensures var r := Apply(st, RemoveCurrent);
            var i := Where(ContextNames(st.contexts), st.current);
            && r.Returned? && FirstIsCurrent(r.store) && Gone(st.contexts, r.store.contexts, i)
            && match i
               case None => r.store.endpoints == st.endpoints && r.store.users == st.users
               case Some(k) =>
                 var c := st.contexts[k];
                 && Gone(st.endpoints, r.store.endpoints, Where(EndpointNames(st.endpoints), c.endpoint))
                 && Gone(st.users, r.store.users,
                         if c.user.None? then None else Where(UserNames(st.users), c.user.value))
  {
    hide FirstIndex;
    WithoutIsGone(st.contexts, ContextNames(st.contexts), st.current);
    var i := Where(ContextNames(st.contexts), st.current);
    if i.Some? {
      var c := st.contexts[i.value];
      WithoutIsGone(st.endpoints, EndpointNames(st.endpoints), c.endpoint);
      if c.user.Some? {
        WithoutIsGone(st.users, UserNames(st.users), c.user.value);
      }
    }
  }

  /** In a consistent configuration nothing of that name is left. */
  lemma GoneForGood(names: seq<string>, name: string)
    requires Distinct(names)
    ensures name !in Without(names, FirstIndex(names, name))
    ensures forall other | other != name :: other in Without(names, FirstIndex(names, name)) <==> other in names
  {
    var i := FirstIndex(names, name);
    if i < |names| {
      var left := Without(names, i);
      forall other | other != name && other in names ensures other in left {
        var j :| 0 <= j < |names| && names[j] == other;
        assert left[if j < i then j else j - 1] == other;
      }
    }
  }

  // ---------- What one call undoes ----------

  lemma AtTheEnd<T>(xs: seq<T>, names: seq<string>, x: T, name: string)
    requires |names| == |xs| && name !in names
    ensures FirstIndex(names + [name], name) == |xs|
    ensures Without(xs + [x], FirstIndex(names + [name], name)) == xs
  {
    var all, i := names + [name], FirstIndex(names + [name], name);
    assert all[|names|] == name && forall j | 0 <= j < |names| :: all[j] == names[j];
  }

  /** Removing the context that was just created, with its endpoint and its user, gives back what was there. */
  lemma RemoveUndoesCreate(st: Store, contextName: string, image: string, port: int, id: string, username: string,
                           password: string, passwordEncryption: string, encrypted: string)
    requires Apply(st, AddWithContainer(contextName, image, port, id, username, password, passwordEncryption, encrypted)).Returned?
    ensures var added := Apply(st, AddWithContainer(contextName, image, port, id, username, password, passwordEncryption, encrypted)).store;
            Apply(added, RemoveCurrent) == Returned(st.(current := FirstName(st.contexts)))
  {
    hide FirstIndex, UniqueName, FirstFree;
    var added := Apply(st, AddWithContainer(contextName, image, port, id, username, password, passwordEncryption, encrypted)).store;
    var (c, e, u) := (added.contexts[|st.contexts|], added.endpoints[|st.endpoints|], added.users[|st.users|]);
    NamesOfLists(st, c, e, u, 0);
    AtTheEnd(st.contexts, ContextNames(st.contexts), c, c.name);
    AtTheEnd(st.endpoints, EndpointNames(st.endpoints), e, e.name);
    AtTheEnd(st.users, UserNames(st.users), u, u.name);
  }

  /** Deleting the endpoint that was just added gives back what was there. */
  lemma DeleteUndoesAddEndpoint(st: Store, endpoint: Endpoint)
    ensures var name := UniqueName(EndpointNames(st.endpoints), endpoint.name);
            name != "" ==> Apply(Apply(st, AddEndpoint(endpoint)).store, DeleteEndpoint(name)) == Returned(st)
  {
    hide FirstIndex, FirstFree, EndpointNames;
    var e := endpoint.(name := UniqueName(EndpointNames(st.endpoints), endpoint.name));
    NamesOfLists(st, Context("", "", None), e, User("", "", None), 0);
    AtTheEnd(st.endpoints, EndpointNames(st.endpoints), e, e.name);
  }

  lemma DeleteUndoesAddUser(st: Store, user: User)
    requires Apply(st, AddUser(user)).Returned?
    ensures var name := UniqueName(UserNames(st.users), user.name);
            Apply(Apply(st, AddUser(user)).store, DeleteUser(name)) == Returned(st)
  {
    hide FirstIndex, FirstFree, UserNames;
    var u := user.(name := UniqueName(UserNames(st.users), user.name));
    NamesOfLists(st, Context("", "", None), Endpoint("", "", 0, None), u, 0);
    AtTheEnd(st.users, UserNames(st.users), u, u.name);
  }

  lemma DeleteUndoesAddContext(st: Store, context: Context)
    requires Apply(st, AddContext(context)).Returned?
    ensures var name := UniqueContext(st, context.name, ContextUser(context));
            Apply(Apply(st, AddContext(context)).store, DeleteContext(name)) == Returned(st.(current := FirstName(st.contexts)))
  {
    hide FirstIndex, FirstFree, ContextNames;
    var c := Apply(st, AddContext(context)).store.contexts[|st.contexts|];
    NamesOfLists(st, c, Endpoint("", "", 0, None), User("", "", None), 0);
    AtTheEnd(st.contexts, ContextNames(st.contexts), c, c.name);
  }

  // ---------- Contexts without an endpoint ----------

  /** Every context has an endpoint, as connecting to it demands. */
  predicate Connected(st: Store) {
    forall k :: 0 <= k < |st.contexts| ==> st.contexts[k].endpoint in EndpointNames(st.endpoints)
  }

  /** No context but the one at i names the endpoint. */
  predicate OnlyUser(st: Store, endpoint: string, i: nat) {
    forall k :: 0 <= k < |st.contexts| && k != i ==> st.contexts[k].endpoint != endpoint
  }

  /** The operation takes away no endpoint that a context names which stays. */
  predicate LeavesEndpoints(st: Store, op: Op) {
    match op
    case DeleteEndpoint(name) => OnlyUser(st, name, |st.contexts|)
    case RemoveCurrent =>
      var i := FirstIndex(ContextNames(st.contexts), st.current);
      i < |st.contexts| ==> OnlyUser(st, st.contexts[i].endpoint, i)
    case _ => true
  }

  lemma ContextsStay(st: Store, i: nat, endpoints: seq<Endpoint>, users: seq<User>, current: string)
    ensures Connected(Store(Without(st.contexts, i), endpoints, users, current)) <==>
            forall k :: 0 <= k < |st.contexts| && k != i ==> st.contexts[k].endpoint in EndpointNames(endpoints)
  {
    hide EndpointNames;
    var after := Without(st.contexts, i);
    if forall k :: 0 <= k < |after| ==> after[k].endpoint in EndpointNames(endpoints) {
      forall k | 0 <= k < |st.contexts| && k != i ensures st.contexts[k].endpoint in EndpointNames(endpoints) {
        assert st.contexts[k] == after[if k < i || i >= |st.contexts| then k else k - 1];
      }
    }
  }

  lemma EndpointGoes(st: Store, name: string, i: nat)
    requires Distinct(EndpointNames(st.endpoints)) && Connected(st)
    ensures var left := Without(st.endpoints, FirstIndex(EndpointNames(st.endpoints), name));
            (forall k :: 0 <= k < |st.contexts| && k != i ==> st.contexts[k].endpoint in EndpointNames(left)) <==>
            OnlyUser(st, name, i)
  {
    hide FirstIndex, EndpointNames;
    var names := EndpointNames(st.endpoints);
    GoneForGood(names, name);
    NamesOfLists(st, Context("", "", None), Endpoint("", "", 0, None), User("", "", None), FirstIndex(names, name));
  }

  /**
   An operation keeps every context connected exactly when it takes away no endpoint that another
   context names: contexts may share an endpoint, and removing one of them strands the others.
   */
  lemma ConnectedIff(st: Store, op: Op)
    requires Consistent(st) && Connected(st) && Apply(st, op).Returned?
    ensures Connected(Apply(st, op).store) <==> LeavesEndpoints(st, op)
  {
    hide FirstIndex, UniqueName, FirstFree, Settles;
    match op {
      case DeleteEndpoint(name) =>
        EndpointGoes(st, name, |st.contexts|);
      case RemoveCurrent =>
        var i := FirstIndex(ContextNames(st.contexts), st.current);
        if i < |st.contexts| {
          var after := WithoutCurrent(st);
          EndpointGoes(st, st.contexts[i].endpoint, i);
          ContextsStay(st, i, after.endpoints, after.users, after.current);
        }
      case DeleteContext(name) =>
        var i := FirstIndex(ContextNames(st.contexts), name);
        var after := Apply(st, op).store;
        ContextsStay(st, i, st.endpoints, st.users, after.current);
      case AddWithContainer(_, _, _, _, _, _, _, _) =>
        var after := Apply(st, op).store;
        NamesOfLists(st, after.contexts[0], after.endpoints[|st.endpoints|], after.users[0], 0);
      case AddEndpoint(_) =>
        var after := Apply(st, op).store;
        NamesOfLists(st, Context("", "", None), after.endpoints[|st.endpoints|], User("", "", None), 0);
      case _ =>
    }
  }
}
