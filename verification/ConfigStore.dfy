/** The configuration object: its methods search, append and cut lists as Config.Apply says. */
module ConfigStore {
  import opened Runes
  import opened UniqueNames
  import opened Config
  import opened Connections

  class Sqlconfig {
    var contexts: seq<Context>
    var endpoints: seq<Endpoint>
    var users: seq<User>
    var currentContext: string

    constructor ()
      ensures Store() == EMPTY
    {
      contexts, endpoints, users, currentContext := [], [], [], "";
    }

    function Store(): Store
      reads this
    {
      Config.Store(contexts, endpoints, users, currentContext)
    }

    method ContextExists(name: string) returns (exists_: bool)
      ensures exists_ <==> name in ContextNames(contexts)
    {
      exists_ := NameExists(ContextNames(contexts), name);
    }

    method EndpointNameExists(name: string) returns (exists_: bool)
      ensures exists_ <==> name in EndpointNames(endpoints)
    {
      exists_ := NameExists(EndpointNames(endpoints), name);
    }

    method UserNameExists(name: string) returns (exists_: bool)
      ensures exists_ <==> name in UserNames(users)
    {
      exists_ := NameExists(UserNames(users), name);
    }

    /** Position of the first element with the name, or the length of the list. */
    static method Ordinal(names: seq<string>, name: string) returns (ordinal: nat)
      ensures ordinal == FirstIndex(names, name)
    {
      ordinal := 0;
      while ordinal < |names|
        invariant 0 <= ordinal <= |names| && name !in names[..ordinal]
      {
        if names[ordinal] == name {
          break;
        }
        ordinal := ordinal + 1;
      }
      FirstIndexUnique(names, name, ordinal);
    }

    /** Searches for ever unless Settles holds; that is the least a caller must know. */
    method FindUniqueContextName(name: string, username: string) returns (unique: string)
      requires Settles(Store(), name, username)
      ensures unique == UniqueContext(Store(), name, username)
    {
      var contextTaken := ContextExists(name);
      if !contextTaken {
        var userTaken := UserNameExists(Login(username, name));
        if !userTaken {
          return name;
        }
      }
      var postfixNumber: nat := 2;
      while true
        invariant 2 <= postfixNumber <= Stop(Store(), name)
        decreases Stop(Store(), name) - postfixNumber
      {
        unique := Numbered(name, postfixNumber);
        contextTaken := ContextExists(unique);
        if !contextTaken {
          var userTaken := UserNameExists(Login(username, unique));
          if !userTaken {
            break;
          }
        } else {
          postfixNumber := postfixNumber + 1;
        }
      }
    }

    method AddContext(context: Context) returns (outcome: Option<string>)
      requires context.endpoint != "" && context.endpoint in EndpointNames(endpoints) ==>
                 Settles(Store(), context.name, ContextUser(context))
      modifies this
      ensures Moved(old(Store()), Op.AddContext(context), outcome.Some?)
      ensures outcome.Some? ==> contexts != [] && outcome.value == contexts[|contexts| - 1].name
    {
      if context.endpoint == "" {
        return None;
      }
      var known := EndpointNameExists(context.endpoint);
      if !known {
        return None;
      }
      var username := if context.user.Some? then context.user.value else "";
      var name := FindUniqueContextName(context.name, username);
      var user := context.user;
      if user == Some("") {
        user := None;
      }
      contexts := contexts + [Context(name, context.endpoint, user)];
      return Some(name);
    }

    /** The store is what the operation makes of st, or st if the operation panics. */
    ghost predicate Moved(st: Store, op: Op, returned: bool)
      reads this
    {
      match Apply(st, op)
      case Returned(st') => returned && Store() == st'
      case Panicked => !returned && Store() == st
      case Diverges => false
    }

    method DeleteContext(name: string)
      modifies this
      ensures Moved(old(Store()), Op.DeleteContext(name), true)
    {
      var known := ContextExists(name);
      if known {
        var ordinal := Ordinal(ContextNames(contexts), name);
        contexts := contexts[..ordinal] + contexts[ordinal + 1..];
        currentContext := if |contexts| > 0 then contexts[0].name else "";
      }
    }

    method SetCurrentContextName(name: string) returns (ok: bool)
      modifies this
      ensures Moved(old(Store()), SetCurrent(name), ok)
    {
      ok := ContextExists(name);
      if ok {
        currentContext := name;
      }
    }

    method RemoveCurrentContext()
      modifies this
      ensures Moved(old(Store()), RemoveCurrent, true)
    {
      hide FirstIndex, ContextNames, EndpointNames, UserNames;
      var ci := Ordinal(ContextNames(contexts), currentContext);
      if ci < |contexts| {
        var c := contexts[ci];
        var ei := Ordinal(EndpointNames(endpoints), c.endpoint);
        if ei < |endpoints| {
          endpoints := endpoints[..ei] + endpoints[ei + 1..];
        }
        if c.user.Some? {
          var ui := Ordinal(UserNames(users), c.user.value);
          if ui < |users| {
            users := users[..ui] + users[ui + 1..];
          }
        }
        contexts := contexts[..ci] + contexts[ci + 1..];
      }
      currentContext := if |contexts| > 0 then contexts[0].name else "";
    }

    method AddEndpoint(endpoint: Endpoint) returns (name: string)
      modifies this
      ensures Moved(old(Store()), Op.AddEndpoint(endpoint), true)
      ensures name == UniqueName(EndpointNames(old(endpoints)), endpoint.name)
    {
      name := FindUniqueName(EndpointNames(endpoints), endpoint.name);
      endpoints := endpoints + [endpoint.(name := name)];
    }

    method DeleteEndpoint(name: string) returns (ok: bool)
      modifies this
      ensures Moved(old(Store()), Op.DeleteEndpoint(name), ok)
    {
      if name == "" {
        return false;
      }
      var known := EndpointNameExists(name);
      if known {
        var ordinal := Ordinal(EndpointNames(endpoints), name);
        endpoints := endpoints[..ordinal] + endpoints[ordinal + 1..];
      }
      return true;
    }

    method AddUser(user: User) returns (outcome: Option<string>)
      modifies this
      ensures Moved(old(Store()), Op.AddUser(user), outcome.Some?)
      ensures outcome.Some? ==> outcome.value == UniqueName(UserNames(old(users)), user.name)
    {
      var name := FindUniqueName(UserNames(users), user.name);
      if user.authenticationType == "basic" {
        if user.basicAuth.None? {
          return None;
        }
        if user.basicAuth.value.username == "" {
          return None;
        }
      }
      users := users + [user.(name := name)];
      return Some(name);
    }

    method DeleteUser(name: string)
      modifies this
      ensures Moved(old(Store()), Op.DeleteUser(name), true)
    {
      var known := UserNameExists(name);
      if known {
        var ordinal := Ordinal(UserNames(users), name);
        users := users[..ordinal] + users[ordinal + 1..];
      }
    }

    /** encrypted is the password as the encryption callback returns it. */
    method AddContextWithContainer(contextName: string, imageName: string, portNumber: int, containerId: string,
                                   username: string, password: string, passwordEncryption: string, encrypted: string)
      returns (ok: bool)
      requires containerId != "" && imageName != "" && portNumber != 0 && username != "" && password != "" && contextName != ""
               ==> Settles(Store(), contextName, username)
      modifies this
      ensures Moved(old(Store()), AddWithContainer(contextName, imageName, portNumber, containerId, username,
                                                   password, passwordEncryption, encrypted), ok)
    {
      if containerId == "" || imageName == "" || portNumber == 0 || username == "" || password == "" || contextName == "" {
        return false;
      }
      var name := FindUniqueContextName(contextName, username);
      var endpointName := FindUniqueName(EndpointNames(endpoints), name);
      var userName := username + "@" + name;
      currentContext := name;
      endpoints := endpoints + [Endpoint(endpointName, "127.0.0.1", portNumber, Some(Container(containerId, imageName)))];
      contexts := contexts + [Context(name, endpointName, Some(userName))];
      users := users + [User(userName, "basic", Some(BasicAuth(username, passwordEncryption, encrypted)))];
      return true;
    }

    /** The endpoint and the user of the current context, or None for a panic. */
    method CurrentContext() returns (r: Option<(Endpoint, Option<User>)>)
      ensures r == Current(Store())
    {
      hide FirstIndex, ContextNames, EndpointNames, UserNames;
      if currentContext == "" {
        return None;
      }
      var found, i := NOTHING, 0;
      while i < |contexts|
        invariant 0 <= i <= |contexts|
        invariant Sought(Store(), contexts, NOTHING) == Sought(Store(), contexts[i..], found)
      {
        var c := contexts[i];
        assert contexts[i..][0] == c && contexts[i..][1..] == contexts[i + 1..];
        if c.name == currentContext {
          var ei := Ordinal(EndpointNames(endpoints), c.endpoint);
          var endpoint := if ei < |endpoints| then Some(endpoints[ei]) else found.endpoint;
          var user := found.user;
          if c.user.Some? && c.user.value != "" {
            var ui := Ordinal(UserNames(users), c.user.value);
            if ui < |users| {
              user := Some(users[ui]);
            }
          }
          found := Connection(endpoint, user);
        }
        i := i + 1;
      }
      assert contexts[i..] == [];
      if found.endpoint.None? {
        return None;
      }
      return Some((found.endpoint.value, found.user));
    }

    method Clean()
      modifies this
      ensures Moved(old(Store()), Op.Clean, true)
    {
      users, contexts, endpoints, currentContext := [], [], [], "";
    }
  }

  lemma FirstIndexUnique(names: seq<string>, name: string, i: nat)
    requires i <= |names| && name !in names[..i] && (i < |names| ==> names[i] == name)
    ensures FirstIndex(names, name) == i
  {
  }
}
