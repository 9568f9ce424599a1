/** The Docker context store as `docker_utils.py` uses it: create a context for a machine,
    look a context up by the IP address its host string carries, list them, check a name is
    free, remove one. The store is the listing `ContextAPI.contexts()` returns. */
module DockerContexts {
  import opened Wrappers
  import opened PyStr
  import opened SshHost

  /** A context as the code reads it: its name and its Docker host string. */
  datatype Context = Context(name: string, host: string)

  /** The listing of the context store, in listing order. */
  type Store = seq<Context>

  /** The exceptions the Docker library raises for the store. */
  datatype ContextError =
    | AlreadyExists(name: string)  // ContextAlreadyExists
    | Refused(name: string)        // any other ContextException, e.g. a reserved name

  /** The address a context points at: the host part `ssh_splitter` finds in its host string. */
  function HostIp(c: Context): string {
    SshSplit(c.host).host
  }

  predicate HasName(store: Store, name: string) {
    exists i :: 0 <= i < |store| && store[i].name == name
  }

  /** No two contexts share a name, as the Docker library keeps it. */
  predicate UniqueNames(store: Store) {
    forall i, j :: 0 <= i < j < |store| ==> store[i].name != store[j].name
  }

  /** The context at `i` is the first in listing order whose address is `ip`. */
  predicate FirstWithIp(store: Store, ip: string, i: nat) {
    i < |store| && HostIp(store[i]) == ip && forall j :: 0 <= j < i ==> HostIp(store[j]) != ip
  }

  /** The addresses of the contexts, in listing order. */
  function Addresses(store: Store): (a: seq<string>)
    ensures |a| == |store| && forall i :: 0 <= i < |a| ==> a[i] == HostIp(store[i])
  {
    seq(|store|, i requires 0 <= i < |store| => HostIp(store[i]))
  }

  /** The position of the first address at or after `from` that is `ip`. */
  function IndexOf(addrs: seq<string>, ip: string, from: nat): (r: Option<nat>)
    requires from <= |addrs|
    ensures r.None? <==> forall i :: from <= i < |addrs| ==> addrs[i] != ip
    ensures r.Some? ==> from <= r.value < |addrs| && addrs[r.value] == ip
    ensures r.Some? ==> forall j :: from <= j < r.value ==> addrs[j] != ip
    decreases |addrs| - from
  {
    if from == |addrs| then None
    else if addrs[from] == ip then Some(from)
    else IndexOf(addrs, ip, from + 1)
  }

  /** `find_context_name_from_instance_ip`: the name of the first context, in listing order,
      whose address is `ip`; None when no context has it. */
  function FindContextName(store: Store, ip: string): (r: Option<string>)
    ensures r.None? <==> forall i :: 0 <= i < |store| ==> HostIp(store[i]) != ip
    ensures r.Some? ==> exists i: nat :: FirstWithIp(store, ip, i) && store[i].name == r.value
  {
    var addrs := Addresses(store);
    match IndexOf(addrs, ip, 0)
    case None => None
    case Some(i) =>
      assert FirstWithIp(store, ip, i);
      Some(store[i].name)
  }

  /** `list_host_ip_for_all_contexts`: one `(name, address)` pair per context, in listing
      order. */
  function ListHostIps(store: Store): (r: seq<(string, string)>)
    ensures |r| == |store|
    ensures forall i :: 0 <= i < |r| ==> r[i] == (store[i].name, HostIp(store[i]))
  {
    if |store| == 0 then [] else [(store[0].name, HostIp(store[0]))] + ListHostIps(store[1..])
  }

  /** The name of the first pair carrying `ip`, read off a list of pairs. */
  function LookUpPairs(pairs: seq<(string, string)>, ip: string): (r: Option<string>)
    ensures r.None? <==> forall i :: 0 <= i < |pairs| ==> pairs[i].1 != ip
    ensures r.Some? ==> exists i :: 0 <= i < |pairs| && pairs[i] == (r.value, ip)
                                    && forall j :: 0 <= j < i ==> pairs[j].1 != ip
  {
    if |pairs| == 0 then None
    else if pairs[0].1 == ip then Some(pairs[0].0)
    else
      var r := LookUpPairs(pairs[1..], ip);
      assert forall j :: 1 <= j < |pairs| ==> pairs[j] == pairs[1..][j - 1];
      if r.Some? then
        var i :| 0 <= i < |pairs[1..]| && pairs[1..][i] == (r.value, ip)
                 && forall j :: 0 <= j < i ==> pairs[1..][j].1 != ip;
        assert pairs[i + 1] == (r.value, ip);
        r
      else r
  }

  /** The listing of pairs answers the same lookups as `find_context_name_from_instance_ip`:
      both find the first context whose address is `ip`. */
  lemma PairsAgreeWithFind(store: Store, ip: string)
    ensures LookUpPairs(ListHostIps(store), ip) == FindContextName(store, ip)
  {
    var pairs := ListHostIps(store);
    var found := FindContextName(store, ip);
    var looked := LookUpPairs(pairs, ip);
    if found.Some? {
      var i: nat :| FirstWithIp(store, ip, i) && store[i].name == found.value;
      var j :| 0 <= j < |pairs| && pairs[j] == (looked.value, ip)
               && forall k :: 0 <= k < j ==> pairs[k].1 != ip;
      assert pairs[i].1 == ip;
      assert HostIp(store[j]) == ip;
      assert i == j;
    }
  }

  /** `check_docker_context_does_not_exist`: True when no context has the name, otherwise
      ContextAlreadyExists carrying the name. */
  method CheckDoesNotExist(store: Store, name: string) returns (r: Result<bool, ContextError>)
    ensures r.Success? <==> !HasName(store, name)
    ensures r.Success? ==> r.value
    ensures r.Failure? ==> r.error == AlreadyExists(name)
  {
    var i := 0;
    while i < |store|
      invariant 0 <= i <= |store|
      invariant forall j :: 0 <= j < i ==> store[j].name != name
    {
      if store[i].name == name {
        return Failure(AlreadyExists(name));
      }
      i := i + 1;
    }
    return Success(true);
  }

  /** `create_docker_context(name, ip, port, user)`: a context named `name` pointing at
      `ssh://user@ip:port` joins the store, unless the name is taken or the library refuses
      the context for another reason (`refused`, the library's own validation), which is
      re-raised. */
  function CreateContext(store: Store, name: string, ip: string, port: int, user: string,
                         refused: bool): (r: Result<Store, ContextError>)
    ensures HasName(store, name) ==> r == Failure(AlreadyExists(name))
    ensures !HasName(store, name) && refused ==> r == Failure(Refused(name))
    ensures r.Success? ==> |r.value| == |store| + 1 && r.value[..|store|] == store
    ensures r.Success? ==> r.value[|store|] == Context(name, ContextHost(ip, port, user))
  {
    if HasName(store, name) then Failure(AlreadyExists(name))
    else if refused then Failure(Refused(name))
    else Success(store + [Context(name, ContextHost(ip, port, user))])
  }

  /** Creating keeps names unique. */
  lemma CreateKeepsNamesUnique(store: Store, name: string, ip: string, port: int, user: string,
                               refused: bool)
    requires UniqueNames(store)
    requires CreateContext(store, name, ip, port, user, refused).Success?
    ensures UniqueNames(CreateContext(store, name, ip, port, user, refused).value)
  {
    var s := CreateContext(store, name, ip, port, user, refused).value;
    forall i, j | 0 <= i < j < |s|
      ensures s[i].name != s[j].name
    {
      if j < |store| {
        assert s[i] == store[i] && s[j] == store[j];
      } else {
        assert s[i] == store[i];
      }
    }
  }

  /** After a successful create, looking up the address finds the new context, unless an
      older context already points at the same address. */
  lemma FindAfterCreate(store: Store, name: string, ip: string, port: int, user: string,
                        refused: bool)
    requires ':' !in ip && '@' !in ip && ':' !in user
    requires forall i :: 0 <= i < |store| ==> HostIp(store[i]) != ip
    requires CreateContext(store, name, ip, port, user, refused).Success?
    ensures FindContextName(CreateContext(store, name, ip, port, user, refused).value, ip)
            == Some(name)
  {
    var s := CreateContext(store, name, ip, port, user, refused).value;
    ContextHostParses(ip, port, user);
    assert HostIp(s[|store|]) == ip;
    var r := FindContextName(s, ip);
    assert forall i :: 0 <= i < |store| ==> s[i] == store[i];
    var k: nat :| FirstWithIp(s, ip, k) && s[k].name == r.value;
  }

  /** The store without the contexts named `name`, the others in their order. */
  function WithoutName(store: Store, name: string): (r: Store)
    ensures forall c :: c in r <==> c in store && c.name != name
    ensures |r| <= |store|
  {
    if |store| == 0 then []
    else (if store[0].name == name then [] else [store[0]]) + WithoutName(store[1..], name)
  }

  /** `remove_docker_context`: the context named `name` is removed and the new listing is
      returned; a missing name (ContextNotFound) is not an error. Any other refusal of the
      library (`refused`, e.g. the reserved name `default`) is re-raised. */
  function RemoveContext(store: Store, name: string, refused: set<string>)
    : (r: Result<Store, ContextError>)
    ensures r.Failure? <==> name in refused
    ensures r.Failure? ==> r.error == Refused(name)
    ensures r.Success? ==> !HasName(r.value, name)
    ensures r.Success? ==> forall c: Context :: c.name != name ==> (c in r.value <==> c in store)
  {
    if name in refused then Failure(Refused(name)) else Success(WithoutName(store, name))
  }

  /** Removing a name nobody has gives the same listing back. */
  lemma {:induction false} RemoveAbsentName(store: Store, name: string)
    requires !HasName(store, name)
    ensures WithoutName(store, name) == store
  {
    if |store| > 0 {
      assert !HasName(store[1..], name) by {
        forall i | 0 <= i < |store[1..]|
          ensures store[1..][i].name != name
        {
          assert store[1..][i] == store[i + 1];
        }
      }
      RemoveAbsentName(store[1..], name);
      assert store == [store[0]] + store[1..];
    }
  }

  /** Removing is idempotent. */
  lemma RemoveTwice(store: Store, name: string)
    ensures WithoutName(WithoutName(store, name), name) == WithoutName(store, name)
  {
    var once := WithoutName(store, name);
    assert !HasName(once, name) by {
      forall i | 0 <= i < |once|
        ensures once[i].name != name
      {
        assert once[i] in once;
      }
    }
    RemoveAbsentName(once, name);
  }

  /** Removing keeps names unique. */
  lemma {:induction false} WithoutNameKeepsUnique(store: Store, name: string)
    requires UniqueNames(store)
    ensures UniqueNames(WithoutName(store, name))
  {
    if |store| > 0 {
      var tail := store[1..];
      assert UniqueNames(tail) by {
        forall i, j | 0 <= i < j < |tail|
          ensures tail[i].name != tail[j].name
        {
          assert tail[i] == store[i + 1] && tail[j] == store[j + 1];
        }
      }
      WithoutNameKeepsUnique(tail, name);
      var rest := WithoutName(tail, name);
      assert forall c :: c in rest ==> c.name != store[0].name by {
        forall c | c in rest
          ensures c.name != store[0].name
        {
          var k :| 0 <= k < |tail| && tail[k] == c;
          assert store[k + 1] == c;
        }
      }
      if store[0].name != name {
        var r := [store[0]] + rest;
        forall i, j | 0 <= i < j < |r|
          ensures r[i].name != r[j].name
        {
          assert r[j] == rest[j - 1] && r[j] in rest;
          if i > 0 {
            assert r[i] == rest[i - 1];
          }
        }
      }
    }
  }
}
