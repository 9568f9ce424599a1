/** The marker files of `utils.py`: one empty file per created machine, named `name@ip`, in
    the configuration directory. `register_instance` touches one and `deregister_instance`
    deletes one. The directory is modelled by the names of its files, in listing order. */
module Markers {
  import opened PyStr

  /** The marker name `register_instance` and `deregister_instance` build. */
  function MarkerName(name: string, ip: string): string {
    name + "@" + ip
  }

  /** A marker built from a name and an address without `@` splits back into the two. */
  lemma MarkerNameSplits(name: string, ip: string)
    requires '@' !in name && '@' !in ip
    ensures Split(MarkerName(name, ip), '@') == [name, ip]
  {
    assert MarkerName(name, ip) == name + ['@'] + ip;
    SplitOnlySeparator(name, '@', ip);
  }

  /** A marker name that splits into two fields on `@` came from a name without `@`: the
      fields are the name and the address again. */
  lemma MarkerNameTwoFields(name: string, ip: string)
    requires '@' !in ip && |Split(MarkerName(name, ip), '@')| == 2
    ensures Split(MarkerName(name, ip), '@') == [name, ip]
  {
    var m := MarkerName(name, ip);
    SplitCount(m, '@');
    assert m == name + ['@'] + ip;
    assert multiset(m) == multiset(name) + multiset{'@'} + multiset(ip);
    assert multiset(ip)['@'] == 0;
    assert '@' !in name;
    MarkerNameSplits(name, ip);
  }

  /** The file names of the marker directory, in listing order. */
  type Directory = seq<string>

  /** A directory never lists a name twice. */
  predicate NoRepeats(d: Directory) {
    forall i, j :: 0 <= i < j < |d| ==> d[i] != d[j]
  }

  /** `d` without the file `m`, the other files in their order. */
  function Remove(d: Directory, m: string): (r: Directory)
    ensures forall x :: x in r <==> x in d && x != m
    ensures NoRepeats(d) ==> NoRepeats(r)
  {
    if |d| == 0 then []
    else
      var rest := Remove(d[1..], m);
      assert NoRepeats(d) ==> NoRepeats(d[1..]) && d[0] !in d[1..];
      if d[0] == m then rest else [d[0]] + rest
  }

  /** Removing a file that is not there leaves the directory alone. */
  lemma {:induction false} RemoveAbsent(d: Directory, m: string)
    requires m !in d
    ensures Remove(d, m) == d
  {
    if |d| > 0 {
      RemoveAbsent(d[1..], m);
      assert d == [d[0]] + d[1..];
    }
  }

  /** `register_instance`: `touch` creates the marker when it is missing; an existing marker
      stays where it is. Afterwards exactly the old files and the marker are there. */
  function Register(d: Directory, name: string, ip: string): (r: Directory)
    ensures forall x :: x in r <==> x in d || x == MarkerName(name, ip)
    ensures NoRepeats(d) ==> NoRepeats(r)
  {
    var m := MarkerName(name, ip);
    if m in d then d else d + [m]
  }

  /** `deregister_instance`: deletes the marker; a missing marker (FileNotFoundError) is
      ignored. Afterwards exactly the old files other than the marker are there. */
  function Deregister(d: Directory, name: string, ip: string): (r: Directory)
    ensures forall x :: x in r <==> x in d && x != MarkerName(name, ip)
    ensures NoRepeats(d) ==> NoRepeats(r)
  {
    Remove(d, MarkerName(name, ip))
  }

  /** Registering twice is registering once. */
  lemma RegisterIdempotent(d: Directory, name: string, ip: string)
    ensures Register(Register(d, name, ip), name, ip) == Register(d, name, ip)
  {
  }

  /** Deregistering a marker that is not there changes nothing. */
  lemma DeregisterAbsent(d: Directory, name: string, ip: string)
    requires MarkerName(name, ip) !in d
    ensures Deregister(d, name, ip) == d
  {
    RemoveAbsent(d, MarkerName(name, ip));
  }

  /** Deregistering undoes registering: the marker is gone, and a directory that did not
      hold it before is given back exactly. */
  lemma RegisterThenDeregister(d: Directory, name: string, ip: string)
    ensures MarkerName(name, ip) !in Deregister(Register(d, name, ip), name, ip)
    ensures MarkerName(name, ip) !in d ==> Deregister(Register(d, name, ip), name, ip) == d
  {
    var m := MarkerName(name, ip);
    if m !in d {
      RemoveAppended(d, m);
      RemoveAbsent(d, m);
    }
  }

  lemma {:induction false} RemoveAppended(d: Directory, m: string)
    ensures Remove(d + [m], m) == Remove(d, m)
  {
    if |d| == 0 {
      assert d + [m] == [m];
      assert [m][1..] == [];
    } else {
      assert (d + [m])[0] == d[0];
      assert (d + [m])[1..] == d[1..] + [m];
      RemoveAppended(d[1..], m);
    }
  }
}
