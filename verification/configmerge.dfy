/** The nested configuration of `utils.py`: the recursive merge `update_dict` performs, the
    merge `Config.retrieve_configuration` builds from it, and `Config.update_ssh_key_name`. */
module ConfigMerge {
  import opened Wrappers

  /** A YAML configuration value. `update_dict` only asks whether a value is a mapping, so
      strings, numbers and lists are all `Scalar`s here, carried by their text. */
  datatype Value = Scalar(text: string) | Dict(entries: map<string, Value>)

  /** A sequence of keys, outermost first. */
  type Path = seq<string>

  /** `v[p[0]][p[1]]...`: None when a key is missing or a non-mapping is indexed. */
  function Get(v: Value, p: Path): Option<Value>
    decreases |p|
  {
    if |p| == 0 then Some(v)
    else match v
      case Scalar(_) => None
      case Dict(m) => if p[0] in m then Get(m[p[0]], p[1..]) else None
  }

  predicate IsPrefix(a: Path, b: Path) {
    |a| <= |b| && b[..|a|] == a
  }

  /** `update_dict(base, upd)` returns normally: `upd` is a mapping (its `items()` are read)
      and, unless it is empty, `base` is a mapping too, every key of `upd` is already in
      `base` (`dct[k]` raises KeyError otherwise), and where `base` holds a mapping the update
      for that key merges into it in turn. */
  predicate Mergeable(base: Value, upd: Value)
    decreases upd
  {
    && upd.Dict?
    && (upd.entries != map[] ==>
          && base.Dict?
          && upd.entries.Keys <= base.entries.Keys
          && forall k :: k in upd.entries && base.entries[k].Dict? ==>
               Mergeable(base.entries[k], upd.entries[k]))
  }

  /** What `update_dict(base, upd)` leaves in `base`: a mapping keeps exactly the keys it
      had, none added and none lost; a non-mapping is only reached with an empty update. */
  function Merge(base: Value, upd: Value): (r: Value)
    requires Mergeable(base, upd)
    ensures base.Dict? <==> r.Dict?
    ensures r.Dict? ==> r.entries.Keys == base.entries.Keys
    ensures upd.entries == map[] ==> r == base
    decreases upd
  {
    if upd.entries == map[] then base
    else
      Dict(map k | k in base.entries ::
        if k !in upd.entries then base.entries[k]
        else if base.entries[k].Dict? then Merge(base.entries[k], upd.entries[k])
        else upd.entries[k])
  }

  /** `update_dict` as a total function: None when it would raise. */
  function UpdateDict(base: Value, upd: Value): Option<Value> {
    if Mergeable(base, upd) then Some(Merge(base, upd)) else None
  }

  /** A value the update names at a path where the base holds a non-mapping overwrites it. */
  lemma {:induction false} MergeOverridesScalars(base: Value, upd: Value, p: Path, x: Value)
    requires Mergeable(base, upd)
    requires |p| >= 1 && Get(upd, p) == Some(x)
    requires Get(base, p).Some? && !Get(base, p).value.Dict?
    ensures Get(Merge(base, upd), p) == Some(x)
    decreases |p|
  {
    var k := p[0];
    var r := Merge(base, upd);
    assert k in upd.entries && k in base.entries;
    if |p| > 1 {
      assert base.entries[k].Dict?;
      MergeOverridesScalars(base.entries[k], upd.entries[k], p[1..], x);
      assert r.entries[k] == Merge(base.entries[k], upd.entries[k]);
    }
  }

  /** A path the update does not reach keeps the value the base has there. */
  lemma {:induction false} MergeKeepsUnmentioned(base: Value, upd: Value, p: Path, y: Value)
    requires Mergeable(base, upd)
    requires Get(base, p) == Some(y) && Get(upd, p) == None
    ensures Get(Merge(base, upd), p) == Some(y)
    decreases |p|
  {
    var k := p[0];
    var r := Merge(base, upd);
    if k in upd.entries {
      assert base.entries[k].Dict? && Mergeable(base.entries[k], upd.entries[k]);
      MergeKeepsUnmentioned(base.entries[k], upd.entries[k], p[1..], y);
      assert r.entries[k] == Merge(base.entries[k], upd.entries[k]);
    }
  }

  /** Every path of the base is still there after the merge. */
  lemma {:induction false} MergeKeepsPaths(base: Value, upd: Value, p: Path)
    requires Mergeable(base, upd)
    requires Get(base, p).Some?
    ensures Get(Merge(base, upd), p).Some?
    decreases |p|
  {
    if |p| > 0 {
      var k := p[0];
      var r := Merge(base, upd);
      if k in upd.entries && base.entries[k].Dict? {
        if |p| > 1 {
          MergeKeepsPaths(base.entries[k], upd.entries[k], p[1..]);
        }
        assert r.entries[k] == Merge(base.entries[k], upd.entries[k]);
      }
    }
  }

  /** A mapping merged with itself is unchanged. */
  lemma {:induction false} MergeSelf(v: Value)
    requires v.Dict?
    ensures Mergeable(v, v) && Merge(v, v) == v
    decreases v
  {
    forall k | k in v.entries && v.entries[k].Dict?
      ensures Mergeable(v.entries[k], v.entries[k]) && Merge(v.entries[k], v.entries[k]) == v.entries[k]
    {
      MergeSelf(v.entries[k]);
    }
    assert Mergeable(v, v);
    var r := Merge(v, v);
    assert forall k :: k in v.entries ==> r.entries[k] == v.entries[k];
    assert r.entries == v.entries;
  }

  /** Applying the same update twice gives the same configuration as applying it once. */
  lemma {:induction false} MergeIdempotent(base: Value, upd: Value)
    requires Mergeable(base, upd)
    ensures Mergeable(Merge(base, upd), upd)
    ensures Merge(Merge(base, upd), upd) == Merge(base, upd)
    decreases upd
  {
    var once := Merge(base, upd);
    if upd.entries != map[] {
      forall k | k in upd.entries && once.entries[k].Dict?
        ensures Mergeable(once.entries[k], upd.entries[k])
        ensures Merge(once.entries[k], upd.entries[k]) == once.entries[k]
      {
        if base.entries[k].Dict? {
          MergeIdempotent(base.entries[k], upd.entries[k]);
        } else {
          MergeSelf(upd.entries[k]);
        }
      }
      assert Mergeable(once, upd);
      var twice := Merge(once, upd);
      assert forall k :: k in once.entries ==> twice.entries[k] == once.entries[k];
      assert twice.entries == once.entries;
    }
  }

  const PropertiesPath: Path := ["Ec2Instance", "Properties"]
  const KeyNamePath: Path := ["Ec2Instance", "Properties", "KeyName"]

  /** The user configuration used when the user has no configuration file. */
  const DefaultUserConfig: Value :=
    Dict(map["Ec2Instance" := Dict(map["Properties" := Dict(map["KeyName" := Scalar("id_rsa")])])])

  /** `Config.retrieve_configuration`: the user configuration merged onto a copy of the
      defaults. Values are immutable here, so the defaults the caller holds cannot change. */
  function RetrieveConfiguration(defaults: Value, user: Value): Option<Value> {
    UpdateDict(defaults, user)
  }

  /** The user's `KeyName` wins over the default one, and every setting the user file does
      not mention keeps its default. */
  lemma UserSettingsWin(defaults: Value, user: Value, key: Value)
    requires Mergeable(defaults, user)
    requires Get(defaults, KeyNamePath).Some? && !Get(defaults, KeyNamePath).value.Dict?
    requires Get(user, KeyNamePath) == Some(key)
    ensures RetrieveConfiguration(defaults, user).Some?
    ensures Get(RetrieveConfiguration(defaults, user).value, KeyNamePath) == Some(key)
    ensures forall p :: Get(user, p).None? && Get(defaults, p).Some? ==>
              Get(RetrieveConfiguration(defaults, user).value, p) == Get(defaults, p)
  {
    MergeOverridesScalars(defaults, user, KeyNamePath, key);
    forall p | Get(user, p).None? && Get(defaults, p).Some?
      ensures Get(Merge(defaults, user), p) == Get(defaults, p)
    {
      MergeKeepsUnmentioned(defaults, user, p, Get(defaults, p).value);
    }
  }

  /** `Put` can run: every proper prefix of the path leads to a mapping. */
  predicate CanPut(v: Value, p: Path)
    decreases |p|
  {
    v.Dict? && |p| >= 1 && (|p| == 1 || (p[0] in v.entries && CanPut(v.entries[p[0]], p[1..])))
  }

  /** Assigns `x` at path `p`; the last key is added when absent, as `dict.update` does. */
  function Put(v: Value, p: Path, x: Value): Value
    requires CanPut(v, p)
    decreases |p|
  {
    if |p| == 1 then Dict(v.entries[p[0] := x])
    else Dict(v.entries[p[0] := Put(v.entries[p[0]], p[1..], x)])
  }

  lemma {:induction false} PutThenGet(v: Value, p: Path, x: Value)
    requires CanPut(v, p)
    ensures Get(Put(v, p, x), p) == Some(x)
    decreases |p|
  {
    if |p| > 1 {
      PutThenGet(v.entries[p[0]], p[1..], x);
    }
  }

  /** A path that is neither a prefix nor an extension of `p` reads the same after `Put`. */
  lemma {:induction false} PutElsewhere(v: Value, p: Path, x: Value, q: Path)
    requires CanPut(v, p)
    requires !IsPrefix(p, q) && !IsPrefix(q, p)
    ensures Get(Put(v, p, x), q) == Get(v, q)
    decreases |p|
  {
    assert q != [];
    if q[0] == p[0] {
      assert |p| > 1;
      assert q == [q[0]] + q[1..] && p == [p[0]] + p[1..];
      PutElsewhere(v.entries[p[0]], p[1..], x, q[1..]);
    }
  }

  /** `Config.update_ssh_key_name`: sets `Ec2Instance.Properties.KeyName` in the user
      configuration. It fails (KeyError, TypeError or AttributeError) unless the user
      configuration holds a mapping at `Ec2Instance.Properties`; afterwards `KeyName` is
      the given name. */
  function UpdateSshKeyName(user: Value, key: string): (r: Option<Value>)
    ensures r.Some? <==> Get(user, PropertiesPath).Some? && Get(user, PropertiesPath).value.Dict?
    ensures r.Some? ==> Get(r.value, KeyNamePath) == Some(Scalar(key))
  {
    assert CanPut(user, KeyNamePath) <==>
           Get(user, PropertiesPath).Some? && Get(user, PropertiesPath).value.Dict?;
    if CanPut(user, KeyNamePath) then
      PutThenGet(user, KeyNamePath, Scalar(key));
      Some(Put(user, KeyNamePath, Scalar(key)))
    else None
  }

  /** `update_ssh_key_name` changes nothing but `KeyName`: every path that is neither a
      prefix of `Ec2Instance.Properties.KeyName` nor inside it reads as before. */
  lemma SshKeyNameOnlyChangesKeyName(user: Value, key: string, q: Path)
    requires UpdateSshKeyName(user, key).Some?
    requires !IsPrefix(q, KeyNamePath) && !IsPrefix(KeyNamePath, q)
    ensures Get(UpdateSshKeyName(user, key).value, q) == Get(user, q)
  {
    PutElsewhere(user, KeyNamePath, Scalar(key), q);
  }

  /** Without a user file, updating the key name always succeeds. */
  lemma DefaultUserConfigAcceptsKeyName(key: string)
    ensures UpdateSshKeyName(DefaultUserConfig, key).Some?
  {
    assert Get(DefaultUserConfig, PropertiesPath).Some?;
  }
}
