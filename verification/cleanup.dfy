/** `clean_dangling_contexts` of `dev_machine.py`: every marker `name@ip` whose address no
    listed instance has any more is stale; its context is removed (errors swallowed), its
    file is deleted, and its name is reported. Everything else is left alone. */
module Cleanup {
  import opened Wrappers
  import opened PyStr
  import opened Markers
  import opened DockerContexts
  import opened DevMachine

  /** `lst_ips`: the public IP of every listed instance, whatever its state, None for an
      instance without one. */
  function InstanceIps(instances: seq<Instance>): (ips: seq<Option<string>>)
    ensures |ips| == |instances|
    ensures forall k :: 0 <= k < |ips| ==> ips[k] == instances[k].ip
  {
    if |instances| == 0 then [] else [instances[0].ip] + InstanceIps(instances[1..])
  }

  /** A marker is stale when `file.split("@")` gives exactly a name and an address and no
      instance has that address. Any other file name is skipped (the ValueError is caught). */
  predicate Stale(m: string, ips: seq<Option<string>>) {
    var parts := Split(m, '@');
    |parts| == 2 && Some(parts[1]) !in ips
  }

  /** The context name a marker carries: what precedes its `@`. */
  function NameOf(m: string): string {
    Split(m, '@')[0]
  }

  /** The names reported for markers visited in this order: one per stale marker. */
  function CleanedNames(markers: seq<string>, ips: seq<Option<string>>): seq<string> {
    if |markers| == 0 then []
    else
      var init, last := markers[..|markers| - 1], markers[|markers| - 1];
      CleanedNames(init, ips) + (if Stale(last, ips) then [NameOf(last)] else [])
  }

  /** The marker files left after the visit: the ones that are not stale, in order. */
  function KeptMarkers(markers: seq<string>, ips: seq<Option<string>>): seq<string> {
    if |markers| == 0 then []
    else
      var init, last := markers[..|markers| - 1], markers[|markers| - 1];
      KeptMarkers(init, ips) + (if Stale(last, ips) then [] else [last])
  }

  /** The context store after `remove_docker_context` was called for each name in turn; a
      refused removal raises, is swallowed, and leaves the store as it was. */
  function PruneContexts(store: Store, names: seq<string>, refused: set<string>): Store {
    if |names| == 0 then store
    else
      var s := PruneContexts(store, names[..|names| - 1], refused);
      var removed := RemoveContext(s, names[|names| - 1], refused);
      if removed.Success? then removed.value else s
  }

  /** A name is reported exactly when some stale marker carries it, and every marker is
      either reported or kept. */
  lemma {:induction false} CleanedNamesOfStale(markers: seq<string>, ips: seq<Option<string>>)
    ensures forall n :: n in CleanedNames(markers, ips) <==>
              exists m :: m in markers && Stale(m, ips) && NameOf(m) == n
    ensures |CleanedNames(markers, ips)| + |KeptMarkers(markers, ips)| == |markers|
    decreases |markers|
  {
    if |markers| > 0 {
      var init, last := markers[..|markers| - 1], markers[|markers| - 1];
      assert markers == init + [last];
      CleanedNamesOfStale(init, ips);
    }
  }

  /** A marker is kept exactly when it is not stale; the kept files are listed once each. */
  lemma {:induction false} KeptMarkersNotStale(markers: seq<string>, ips: seq<Option<string>>)
    ensures forall m :: m in KeptMarkers(markers, ips) <==> m in markers && !Stale(m, ips)
    ensures NoRepeats(markers) ==> NoRepeats(KeptMarkers(markers, ips))
    decreases |markers|
  {
    if |markers| > 0 {
      var init, last := markers[..|markers| - 1], markers[|markers| - 1];
      assert markers == init + [last];
      KeptMarkersNotStale(init, ips);
      assert NoRepeats(markers) ==> NoRepeats(init) && last !in init;
    }
  }

  /** A context survives exactly when its name was not reported or its removal was refused;
      names stay unique. */
  lemma {:induction false} PruneContextsMembers(store: Store, names: seq<string>, refused: set<string>)
    ensures forall c :: c in PruneContexts(store, names, refused) <==>
              c in store && (c.name !in names || c.name in refused)
    ensures UniqueNames(store) ==> UniqueNames(PruneContexts(store, names, refused))
    decreases |names|
  {
    if |names| > 0 {
      var init, last := names[..|names| - 1], names[|names| - 1];
      assert names == init + [last];
      PruneContextsMembers(store, init, refused);
      var s := PruneContexts(store, init, refused);
      if UniqueNames(store) && last !in refused {
        WithoutNameKeepsUnique(s, last);
      }
    }
  }

  /** The reference result of `clean_dangling_contexts`: the world after it and the names it
      returns. Instances are not touched. */
  function CleanWorld(w: World, refused: set<string>): (World, seq<string>) {
    var ips := InstanceIps(w.instances);
    var names := CleanedNames(w.markers, ips);
    (w.(contexts := PruneContexts(w.contexts, names, refused),
        markers := KeptMarkers(w.markers, ips)), names)
  }

  /** Visiting one more marker extends the reported names and the kept markers by it. */
  lemma VisitOne(markers: seq<string>, i: nat, ips: seq<Option<string>>)
    requires i < |markers|
    ensures CleanedNames(markers[..i + 1], ips)
            == CleanedNames(markers[..i], ips) + (if Stale(markers[i], ips) then [NameOf(markers[i])] else [])
    ensures KeptMarkers(markers[..i + 1], ips)
            == KeptMarkers(markers[..i], ips) + (if Stale(markers[i], ips) then [] else [markers[i]])
  {
    assert markers[..i + 1][..i] == markers[..i];
  }

  /** Removing one more name acts on the store the earlier removals left. */
  lemma PruneOne(store: Store, names: seq<string>, n: string, refused: set<string>)
    ensures var s := PruneContexts(store, names, refused);
            PruneContexts(store, names + [n], refused)
            == (if RemoveContext(s, n, refused).Success? then RemoveContext(s, n, refused).value else s)
  {
    assert (names + [n])[..|names|] == names;
  }

  /** `clean_dangling_contexts()`, visiting the marker files in listing order. */
  method CleanDanglingContexts(w: World, refused: set<string>) returns (after: World, cleaned: seq<string>)
    ensures (after, cleaned) == CleanWorld(w, refused)
  {
    var ips := InstanceIps(w.instances);
    var contexts := w.contexts;
    var markers: seq<string> := [];
    cleaned := [];
    var i := 0;
    assert w.markers[..0] == [];
    while i < |w.markers|
      invariant 0 <= i <= |w.markers|
      invariant cleaned == CleanedNames(w.markers[..i], ips)
      invariant markers == KeptMarkers(w.markers[..i], ips)
      invariant contexts == PruneContexts(w.contexts, cleaned, refused)
    {
      var file := w.markers[i];
      var parts := Split(file, '@');
      if |parts| == 2 && Some(parts[1]) !in ips {
        var name := parts[0];
        StaleStep(w.markers, i, ips, w.contexts, cleaned, refused);
        var removed := RemoveContext(contexts, name, refused);
        if removed.Success? {
          contexts := removed.value;
        }
        cleaned := cleaned + [name];
      } else {
        KeptStep(w.markers, i, ips);
        markers := markers + [file];
      }
      i := i + 1;
    }
    assert w.markers[..|w.markers|] == w.markers;
    after := w.(contexts := contexts, markers := markers);
  }

  /** Visiting a stale marker reports its name, keeps no file, and removes its context from
      the store the earlier removals left. */
  lemma StaleStep(markers: seq<string>, i: nat, ips: seq<Option<string>>, store: Store,
                  names: seq<string>, refused: set<string>)
    requires i < |markers| && Stale(markers[i], ips)
    ensures var n := Split(markers[i], '@')[0];
            var s := PruneContexts(store, names, refused);
            && CleanedNames(markers[..i + 1], ips) == CleanedNames(markers[..i], ips) + [n]
            && KeptMarkers(markers[..i + 1], ips) == KeptMarkers(markers[..i], ips)
            && PruneContexts(store, names + [n], refused)
               == (if RemoveContext(s, n, refused).Success? then RemoveContext(s, n, refused).value else s)
  {
    VisitOne(markers, i, ips);
    PruneOne(store, names, NameOf(markers[i]), refused);
  }

  /** Visiting any other file reports nothing and keeps the file. */
  lemma KeptStep(markers: seq<string>, i: nat, ips: seq<Option<string>>)
    requires i < |markers| && !Stale(markers[i], ips)
    ensures CleanedNames(markers[..i + 1], ips) == CleanedNames(markers[..i], ips)
    ensures KeptMarkers(markers[..i + 1], ips) == KeptMarkers(markers[..i], ips) + [markers[i]]
  {
    VisitOne(markers, i, ips);
  }

  /** What one clean-up does: a marker goes exactly when it is stale, a name is reported
      exactly when a stale marker carries it (one name per marker gone), a context goes
      exactly when its name was reported and the library did not refuse, and the instances
      are left alone. */
  lemma CleanRemovesExactlyStale(w: World, refused: set<string>)
    ensures var (after, cleaned) := CleanWorld(w, refused);
            var ips := InstanceIps(w.instances);
            && after.instances == w.instances
            && (forall m :: m in after.markers <==> m in w.markers && !Stale(m, ips))
            && (forall n :: n in cleaned <==> exists m :: m in w.markers && Stale(m, ips) && NameOf(m) == n)
            && |cleaned| == |w.markers| - |after.markers|
            && (forall c :: c in after.contexts <==>
                  c in w.contexts && (c.name !in cleaned || c.name in refused))
  {
    var ips := InstanceIps(w.instances);
    CleanedNamesOfStale(w.markers, ips);
    KeptMarkersNotStale(w.markers, ips);
    PruneContextsMembers(w.contexts, CleanedNames(w.markers, ips), refused);
  }

  /** A file whose name does not split into exactly two parts on `@` is never touched. */
  lemma MalformedMarkersKept(w: World, refused: set<string>, m: string)
    requires m in w.markers && |Split(m, '@')| != 2
    ensures m in CleanWorld(w, refused).0.markers
  {
    KeptMarkersNotStale(w.markers, InstanceIps(w.instances));
  }

  /** A marker whose address some instance still has, whatever its state, is kept. */
  lemma LiveMarkersKept(w: World, refused: set<string>, m: string, k: nat)
    requires m in w.markers && k < |w.instances|
    requires |Split(m, '@')| == 2 && w.instances[k].ip == Some(Split(m, '@')[1])
    ensures m in CleanWorld(w, refused).0.markers
  {
    var ips := InstanceIps(w.instances);
    assert ips[k] == Some(Split(m, '@')[1]);
    KeptMarkersNotStale(w.markers, ips);
  }

  /** Contexts whose removal the library refuses stay. */
  lemma RefusedContextsStay(w: World, refused: set<string>, c: Context)
    requires c in w.contexts && c.name in refused
    ensures c in CleanWorld(w, refused).0.contexts
  {
    PruneContextsMembers(w.contexts, CleanWorld(w, refused).1, refused);
  }

  /** Markers none of which is stale are all kept and none is reported. */
  lemma {:induction false} NothingStale(markers: seq<string>, ips: seq<Option<string>>)
    requires forall m :: m in markers ==> !Stale(m, ips)
    ensures CleanedNames(markers, ips) == [] && KeptMarkers(markers, ips) == markers
    decreases |markers|
  {
    if |markers| > 0 {
      var init, last := markers[..|markers| - 1], markers[|markers| - 1];
      assert markers == init + [last];
      assert !Stale(last, ips);
      NothingStale(init, ips);
    }
  }

  /** Cleaning up again against the same instances cleans nothing and changes nothing. */
  lemma CleanIdempotent(w: World, refused: set<string>)
    ensures var after := CleanWorld(w, refused).0;
            CleanWorld(after, refused) == (after, [])
  {
    var ips := InstanceIps(w.instances);
    var after := CleanWorld(w, refused).0;
    KeptMarkersNotStale(w.markers, ips);
    NothingStale(after.markers, ips);
  }

  /** A well-formed marker of a consistent world names its context: a stale marker that
      carries the name of context `c` is `c`'s own marker. */
  lemma StaleMarkerIsOwnMarker(w: World, m: string, c: Context, ips: seq<Option<string>>)
    requires Consistent(w) && m in w.markers && Stale(m, ips)
    requires c in w.contexts && NameOf(m) == c.name
    ensures m == MarkerName(c.name, HostIp(c))
  {
    var d :| d in w.contexts && m == MarkerName(d.name, HostIp(d));
    MarkerNameTwoFields(d.name, HostIp(d));
    assert d.name == c.name;
    var i :| 0 <= i < |w.contexts| && w.contexts[i] == c;
    var j :| 0 <= j < |w.contexts| && w.contexts[j] == d;
    assert i == j by {
      assert w.contexts[i].name == w.contexts[j].name;
    }
  }

  /** Cleaning up keeps markers and contexts consistent: the context of every kept marker
      survives, because a reported name is only ever that of a stale marker's own context. */
  lemma CleanKeepsConsistent(w: World, refused: set<string>)
    requires Consistent(w)
    ensures Consistent(CleanWorld(w, refused).0)
  {
    var ips := InstanceIps(w.instances);
    var (after, cleaned) := CleanWorld(w, refused);
    CleanRemovesExactlyStale(w, refused);
    KeptMarkersNotStale(w.markers, ips);
    PruneContextsMembers(w.contexts, cleaned, refused);
    forall m | m in after.markers
      ensures exists c :: c in after.contexts && m == MarkerName(c.name, HostIp(c))
    {
      var c :| c in w.contexts && m == MarkerName(c.name, HostIp(c));
      assert c.name in cleaned ==> c.name in refused by {
        if c.name in cleaned {
          var m' :| m' in w.markers && Stale(m', ips) && NameOf(m') == c.name;
          StaleMarkerIsOwnMarker(w, m', c, ips);
        }
      }
      assert c in after.contexts;
    }
  }
}
