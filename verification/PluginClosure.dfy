/**
 Which plugins run: the enabled ids expanded by the transitive closure of `requires`, and the live
 activation of newly enabled ones.
 */
module PluginClosure {
  import opened Lists

  type PluginId = string

  datatype Manifest = Manifest(requirements: seq<PluginId>, hotReloadable: bool)

  type Discovered = map<PluginId, Manifest>

  ghost function Ids(list: seq<PluginId>): set<PluginId> {
    set p | p in list
  }

  // ---- the expansion ----

  /** The ids resolved so far after adding one more with everything it pulls in. */
  function Added(discovered: Discovered, acc: seq<PluginId>, id: PluginId): (r: seq<PluginId>)
    ensures acc <= r
    decreases discovered.Keys - Ids(acc), 0
  {
    if id in acc then acc
    else if id !in discovered then acc + [id]
    else
      assert id in Ids(acc + [id]) && id !in Ids(acc);
      AddedRequirements(discovered, acc + [id], discovered[id].requirements)
  }

  function AddedRequirements(discovered: Discovered, acc: seq<PluginId>, ids: seq<PluginId>): (r: seq<PluginId>)
    ensures acc <= r
    decreases discovered.Keys - Ids(acc), 1, |ids|
  {
    if ids == [] then acc
    else
      var next := if ids[0] in discovered && ids[0] !in acc then Added(discovered, acc, ids[0]) else acc;
      assert Ids(acc) <= Ids(next);
      AddedRequirements(discovered, next, ids[1..])
  }

  function AddedAll(discovered: Discovered, acc: seq<PluginId>, ids: seq<PluginId>): (r: seq<PluginId>)
    ensures acc <= r
    decreases |ids|
  {
    if ids == [] then acc else AddedAll(discovered, Added(discovered, acc, ids[0]), ids[1..])
  }

  function Resolved(discovered: Discovered, enabled: seq<PluginId>): seq<PluginId> {
    AddedAll(discovered, [], enabled)
  }

  /** The resolver's nested function with the two variables it updates. */
  class Resolver {
    const discovered: Discovered
    var resolved: seq<PluginId>
    var seen: set<PluginId>

    ghost predicate Valid()
      reads this
    {
      seen == Ids(resolved)
    }

    constructor (discovered: Discovered)
      ensures this.discovered == discovered && resolved == [] && Valid()
    {
      this.discovered, resolved, seen := discovered, [], {};
    }

    method Add(id: PluginId)
      requires Valid()
      modifies this
      ensures Valid() && resolved == Added(discovered, old(resolved), id)
      decreases discovered.Keys - seen
    {
      if id in seen {
        return;
      }
      seen := seen + {id};
      resolved := resolved + [id];
      if id !in discovered {
        return;
      }
      ghost var start := resolved;
      var requirements := discovered[id].requirements;
      for i := 0 to |requirements|
        invariant Valid() && start <= resolved
        invariant AddedRequirements(discovered, resolved, requirements[i..]) ==
                  AddedRequirements(discovered, start, requirements)
      {
        assert requirements[i..][1..] == requirements[i + 1..];
        var req := requirements[i];
        if req in discovered && req !in seen {
          assert id in Ids(start) && Ids(start) <= seen;
          Add(req);
          assert start <= resolved;
        }
      }
    }
  }

  method ResolveEnabledPlugins(discovered: Discovered, enabled: seq<PluginId>) returns (resolved: seq<PluginId>)
    ensures resolved == Resolved(discovered, enabled)
  {
    var resolver := new Resolver(discovered);
    for i := 0 to |enabled|
      invariant resolver.Valid() && resolver.discovered == discovered && fresh(resolver)
      invariant AddedAll(discovered, resolver.resolved, enabled[i..]) == Resolved(discovered, enabled)
    {
      assert enabled[i..][1..] == enabled[i + 1..];
      resolver.Add(enabled[i]);
    }
    resolved := resolver.resolved;
  }

  // ---- reachability ----

  /** b is discovered and a's manifest, discovered too, requires it. */
  predicate Pulls(discovered: Discovered, a: PluginId, b: PluginId) {
    a in discovered && b in discovered && b in discovered[a].requirements
  }

  /** A chain of requirements, first to last. */
  predicate Chain(discovered: Discovered, path: seq<PluginId>) {
    path != [] && forall i :: 0 <= i < |path| - 1 ==> Pulls(discovered, path[i], path[i + 1])
  }

  ghost predicate Reaches(discovered: Discovered, a: PluginId, b: PluginId) {
    exists path :: Chain(discovered, path) && path[0] == a && path[|path| - 1] == b
  }

  ghost predicate ReachedFrom(discovered: Discovered, enabled: seq<PluginId>, p: PluginId) {
    exists a :: a in enabled && Reaches(discovered, a, p)
  }

  lemma ReachesItself(discovered: Discovered, a: PluginId)
    ensures Reaches(discovered, a, a)
  {
    assert Chain(discovered, [a]);
  }

  lemma ReachesThrough(discovered: Discovered, a: PluginId, b: PluginId, c: PluginId)
    requires Pulls(discovered, a, b) && Reaches(discovered, b, c)
    ensures Reaches(discovered, a, c)
  {
    var path :| Chain(discovered, path) && path[0] == b && path[|path| - 1] == c;
    var longer := [a] + path;
    forall i | 0 <= i < |longer| - 1 ensures Pulls(discovered, longer[i], longer[i + 1]) {
      assert i > 0 ==> longer[i] == path[i - 1] && longer[i + 1] == path[i];
    }
    assert Chain(discovered, longer);
  }

  // ---- nothing but what is reachable ----

  lemma {:induction false} AddedReached(discovered: Discovered, acc: seq<PluginId>, id: PluginId, p: PluginId)
    requires p in Added(discovered, acc, id)
    ensures p in acc || Reaches(discovered, id, p)
    decreases discovered.Keys - Ids(acc), 0
  {
    ReachesItself(discovered, id);
    if id !in acc && id in discovered && p !in acc + [id] {
      assert id in Ids(acc + [id]) && id !in Ids(acc);
      RequirementsReached(discovered, acc + [id], discovered[id].requirements, id, p);
    }
  }

  lemma {:induction false} RequirementsReached(discovered: Discovered, acc: seq<PluginId>, ids: seq<PluginId>,
                                               a: PluginId, p: PluginId)
    requires p in AddedRequirements(discovered, acc, ids) && p !in acc
    requires a in discovered && forall r :: r in ids ==> r in discovered[a].requirements
    ensures Reaches(discovered, a, p)
    decreases discovered.Keys - Ids(acc), 1, |ids|
  {
    if ids != [] {
      var r := ids[0];
      var next := if r in discovered && r !in acc then Added(discovered, acc, r) else acc;
      assert Ids(acc) <= Ids(next);
      if p in next {
        AddedReached(discovered, acc, r, p);
        ReachesThrough(discovered, a, r, p);
      } else {
        RequirementsReached(discovered, next, ids[1..], a, p);
      }
    }
  }

  lemma {:induction false} AllReached(discovered: Discovered, acc: seq<PluginId>, ids: seq<PluginId>, p: PluginId)
    requires p in AddedAll(discovered, acc, ids) && p !in acc
    ensures ReachedFrom(discovered, ids, p)
    decreases |ids|
  {
    if ids != [] {
      var next := Added(discovered, acc, ids[0]);
      if p in next {
        AddedReached(discovered, acc, ids[0], p);
      } else {
        AllReached(discovered, next, ids[1..], p);
        var a :| a in ids[1..] && Reaches(discovered, a, p);
        assert a in ids;
      }
    }
  }

  // ---- everything that is reachable ----

  /** Except for the plugins still being expanded, all that the list's plugins pull in is in the list. */
  ghost predicate Closed(discovered: Discovered, list: seq<PluginId>, open: set<PluginId>) {
    forall a, b :: a in list && a !in open && Pulls(discovered, a, b) ==> b in list
  }

  lemma {:induction false} AddedClosed(discovered: Discovered, acc: seq<PluginId>, id: PluginId, open: set<PluginId>)
    requires Closed(discovered, acc, open)
    ensures Closed(discovered, Added(discovered, acc, id), open) && id in Added(discovered, acc, id)
    decreases discovered.Keys - Ids(acc), 0
  {
    if id !in acc && id in discovered {
      assert id in Ids(acc + [id]) && id !in Ids(acc);
      RequirementsClosed(discovered, acc + [id], discovered[id].requirements, open + {id});
    }
  }

  lemma {:induction false} RequirementsClosed(discovered: Discovered, acc: seq<PluginId>, ids: seq<PluginId>,
                                              open: set<PluginId>)
    requires Closed(discovered, acc, open)
    ensures var r := AddedRequirements(discovered, acc, ids);
            Closed(discovered, r, open) && forall b :: b in ids && b in discovered ==> b in r
    decreases discovered.Keys - Ids(acc), 1, |ids|
  {
    if ids != [] {
      var next := if ids[0] in discovered && ids[0] !in acc then Added(discovered, acc, ids[0]) else acc;
      assert Ids(acc) <= Ids(next);
      AddedClosed(discovered, acc, ids[0], open);
      RequirementsClosed(discovered, next, ids[1..], open);
    }
  }

  lemma {:induction false} AllClosed(discovered: Discovered, acc: seq<PluginId>, ids: seq<PluginId>)
    requires Closed(discovered, acc, {})
    ensures var r := AddedAll(discovered, acc, ids); Closed(discovered, r, {}) && forall a :: a in ids ==> a in r
    decreases |ids|
  {
    if ids != [] {
      AddedClosed(discovered, acc, ids[0], {});
      AllClosed(discovered, Added(discovered, acc, ids[0]), ids[1..]);
    }
  }

  lemma {:induction false} ClosedFollows(discovered: Discovered, list: seq<PluginId>, path: seq<PluginId>)
    requires Closed(discovered, list, {}) && Chain(discovered, path) && path[0] in list
    ensures path[|path| - 1] in list
    decreases |path|
  {
    if |path| > 1 {
      assert Pulls(discovered, path[0], path[1]);
      forall i | 0 <= i < |path| - 2 ensures Pulls(discovered, path[1..][i], path[1..][i + 1]) {
        assert Pulls(discovered, path[i + 1], path[i + 2]);
      }
      ClosedFollows(discovered, list, path[1..]);
    }
  }

  // ---- no repeats ----

  lemma {:induction false} AddedNoRepeats(discovered: Discovered, acc: seq<PluginId>, id: PluginId)
    requires NoRepeats(acc)
    ensures NoRepeats(Added(discovered, acc, id))
    decreases discovered.Keys - Ids(acc), 0
  {
    if id !in acc && id in discovered {
      assert id in Ids(acc + [id]) && id !in Ids(acc);
      RequirementsNoRepeats(discovered, acc + [id], discovered[id].requirements);
    }
  }

  lemma {:induction false} RequirementsNoRepeats(discovered: Discovered, acc: seq<PluginId>, ids: seq<PluginId>)
    requires NoRepeats(acc)
    ensures NoRepeats(AddedRequirements(discovered, acc, ids))
    decreases discovered.Keys - Ids(acc), 1, |ids|
  {
    if ids != [] {
      var next := if ids[0] in discovered && ids[0] !in acc then Added(discovered, acc, ids[0]) else acc;
      assert Ids(acc) <= Ids(next);
      AddedNoRepeats(discovered, acc, ids[0]);
      RequirementsNoRepeats(discovered, next, ids[1..]);
    }
  }

  lemma {:induction false} AllNoRepeats(discovered: Discovered, acc: seq<PluginId>, ids: seq<PluginId>)
    requires NoRepeats(acc)
    ensures NoRepeats(AddedAll(discovered, acc, ids))
    decreases |ids|
  {
    if ids != [] {
      AddedNoRepeats(discovered, acc, ids[0]);
      AllNoRepeats(discovered, Added(discovered, acc, ids[0]), ids[1..]);
    }
  }

  /** Without repeats, exactly the enabled ids and what they reach; cyclic requirements included. */
  lemma ResolvedIsClosure(discovered: Discovered, enabled: seq<PluginId>, p: PluginId)
    ensures NoRepeats(Resolved(discovered, enabled))
    ensures p in Resolved(discovered, enabled) <==> ReachedFrom(discovered, enabled, p)
  {
    AllNoRepeats(discovered, [], enabled);
    AllClosed(discovered, [], enabled);
    if p in Resolved(discovered, enabled) {
      AllReached(discovered, [], enabled, p);
    }
    if ReachedFrom(discovered, enabled, p) {
      var a :| a in enabled && Reaches(discovered, a, p);
      var path :| Chain(discovered, path) && path[0] == a && path[|path| - 1] == p;
      ClosedFollows(discovered, Resolved(discovered, enabled), path);
    }
  }

  // ---- resolving twice ----

  lemma {:induction false} SeenAdds(discovered: Discovered, acc: seq<PluginId>, ids: seq<PluginId>)
    requires forall p :: p in ids ==> p in acc
    ensures AddedAll(discovered, acc, ids) == acc
    decreases |ids|
  {
    if ids != [] {
      SeenAdds(discovered, acc, ids[1..]);
    }
  }

  lemma {:induction false} AddedAllConcat(discovered: Discovered, acc: seq<PluginId>, a: seq<PluginId>,
                                          b: seq<PluginId>)
    ensures AddedAll(discovered, acc, a + b) == AddedAll(discovered, AddedAll(discovered, acc, a), b)
    decreases |a|
  {
    if a == [] {
      assert a + b == b;
    } else {
      assert (a + b)[1..] == a[1..] + b;
      AddedAllConcat(discovered, Added(discovered, acc, a[0]), a[1..], b);
    }
  }

  /** The first id of what one addition appended is the added one. */
  lemma AddedStarts(discovered: Discovered, acc: seq<PluginId>, id: PluginId)
    ensures Added(discovered, acc, id) != acc ==> acc + [id] <= Added(discovered, acc, id)
  {
  }

  /** Adding again what one addition appended appends the same. */
  lemma AddedAgain(discovered: Discovered, acc: seq<PluginId>, id: PluginId)
    ensures AddedAll(discovered, acc, Added(discovered, acc, id)[|acc|..]) == Added(discovered, acc, id)
  {
    var r := Added(discovered, acc, id);
    AddedStarts(discovered, acc, id);
    if r != acc {
      var appended := r[|acc|..];
      assert appended[0] == id;
      SeenAdds(discovered, r, appended[1..]);
    }
  }

  lemma TailSplits(a: seq<PluginId>, b: seq<PluginId>, c: seq<PluginId>)
    requires a <= b <= c
    ensures c[|a|..] == b[|a|..] + c[|b|..]
  {
  }

  lemma {:induction false} AllAgain(discovered: Discovered, acc: seq<PluginId>, ids: seq<PluginId>)
    ensures AddedAll(discovered, acc, AddedAll(discovered, acc, ids)[|acc|..]) == AddedAll(discovered, acc, ids)
    decreases |ids|
  {
    var r := AddedAll(discovered, acc, ids);
    if ids == [] {
      assert r[|acc|..] == [];
    } else {
      var first := Added(discovered, acc, ids[0]);
      AddedAgain(discovered, acc, ids[0]);
      AllAgain(discovered, first, ids[1..]);
      TailSplits(acc, first, r);
      AddedAllConcat(discovered, acc, first[|acc|..], r[|first|..]);
    }
  }

  /** Resolving a resolved list changes nothing, order included. */
  lemma ResolvedTwice(discovered: Discovered, enabled: seq<PluginId>)
    ensures Resolved(discovered, Resolved(discovered, enabled)) == Resolved(discovered, enabled)
  {
    AllAgain(discovered, [], enabled);
    var r := Resolved(discovered, enabled);
    assert r[0..] == r;
  }

  // ---- live activation ----

  /** The plugin may be switched on now: discovered, hot-reloadable, everything it requires is live. */
  predicate Activatable(discovered: Discovered, live: set<PluginId>, p: PluginId) {
    && p in discovered && discovered[p].hotReloadable
    && forall req :: req in discovered[p].requirements ==> req in live
  }

  function Tried(discovered: Discovered, live: set<PluginId>, p: PluginId, failing: set<PluginId>): set<PluginId> {
    if p !in live && Activatable(discovered, live, p) && p !in failing then live + {p} else live
  }

  /** The live set after trying the ids in order; `failing` are the plugins whose setup or startup raises. */
  function Activated(discovered: Discovered, live: set<PluginId>, ids: seq<PluginId>,
                     failing: set<PluginId>): set<PluginId>
    decreases |ids|
  {
    if ids == [] then live
    else
      Activated(discovered, Tried(discovered, live, ids[0], failing), ids[1..], failing)
  }

  class AppState {
    var enabledPluginIds: set<PluginId>

    constructor ()
      ensures enabledPluginIds == {}
    {
      enabledPluginIds := {};
    }

    method SyncEnabledPlugins(discovered: Discovered, target: seq<PluginId>, failing: set<PluginId>)
      modifies this
      ensures enabledPluginIds == Activated(discovered, old(enabledPluginIds), Resolved(discovered, target), failing)
    {
      var resolved := ResolveEnabledPlugins(discovered, target);
      for i := 0 to |resolved|
        invariant Activated(discovered, enabledPluginIds, resolved[i..], failing) ==
                  Activated(discovered, old(enabledPluginIds), resolved, failing)
      {
        assert resolved[i..][1..] == resolved[i + 1..];
        var p := resolved[i];
        if p in enabledPluginIds {
          continue;
        }
        if p !in discovered || !discovered[p].hotReloadable {
          continue;
        }
        if !(forall req :: req in discovered[p].requirements ==> req in enabledPluginIds) {
          continue;
        }
        if p in failing {
          continue;
        }
        enabledPluginIds := enabledPluginIds + {p};
      }
    }
  }

  /** Every live plugin's requirements are live. */
  predicate RequirementsLive(discovered: Discovered, live: set<PluginId>) {
    forall p :: p in live && p in discovered ==> forall req :: req in discovered[p].requirements ==> req in live
  }

  /** Nothing live is removed, only working hot-reloadable targets are added, and requirements stay live. */
  lemma {:induction false} SyncKeepsLive(discovered: Discovered, live: set<PluginId>, ids: seq<PluginId>,
                                         failing: set<PluginId>)
    ensures var after := Activated(discovered, live, ids, failing);
            && live <= after
            && (forall p :: p in after - live ==>
                  p in ids && p in discovered && discovered[p].hotReloadable && p !in failing)
            && (RequirementsLive(discovered, live) ==> RequirementsLive(discovered, after))
    decreases |ids|
  {
    if ids != [] {
      var p := ids[0];
      var next := Tried(discovered, live, p, failing);
      SyncKeepsLive(discovered, next, ids[1..], failing);
      var after := Activated(discovered, next, ids[1..], failing);
      forall q | q in after - live ensures q in ids && q in discovered && discovered[q].hotReloadable && q !in failing {
        assert q in next || q in ids[1..];
      }
      if RequirementsLive(discovered, live) {
        assert RequirementsLive(discovered, next);
      }
    }
  }

  /** A target listed before a requirement that is not live yet waits for the next sync. */
  lemma RequirerWaits(discovered: Discovered, live: set<PluginId>, target: seq<PluginId>, failing: set<PluginId>,
                      i: nat, j: nat)
    requires var ids := Resolved(discovered, target);
             i < j < |ids| && ids[i] in discovered && ids[j] in discovered[ids[i]].requirements
             && {ids[i], ids[j]} !! live
    ensures Resolved(discovered, target)[i] !in Activated(discovered, live, Resolved(discovered, target), failing)
  {
    var ids := Resolved(discovered, target);
    AllNoRepeats(discovered, [], target);
    StaysOff(discovered, live, ids, failing, i, j);
  }

  lemma {:induction false} StaysOff(discovered: Discovered, live: set<PluginId>, ids: seq<PluginId>,
                                    failing: set<PluginId>, i: nat, j: nat)
    requires NoRepeats(ids) && i < j < |ids| && {ids[i], ids[j]} !! live
    requires ids[i] in discovered && ids[j] in discovered[ids[i]].requirements
    ensures ids[i] !in Activated(discovered, live, ids, failing)
    decreases |ids|
  {
    var p := ids[0];
    var next := Tried(discovered, live, p, failing);
    if i == 0 {
      SyncKeepsLive(discovered, next, ids[1..], failing);
    } else {
      StaysOff(discovered, next, ids[1..], failing, i - 1, j - 1);
    }
  }

  /**
   Exactly which plugins a pass switches on: a target not live yet goes live if and only if it is
   discovered, hot-reloadable and working, and each of its requirements is live already or stands
   earlier in the list and goes live itself.
   */
  lemma {:induction false} GoesLive(discovered: Discovered, live: set<PluginId>, ids: seq<PluginId>,
                                    failing: set<PluginId>, i: nat)
    requires NoRepeats(ids) && i < |ids| && ids[i] !in live
    ensures var after := Activated(discovered, live, ids, failing);
            ids[i] in after <==>
            && ids[i] in discovered && discovered[ids[i]].hotReloadable && ids[i] !in failing
            && forall req :: req in discovered[ids[i]].requirements ==> req in live || (req in ids[..i] && req in after)
    decreases |ids|
  {
    var p := ids[0];
    var next := Tried(discovered, live, p, failing);
    var after := Activated(discovered, live, ids, failing);
    assert after == Activated(discovered, next, ids[1..], failing);
    SyncKeepsLive(discovered, next, ids[1..], failing);
    assert p !in ids[1..];
    if i > 0 {
      GoesLive(discovered, next, ids[1..], failing, i - 1);
      assert ids[i] == ids[1..][i - 1] && ids[..i] == [p] + ids[1..][..i - 1];
      assert p in after <==> p in next;
    }
  }

  /** The same for the list a sync works through. */
  lemma SyncActivates(discovered: Discovered, live: set<PluginId>, target: seq<PluginId>, failing: set<PluginId>,
                      i: nat)
    requires i < |Resolved(discovered, target)| && Resolved(discovered, target)[i] !in live
    ensures var ids := Resolved(discovered, target);
            var after := Activated(discovered, live, ids, failing);
            ids[i] in after <==>
            && ids[i] in discovered && discovered[ids[i]].hotReloadable && ids[i] !in failing
            && forall req :: req in discovered[ids[i]].requirements ==> req in live || (req in ids[..i] && req in after)
  {
    AllNoRepeats(discovered, [], target);
    GoesLive(discovered, live, Resolved(discovered, target), failing, i);
  }

  /** A plugin enabled together with its only requirement waits, and the next pass switches it on. */
  lemma TwoPassesExample()
    ensures var d := map["a" := Manifest(["b"], true), "b" := Manifest([], true)];
            var once := Activated(d, {}, Resolved(d, ["a"]), {});
            Resolved(d, ["a"]) == ["a", "b"] && once == {"b"}
            && Activated(d, once, Resolved(d, ["a"]), {}) == {"a", "b"}
  {
    var d := map["a" := Manifest(["b"], true), "b" := Manifest([], true)];
    assert ["a"][1..] == [] && ["b"][1..] == [] && ["a", "b"][1..] == ["b"] && [] + ["a"] == ["a"];
    assert Added(d, ["a"], "b") == ["a", "b"];
    assert AddedRequirements(d, ["a"], ["b"]) == ["a", "b"];
    assert Added(d, [], "a") == ["a", "b"];
    assert "b" in d["a"].requirements;
    assert Activatable(d, {}, "b") && !Activatable(d, {}, "a") && Activatable(d, {"b"}, "a");
  }
}
