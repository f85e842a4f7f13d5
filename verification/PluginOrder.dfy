/**
 In which order plugin resolution lists what it resolves. Everything follows from which id of the list
 pulls a plugin in first; within one id's own expansion the same question is asked of its requirements.
 */
module PluginOrder {
  import opened Lists
  import opened PluginClosure

  // ---- positions ----

  /** The first position of x. */
  function At(list: seq<PluginId>, x: PluginId): (i: nat)
    requires x in list
    ensures i < |list| && list[i] == x && x !in list[..i]
  {
    if list[0] == x then 0
    else
      var i := 1 + At(list[1..], x);
      assert list[..i] == [list[0]] + list[1..][..i - 1];
      i
  }

  predicate Precedes(list: seq<PluginId>, x: PluginId, y: PluginId)
    requires x in list && y in list
  {
    At(list, x) < At(list, y)
  }

  lemma AtUnique(list: seq<PluginId>, x: PluginId, i: nat)
    requires i < |list| && list[i] == x && x !in list[..i]
    ensures At(list, x) == i
  {
    var k := At(list, x);
    assert forall m :: 0 <= m < i ==> list[m] in list[..i];
    assert forall m :: 0 <= m < k ==> list[m] in list[..k];
  }

  lemma AtConcat(a: seq<PluginId>, b: seq<PluginId>, x: PluginId)
    requires x in a + b
    ensures x in a ==> At(a + b, x) == At(a, x)
    ensures x !in a ==> x in b && At(a + b, x) == |a| + At(b, x)
  {
    if x in a {
      assert (a + b)[..At(a, x)] == a[..At(a, x)];
      AtUnique(a + b, x, At(a, x));
    } else {
      assert (a + b)[..|a| + At(b, x)] == a + b[..At(b, x)];
      AtUnique(a + b, x, |a| + At(b, x));
    }
  }

  // ---- who pulls a plugin in ----

  /** Index of the first id of the list whose addition brings x in. */
  function Puller(discovered: Discovered, acc: seq<PluginId>, ids: seq<PluginId>, x: PluginId): (m: nat)
    requires x !in acc && x in AddedAll(discovered, acc, ids)
    ensures m < |ids|
    decreases |ids|
  {
    var next := Added(discovered, acc, ids[0]);
    if x in next then 0 else 1 + Puller(discovered, next, ids[1..], x)
  }

  lemma {:induction false} PullerIsFirst(discovered: Discovered, acc: seq<PluginId>, ids: seq<PluginId>, x: PluginId,
                                         n: nat)
    requires x !in acc && x in AddedAll(discovered, acc, ids) && n <= |ids|
    ensures x in AddedAll(discovered, acc, ids[..n]) <==> Puller(discovered, acc, ids, x) < n
    decreases |ids|
  {
    var next := Added(discovered, acc, ids[0]);
    if n > 0 {
      assert ids[..n][1..] == ids[1..][..n - 1];
      if x !in next {
        PullerIsFirst(discovered, next, ids[1..], x, n - 1);
      }
    }
  }

  // ---- in terms of requirements ----

  /** A chain of requirements none of whose plugins is in the list. */
  predicate AvoidingChain(discovered: Discovered, path: seq<PluginId>, avoid: seq<PluginId>) {
    Chain(discovered, path) && forall p :: p in path ==> p !in avoid
  }

  ghost predicate ReachesOutside(discovered: Discovered, avoid: seq<PluginId>, a: PluginId, b: PluginId) {
    exists path :: AvoidingChain(discovered, path, avoid) && path[0] == a && path[|path| - 1] == b
  }

  ghost predicate ReachedOutside(discovered: Discovered, avoid: seq<PluginId>, ids: seq<PluginId>, x: PluginId) {
    exists a :: a in ids && ReachesOutside(discovered, avoid, a, x)
  }

  lemma OutsideItself(discovered: Discovered, avoid: seq<PluginId>, a: PluginId)
    requires a !in avoid
    ensures ReachesOutside(discovered, avoid, a, a)
  {
    assert AvoidingChain(discovered, [a], avoid);
  }

  lemma OutsideThrough(discovered: Discovered, avoid: seq<PluginId>, a: PluginId, b: PluginId, c: PluginId)
    requires a !in avoid && Pulls(discovered, a, b) && ReachesOutside(discovered, avoid, b, c)
    ensures ReachesOutside(discovered, avoid, a, c)
  {
    var path :| AvoidingChain(discovered, path, avoid) && path[0] == b && path[|path| - 1] == c;
    var longer := [a] + path;
    forall i | 0 <= i < |longer| - 1 ensures Pulls(discovered, longer[i], longer[i + 1]) {
      assert i > 0 ==> longer[i] == path[i - 1] && longer[i + 1] == path[i];
    }
    assert AvoidingChain(discovered, longer, avoid);
  }

  /** What avoids a longer list avoids a shorter one. */
  lemma OutsideLess(discovered: Discovered, avoid: seq<PluginId>, more: seq<PluginId>, a: PluginId, b: PluginId)
    requires avoid <= more && ReachesOutside(discovered, more, a, b)
    ensures ReachesOutside(discovered, avoid, a, b)
  {
    var path :| AvoidingChain(discovered, path, more) && path[0] == a && path[|path| - 1] == b;
    assert forall p :: p in avoid ==> p in more;
    assert AvoidingChain(discovered, path, avoid);
  }

  lemma {:induction false} AddedOutside(discovered: Discovered, acc: seq<PluginId>, id: PluginId, x: PluginId)
    requires x in Added(discovered, acc, id) && x !in acc
    ensures ReachesOutside(discovered, acc, id, x)
    decreases discovered.Keys - Ids(acc), 0
  {
    OutsideItself(discovered, acc, id);
    if id in discovered && x != id {
      assert id in Ids(acc + [id]) && id !in Ids(acc);
      RequirementsOutside(discovered, acc, acc + [id], discovered[id].requirements, id, x);
    }
  }

  lemma {:induction false} RequirementsOutside(discovered: Discovered, avoid: seq<PluginId>, acc: seq<PluginId>,
                                               ids: seq<PluginId>, a: PluginId, x: PluginId)
    requires avoid <= acc && a !in avoid && x in AddedRequirements(discovered, acc, ids) && x !in acc
    requires a in discovered && forall r :: r in ids ==> r in discovered[a].requirements
    ensures ReachesOutside(discovered, avoid, a, x)
    decreases discovered.Keys - Ids(acc), 1, |ids|
  {
    if ids != [] {
      var r := ids[0];
      var next := if r in discovered && r !in acc then Added(discovered, acc, r) else acc;
      assert Ids(acc) <= Ids(next);
      if x in next {
        AddedOutside(discovered, acc, r, x);
        OutsideLess(discovered, avoid, acc, r, x);
        OutsideThrough(discovered, avoid, a, r, x);
      } else {
        RequirementsOutside(discovered, avoid, next, ids[1..], a, x);
      }
    }
  }

  lemma {:induction false} AllOutside(discovered: Discovered, avoid: seq<PluginId>, acc: seq<PluginId>,
                                      ids: seq<PluginId>, x: PluginId)
    requires avoid <= acc && x in AddedAll(discovered, acc, ids) && x !in acc
    ensures ReachedOutside(discovered, avoid, ids, x)
    decreases |ids|
  {
    if ids != [] {
      var next := Added(discovered, acc, ids[0]);
      if x in next {
        AddedOutside(discovered, acc, ids[0], x);
        OutsideLess(discovered, avoid, acc, ids[0], x);
        assert ids[0] in ids;
      } else {
        AllOutside(discovered, avoid, next, ids[1..], x);
        var a :| a in ids[1..] && ReachesOutside(discovered, avoid, a, x);
        assert a in ids;
      }
    }
  }

  lemma {:induction false} AllClosedOutside(discovered: Discovered, acc: seq<PluginId>, ids: seq<PluginId>,
                                            open: set<PluginId>)
    requires Closed(discovered, acc, open)
    ensures var r := AddedAll(discovered, acc, ids); Closed(discovered, r, open) && forall a :: a in ids ==> a in r
    decreases |ids|
  {
    if ids != [] {
      AddedClosed(discovered, acc, ids[0], open);
      AllClosedOutside(discovered, Added(discovered, acc, ids[0]), ids[1..], open);
    }
  }

  lemma {:induction false} ClosedFollowsOutside(discovered: Discovered, list: seq<PluginId>, avoid: seq<PluginId>,
                                                path: seq<PluginId>)
    requires Closed(discovered, list, Ids(avoid)) && AvoidingChain(discovered, path, avoid) && path[0] in list
    ensures path[|path| - 1] in list
    decreases |path|
  {
    if |path| > 1 {
      assert Pulls(discovered, path[0], path[1]) && path[0] in path;
      forall i | 0 <= i < |path| - 2 ensures Pulls(discovered, path[1..][i], path[1..][i + 1]) {
        assert Pulls(discovered, path[i + 1], path[i + 2]);
      }
      ClosedFollowsOutside(discovered, list, avoid, path[1..]);
    }
  }

  /** Whatever is resolved already: the list adds exactly what its ids reach along chains that avoid it. */
  lemma AddedAllIsReach(discovered: Discovered, acc: seq<PluginId>, ids: seq<PluginId>, x: PluginId)
    ensures x in AddedAll(discovered, acc, ids) <==> x in acc || ReachedOutside(discovered, acc, ids, x)
  {
    if x in AddedAll(discovered, acc, ids) && x !in acc {
      AllOutside(discovered, acc, acc, ids, x);
    }
    if ReachedOutside(discovered, acc, ids, x) {
      var a :| a in ids && ReachesOutside(discovered, acc, a, x);
      var path :| AvoidingChain(discovered, path, acc) && path[0] == a && path[|path| - 1] == x;
      AllClosedOutside(discovered, acc, ids, Ids(acc));
      ClosedFollowsOutside(discovered, AddedAll(discovered, acc, ids), acc, path);
    }
  }

  /** The puller of x is the least m such that an id up to m reaches x along a chain that avoids what was there. */
  lemma PullerReaches(discovered: Discovered, acc: seq<PluginId>, ids: seq<PluginId>, x: PluginId, n: nat)
    requires x !in acc && x in AddedAll(discovered, acc, ids) && n <= |ids|
    ensures ReachedOutside(discovered, acc, ids[..n], x) <==> Puller(discovered, acc, ids, x) < n
  {
    PullerIsFirst(discovered, acc, ids, x, n);
    AddedAllIsReach(discovered, acc, ids[..n], x);
  }

  /** With nothing resolved before, any chain will do. */
  lemma ReachedFromNothing(discovered: Discovered, ids: seq<PluginId>, x: PluginId)
    ensures ReachedOutside(discovered, [], ids, x) <==> ReachedFrom(discovered, ids, x)
  {
    AddedAllIsReach(discovered, [], ids, x);
    ResolvedIsClosure(discovered, ids, x);
  }

  /** What the m-th id of the list adds, in order. */
  function Expansion(discovered: Discovered, acc: seq<PluginId>, ids: seq<PluginId>, m: nat): seq<PluginId>
    requires m < |ids|
  {
    var before := AddedAll(discovered, acc, ids[..m]);
    Added(discovered, before, ids[m])[|before|..]
  }

  lemma PrefixAdds(discovered: Discovered, acc: seq<PluginId>, ids: seq<PluginId>, m: nat)
    requires m < |ids|
    ensures AddedAll(discovered, acc, ids[..m + 1]) ==
            AddedAll(discovered, acc, ids[..m]) + Expansion(discovered, acc, ids, m)
    ensures AddedAll(discovered, acc, ids[..m + 1]) <= AddedAll(discovered, acc, ids)
  {
    assert ids[..m + 1] == ids[..m] + [ids[m]] && ids == ids[..m + 1] + ids[m + 1..];
    AddedAllConcat(discovered, acc, ids[..m], [ids[m]]);
    AddedAllConcat(discovered, acc, ids[..m + 1], ids[m + 1..]);
    assert [ids[m]][1..] == [];
  }

  // ---- the order of any two ----

  /**
   For every two resolved plugins: with different first pullers the one pulled in by the earlier id
   stands first, and with the same first puller they stand as in that id's own expansion.
   */
  lemma PullersDecide(discovered: Discovered, acc: seq<PluginId>, ids: seq<PluginId>, x: PluginId, y: PluginId)
    requires var r := AddedAll(discovered, acc, ids); x in r && y in r && x !in acc && y !in acc
    ensures var r := AddedAll(discovered, acc, ids);
            var p, q := Puller(discovered, acc, ids, x), Puller(discovered, acc, ids, y);
            && (p != q ==> (Precedes(r, x, y) <==> p < q))
            && (p == q ==> var own := Expansion(discovered, acc, ids, p);
                           x in own && y in own && (Precedes(r, x, y) <==> Precedes(own, x, y)))
  {
    var p, q := Puller(discovered, acc, ids, x), Puller(discovered, acc, ids, y);
    if p < q {
      EarlierPullerFirst(discovered, acc, ids, x, y);
    } else if q < p {
      EarlierPullerFirst(discovered, acc, ids, y, x);
    } else {
      SamePullerSame(discovered, acc, ids, x);
      SamePullerSame(discovered, acc, ids, y);
    }
  }

  lemma EarlierPullerFirst(discovered: Discovered, acc: seq<PluginId>, ids: seq<PluginId>, x: PluginId, y: PluginId)
    requires var r := AddedAll(discovered, acc, ids); x in r && y in r && x !in acc && y !in acc
    requires Puller(discovered, acc, ids, x) < Puller(discovered, acc, ids, y)
    ensures Precedes(AddedAll(discovered, acc, ids), x, y)
  {
    var r, m := AddedAll(discovered, acc, ids), Puller(discovered, acc, ids, x);
    var upto := AddedAll(discovered, acc, ids[..m + 1]);
    PullerIsFirst(discovered, acc, ids, x, m + 1);
    PullerIsFirst(discovered, acc, ids, y, m + 1);
    PrefixAdds(discovered, acc, ids, m);
    PrefixPrecedes(upto, r, x, y);
  }

  lemma PrefixPrecedes(front: seq<PluginId>, list: seq<PluginId>, x: PluginId, y: PluginId)
    requires front <= list && x in front && y in list && y !in front
    ensures Precedes(list, x, y)
  {
    var rest := list[|front|..];
    assert list == front + rest;
    AtConcat(front, rest, x);
    AtConcat(front, rest, y);
  }

  lemma SamePullerSame(discovered: Discovered, acc: seq<PluginId>, ids: seq<PluginId>, x: PluginId)
    requires x !in acc && x in AddedAll(discovered, acc, ids)
    ensures var r, m := AddedAll(discovered, acc, ids), Puller(discovered, acc, ids, x);
            && x in Expansion(discovered, acc, ids, m)
            && At(r, x) == |AddedAll(discovered, acc, ids[..m])| + At(Expansion(discovered, acc, ids, m), x)
  {
    var r, m := AddedAll(discovered, acc, ids), Puller(discovered, acc, ids, x);
    var before, own := AddedAll(discovered, acc, ids[..m]), Expansion(discovered, acc, ids, m);
    PullerIsFirst(discovered, acc, ids, x, m);
    PullerIsFirst(discovered, acc, ids, x, m + 1);
    PrefixAdds(discovered, acc, ids, m);
    AtMiddle(before, own, r, x);
  }

  lemma AtMiddle(before: seq<PluginId>, own: seq<PluginId>, list: seq<PluginId>, x: PluginId)
    requires before + own <= list && x in before + own && x !in before
    ensures x in own && x in list && At(list, x) == |before| + At(own, x)
  {
    var rest := list[|before + own|..];
    assert list == before + own + rest;
    AtConcat(before + own, rest, x);
    AtConcat(before, own, x);
  }

  // ---- one id's own expansion ----

  function Known(discovered: Discovered, ids: seq<PluginId>): seq<PluginId> {
    if ids == [] then []
    else (if ids[0] in discovered then [ids[0]] else []) + Known(discovered, ids[1..])
  }

  lemma {:induction false} RequirementsAreList(discovered: Discovered, acc: seq<PluginId>, ids: seq<PluginId>)
    ensures AddedRequirements(discovered, acc, ids) == AddedAll(discovered, acc, Known(discovered, ids))
    decreases |ids|
  {
    if ids != [] {
      var next := if ids[0] in discovered && ids[0] !in acc then Added(discovered, acc, ids[0]) else acc;
      RequirementsAreList(discovered, next, ids[1..]);
      var rest := Known(discovered, ids[1..]);
      if ids[0] in discovered {
        assert Known(discovered, ids) == [ids[0]] + rest && ([ids[0]] + rest)[1..] == rest;
        assert ids[0] in acc ==> Added(discovered, acc, ids[0]) == acc;
      } else {
        assert Known(discovered, ids) == rest;
      }
    }
  }

  /**
   An expansion is the id itself and then its discovered requirements, resolved like a list of enabled
   ids: PullersDecide applies to them in turn.
   */
  lemma ExpansionUnfolds(discovered: Discovered, acc: seq<PluginId>, ids: seq<PluginId>, m: nat)
    requires m < |ids|
    ensures var before, id := AddedAll(discovered, acc, ids[..m]), ids[m];
            Expansion(discovered, acc, ids, m) ==
            if id in before then []
            else if id !in discovered then [id]
            else
              [id] + AddedAll(discovered, before + [id], Known(discovered, discovered[id].requirements))[|before| + 1..]
  {
    var before, id := AddedAll(discovered, acc, ids[..m]), ids[m];
    if id !in before && id in discovered {
      RequirementsAreList(discovered, before + [id], discovered[id].requirements);
      var all := AddedAll(discovered, before + [id], Known(discovered, discovered[id].requirements));
      HeadOfTail(before, id, all);
    }
  }

  lemma HeadOfTail(before: seq<PluginId>, id: PluginId, all: seq<PluginId>)
    requires before + [id] <= all
    ensures all[|before|..] == [id] + all[|before| + 1..]
  {
    assert all[|before|] == (before + [id])[|before|];
  }

  // ---- the enabled ids ----

  /** The enabled ids, repeats aside, stand in the resolved list in the order the user gave them. */
  predicate KeepsOrder(discovered: Discovered, enabled: seq<PluginId>) {
    forall i, j :: 0 <= i < j < |enabled| && enabled[j] !in enabled[..j] ==> InOrder(discovered, enabled, i, j)
  }

  predicate InOrder(discovered: Discovered, enabled: seq<PluginId>, i: nat, j: nat)
    requires i < |enabled| && j < |enabled|
  {
    var r := Resolved(discovered, enabled);
    enabled[i] in r && enabled[j] in r && Precedes(r, enabled[i], enabled[j])
  }

  /** The earlier id has the earlier puller, or the puller they share lists it first. */
  predicate PulledInOrder(discovered: Discovered, enabled: seq<PluginId>, i: nat, j: nat)
    requires i < |enabled| && j < |enabled|
  {
    var r := Resolved(discovered, enabled);
    enabled[i] in r && enabled[j] in r &&
    var p, q := Puller(discovered, [], enabled, enabled[i]), Puller(discovered, [], enabled, enabled[j]);
    p < q || (p == q && var own := Expansion(discovered, [], enabled, p);
                        enabled[i] in own && enabled[j] in own && Precedes(own, enabled[i], enabled[j]))
  }

  /** The original order is preserved if and only if the ids are pulled in in their order. */
  lemma OrderKeptIff(discovered: Discovered, enabled: seq<PluginId>)
    ensures KeepsOrder(discovered, enabled) <==>
            forall i, j :: 0 <= i < j < |enabled| && enabled[j] !in enabled[..j] ==>
              PulledInOrder(discovered, enabled, i, j)
  {
    AllClosed(discovered, [], enabled);
    forall i, j | 0 <= i < j < |enabled| && enabled[j] !in enabled[..j]
      ensures InOrder(discovered, enabled, i, j) <==> PulledInOrder(discovered, enabled, i, j)
    {
      assert enabled[..j][i] == enabled[i];
      PullersDecide(discovered, [], enabled, enabled[i], enabled[j]);
    }
  }

  /** In particular when no enabled id is reached from an earlier one. */
  lemma OrderKeptWhenNonePulled(discovered: Discovered, enabled: seq<PluginId>)
    requires forall i :: 0 <= i < |enabled| && enabled[i] !in enabled[..i] ==>
             !ReachedFrom(discovered, enabled[..i], enabled[i])
    ensures KeepsOrder(discovered, enabled)
  {
    OrderKeptIff(discovered, enabled);
    AllClosed(discovered, [], enabled);
    forall i, j | 0 <= i < j < |enabled| && enabled[j] !in enabled[..j]
      ensures PulledInOrder(discovered, enabled, i, j)
    {
      var x, y := enabled[i], enabled[j];
      PullerReaches(discovered, [], enabled, y, j);
      PullerReaches(discovered, [], enabled, x, j);
      ReachedFromNothing(discovered, enabled[..j], x);
      ReachedFromNothing(discovered, enabled[..j], y);
      ReachesItself(discovered, x);
      assert x in enabled[..j] by {
        assert enabled[..j][i] == x;
      }
    }
  }

  lemma ResolvesSwapped(discovered: Discovered, requirements: seq<PluginId>)
    requires requirements == ["c"] || requirements == ["c", "b"]
    requires discovered == map["a" := Manifest(requirements, true), "b" := Manifest([], true),
             "c" := Manifest([], true)]
    ensures Resolved(discovered, ["a", "b", "c"]) == ["a", "c", "b"]
  {
    var enabled: seq<PluginId> := ["a", "b", "c"];
    assert enabled[1..] == ["b", "c"] && enabled[1..][1..] == ["c"] && ["c"][1..] == [] && ["b"][1..] == []
           && ["c", "b"][1..] == ["b"];
    assert [] + ["a"] == ["a"] && ["a"] + ["c"] == ["a", "c"] && ["a", "c"] + ["b"] == ["a", "c", "b"];
    assert Added(discovered, ["a"], "c") == ["a", "c"];
    assert Added(discovered, ["a", "c"], "b") == ["a", "c", "b"];
    if requirements == ["c"] {
      assert AddedRequirements(discovered, ["a", "c"], []) == ["a", "c"];
      assert AddedRequirements(discovered, ["a"], ["c"]) == ["a", "c"];
    } else {
      assert AddedRequirements(discovered, ["a", "c"], ["b"]) == ["a", "c", "b"];
      assert AddedRequirements(discovered, ["a"], ["c", "b"]) == ["a", "c", "b"];
    }
    assert Added(discovered, [], "a") == AddedRequirements(discovered, ["a"], requirements);
  }

  /** Whether a requires [c] or [c, b]: of the enabled ids a, b, c the last two change places. */
  lemma OrderLost(discovered: Discovered, requirements: seq<PluginId>)
    requires requirements == ["c"] || requirements == ["c", "b"]
    requires discovered == map["a" := Manifest(requirements, true), "b" := Manifest([], true),
             "c" := Manifest([], true)]
    ensures Resolved(discovered, ["a", "b", "c"]) == ["a", "c", "b"]
    ensures !KeepsOrder(discovered, ["a", "b", "c"])
  {
    var enabled: seq<PluginId> := ["a", "b", "c"];
    ResolvesSwapped(discovered, requirements);
    hide Resolved;
    AtUnique(["a", "c", "b"], "b", 2);
    AtUnique(["a", "c", "b"], "c", 1);
    assert enabled[1] == "b" && enabled[2] == "c" && "c" !in enabled[..2];
    assert !InOrder(discovered, enabled, 1, 2);
  }
}
