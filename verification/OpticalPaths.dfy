/**
 The equipment tree resolved into one optical path per camera, the mounts with their sites, and the
 profile's site. A node refers to an inventory item by id; the item may be missing (a dangling node).
 */
module OpticalPaths {
  import opened Wrappers

  datatype Kind = Site | Mount | Ota | Camera | Focuser | FilterWheel | Rotator | FlatPanel | Gps

  datatype Item = Item(id: string, kind: Kind, name: string)

  datatype Node = Node(itemId: string, children: seq<Node>)

  type Store = map<string, Item>

  /** The roles handed down a branch. */
  datatype Context = Context(site: Option<Item>, mount: Option<Item>, ota: Option<Item>, focuser: Option<Item>,
                             filterWheel: Option<Item>, rotator: Option<Item>, flatPanel: Option<Item>)

  datatype OpticalPath = OpticalPath(camera: Item, above: Context)

  const NOTHING := Context(None, None, None, None, None, None, None)

  // ---- walking down ----

  predicate IsKind(node: Node, kind: Kind, store: Store) {
    node.itemId in store && store[node.itemId].kind == kind
  }

  function FlatPanelChild(children: seq<Node>, store: Store): Option<Item> {
    if children == [] then None
    else if IsKind(children[0], FlatPanel, store) then Some(store[children[0].itemId])
    else FlatPanelChild(children[1..], store)
  }

  function Below(context: Context, node: Node, store: Store): Context {
    if node.itemId !in store then context
    else
      var item := store[node.itemId];
      match item.kind
      case Site => context.(site := Some(item))
      case Mount => context.(mount := Some(item))
      case Ota => context.(ota := Some(item), flatPanel := FlatPanelChild(node.children, store))
      case Focuser => context.(focuser := Some(item))
      case FilterWheel => context.(filterWheel := Some(item))
      case Rotator => context.(rotator := Some(item))
      case _ => context
  }

  function Walk(nodes: seq<Node>, store: Store, context: Context): seq<OpticalPath>
    decreases nodes
  {
    if nodes == [] then []
    else
      var node := nodes[0];
      var here := Below(context, node, store);
      (if IsKind(node, Camera, store) then [OpticalPath(store[node.itemId], here)] else [])
      + Walk(node.children, store, here)
      + Walk(nodes[1..], store, context)
  }

  /** One turn of the loop over the nodes, with the paths gathered before it. */
  lemma WalkFrom(paths: seq<OpticalPath>, nodes: seq<Node>, i: nat, store: Store, context: Context)
    requires i < |nodes|
    ensures var node := nodes[i]; var here := Below(context, node, store);
            var own := if IsKind(node, Camera, store) then paths + [OpticalPath(store[node.itemId], here)] else paths;
            && paths + Walk(nodes[i..], store, context)
               == own + Walk(node.children, store, here) + Walk(nodes[i + 1..], store, context)
            && (node.itemId !in store ==> here == context)
  {
    var node := nodes[i];
    var here := Below(context, node, store);
    var own := if IsKind(node, Camera, store) then [OpticalPath(store[node.itemId], here)] else [];
    assert nodes[i..][1..] == nodes[i + 1..];
    assert Walk(nodes[i..], store, context)
           == own + Walk(node.children, store, here) + Walk(nodes[i + 1..], store, context);
    hide Walk, Below;
    assert paths + (own + Walk(node.children, store, here) + Walk(nodes[i + 1..], store, context)) ==
           (paths + own) + Walk(node.children, store, here) + Walk(nodes[i + 1..], store, context);
    assert paths + [] == paths;
  }

  method WalkOpticalPaths(nodes: seq<Node>, store: Store, context: Context) returns (paths: seq<OpticalPath>)
    ensures paths == Walk(nodes, store, context)
    decreases nodes
  {
    paths := [];
    assert nodes[0..] == nodes;
    for i := 0 to |nodes|
      invariant paths + Walk(nodes[i..], store, context) == Walk(nodes, store, context)
    {
      WalkFrom(paths, nodes, i, store, context);
      hide Walk, Below;
      var node := nodes[i];
      if node.itemId !in store {
        var inner := WalkOpticalPaths(node.children, store, context);
        paths := paths + inner;
        continue;
      }
      var here := Below(context, node, store);
      if store[node.itemId].kind == Camera {
        paths := paths + [OpticalPath(store[node.itemId], here)];
      }
      var inner := WalkOpticalPaths(node.children, store, here);
      paths := paths + inner;
    }
  }

  function MountSites(nodes: seq<Node>, store: Store, site: Option<Item>): seq<(Item, Option<Item>)>
    decreases nodes
  {
    if nodes == [] then []
    else
      var node := nodes[0];
      var here := if IsKind(node, Site, store) then Some(store[node.itemId]) else site;
      (if IsKind(node, Mount, store) then [(store[node.itemId], here)] else [])
      + MountSites(node.children, store, here)
      + MountSites(nodes[1..], store, site)
  }

  lemma MountsFrom(results: seq<(Item, Option<Item>)>, nodes: seq<Node>, i: nat, store: Store, site: Option<Item>)
    requires i < |nodes|
    ensures var node := nodes[i];
            var here := if IsKind(node, Site, store) then Some(store[node.itemId]) else site;
            var own := if IsKind(node, Mount, store) then results + [(store[node.itemId], here)] else results;
            results + MountSites(nodes[i..], store, site) ==
            own + MountSites(node.children, store, here) + MountSites(nodes[i + 1..], store, site)
  {
    var node := nodes[i];
    var here := if IsKind(node, Site, store) then Some(store[node.itemId]) else site;
    var own := if IsKind(node, Mount, store) then [(store[node.itemId], here)] else [];
    assert nodes[i..][1..] == nodes[i + 1..];
    assert MountSites(nodes[i..], store, site)
           == own + MountSites(node.children, store, here) + MountSites(nodes[i + 1..], store, site);
    hide MountSites;
    assert results + (own + MountSites(node.children, store, here) + MountSites(nodes[i + 1..], store, site)) ==
           (results + own) + MountSites(node.children, store, here) + MountSites(nodes[i + 1..], store, site);
    assert results + [] == results;
  }

  method WalkMountSites(nodes: seq<Node>, store: Store, site: Option<Item>) returns (results: seq<(Item, Option<Item>)>)
    ensures results == MountSites(nodes, store, site)
    decreases nodes
  {
    results := [];
    assert nodes[0..] == nodes;
    for i := 0 to |nodes|
      invariant results + MountSites(nodes[i..], store, site) == MountSites(nodes, store, site)
    {
      MountsFrom(results, nodes, i, store, site);
      hide MountSites;
      var node := nodes[i];
      var here := site;
      if node.itemId in store {
        if store[node.itemId].kind == Site {
          here := Some(store[node.itemId]);
        } else if store[node.itemId].kind == Mount {
          results := results + [(store[node.itemId], here)];
        }
      }
      var inner := WalkMountSites(node.children, store, here);
      results := results + inner;
    }
  }

  // ---- looking up ----

  /** Every node of the forest in preorder, as the chain of nodes from a root down to it. */
  function Preorder(nodes: seq<Node>, above: seq<Node>): seq<seq<Node>>
    decreases nodes
  {
    if nodes == [] then []
    else
      var chain := above + [nodes[0]];
      [chain] + Preorder(nodes[0].children, chain) + Preorder(nodes[1..], above)
  }

  /** The last node of the kind on the chain. */
  function Closest(chain: seq<Node>, kind: Kind, store: Store): (r: Option<Node>)
    ensures r.Some? ==> IsKind(r.value, kind, store)
  {
    if chain == [] then None
    else if IsKind(chain[|chain| - 1], kind, store) then Some(chain[|chain| - 1])
    else Closest(chain[..|chain| - 1], kind, store)
  }

  function Role(chain: seq<Node>, kind: Kind, store: Store): Option<Item> {
    var node := Closest(chain, kind, store);
    if node == None then None else Some(store[node.value.itemId])
  }

  function Roles(chain: seq<Node>, store: Store): Context {
    var ota := Closest(chain, Ota, store);
    Context(Role(chain, Site, store), Role(chain, Mount, store), Role(chain, Ota, store), Role(chain, Focuser, store),
            Role(chain, FilterWheel, store), Role(chain, Rotator, store),
            if ota == None then None else FlatPanelChild(ota.value.children, store))
  }

  /** One path per camera among the chains' ends. */
  function CameraPaths(chains: seq<seq<Node>>, store: Store): seq<OpticalPath> {
    if chains == [] then []
    else
      var chain := chains[0];
      (if chain != [] && IsKind(chain[|chain| - 1], Camera, store)
       then [OpticalPath(store[chain[|chain| - 1].itemId], Roles(chain, store))] else [])
      + CameraPaths(chains[1..], store)
  }

  function MountPairs(chains: seq<seq<Node>>, store: Store): seq<(Item, Option<Item>)> {
    if chains == [] then []
    else
      var chain := chains[0];
      (if chain != [] && IsKind(chain[|chain| - 1], Mount, store)
       then [(store[chain[|chain| - 1].itemId], Role(chain, Site, store))] else [])
      + MountPairs(chains[1..], store)
  }

  lemma {:induction false} CameraPathsConcat(a: seq<seq<Node>>, b: seq<seq<Node>>, store: Store)
    ensures CameraPaths(a + b, store) == CameraPaths(a, store) + CameraPaths(b, store)
    decreases |a|
  {
    if a == [] {
      assert a + b == b;
    } else {
      assert (a + b)[1..] == a[1..] + b;
      CameraPathsConcat(a[1..], b, store);
    }
  }

  lemma {:induction false} MountPairsConcat(a: seq<seq<Node>>, b: seq<seq<Node>>, store: Store)
    ensures MountPairs(a + b, store) == MountPairs(a, store) + MountPairs(b, store)
    decreases |a|
  {
    if a == [] {
      assert a + b == b;
    } else {
      assert (a + b)[1..] == a[1..] + b;
      MountPairsConcat(a[1..], b, store);
    }
  }

  lemma RolesBelow(chain: seq<Node>, node: Node, store: Store)
    ensures Roles(chain + [node], store) == Below(Roles(chain, store), node, store)
  {
    ClosestStep(chain, node, Site, store);
    ClosestStep(chain, node, Mount, store);
    ClosestStep(chain, node, Ota, store);
    ClosestStep(chain, node, Focuser, store);
    ClosestStep(chain, node, FilterWheel, store);
    ClosestStep(chain, node, Rotator, store);
    hide Closest, FlatPanelChild;
  }

  lemma ClosestStep(chain: seq<Node>, node: Node, kind: Kind, store: Store)
    ensures Closest(chain + [node], kind, store) ==
            if IsKind(node, kind, store) then Some(node) else Closest(chain, kind, store)
  {
    var longer := chain + [node];
    assert longer[..|longer| - 1] == chain;
  }

  /** What is handed down equals what is found going up: every role of every path is the closest ancestor's. */
  lemma {:induction false} WalkFindsClosest(nodes: seq<Node>, store: Store, above: seq<Node>)
    ensures Walk(nodes, store, Roles(above, store)) == CameraPaths(Preorder(nodes, above), store)
    decreases nodes
  {
    if nodes != [] {
      var chain := above + [nodes[0]];
      var inner, rest := Preorder(nodes[0].children, chain), Preorder(nodes[1..], above);
      RolesBelow(above, nodes[0], store);
      WalkFindsClosest(nodes[0].children, store, chain);
      WalkFindsClosest(nodes[1..], store, above);
      CameraPathsConcat([chain] + inner, rest, store);
      CameraPathsConcat([chain], inner, store);
      assert [chain][1..] == [];
    }
  }

  lemma {:induction false} MountsFindClosest(nodes: seq<Node>, store: Store, above: seq<Node>)
    ensures MountSites(nodes, store, Role(above, Site, store)) == MountPairs(Preorder(nodes, above), store)
    decreases nodes
  {
    if nodes != [] {
      var chain := above + [nodes[0]];
      assert chain[..|chain| - 1] == above;
      var inner, rest := Preorder(nodes[0].children, chain), Preorder(nodes[1..], above);
      MountsFindClosest(nodes[0].children, store, chain);
      MountsFindClosest(nodes[1..], store, above);
      MountPairsConcat([chain] + inner, rest, store);
      MountPairsConcat([chain], inner, store);
      assert [chain][1..] == [];
    }
  }

  // ---- what preorder lists ----

  predicate IsChain(nodes: seq<Node>, chain: seq<Node>) {
    chain != [] && chain[0] in nodes && forall i :: 0 <= i < |chain| - 1 ==> chain[i + 1] in chain[i].children
  }

  /** Preorder lists exactly the chains that lead from a root to a node. */
  lemma {:induction false} PreorderListsChains(nodes: seq<Node>, above: seq<Node>, chain: seq<Node>)
    ensures above + chain in Preorder(nodes, above) <==> IsChain(nodes, chain)
    decreases nodes
  {
    if nodes != [] {
      var first := above + [nodes[0]];
      var inner, rest := Preorder(nodes[0].children, first), Preorder(nodes[1..], above);
      PreorderListsChains(nodes[1..], above, chain);
      assert IsChain(nodes, chain) <==>
             IsChain(nodes[1..], chain) || (chain != [] && chain[0] == nodes[0] && IsChain([nodes[0]], chain));
      if chain != [] && chain[0] == nodes[0] {
        assert above + chain == first + chain[1..];
        PreorderListsChains(nodes[0].children, first, chain[1..]);
        HeadChain(nodes[0], chain);
        assert above + chain == first <==> |chain| == 1;
      } else {
        if above + chain in inner {
          InnerStartsWith(nodes[0].children, first, above + chain);
        }
        StartsWith(above, nodes[0], chain);
      }
    }
  }

  lemma StartsWith(above: seq<Node>, node: Node, chain: seq<Node>)
    ensures above + [node] <= above + chain ==> chain != [] && chain[0] == node
  {
    assert (above + [node])[|above|] == node;
    assert chain != [] ==> (above + chain)[|above|] == chain[0];
  }

  lemma HeadChain(node: Node, chain: seq<Node>)
    requires chain != [] && chain[0] == node
    ensures IsChain([node], chain) <==> |chain| == 1 || IsChain(node.children, chain[1..])
  {
    if |chain| > 1 {
      var tail := chain[1..];
      if IsChain(node.children, tail) {
        forall i | 0 <= i < |chain| - 1 ensures chain[i + 1] in chain[i].children {
          assert i > 0 ==> tail[i - 1] == chain[i] && tail[i] == chain[i + 1];
        }
      }
      if IsChain([node], chain) {
        forall i | 0 <= i < |tail| - 1 ensures tail[i + 1] in tail[i].children {
          assert tail[i] == chain[i + 1] && tail[i + 1] == chain[i + 2];
        }
      }
    }
  }

  lemma {:induction false} InnerStartsWith(nodes: seq<Node>, above: seq<Node>, chain: seq<Node>)
    requires chain in Preorder(nodes, above)
    ensures above < chain
    decreases nodes
  {
    var first := above + [nodes[0]];
    if chain in Preorder(nodes[0].children, first) {
      InnerStartsWith(nodes[0].children, first, chain);
    } else if chain in Preorder(nodes[1..], above) {
      InnerStartsWith(nodes[1..], above, chain);
    } else {
      assert chain == first;
    }
  }

  /** A path comes from the chain of its camera. */
  lemma {:induction false} PathHasChain(chains: seq<seq<Node>>, store: Store, path: OpticalPath)
    returns (chain: seq<Node>)
    requires path in CameraPaths(chains, store)
    ensures chain in chains && chain != [] && IsKind(chain[|chain| - 1], Camera, store)
    ensures path == OpticalPath(store[chain[|chain| - 1].itemId], Roles(chain, store))
    decreases |chains|
  {
    if path in CameraPaths(chains[1..], store) {
      chain := PathHasChain(chains[1..], store, path);
    } else {
      chain := chains[0];
    }
  }

  lemma {:induction false} MountIsPaired(chains: seq<seq<Node>>, store: Store, chain: seq<Node>)
    requires chain in chains && chain != [] && IsKind(chain[|chain| - 1], Mount, store)
    ensures (store[chain[|chain| - 1].itemId], Role(chain, Site, store)) in MountPairs(chains, store)
    decreases |chains|
  {
    if chains[0] != chain {
      MountIsPaired(chains[1..], store, chain);
    }
  }

  lemma {:induction false} ClosestIs(chain: seq<Node>, kind: Kind, store: Store, k: nat)
    requires k < |chain| && IsKind(chain[k], kind, store)
    requires forall i :: k < i < |chain| ==> !IsKind(chain[i], kind, store)
    ensures Closest(chain, kind, store) == Some(chain[k])
    decreases |chain|
  {
    if k < |chain| - 1 {
      ClosestIs(chain[..|chain| - 1], kind, store, k);
    }
  }

  /** In any tree, dangling nodes or not: the closest mount of a chain is listed with the site above it. */
  lemma ClosestMountListed(nodes: seq<Node>, store: Store, chain: seq<Node>, k: nat)
    requires IsChain(nodes, chain) && k < |chain| && IsKind(chain[k], Mount, store)
    ensures (store[chain[k].itemId], Role(chain[..k + 1], Site, store)) in MountSites(nodes, store, None)
  {
    var prefix := chain[..k + 1];
    assert IsChain(nodes, prefix);
    assert [] + prefix == prefix;
    PreorderListsChains(nodes, [], prefix);
    MountsFindClosest(nodes, store, []);
    MountIsPaired(Preorder(nodes, []), store, prefix);
  }

  // ---- the profile's site ----

  function FirstSite(nodes: seq<Node>, store: Store): Option<Item> {
    if nodes == [] then None
    else if IsKind(nodes[0], Site, store) then Some(store[nodes[0].itemId])
    else FirstSite(nodes[1..], store)
  }

  function Children(nodes: seq<Node>): seq<Node> {
    if nodes == [] then [] else nodes[0].children + Children(nodes[1..])
  }

  function Size(nodes: seq<Node>): nat
    decreases nodes
  {
    if nodes == [] then 0 else 1 + Size(nodes[0].children) + Size(nodes[1..])
  }

  lemma {:induction false} SizeConcat(a: seq<Node>, b: seq<Node>)
    ensures Size(a + b) == Size(a) + Size(b)
    decreases |a|
  {
    if a == [] {
      assert a + b == b;
    } else {
      assert (a + b)[1..] == a[1..] + b;
      SizeConcat(a[1..], b);
    }
  }

  lemma {:induction false} SizeChildren(nodes: seq<Node>)
    ensures Size(nodes) == |nodes| + Size(Children(nodes))
    decreases |nodes|
  {
    if nodes != [] {
      SizeChildren(nodes[1..]);
      SizeConcat(nodes[0].children, Children(nodes[1..]));
    }
  }

  /** The first site of the topmost level that has one. */
  function LevelOrderSite(nodes: seq<Node>, store: Store): Option<Item>
    decreases Size(nodes)
  {
    var here := FirstSite(nodes, store);
    if nodes == [] || here.Some? then here
    else
      SizeChildren(nodes);
      LevelOrderSite(Children(nodes), store)
  }

  // A worklist whose first part is the rest of one level, the second the next level so far.
  function Pending(level: seq<Node>, next: seq<Node>, store: Store): Option<Item> {
    var here := FirstSite(level, store);
    if here.Some? then here else LevelOrderSite(next + Children(level), store)
  }

  lemma NextLevel(queue: seq<Node>, store: Store)
    ensures Pending([], queue, store) == LevelOrderSite(queue, store) == Pending(queue, [], store)
  {
    assert queue + Children([]) == queue;
    assert [] + Children(queue) == Children(queue);
  }

  /** Taking the first node of the level: it is the site, or its children join the next level. */
  lemma Pop(level: seq<Node>, next: seq<Node>, store: Store)
    requires level != []
    ensures Pending(level, next, store) ==
            if IsKind(level[0], Site, store) then Some(store[level[0].itemId])
            else Pending(level[1..], next + level[0].children, store)
  {
    assert next + Children(level) == next + level[0].children + Children(level[1..]);
  }

  lemma PopShrinks(stack: seq<Node>)
    requires stack != []
    ensures Size(stack[1..] + stack[0].children) < Size(stack)
  {
    SizeConcat(stack[1..], stack[0].children);
  }

  lemma NothingPending(store: Store)
    ensures Pending([], [], store) == None
  {
    NextLevel([], store);
  }

  method FindProfileSite(roots: seq<Node>, store: Store) returns (site: Option<Item>)
    ensures site == LevelOrderSite(roots, store)
  {
    hide Pending, LevelOrderSite, Size;
    var stack := roots;
    // the level being searched and, behind it in the worklist, the next one so far
    ghost var level, next: seq<Node> := roots, [];
    NextLevel(roots, store);
    while stack != []
      invariant stack == level + next
      invariant Pending(level, next, store) == LevelOrderSite(roots, store)
      decreases Size(stack)
    {
      if level == [] {
        NextLevel(next, store);
        level, next := next, [];
      }
      assert stack[0] == level[0] && stack[1..] == level[1..] + next;
      Pop(level, next, store);
      PopShrinks(stack);
      var node := stack[0];
      stack := stack[1..];
      if IsKind(node, Site, store) {
        return Some(store[node.itemId]);
      }
      stack := stack + node.children;
      level, next := level[1..], next + node.children;
    }
    NothingPending(store);
    return None;
  }

  lemma {:induction false} FirstSiteIs(nodes: seq<Node>, store: Store)
    ensures match FirstSite(nodes, store)
            case None => forall n :: n in nodes ==> !IsKind(n, Site, store)
            case Some(item) => exists n :: n in nodes && IsKind(n, Site, store) && store[n.itemId] == item
    decreases |nodes|
  {
    if nodes != [] && !IsKind(nodes[0], Site, store) {
      FirstSiteIs(nodes[1..], store);
      if FirstSite(nodes, store).Some? {
        var n :| n in nodes[1..] && IsKind(n, Site, store) && store[n.itemId] == FirstSite(nodes, store).value;
        assert n in nodes;
      }
    }
  }

  lemma {:induction false} ChildrenHold(nodes: seq<Node>, child: Node)
    ensures child in Children(nodes) <==> exists n :: n in nodes && child in n.children
    decreases |nodes|
  {
    if nodes != [] {
      ChildrenHold(nodes[1..], child);
      if n :| n in nodes && child in n.children {
        assert n == nodes[0] || n in nodes[1..];
      }
    }
  }

  ghost predicate SiteChain(nodes: seq<Node>, store: Store, chain: seq<Node>) {
    IsChain(nodes, chain) && IsKind(chain[|chain| - 1], Site, store)
  }

  /** The breadth-first search finds a site of least depth, and none only when there is none. */
  lemma {:induction false} FindsShallowestSite(nodes: seq<Node>, store: Store) returns (chain: seq<Node>)
    ensures LevelOrderSite(nodes, store) == None ==> forall c :: !SiteChain(nodes, store, c)
    ensures LevelOrderSite(nodes, store).Some? ==>
              && SiteChain(nodes, store, chain)
              && LevelOrderSite(nodes, store) == Some(store[chain[|chain| - 1].itemId])
              && forall c :: SiteChain(nodes, store, c) ==> |chain| <= |c|
    decreases Size(nodes)
  {
    FirstSiteIs(nodes, store);
    if nodes == [] {
      chain := [];
    } else if FirstSite(nodes, store).Some? {
      var n :| n in nodes && IsKind(n, Site, store) && store[n.itemId] == FirstSite(nodes, store).value;
      chain := [n];
    } else {
      SizeChildren(nodes);
      var lower := FindsShallowestSite(Children(nodes), store);
      forall c | SiteChain(nodes, store, c) ensures |c| > 1 && SiteChain(Children(nodes), store, c[1..]) {
        SiteBelow(nodes, store, c);
      }
      chain := [];
      if LevelOrderSite(nodes, store).Some? {
        chain := SiteAbove(nodes, store, lower);
      }
    }
  }

  lemma SiteBelow(nodes: seq<Node>, store: Store, c: seq<Node>)
    requires SiteChain(nodes, store, c) && forall n :: n in nodes ==> !IsKind(n, Site, store)
    ensures |c| > 1 && SiteChain(Children(nodes), store, c[1..])
  {
    ChildrenHold(nodes, c[1]);
    HeadChain(c[0], c);
  }

  lemma SiteAbove(nodes: seq<Node>, store: Store, lower: seq<Node>) returns (chain: seq<Node>)
    requires SiteChain(Children(nodes), store, lower)
    ensures SiteChain(nodes, store, chain) && chain != [] && chain[1..] == lower
  {
    ChildrenHold(nodes, lower[0]);
    var n :| n in nodes && lower[0] in n.children;
    chain := [n] + lower;
    assert chain[1..] == lower;
    HeadChain(n, chain);
  }

  // ---- trees that obey the nesting rules ----

  predicate MayContain(parent: Kind, child: Kind) {
    match parent
    case Site => child in {Mount, Gps}
    case Mount => child == Ota
    case Ota => child in {Camera, Focuser, Rotator, FilterWheel, FlatPanel, Ota}
    case Focuser => child in {FilterWheel, Camera}
    case FilterWheel => child == Camera
    case Rotator => child in {Focuser, FilterWheel, Camera}
    case Camera => false
    case FlatPanel => false
    case Gps => false
  }

  /** No dangling node, and every child of a kind its parent may have. */
  predicate ValidTree(nodes: seq<Node>, store: Store)
    decreases nodes
  {
    nodes != [] ==>
      && nodes[0].itemId in store
      && (forall c :: c in nodes[0].children ==>
            c.itemId in store && MayContain(store[nodes[0].itemId].kind, store[c.itemId].kind))
      && ValidTree(nodes[0].children, store)
      && ValidTree(nodes[1..], store)
  }

  predicate Nested(parent: Node, child: Node, store: Store) {
    parent.itemId in store && child.itemId in store && MayContain(store[parent.itemId].kind, store[child.itemId].kind)
  }

  lemma {:induction false} ValidMember(nodes: seq<Node>, store: Store, n: Node)
    requires ValidTree(nodes, store) && n in nodes
    ensures n.itemId in store && ValidTree(n.children, store) && forall c :: c in n.children ==> Nested(n, c, store)
    decreases |nodes|
  {
    if n != nodes[0] {
      ValidMember(nodes[1..], store, n);
    }
  }

  lemma {:induction false} ValidChain(nodes: seq<Node>, store: Store, chain: seq<Node>)
    requires ValidTree(nodes, store) && IsChain(nodes, chain)
    ensures chain[0].itemId in store && forall i :: 0 <= i < |chain| - 1 ==> Nested(chain[i], chain[i + 1], store)
    decreases |chain|
  {
    ValidMember(nodes, store, chain[0]);
    if |chain| > 1 {
      HeadChain(chain[0], chain);
      ValidChain(chain[0].children, store, chain[1..]);
      forall i | 0 <= i < |chain| - 1 ensures Nested(chain[i], chain[i + 1], store) {
        assert i > 0 ==> chain[1..][i - 1] == chain[i] && chain[1..][i] == chain[i + 1];
      }
    }
  }

  /** Under a site root the only mount of a camera's chain is the second node, and the only site the first. */
  lemma CameraChain(root: Node, store: Store, chain: seq<Node>)
    requires ValidTree([root], store) && IsKind(root, Site, store)
    requires IsChain([root], chain) && IsKind(chain[|chain| - 1], Camera, store)
    ensures |chain| >= 3 && chain[0] == root && IsKind(chain[1], Mount, store)
    ensures forall i :: 1 <= i < |chain| ==> !IsKind(chain[i], Site, store)
    ensures forall i :: 2 <= i < |chain| ==> !IsKind(chain[i], Mount, store)
  {
    ValidChain([root], store, chain);
    forall i | 1 <= i < |chain| ensures !IsKind(chain[i], Site, store) && (i >= 2 ==> !IsKind(chain[i], Mount, store)) {
      assert Nested(chain[i - 1], chain[i], store);
      if i >= 2 {
        assert Nested(chain[i - 2], chain[i - 1], store);
      }
    }
    if |chain| >= 2 {
      assert Nested(chain[0], chain[1], store);
      if |chain| >= 3 {
        assert Nested(chain[1], chain[2], store);
      }
    }
  }

  /**
   On a dangling-free tree with one site root that obeys the nesting rules, every path has a mount,
   walk_mount_sites pairs that mount with the path's site, and that site is the profile's site.
   */
  lemma PathsAgree(root: Node, store: Store, path: OpticalPath)
    requires ValidTree([root], store) && IsKind(root, Site, store)
    requires path in Walk([root], store, NOTHING)
    ensures path.above.mount.Some?
    ensures (path.above.mount.value, path.above.site) in MountSites([root], store, None)
    ensures path.above.site == LevelOrderSite([root], store) == Some(store[root.itemId])
  {
    assert Roles([], store) == NOTHING;
    WalkFindsClosest([root], store, []);
    var chain := PathHasChain(Preorder([root], []), store, path);
    assert [] + chain == chain;
    PreorderListsChains([root], [], chain);
    RolesHold(chain, store);
    hide *;
    CameraChain(root, store, chain);
    RoleIs(chain, Mount, store, 1);
    RoleIs(chain, Site, store, 0);
    RoleIs(chain[..2], Site, store, 0);
    ClosestMountListed([root], store, chain, 1);
    SiteRootFound(root, store);
  }

  lemma RolesHold(chain: seq<Node>, store: Store)
    ensures Roles(chain, store).mount == Role(chain, Mount, store)
            && Roles(chain, store).site == Role(chain, Site, store)
  {
  }

  lemma RoleIs(chain: seq<Node>, kind: Kind, store: Store, k: nat)
    requires k < |chain| && IsKind(chain[k], kind, store)
    requires forall i :: k < i < |chain| ==> !IsKind(chain[i], kind, store)
    ensures chain[k].itemId in store && Role(chain, kind, store) == Some(store[chain[k].itemId])
  {
    ClosestIs(chain, kind, store, k);
  }

  lemma SiteRootFound(root: Node, store: Store)
    requires IsKind(root, Site, store)
    ensures root.itemId in store && LevelOrderSite([root], store) == Some(store[root.itemId])
  {
  }
}
