/**
 Guide-star selection: which detected stars to guide on, the primary first. Distances are compared
 through their squares, coordinates and brightnesses are real numbers.
 */
module GuideStars {
  import opened Reals
  import opened Wrappers

  // `id` stands for the object itself: `is` compares it, `==` and `in` compare everything else.
  datatype Star = Star(id: nat, x: real, y: real, peak: real, flux: real, snr: real, fwhm: real,
                       saturated: bool, elongation: real, hfd: real)

  datatype Bounds = Bounds(x0: real, y0: real, x1: real, y1: real)

  datatype Options = Options(minSeparation: real, maxFwhm: real, minSnr: real, keepRadius: real,
                             bounds: Option<Bounds>, margin: real)

  // ---- distances ----

  function DistanceSquared(s: Star, x: real, y: real): real {
    (s.x - x) * (s.x - x) + (s.y - y) * (s.y - y)
  }

  /** hypot <= radius */
  predicate Within(s: Star, x: real, y: real, radius: real) {
    radius >= 0.0 && DistanceSquared(s, x, y) <= radius * radius
  }

  /** hypot < radius */
  predicate Closer(s: Star, t: Star, radius: real) {
    radius > 0.0 && DistanceSquared(s, t.x, t.y) < radius * radius
  }

  predicate Apart(stars: seq<Star>, separation: real) {
    forall i, j :: 0 <= i < |stars| && 0 <= j < |stars| && i != j ==> !Closer(stars[i], stars[j], separation)
  }

  predicate Distinct(stars: seq<Star>) {
    forall i, j :: 0 <= i < j < |stars| ==> stars[i] != stars[j]
  }

  predicate DistinctObjects(stars: seq<Star>) {
    forall i, j :: 0 <= i < j < |stars| ==> stars[i].id != stars[j].id
  }

  predicate SameValue(s: Star, t: Star) {
    s.(id := t.id) == t
  }

  predicate ValueIn(s: Star, stars: seq<Star>) {
    exists t :: t in stars && SameValue(s, t)
  }

  // ---- lists ----

  function Filter(stars: seq<Star>, p: Star -> bool): (r: seq<Star>)
    ensures forall s :: s in r <==> s in stars && p(s)
    ensures Distinct(stars) ==> Distinct(r)
  {
    if stars == [] then []
    else
      var n := |stars| - 1;
      assert Distinct(stars) ==> stars[n] !in stars[..n];
      Filter(stars[..n], p) + if p(stars[n]) then [stars[n]] else []
  }

  /** Python xs[:count]. */
  function Take(stars: seq<Star>, count: int): seq<Star> {
    if count >= |stars| then stars
    else if count >= 0 then stars[..count]
    else if -count >= |stars| then []
    else stars[..|stars| + count]
  }

  // ---- the order ----

  predicate NearEdge(s: Star, o: Options) {
    o.bounds.Some? && o.margin > 0.0 &&
    var b := o.bounds.value;
    s.x - b.x0 < o.margin || b.x1 - s.x < o.margin || s.y - b.y0 < o.margin || b.y1 - s.y < o.margin
  }

  function Precision(s: Star): real {
    if s.snr <= 100.0 then s.snr else 100.0
  }

  /** The sort key of s is above that of t. */
  predicate Better(s: Star, t: Star, o: Options) {
    if NearEdge(s, o) != NearEdge(t, o) then NearEdge(t, o)
    else if Precision(s) != Precision(t) then Precision(s) > Precision(t)
    else s.flux > t.flux
  }

  predicate Ordered(stars: seq<Star>, o: Options) {
    forall i, j :: 0 <= i < j < |stars| ==> !Better(stars[j], stars[i], o)
  }

  function Insert(s: Star, sorted: seq<Star>, o: Options): (r: seq<Star>)
    ensures forall t :: t in r <==> t == s || t in sorted
  {
    if sorted == [] || !Better(sorted[0], s, o) then [s] + sorted
    else [sorted[0]] + Insert(s, sorted[1..], o)
  }

  /** Best first; equals keep their order. */
  function Sorted(stars: seq<Star>, o: Options): (r: seq<Star>)
    ensures forall t :: t in r <==> t in stars
  {
    if stars == [] then [] else Insert(stars[0], Sorted(stars[1..], o), o)
  }

  lemma {:induction false} InsertOrdered(s: Star, sorted: seq<Star>, o: Options)
    requires Ordered(sorted, o)
    ensures Ordered(Insert(s, sorted, o), o)
    decreases |sorted|
  {
    hide NearEdge, Precision;
    if sorted != [] && Better(sorted[0], s, o) {
      InsertOrdered(s, sorted[1..], o);
      forall t | t in Insert(s, sorted[1..], o) ensures !Better(t, sorted[0], o) {
      }
    }
  }

  lemma {:induction false} InsertDistinct(s: Star, sorted: seq<Star>, o: Options)
    requires Distinct(sorted) && s !in sorted
    ensures Distinct(Insert(s, sorted, o))
    decreases |sorted|
  {
    if sorted != [] && Better(sorted[0], s, o) {
      InsertDistinct(s, sorted[1..], o);
      assert sorted[0] !in sorted[1..];
    }
  }

  predicate Tied(s: Star, t: Star, o: Options) {
    !Better(s, t, o) && !Better(t, s, o)
  }

  function TiedWith(stars: seq<Star>, t: Star, o: Options): seq<Star> {
    if stars == [] then []
    else (if Tied(stars[0], t, o) then [stars[0]] else []) + TiedWith(stars[1..], t, o)
  }

  lemma {:induction false} InsertStable(s: Star, sorted: seq<Star>, t: Star, o: Options)
    ensures TiedWith(Insert(s, sorted, o), t, o) == TiedWith([s] + sorted, t, o)
    decreases |sorted|
  {
    assert ([s] + sorted)[1..] == sorted;
    if sorted != [] && Better(sorted[0], s, o) {
      var tail := sorted[1..];
      InsertStable(s, tail, t, o);
      assert ([s] + tail)[1..] == tail;
      assert ([sorted[0]] + Insert(s, tail, o))[1..] == Insert(s, tail, o);
    }
  }

  /** The sort loses and invents nothing and puts the best first. */
  lemma {:induction false} SortedOrders(stars: seq<Star>, o: Options)
    ensures Ordered(Sorted(stars, o), o)
    ensures Distinct(stars) ==> Distinct(Sorted(stars, o))
    decreases |stars|
  {
    if stars != [] {
      var tail := Sorted(stars[1..], o);
      SortedOrders(stars[1..], o);
      InsertOrdered(stars[0], tail, o);
      if Distinct(stars) {
        assert stars[0] !in stars[1..];
        InsertDistinct(stars[0], tail, o);
      }
    }
  }

  /** The sort is stable: stars tied with any given one keep their order. */
  lemma {:induction false} SortedStable(stars: seq<Star>, t: Star, o: Options)
    ensures TiedWith(Sorted(stars, o), t, o) == TiedWith(stars, t, o)
    decreases |stars|
  {
    if stars != [] {
      var tail := Sorted(stars[1..], o);
      SortedStable(stars[1..], t, o);
      InsertStable(stars[0], tail, t, o);
      assert ([stars[0]] + tail)[1..] == tail;
    }
  }

  // ---- the choice ----

  predicate Crowded(s: Star, stars: seq<Star>, o: Options) {
    exists t :: t in stars && t.id != s.id && Closer(t, s, o.minSeparation)
  }

  predicate Candidate(s: Star, stars: seq<Star>, o: Options) {
    s.snr >= o.minSnr && s.fwhm <= o.maxFwhm && !Crowded(s, stars, o)
  }

  function Candidates(stars: seq<Star>, o: Options): seq<Star> {
    Filter(stars, s => Candidate(s, stars, o))
  }

  function Unsaturated(stars: seq<Star>): seq<Star> {
    Filter(stars, (s: Star) => !s.saturated)
  }

  function Others(stars: seq<Star>, star: Star): seq<Star> {
    Filter(stars, (s: Star) => s.id != star.id)
  }

  /** The unsaturated candidates, or all of them when every one is saturated; best first. */
  function Ranked(stars: seq<Star>, o: Options): seq<Star> {
    var candidates := Candidates(stars, o);
    var unsaturated := Unsaturated(candidates);
    Sorted(if unsaturated == [] then candidates else unsaturated, o)
  }

  /** The star nearest to (x, y), the first such one. */
  function Nearest(stars: seq<Star>, x: real, y: real): (r: Star)
    requires stars != []
    ensures r in stars
    ensures forall s :: s in stars ==> DistanceSquared(r, x, y) <= DistanceSquared(s, x, y)
  {
    if |stars| == 1 then stars[0]
    else
      var n := |stars| - 1;
      var best := Nearest(stars[..n], x, y);
      if DistanceSquared(stars[n], x, y) < DistanceSquared(best, x, y) then stars[n] else best
  }

  /** The star the user picked, when one is near enough. */
  function Picked(stars: seq<Star>, o: Options, prefer: Option<(real, real)>): Option<Star> {
    if prefer == None || stars == [] then None
    else
      var (x, y) := prefer.value;
      var s := Nearest(stars, x, y);
      if Within(s, x, y, 3.0 * o.keepRadius) then Some(s) else None
  }

  function Usable(stars: seq<Star>, o: Options, picked: Option<Star>): seq<Star> {
    var ranked := Ranked(stars, o);
    if picked.Some? && !ValueIn(picked.value, ranked) then [picked.value] + ranked else ranked
  }

  function ToKeep(keep: Option<seq<Star>>, picked: Option<Star>): seq<Star> {
    var previous := if keep == None then [] else keep.value;
    if picked == None then previous else [picked.value] + Others(previous, picked.value)
  }

  /** The usable stars not taken yet that an old star may have become. */
  function Free(usable: seq<Star>, kept: seq<Star>, previous: Star, radius: real): seq<Star> {
    Filter(usable, s => !ValueIn(s, kept) && Within(s, previous.x, previous.y, radius))
  }

  function Kept(usable: seq<Star>, keep: seq<Star>, radius: real): seq<Star> {
    if keep == [] then []
    else
      var previous, kept := keep[|keep| - 1], Kept(usable, keep[..|keep| - 1], radius);
      var free := Free(usable, kept, previous, radius);
      if free == [] then kept else kept + [Nearest(free, previous.x, previous.y)]
  }

  function Rest(usable: seq<Star>, kept: seq<Star>): seq<Star> {
    Filter(usable, s => !ValueIn(s, kept))
  }

  /** Old stars first, then the others in rank order. */
  function Lineup(usable: seq<Star>, keep: seq<Star>, radius: real): seq<Star> {
    var kept := Kept(usable, keep, radius);
    kept + Rest(usable, kept)
  }

  function Selected(stars: seq<Star>, count: int, o: Options, keep: Option<seq<Star>>,
                    prefer: Option<(real, real)>): seq<Star> {
    var picked := Picked(stars, o, prefer);
    var usable := Usable(stars, o, picked);
    Take(Lineup(usable, ToKeep(keep, picked), o.keepRadius), count)
  }

  method SelectGuideStars(stars: seq<Star>, count: int, o: Options, keep: Option<seq<Star>>,
                          prefer: Option<(real, real)>)
    returns (chosen: seq<Star>)
    ensures chosen == Selected(stars, count, o, keep, prefer)
  {
    hide Filter, Sorted, Kept, Take, Nearest, Rest, Within, Others, Candidates, Unsaturated, ValueIn;
    var candidates := Candidates(stars, o);
    var usable := Unsaturated(candidates);
    if usable == [] {
      usable := candidates;
    }
    usable := Sorted(usable, o);
    var previous := if keep == None then [] else keep.value;
    if prefer.Some? && stars != [] {
      var (x, y) := prefer.value;
      var picked := Nearest(stars, x, y);
      if Within(picked, x, y, 3.0 * o.keepRadius) {
        previous := [picked] + Others(previous, picked);
        if !ValueIn(picked, usable) {
          usable := [picked] + usable;
        }
      }
    }
    var kept := KeepOld(usable, previous, o.keepRadius);
    var rest := Rest(usable, kept);
    chosen := Take(kept + rest, count);
  }

  method KeepOld(usable: seq<Star>, keep: seq<Star>, radius: real) returns (kept: seq<Star>)
    ensures kept == Kept(usable, keep, radius)
  {
    kept := [];
    for i := 0 to |keep|
      invariant kept == Kept(usable, keep[..i], radius)
    {
      var previous := keep[i];
      assert keep[..i + 1][..i] == keep[..i];
      var free := Free(usable, kept, previous, radius);
      if free != [] {
        kept := kept + [Nearest(free, previous.x, previous.y)];
      }
    }
    assert keep[..|keep|] == keep;
  }

  // ---- no star twice, no two stars too close ----

  /** Any two different stars of the list are at least the separation apart. */
  predicate Spread(stars: seq<Star>, separation: real) {
    forall s, t :: s in stars && t in stars && s != t ==> s.id != t.id && !Closer(s, t, separation)
  }

  lemma RankedSpread(stars: seq<Star>, o: Options)
    requires DistinctObjects(stars)
    ensures Distinct(Ranked(stars, o)) && Spread(Ranked(stars, o), o.minSeparation) && Ordered(Ranked(stars, o), o)
    ensures forall s :: s in Ranked(stars, o) ==> s in stars && Candidate(s, stars, o)
  {
    var candidates := Candidates(stars, o);
    var unsaturated := Unsaturated(candidates);
    SortedOrders(if unsaturated == [] then candidates else unsaturated, o);
    SameObject(stars);
  }

  lemma SameObject(stars: seq<Star>)
    requires DistinctObjects(stars)
    ensures forall s, t :: s in stars && t in stars && s.id == t.id ==> s == t
  {
  }

  lemma UsableSpread(stars: seq<Star>, o: Options, prefer: Option<(real, real)>)
    requires DistinctObjects(stars)
    ensures var usable := Usable(stars, o, Picked(stars, o, prefer));
            Distinct(usable) && Spread(usable, o.minSeparation)
  {
    RankedSpread(stars, o);
    SameObject(stars);
    var ranked, picked := Ranked(stars, o), Picked(stars, o, prefer);
    if picked.Some? && !ValueIn(picked.value, ranked) {
      var p := picked.value;
      assert SameValue(p, p);
      forall s | s in ranked ensures s.id != p.id && !Closer(s, p, o.minSeparation) && !Closer(p, s, o.minSeparation) {
        Symmetric(s, p, o.minSeparation);
      }
    }
  }

  lemma Symmetric(s: Star, t: Star, separation: real)
    ensures Closer(s, t, separation) <==> Closer(t, s, separation)
  {
    assert (s.x - t.x) * (s.x - t.x) == (t.x - s.x) * (t.x - s.x);
    assert (s.y - t.y) * (s.y - t.y) == (t.y - s.y) * (t.y - s.y);
  }

  lemma {:induction false} KeptDistinct(usable: seq<Star>, keep: seq<Star>, radius: real)
    ensures var kept := Kept(usable, keep, radius);
            Distinct(kept) && forall s :: s in kept ==> s in usable
    decreases |keep|
  {
    if keep != [] {
      var previous, kept := keep[|keep| - 1], Kept(usable, keep[..|keep| - 1], radius);
      KeptDistinct(usable, keep[..|keep| - 1], radius);
      var free := Free(usable, kept, previous, radius);
      if free != [] {
        var best := Nearest(free, previous.x, previous.y);
        assert SameValue(best, best);
        assert best !in kept;
      }
    }
  }

  lemma DistinctConcat(a: seq<Star>, b: seq<Star>)
    requires Distinct(a) && Distinct(b) && forall s :: s in b ==> s !in a
    ensures Distinct(a + b)
  {
    forall i, j | 0 <= i < j < |a + b| ensures (a + b)[i] != (a + b)[j] {
      assert i < |a| <= j ==> a[i] in a && b[j - |a|] in b;
    }
  }

  lemma RestDisjoint(usable: seq<Star>, kept: seq<Star>)
    ensures forall s :: s in Rest(usable, kept) ==> s in usable && s !in kept
    ensures Distinct(usable) ==> Distinct(Rest(usable, kept))
  {
    forall s | s in Rest(usable, kept) ensures s in usable && s !in kept {
      assert SameValue(s, s);
    }
  }

  lemma LineupDistinct(usable: seq<Star>, keep: seq<Star>, radius: real)
    requires Distinct(usable)
    ensures Distinct(Lineup(usable, keep, radius))
    ensures forall s :: s in Lineup(usable, keep, radius) ==> s in usable
  {
    var kept := Kept(usable, keep, radius);
    KeptDistinct(usable, keep, radius);
    RestDisjoint(usable, kept);
    DistinctConcat(kept, Rest(usable, kept));
  }

  lemma SpreadApart(chosen: seq<Star>, usable: seq<Star>, separation: real)
    requires Spread(usable, separation) && Distinct(chosen) && forall s :: s in chosen ==> s in usable
    ensures DistinctObjects(chosen) && Apart(chosen, separation)
  {
    hide Closer;
    forall i, j | 0 <= i < |chosen| && 0 <= j < |chosen| && i != j
      ensures chosen[i].id != chosen[j].id && !Closer(chosen[i], chosen[j], separation)
    {
      assert chosen[i] in usable && chosen[j] in usable && chosen[i] != chosen[j];
    }
  }

  /** The chosen stars are different objects, pairwise at least the separation apart, even with a crowded pick. */
  lemma ChosenApart(stars: seq<Star>, count: int, o: Options, keep: Option<seq<Star>>, prefer: Option<(real, real)>)
    requires DistinctObjects(stars)
    ensures var chosen := Selected(stars, count, o, keep, prefer);
            && DistinctObjects(chosen) && Apart(chosen, o.minSeparation)
            && forall s :: s in chosen ==> s in stars
  {
    var picked := Picked(stars, o, prefer);
    var usable := Usable(stars, o, picked);
    var lineup := Lineup(usable, ToKeep(keep, picked), o.keepRadius);
    UsableSpread(stars, o, prefer);
    UsableDetected(stars, o, prefer);
    hide *;
    LineupDistinct(usable, ToKeep(keep, picked), o.keepRadius);
    SpreadApart(lineup, usable, o.minSeparation);
    TakeApart(lineup, count, o.minSeparation);
    SelectedUnfolds(stars, count, o, keep, prefer);
  }

  lemma SelectedUnfolds(stars: seq<Star>, count: int, o: Options, keep: Option<seq<Star>>, prefer: Option<(real, real)>)
    ensures var picked := Picked(stars, o, prefer);
            Selected(stars, count, o, keep, prefer) ==
            Take(Lineup(Usable(stars, o, picked), ToKeep(keep, picked), o.keepRadius), count)
  {
  }

  lemma TakeApart(lineup: seq<Star>, count: int, separation: real)
    requires DistinctObjects(lineup) && Apart(lineup, separation)
    ensures DistinctObjects(Take(lineup, count)) && Apart(Take(lineup, count), separation)
    ensures forall s :: s in Take(lineup, count) ==> s in lineup
  {
    hide Closer;
    var n := |Take(lineup, count)|;
    assert Take(lineup, count) == lineup[..n];
  }

  lemma UsableDetected(stars: seq<Star>, o: Options, prefer: Option<(real, real)>)
    requires DistinctObjects(stars)
    ensures forall s :: s in Usable(stars, o, Picked(stars, o, prefer)) ==> s in stars
  {
    RankedSpread(stars, o);
  }

  // ---- the pick leads ----

  lemma SamePlace(s: Star, t: Star, separation: real)
    requires separation > 0.0 && s.x == t.x && s.y == t.y
    ensures Closer(s, t, separation)
  {
    Square(separation, separation * separation);
    assert s.x - t.x == 0.0 && s.y - t.y == 0.0;
  }

  lemma PickUsable(stars: seq<Star>, o: Options, prefer: Option<(real, real)>)
    requires DistinctObjects(stars) && o.minSeparation > 0.0 && Picked(stars, o, prefer).Some?
    ensures Picked(stars, o, prefer).value in Usable(stars, o, Picked(stars, o, prefer))
  {
    var p, ranked := Picked(stars, o, prefer).value, Ranked(stars, o);
    RankedSpread(stars, o);
    hide Ranked, Closer;
    if t :| t in ranked && SameValue(p, t) {
      SameObject(stars);
      SamePlace(p, t, o.minSeparation);
      assert p.id == t.id;
    }
  }

  /** Whatever comes later in the old list, the stars kept so far stay in front. */
  lemma {:induction false} KeptPrefix(usable: seq<Star>, keep: seq<Star>, radius: real, n: nat)
    requires n <= |keep|
    ensures Kept(usable, keep[..n], radius) <= Kept(usable, keep, radius)
    decreases |keep|
  {
    if n < |keep| {
      KeptPrefix(usable, keep[..|keep| - 1], radius, n);
      assert keep[..|keep| - 1][..n] == keep[..n];
    } else {
      assert keep[..n] == keep;
    }
  }

  /** The only usable star at the place of a usable star is that star. */
  lemma OnlyOneThere(usable: seq<Star>, s: Star, t: Star, separation: real)
    requires separation > 0.0 && Spread(usable, separation) && s in usable && t in usable
    requires DistanceSquared(s, t.x, t.y) <= 0.0
    ensures s == t
  {
    var dx, dy := s.x - t.x, s.y - t.y;
    assert DistanceSquared(s, t.x, t.y) == dx * dx + dy * dy;
    ZeroDistance(dx, dy);
    SamePlace(s, t, separation);
  }

  lemma ZeroDistance(dx: real, dy: real)
    requires dx * dx + dy * dy <= 0.0
    ensures dx == 0.0 && dy == 0.0
  {
    Square(dx, dx * dx);
    Square(dy, dy * dy);
  }

  lemma WithinItself(p: Star, radius: real)
    requires radius >= 0.0
    ensures Within(p, p.x, p.y, radius) && DistanceSquared(p, p.x, p.y) == 0.0
  {
    Square(radius, radius * radius);
    assert p.x - p.x == 0.0 && p.y - p.y == 0.0;
  }

  lemma KeepsItself(usable: seq<Star>, p: Star, separation: real, radius: real)
    requires separation > 0.0 && radius >= 0.0 && Spread(usable, separation) && p in usable
    ensures Kept(usable, [p], radius) == [p]
  {
    var free := Free(usable, [], p, radius);
    assert [p][..0] == [];
    assert Kept(usable, [p], radius) == if free == [] then [] else [Nearest(free, p.x, p.y)];
    WithinItself(p, radius);
    hide Spread, Within, DistanceSquared, Filter, Nearest, Kept;
    assert p in free;
    OnlyOneThere(usable, Nearest(free, p.x, p.y), p, separation);
  }

  lemma PickKept(stars: seq<Star>, o: Options, keep: Option<seq<Star>>, prefer: Option<(real, real)>)
    requires DistinctObjects(stars) && o.minSeparation > 0.0 && Picked(stars, o, prefer).Some?
    ensures var picked := Picked(stars, o, prefer);
            var kept := Kept(Usable(stars, o, picked), ToKeep(keep, picked), o.keepRadius);
            kept != [] && kept[0] == picked.value && picked.value in kept
  {
    var picked := Picked(stars, o, prefer);
    var p, usable, all := picked.value, Usable(stars, o, picked), ToKeep(keep, picked);
    assert all[..1] == [p];
    PickUsable(stars, o, prefer);
    UsableSpread(stars, o, prefer);
    PickWithin(stars, o, prefer);
    hide *;
    KeepsItself(usable, p, o.minSeparation, o.keepRadius);
    KeptPrefix(usable, all, o.keepRadius, 1);
  }

  /** A pick within three keep radii is always the primary guide star. */
  lemma PickLeads(stars: seq<Star>, count: int, o: Options, keep: Option<seq<Star>>, prefer: Option<(real, real)>)
    requires DistinctObjects(stars) && o.minSeparation > 0.0 && count >= 1
    requires Picked(stars, o, prefer).Some?
    ensures var chosen := Selected(stars, count, o, keep, prefer);
            chosen != [] && chosen[0] == Picked(stars, o, prefer).value
  {
    var picked := Picked(stars, o, prefer);
    var usable, all := Usable(stars, o, picked), ToKeep(keep, picked);
    PickKept(stars, o, keep, prefer);
    hide *;
    SelectedUnfolds(stars, count, o, keep, prefer);
    TakeFirst(Kept(usable, all, o.keepRadius), Rest(usable, Kept(usable, all, o.keepRadius)), count);
    LineupUnfolds(usable, all, o.keepRadius);
  }

  lemma LineupUnfolds(usable: seq<Star>, keep: seq<Star>, radius: real)
    ensures Lineup(usable, keep, radius) == Kept(usable, keep, radius) + Rest(usable, Kept(usable, keep, radius))
  {
  }

  lemma TakeFirst(a: seq<Star>, b: seq<Star>, count: int)
    requires a != [] && count >= 1
    ensures Take(a + b, count) != [] && Take(a + b, count)[0] == a[0]
  {
  }

  lemma PickWithin(stars: seq<Star>, o: Options, prefer: Option<(real, real)>)
    requires Picked(stars, o, prefer).Some?
    ensures o.keepRadius >= 0.0
    ensures var p := Picked(stars, o, prefer).value;
            && p in stars && prefer.Some? && Within(p, prefer.value.0, prefer.value.1, 3.0 * o.keepRadius)
            && forall s :: s in stars ==>
                  DistanceSquared(p, prefer.value.0, prefer.value.1)
                  <= DistanceSquared(s, prefer.value.0, prefer.value.1)
  {
  }

  // ---- old stars lead ----

  /** now[i] is a usable star within the radius of the old star keep[i]. */
  predicate Moved(now: seq<Star>, keep: seq<Star>, usable: seq<Star>, radius: real) {
    |now| == |keep| && forall i :: 0 <= i < |now| ==> now[i] in usable && Within(now[i], keep[i].x, keep[i].y, radius)
  }

  /** |s - t|^2 <= 2|s - c|^2 + 2|t - c|^2, so two points within a radius of a third are within two radii. */
  lemma TwoRadii(s: Star, t: Star, x: real, y: real, radius: real, separation: real)
    requires Within(s, x, y, radius) && Within(t, x, y, radius) && separation > 2.0 * radius
    ensures Closer(s, t, separation)
  {
    var d := DistanceSquared(s, t.x, t.y);
    Parallelogram(s.x - x, t.x - x);
    Parallelogram(s.y - y, t.y - y);
    SquaresOrdered(2.0 * radius, separation, 4.0 * (radius * radius), separation * separation);
    assert s.x - x - (t.x - x) == s.x - t.x && s.y - y - (t.y - y) == s.y - t.y;
  }

  lemma Parallelogram(a: real, b: real)
    ensures (a - b) * (a - b) <= 2.0 * (a * a) + 2.0 * (b * b)
  {
    var p := a * b;
    assert (a - b) * (a - b) == a * a - 2.0 * p + b * b;
    assert (a + b) * (a + b) == a * a + 2.0 * p + b * b;
    Square(a + b, (a + b) * (a + b));
  }

  lemma SquaresOrdered(a: real, b: real, aa: real, bb: real)
    requires 0.0 <= a < b && aa == a * a && bb == b * b
    ensures aa < bb
  {
    var d := b - a;
    Square(d, d * d);
    assert bb == aa + a * d + d * a + d * d;
    Product(a, d, a * d);
    assert d * a == a * d;
  }

  lemma Product(a: real, b: real, p: real)
    requires a >= 0.0 && b >= 0.0 && p == a * b
    ensures p >= 0.0
  {
  }

  /** The usable star within the radius of a place is the only one. */
  lemma OneCandidate(usable: seq<Star>, kept: seq<Star>, previous: Star, now: Star, radius: real, separation: real)
    requires Spread(usable, separation) && separation > 2.0 * radius
    requires now in usable && Within(now, previous.x, previous.y, radius) && !ValueIn(now, kept)
    ensures var free := Free(usable, kept, previous, radius);
            free != [] && Nearest(free, previous.x, previous.y) == now
  {
    var free := Free(usable, kept, previous, radius);
    assert now in free;
    var s := Nearest(free, previous.x, previous.y);
    TwoRadii(s, now, previous.x, previous.y, radius, separation);
  }

  lemma NotTaken(usable: seq<Star>, keep: seq<Star>, now: seq<Star>, radius: real, separation: real)
    requires separation > 2.0 * radius && keep != []
    requires Moved(now, keep, usable, radius) && Apart(keep, separation)
    ensures !ValueIn(now[|now| - 1], now[..|now| - 1])
  {
    hide Within, Closer;
    var n := |now| - 1;
    if ValueIn(now[n], now[..n]) {
      var t :| t in now[..n] && SameValue(now[n], t);
      var i :| 0 <= i < n && now[i] == t;
      BothNear(keep[i], keep[n], now[n], now[i], radius, separation);
    }
  }

  lemma {:induction false} KeptAreNow(usable: seq<Star>, keep: seq<Star>, now: seq<Star>, radius: real,
                                      separation: real)
    requires Spread(usable, separation) && separation > 2.0 * radius
    requires Moved(now, keep, usable, radius) && Apart(keep, separation)
    ensures Kept(usable, keep, radius) == now
    decreases |keep|
  {
    if keep != [] {
      var n := |keep| - 1;
      KeptAreNow(usable, keep[..n], now[..n], radius, separation);
      NotTaken(usable, keep, now, radius, separation);
      hide Spread, Apart, Free, Filter, Nearest, ValueIn, Closer, Within;
      OneCandidate(usable, now[..n], keep[n], now[n], radius, separation);
      assert now == now[..n] + [now[n]];
    }
  }

  /** Two old stars that moved to the same place were too close to each other. */
  lemma BothNear(a: Star, b: Star, s: Star, t: Star, radius: real, separation: real)
    requires Within(t, a.x, a.y, radius) && Within(s, b.x, b.y, radius) && SameValue(s, t)
    requires separation > 2.0 * radius
    ensures Closer(a, b, separation)
  {
    assert (a.x - s.x) * (a.x - s.x) == (s.x - a.x) * (s.x - a.x);
    assert (a.y - s.y) * (a.y - s.y) == (s.y - a.y) * (s.y - a.y);
    assert (b.x - s.x) * (b.x - s.x) == (s.x - b.x) * (s.x - b.x);
    assert (b.y - s.y) * (b.y - s.y) == (s.y - b.y) * (s.y - b.y);
    TwoRadii(a, b, s.x, s.y, radius, separation);
  }

  function Except(stars: seq<Star>, p: Star): seq<Star> {
    Filter(stars, (s: Star) => s != p)
  }

  lemma FilterLast(stars: seq<Star>, p: Star -> bool)
    requires stars != []
    ensures Filter(stars, p) == Filter(stars[..|stars| - 1], p)
            + if p(stars[|stars| - 1]) then [stars[|stars| - 1]] else []
  {
  }

  lemma ExceptLast(stars: seq<Star>, p: Star)
    requires stars != []
    ensures Except(stars, p) == Except(stars[..|stars| - 1], p)
            + if stars[|stars| - 1] != p then [stars[|stars| - 1]] else []
  {
    FilterLast(stars, (s: Star) => s != p);
  }

  lemma OthersLast(stars: seq<Star>, p: Star)
    requires stars != []
    ensures Others(stars, p) == Others(stars[..|stars| - 1], p)
            + if stars[|stars| - 1].id != p.id then [stars[|stars| - 1]] else []
  {
    FilterLast(stars, (s: Star) => s.id != p.id);
  }

  /** Two usable stars within the radius of one place are the same star. */
  lemma OneThere(usable: seq<Star>, s: Star, t: Star, x: real, y: real, radius: real, separation: real)
    requires Spread(usable, separation) && separation > 2.0 * radius && s in usable && t in usable
    requires Within(s, x, y, radius) && Within(t, x, y, radius)
    ensures s == t
  {
    TwoRadii(s, t, x, y, radius, separation);
  }

  /** An old star that has become the pick finds nothing more to keep. */
  lemma TakenByPick(usable: seq<Star>, kept: seq<Star>, previous: Star, p: Star, radius: real, separation: real)
    requires Spread(usable, separation) && separation > 2.0 * radius
    requires p in usable && p in kept && Within(p, previous.x, previous.y, radius)
    ensures Free(usable, kept, previous, radius) == []
  {
    var free := Free(usable, kept, previous, radius);
    if free != [] {
      var s := free[0];
      assert s in free;
      OneThere(usable, s, p, previous.x, previous.y, radius, separation);
      assert SameValue(s, p);
    }
  }

  /** A moved star other than the pick is not among the pick and the earlier moved stars. */
  lemma NotTakenByPick(usable: seq<Star>, p: Star, keep: seq<Star>, now: seq<Star>, radius: real, separation: real)
    requires Spread(usable, separation) && separation > 2.0 * radius && separation > 0.0 && keep != [] && p in usable
    requires Moved(now, keep, usable, radius) && Apart(keep, separation) && now[|now| - 1] != p
    ensures !ValueIn(now[|now| - 1], [p] + Except(now[..|now| - 1], p))
  {
    var n := |now| - 1;
    NotTaken(usable, keep, now, radius, separation);
    ValueSplits(now[n], p, now[..n]);
    hide Within, Closer, Apart;
    if SameValue(now[n], p) {
      SamePlace(now[n], p, separation);
    }
  }

  lemma ValueSplits(s: Star, p: Star, stars: seq<Star>)
    ensures ValueIn(s, [p] + Except(stars, p)) ==> SameValue(s, p) || ValueIn(s, stars)
  {
    if ValueIn(s, [p] + Except(stars, p)) {
      var t :| t in [p] + Except(stars, p) && SameValue(s, t);
    }
  }

  /** With a pick at the head of the list, the pick comes first and the moved old stars other than it follow. */
  lemma {:induction false} KeptWithPick(usable: seq<Star>, p: Star, keep: seq<Star>, now: seq<Star>, radius: real,
                                        separation: real)
    requires Spread(usable, separation) && separation > 2.0 * radius && radius >= 0.0 && p in usable
    requires |now| == |keep| && Moved(now, keep, usable, radius) && Apart(keep, separation)
    requires forall s :: s in keep && s.id == p.id ==> s == p
    ensures Kept(usable, [p] + Others(keep, p), radius) == [p] + Except(now, p)
    decreases |keep|
  {
    if keep == [] {
      NoneMoved(p);
      hide *;
      KeepsItself(usable, p, separation, radius);
    } else {
      var n := |keep| - 1;
      MovedBefore(now, keep, usable, radius, separation);
      hide *;
      KeptWithPick(usable, p, keep[..n], now[..n], radius, separation);
      OneMore(usable, p, keep, now, radius, separation);
    }
  }

  lemma NoneMoved(p: Star)
    ensures [p] + Others([], p) == [p] && [p] + Except([], p) == [p]
  {
  }

  lemma MovedBefore(now: seq<Star>, keep: seq<Star>, usable: seq<Star>, radius: real, separation: real)
    requires keep != [] && Moved(now, keep, usable, radius) && Apart(keep, separation)
    ensures var n := |keep| - 1; Moved(now[..n], keep[..n], usable, radius) && Apart(keep[..n], separation)
  {
    hide Within, Closer;
  }

  lemma OneMore(usable: seq<Star>, p: Star, keep: seq<Star>, now: seq<Star>, radius: real, separation: real)
    requires Spread(usable, separation) && separation > 2.0 * radius && radius >= 0.0 && p in usable
    requires keep != [] && Moved(now, keep, usable, radius) && Apart(keep, separation)
    requires forall s :: s in keep && s.id == p.id ==> s == p
    requires Kept(usable, [p] + Others(keep[..|keep| - 1], p), radius) == [p] + Except(now[..|keep| - 1], p)
    ensures Kept(usable, [p] + Others(keep, p), radius) == [p] + Except(now, p)
  {
    var n := |keep| - 1;
    assert now[n] in usable && Within(now[n], keep[n].x, keep[n].y, radius) && keep[n] in keep;
    hide *;
    HeadedLast(keep, now, p);
    if now[n] != p {
      NotTakenByPick(usable, p, keep, now, radius, separation);
    }
    var before, kept := [p] + Others(keep[..n], p), [p] + Except(now[..n], p);
    assert before + [] == before && kept + [] == kept && p in kept;
    PickStep(usable, p, before, kept, keep[n], now[n], radius, separation);
  }

  lemma HeadedLast(keep: seq<Star>, now: seq<Star>, p: Star)
    requires keep != [] && |now| == |keep|
    ensures var n := |keep| - 1;
            [p] + Others(keep, p) == [p] + Others(keep[..n], p) + if keep[n].id != p.id then [keep[n]] else []
    ensures var n := |keep| - 1;
            [p] + Except(now, p) == [p] + Except(now[..n], p) + if now[n] != p then [now[n]] else []
  {
    OthersLast(keep, p);
    ExceptLast(now, p);
  }

  /** One more old star: it is the pick, or has become the pick, or has moved elsewhere. */
  lemma PickStep(usable: seq<Star>, p: Star, before: seq<Star>, kept: seq<Star>, previous: Star, now: Star,
                 radius: real, separation: real)
    requires Spread(usable, separation) && separation > 2.0 * radius && radius >= 0.0 && p in usable && p in kept
    requires now in usable && Within(now, previous.x, previous.y, radius)
    requires previous.id == p.id ==> previous == p
    requires Kept(usable, before, radius) == kept && (now != p ==> !ValueIn(now, kept))
    ensures previous.id == p.id ==> now == p
    ensures Kept(usable, before + [previous], radius) == if now == p then kept else kept + [now]
  {
    KeptStep(usable, before, previous, radius);
    WithinItself(p, radius);
    if previous.id == p.id {
      OneThere(usable, now, p, p.x, p.y, radius, separation);
    }
    hide *;
    if now == p {
      TakenByPick(usable, kept, previous, p, radius, separation);
    } else {
      OneCandidate(usable, kept, previous, now, radius, separation);
    }
  }

  lemma KeptStep(usable: seq<Star>, before: seq<Star>, previous: Star, radius: real)
    ensures var kept := Kept(usable, before, radius);
            var free := Free(usable, kept, previous, radius);
            Kept(usable, before + [previous], radius) ==
              if free == [] then kept else kept + [Nearest(free, previous.x, previous.y)]
  {
    assert (before + [previous])[..|before|] == before;
  }

  /** The pick, if there is one, and the moved old stars other than it. */
  function Leaders(picked: Option<Star>, now: seq<Star>): seq<Star> {
    if picked == None then now else [picked.value] + Except(now, picked.value)
  }

  /**
   When the previous choice was spread out (as every choice is), each of its stars moved at most the
   keep radius and is still usable, and the separation exceeds two radii, they lead in their old order,
   behind the pick if there is one. An id names one object, in the old list and in the new.
   */
  lemma OldStarsLead(stars: seq<Star>, count: int, o: Options, keep: seq<Star>, prefer: Option<(real, real)>,
                     now: seq<Star>)
    requires DistinctObjects(stars) && o.minSeparation > 2.0 * o.keepRadius
    requires forall s, t :: s in keep && t in stars && s.id == t.id ==> s == t
    requires Apart(keep, o.minSeparation) && Moved(now, keep, Usable(stars, o, Picked(stars, o, prefer)), o.keepRadius)
    ensures var picked := Picked(stars, o, prefer);
            var usable, lead := Usable(stars, o, picked), Leaders(picked, now);
            && Selected(stars, count, o, Some(keep), prefer) == Take(lead + Rest(usable, lead), count)
            && (count >= |lead| ==> lead <= Selected(stars, count, o, Some(keep), prefer))
  {
    var picked := Picked(stars, o, prefer);
    var usable, lead := Usable(stars, o, picked), Leaders(picked, now);
    UsableSpread(stars, o, prefer);
    SelectedUnfolds(stars, count, o, Some(keep), prefer);
    LineupUnfolds(usable, ToKeep(Some(keep), picked), o.keepRadius);
    if picked.Some? {
      PickWithin(stars, o, prefer);
      PickUsable(stars, o, prefer);
    }
    hide Kept, Rest, Usable, Picked, Spread, Apart, Moved, Take;
    if picked == None {
      KeptAreNow(usable, keep, now, o.keepRadius, o.minSeparation);
    } else {
      KeptWithPick(usable, picked.value, keep, now, o.keepRadius, o.minSeparation);
    }
    TakePrefix(lead, Rest(usable, lead), count);
  }

  lemma TakePrefix(a: seq<Star>, b: seq<Star>, count: int)
    ensures count >= |a| ==> a <= Take(a + b, count)
  {
  }

  // ---- the companions ----

  lemma {:induction false} FilterOrdered(stars: seq<Star>, p: Star -> bool, o: Options)
    requires Ordered(stars, o)
    ensures Ordered(Filter(stars, p), o)
    decreases |stars|
  {
    if stars != [] {
      var n := |stars| - 1;
      OrderedBefore(stars, o);
      FilterLast(stars, p);
      hide Better, Filter, Ordered;
      FilterOrdered(stars[..n], p, o);
      AppendOrdered(Filter(stars[..n], p), stars[n], o);
      assert Filter(stars[..n], p) + [] == Filter(stars[..n], p);
    }
  }

  lemma OrderedBefore(stars: seq<Star>, o: Options)
    requires stars != [] && Ordered(stars, o)
    ensures var n := |stars| - 1; Ordered(stars[..n], o) && forall s :: s in stars[..n] ==> !Better(stars[n], s, o)
  {
    hide Better;
  }

  lemma AppendOrdered(stars: seq<Star>, s: Star, o: Options)
    requires Ordered(stars, o) && forall t :: t in stars ==> !Better(s, t, o)
    ensures Ordered(stars + [s], o)
  {
    hide Better;
  }

  lemma RestOrdered(usable: seq<Star>, kept: seq<Star>, o: Options)
    requires Ordered(usable, o)
    ensures Ordered(Rest(usable, kept), o)
  {
    FilterOrdered(usable, s => !ValueIn(s, kept), o);
  }

  lemma NoneLost(usable: seq<Star>, keep: seq<Star>, radius: real, separation: real, s: Star)
    requires separation > 0.0 && Spread(usable, separation) && s in usable
    ensures s in Lineup(usable, keep, radius)
  {
    var kept := Kept(usable, keep, radius);
    KeptDistinct(usable, keep, radius);
    hide Kept, Spread, Filter;
    if ValueIn(s, kept) {
      var t :| t in kept && SameValue(s, t);
      assert DistanceSquared(s, t.x, t.y) <= 0.0 by {
        assert s.x - t.x == 0.0 && s.y - t.y == 0.0;
      }
      OnlyOneThere(usable, s, t, separation);
    } else {
      assert s in Rest(usable, kept);
    }
  }

  /** Stars that are kept do not show among the rest, so an inserted pick does not disturb its order. */
  lemma RestOfInserted(ranked: seq<Star>, kept: seq<Star>, p: Star)
    requires p in kept
    ensures Rest([p] + ranked, kept) == Rest(ranked, kept)
    decreases |ranked|
  {
    var list := [p] + ranked;
    if ranked == [] {
      assert SameValue(p, p);
      FilterLast(list, s => !ValueIn(s, kept));
      assert list[..0] == [];
    } else {
      var n := |ranked| - 1;
      RestOfInserted(ranked[..n], kept, p);
      assert list[..n + 1] == [p] + ranked[..n] && list[n + 1] == ranked[n];
      RestLast(list, kept);
      RestLast(ranked, kept);
    }
  }

  lemma RestLast(usable: seq<Star>, kept: seq<Star>)
    requires usable != []
    ensures var n := |usable| - 1;
            Rest(usable, kept) == Rest(usable[..n], kept) + if !ValueIn(usable[n], kept) then [usable[n]] else []
  {
    FilterLast(usable, s => !ValueIn(s, kept));
  }

  /**
   The selection is the kept stars and then all other usable stars, each usable star once and the others
   best first. A pick stands first among the kept ones, so a crowded, blurred or clipped pick that was
   inserted does not rank among its companions.
   */
  lemma CompanionsBestFirst(stars: seq<Star>, count: int, o: Options, keep: Option<seq<Star>>,
                            prefer: Option<(real, real)>)
    requires DistinctObjects(stars) && o.minSeparation > 0.0
    ensures var picked := Picked(stars, o, prefer);
            var usable := Usable(stars, o, picked);
            var kept := Kept(usable, ToKeep(keep, picked), o.keepRadius);
            && Selected(stars, count, o, keep, prefer) == Take(kept + Rest(usable, kept), count)
            && Ordered(Rest(usable, kept), o)
            && multiset(kept + Rest(usable, kept)) == multiset(usable)
            && (picked.Some? ==> kept != [] && kept[0] == picked.value && picked.value !in Rest(usable, kept))
            && (forall s :: s in usable <==> s in Ranked(stars, o) || picked == Some(s))
  {
    var picked := Picked(stars, o, prefer);
    var ranked, usable, all := Ranked(stars, o), Usable(stars, o, picked), ToKeep(keep, picked);
    var kept, lineup := Kept(usable, all, o.keepRadius), Lineup(usable, all, o.keepRadius);
    SelectedUnfolds(stars, count, o, keep, prefer);
    LineupUnfolds(usable, all, o.keepRadius);
    UsableSpread(stars, o, prefer);
    UsableIs(stars, o, prefer);
    RankedSpread(stars, o);
    if picked.Some? {
      PickKept(stars, o, keep, prefer);
    }
    hide *;
    RestDisjoint(usable, kept);
    if usable == ranked {
      RestOrdered(usable, kept, o);
    } else {
      RestOfInserted(ranked, kept, picked.value);
      RestOrdered(ranked, kept, o);
    }
    LineupDistinct(usable, all, o.keepRadius);
    forall s | s in usable ensures s in lineup {
      NoneLost(usable, all, o.keepRadius, o.minSeparation, s);
    }
    SameElements(lineup, usable);
  }

  lemma UsableIs(stars: seq<Star>, o: Options, prefer: Option<(real, real)>)
    requires DistinctObjects(stars) && o.minSeparation > 0.0
    ensures var picked := Picked(stars, o, prefer);
            var ranked, usable := Ranked(stars, o), Usable(stars, o, picked);
            && (usable == ranked || (picked.Some? && usable == [picked.value] + ranked))
            && (forall s :: s in usable <==> s in ranked || picked == Some(s))
  {
    if Picked(stars, o, prefer).Some? {
      PickUsable(stars, o, prefer);
    }
  }

  lemma SameElements(a: seq<Star>, b: seq<Star>)
    requires Distinct(a) && Distinct(b) && forall s :: s in a <==> s in b
    ensures multiset(a) == multiset(b)
  {
    forall s: Star ensures multiset(a)[s] == multiset(b)[s] {
      AtMostOnce(a, s);
      AtMostOnce(b, s);
    }
  }

  lemma {:induction false} AtMostOnce(a: seq<Star>, s: Star)
    requires Distinct(a)
    ensures multiset(a)[s] == if s in a then 1 else 0
    decreases |a|
  {
    if a != [] {
      var n := |a| - 1;
      AtMostOnce(a[..n], s);
      assert a == a[..n] + [a[n]];
    }
  }
}
