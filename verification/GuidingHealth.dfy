/**
 The guiding-health tracker: guide steps and losses in, a bounded list of unguided gaps kept,
 windows over it asked. The class mutates shared Gap objects as the source does; its methods
 are proved against a value model, and the value model against the event log. Times are reals.
 */
module GuidingHealth {
  import opened Lists
  import opened Wrappers

  const MAX_STEPS := 20_000
  const MAX_GAPS := 2_000

  // ---- value model ----

  datatype GapValue = GapValue(start: real, end: Option<real>, reason: string, wasGuiding: bool)

  datatype GuideStep = GuideStep(time: real, ra: real, dec: real)

  datatype State = State(gaps: seq<GapValue>, guidingSince: Option<real>, steps: seq<GuideStep>)

  predicate IsOpen(s: State) {
    s.gaps != [] && s.gaps[|s.gaps| - 1].end.None?
  }

  function Fresh(now: real): State {
    State([GapValue(now, None, "not_guiding", false)], None, [])
  }

  function Stepped(s: State, e: GuideStep): State
    requires |s.steps| <= MAX_STEPS
  {
    var t := s.(steps := Append(s.steps, e, MAX_STEPS));
    if !IsOpen(s) then t
    else
      var n := |s.gaps| - 1;
      t.(gaps := s.gaps[n := s.gaps[n].(end := Some(e.time))], guidingSince := Some(e.time))
  }

  function LostAt(s: State, now: real, reason: string): State
    requires |s.gaps| <= MAX_GAPS
  {
    if IsOpen(s) then s
    else s.(gaps := Append(s.gaps, GapValue(now, None, reason, true), MAX_GAPS), guidingSince := None)
  }

  function Max(a: real, b: real): real {
    if a > b then a else b
  }

  function Min(a: real, b: real): real {
    if a < b then a else b
  }

  /** Length of [s, e] within [a, b]. */
  function Overlap(s: real, e: real, a: real, b: real): real {
    Max(0.0, Min(e, b) - Max(s, a))
  }

  /** What a gap takes from the window [a, b]; an open gap lasts to the window's end. */
  function GapOverlap(g: GapValue, a: real, b: real): real {
    Overlap(g.start, if g.end.Some? then g.end.value else b, a, b)
  }

  function Unguided(gaps: seq<GapValue>, a: real, b: real): real {
    if gaps == [] then 0.0 else Unguided(gaps[..|gaps| - 1], a, b) + GapOverlap(gaps[|gaps| - 1], a, b)
  }

  predicate IsLoss(g: GapValue, a: real, b: real) {
    g.wasGuiding && a <= g.start <= b
  }

  function Losses(gaps: seq<GapValue>, a: real, b: real): nat {
    if gaps == [] then 0
    else Losses(gaps[..|gaps| - 1], a, b) + if IsLoss(gaps[|gaps| - 1], a, b) then 1 else 0
  }

  function StepsIn(steps: seq<GuideStep>, a: real, b: real): nat {
    if steps == [] then 0
    else StepsIn(steps[..|steps| - 1], a, b) + if a <= steps[|steps| - 1].time <= b then 1 else 0
  }

  datatype Health = Guiding(forSeconds: real) | NotGuiding(forSeconds: real, reason: string)

  /** Figures of a window, before the final rounding. */
  datatype Stats = Stats(duration: real, steps: nat, unguided: real, losses: nat)

  // ---- the class ----

  class Gap {
    const start: real
    var end: Option<real>
    const reason: string
    const wasGuiding: bool

    constructor (start: real, reason: string, wasGuiding: bool)
      ensures this.start == start && end == None && this.reason == reason && this.wasGuiding == wasGuiding
    {
      this.start, this.end, this.reason, this.wasGuiding := start, None, reason, wasGuiding;
    }

    function View(): GapValue
      reads this
    {
      GapValue(start, end, reason, wasGuiding)
    }
  }

  class GuidingHealthTracker {
    var steps: seq<GuideStep>
    var gaps: seq<Gap>
    var open: Gap?
    var guidingSince: Option<real>

    ghost predicate Valid()
      reads this, gaps
    {
      && |steps| <= MAX_STEPS
      && 1 <= |gaps| <= MAX_GAPS
      && (forall i, j :: 0 <= i < j < |gaps| ==> gaps[i] != gaps[j])
      // only the last gap can be open, and the open gap is the last one kept
      && (forall i :: 0 <= i < |gaps| - 1 ==> gaps[i].end.Some?)
      && (open != null <==> gaps[|gaps| - 1].end.None?)
      && (open != null ==> open == gaps[|gaps| - 1])
      && (open == null <==> guidingSince.Some?)
    }

    ghost function View(): State
      reads this, gaps
    {
      State(seq(|gaps|, i requires 0 <= i < |gaps| reads this, gaps => gaps[i].View()), guidingSince, steps)
    }

    constructor (now: real)
      ensures Valid() && View() == Fresh(now)
      ensures fresh(gaps)
    {
      var g := new Gap(now, "not_guiding", false);
      steps, gaps, open, guidingSince := [], [g], g, None;
    }

    /** A guide step was received; true when it starts or restarts active guiding. */
    method OnStep(now: real, ra: real, dec: real) returns (started: bool)
      requires Valid()
      modifies this, gaps
      ensures Valid() && gaps == old(gaps)
      ensures started == IsOpen(old(View()))
      ensures View() == Stepped(old(View()), GuideStep(now, ra, dec))
    {
      ghost var before := View();
      steps := Append(steps, GuideStep(now, ra, dec), MAX_STEPS);
      if open == null {
        started := false;
        assert View().gaps == before.gaps;
        return;
      }
      open.end := Some(now);
      open := null;
      guidingSince := Some(now);
      started := true;
      ghost var n := |gaps| - 1;
      assert View().gaps == before.gaps[n := before.gaps[n].(end := Some(now))];
    }

    /** Guiding stopped or the star was lost; idempotent while already unguided. */
    method OnLost(now: real, reason: string) returns (interrupted: bool)
      requires Valid()
      modifies this
      ensures Valid() && fresh(set g | g in gaps && g !in old(gaps))
      ensures interrupted == !IsOpen(old(View()))
      ensures View() == LostAt(old(View()), now, reason)
    {
      if open != null {
        return false;
      }
      ghost var before := View();
      var gap := new Gap(now, reason, true);
      gaps := Append(gaps, gap, MAX_GAPS);
      open := gap;
      guidingSince := None;
      interrupted := true;
      assert View().gaps == Append(before.gaps, gap.View(), MAX_GAPS);
    }

    /** The `_guiding_since` read on the guiding branch is always set. */
    method CurrentHealth(now: real) returns (h: Health)
      requires Valid()
      ensures h == HealthOf(View(), now)
    {
      if open == null {
        assert guidingSince.Some?;
        h := Guiding(now - guidingSince.value);
      } else {
        h := NotGuiding(now - open.start, open.reason);
      }
    }

    method WindowStats(since: real, until: real) returns (s: Stats)
      requires Valid()
      ensures s == StatsOf(View(), since, until)
    {
      ghost var view := View();
      var count := 0;
      for i := 0 to |steps|
        invariant count == StepsIn(steps[..i], since, until)
      {
        assert steps[..i + 1][..i] == steps[..i];
        if since <= steps[i].time <= until {
          count := count + 1;
        }
      }
      assert steps[..|steps|] == steps;
      var unguided, losses := 0.0, 0;
      for i := 0 to |gaps|
        invariant unguided == Unguided(view.gaps[..i], since, until)
        invariant losses == Losses(view.gaps[..i], since, until)
      {
        var gap := gaps[i];
        assert view.gaps[i] == gap.View();
        assert view.gaps[..i + 1][..i] == view.gaps[..i];
        var end := if gap.end.None? then until else gap.end.value;
        var overlap := Min(end, until) - Max(gap.start, since);
        if overlap > 0.0 {
          unguided := unguided + overlap;
        }
        if gap.wasGuiding && since <= gap.start <= until {
          losses := losses + 1;
        }
      }
      assert view.gaps[..|gaps|] == view.gaps;
      s := Stats(until - since, count, unguided, losses);
    }
  }

  function HealthOf(s: State, now: real): Health {
    if IsOpen(s) then
      var g := s.gaps[|s.gaps| - 1];
      NotGuiding(now - g.start, g.reason)
    else if s.guidingSince.Some? then Guiding(now - s.guidingSince.value)
    else Guiding(0.0)
  }

  function StatsOf(s: State, a: real, b: real): Stats {
    Stats(b - a, StepsIn(s.steps, a, b), Unguided(s.gaps, a, b), Losses(s.gaps, a, b))
  }

  // ---- the event log ----

  datatype Event = Step(e: GuideStep) | Lost(time: real, reason: string)

  function TimeOf(e: Event): real {
    match e case Step(s) => s.time case Lost(t, _) => t
  }

  /** The state of a tracker created at t0 after a log of events. */
  function Tracked(t0: real, log: seq<Event>): (s: State)
    ensures |s.gaps| <= MAX_GAPS && |s.steps| <= MAX_STEPS
  {
    if log == [] then Fresh(t0)
    else
      var s := Tracked(t0, log[..|log| - 1]);
      match log[|log| - 1]
      case Step(e) => Stepped(s, e)
      case Lost(t, reason) => LostAt(s, t, reason)
  }

  /** Time of the last event, the creation time for an empty log. */
  function LastTime(t0: real, log: seq<Event>): real {
    if log == [] then t0 else TimeOf(log[|log| - 1])
  }

  predicate Chronological(t0: real, log: seq<Event>) {
    log == [] || (Chronological(t0, log[..|log| - 1]) && LastTime(t0, log[..|log| - 1]) <= TimeOf(log[|log| - 1]))
  }

  /** The log says guiding is interrupted: nothing happened yet, or the last event is a loss. */
  predicate UnguidedAfter(log: seq<Event>) {
    log == [] || log[|log| - 1].Lost?
  }

  /** Replaying the log: unguided time within [a, b] up to the last event, interval by interval. */
  function ReplayedUntilLast(t0: real, log: seq<Event>, a: real, b: real): real {
    if log == [] then 0.0
    else
      var prefix := log[..|log| - 1];
      ReplayedUntilLast(t0, prefix, a, b)
      + if UnguidedAfter(prefix) then Overlap(LastTime(t0, prefix), TimeOf(log[|log| - 1]), a, b) else 0.0
  }

  function ReplayedUnguided(t0: real, log: seq<Event>, a: real, b: real): real {
    ReplayedUntilLast(t0, log, a, b) + if UnguidedAfter(log) then Overlap(LastTime(t0, log), b, a, b) else 0.0
  }

  /** Replaying the log: losses of active guiding within [a, b]. */
  function ReplayedLosses(log: seq<Event>, a: real, b: real): nat {
    if log == [] then 0
    else
      var prefix, e := log[..|log| - 1], log[|log| - 1];
      ReplayedLosses(prefix, a, b) + if e.Lost? && !UnguidedAfter(prefix) && a <= e.time <= b then 1 else 0
  }

  function ReplayedSteps(log: seq<Event>, a: real, b: real): nat {
    if log == [] then 0
    else ReplayedSteps(log[..|log| - 1], a, b)
         + if log[|log| - 1].Step? && a <= TimeOf(log[|log| - 1]) <= b then 1 else 0
  }

  /** The gaps a tracker without a bound would keep. */
  function AllGaps(t0: real, log: seq<Event>): (gaps: seq<GapValue>)
    ensures gaps != []
    ensures gaps[|gaps| - 1].end.None? <==> UnguidedAfter(log)
  {
    if log == [] then [GapValue(t0, None, "not_guiding", false)]
    else
      var gaps, e := AllGaps(t0, log[..|log| - 1]), log[|log| - 1];
      var n := |gaps| - 1;
      match e
      case Step(s) => if gaps[n].end.None? then gaps[n := gaps[n].(end := Some(s.time))] else gaps
      case Lost(t, reason) => if gaps[n].end.None? then gaps else gaps + [GapValue(t, None, reason, true)]
  }

  // ---- invariants of every run ----

  /** Ordered and disjoint, only the last one open, nothing after time t. */
  ghost predicate Ordered(gaps: seq<GapValue>, t: real) {
    && (forall i :: 0 <= i < |gaps| ==> gaps[i].start <= t)
    && (forall i :: 0 <= i < |gaps| && gaps[i].end.Some? ==> gaps[i].start <= gaps[i].end.value <= t)
    && (forall i :: 0 <= i < |gaps| - 1 ==> gaps[i].end.Some?)
    && (forall i, j :: 0 <= i < j < |gaps| && gaps[i].end.Some? ==> gaps[i].end.value <= gaps[j].start)
  }

  lemma {:induction false} AllGapsOrdered(t0: real, log: seq<Event>)
    requires Chronological(t0, log)
    ensures Ordered(AllGaps(t0, log), LastTime(t0, log))
  {
    if log != [] {
      AllGapsOrdered(t0, log[..|log| - 1]);
    }
  }

  /** The bounded tracker keeps exactly the most recent gaps; the open one is never evicted. */
  lemma {:induction false} KeepsRecentGaps(t0: real, log: seq<Event>)
    ensures Tracked(t0, log).gaps == Suffix(AllGaps(t0, log), MAX_GAPS)
    ensures IsOpen(Tracked(t0, log)) <==> UnguidedAfter(log)
  {
    if log != [] {
      var prefix, e := log[..|log| - 1], log[|log| - 1];
      KeepsRecentGaps(t0, prefix);
      var all, kept := AllGaps(t0, prefix), Tracked(t0, prefix).gaps;
      assert kept[|kept| - 1] == all[|all| - 1];
      if e.Lost? {
        SuffixAppend(all, GapValue(e.time, None, e.reason, true), MAX_GAPS);
      }
    }
  }

  /** Every run, evictions included: gaps ordered and disjoint, only the last open, `_guiding_since` set exactly
      when guiding. */
  lemma TrackerInvariant(t0: real, log: seq<Event>)
    requires Chronological(t0, log)
    ensures var s := Tracked(t0, log);
            && Ordered(s.gaps, LastTime(t0, log))
            && 1 <= |s.gaps| <= MAX_GAPS
            && (s.guidingSince.Some? <==> !IsOpen(s))
  {
    AllGapsOrdered(t0, log);
    KeepsRecentGaps(t0, log);
    GuidingSinceSet(t0, log);
  }

  lemma {:induction false} GuidingSinceSet(t0: real, log: seq<Event>)
    ensures Tracked(t0, log).guidingSince.Some? <==> !IsOpen(Tracked(t0, log))
    ensures Tracked(t0, log).gaps != []
  {
    if log != [] {
      GuidingSinceSet(t0, log[..|log| - 1]);
    }
  }

  /** Index of the first event of the log's last unbroken run of steps, or of losses. */
  function RunStart(log: seq<Event>): (k: nat)
    requires log != []
    ensures k < |log|
    ensures forall i :: k <= i < |log| ==> log[i].Lost? == log[|log| - 1].Lost?
    ensures k > 0 ==> log[k - 1].Lost? != log[|log| - 1].Lost?
  {
    if |log| == 1 || log[|log| - 2].Lost? != log[|log| - 1].Lost? then |log| - 1 else RunStart(log[..|log| - 1])
  }

  /** `health` reports since when the log has been guided, or unguided and why. */
  lemma {:induction false} HealthMatchesLog(t0: real, log: seq<Event>, now: real)
    ensures HealthOf(Tracked(t0, log), now) ==
            if log == [] then NotGuiding(now - t0, "not_guiding")
            else
              var first := log[RunStart(log)];
              if first.Step? then Guiding(now - first.e.time)
              else if RunStart(log) == 0 then NotGuiding(now - t0, "not_guiding")
              else NotGuiding(now - first.time, first.reason)
  {
    if log != [] {
      var prefix := log[..|log| - 1];
      HealthStep(t0, log, now);
      HealthMatchesLog(t0, prefix, now);
      hide Tracked, HealthOf;
      assert prefix != [] ==> log[|log| - 2] == prefix[|prefix| - 1];
    }
  }

  /** An event that repeats the present condition changes nothing that is reported; another one starts afresh. */
  lemma HealthStep(t0: real, log: seq<Event>, now: real)
    requires log != []
    ensures var prefix, e := log[..|log| - 1], log[|log| - 1];
            HealthOf(Tracked(t0, log), now) ==
            if e.Lost? == UnguidedAfter(prefix) then HealthOf(Tracked(t0, prefix), now)
            else if e.Step? then Guiding(now - e.e.time)
            else NotGuiding(now - e.time, e.reason)
  {
    var prefix, e := log[..|log| - 1], log[|log| - 1];
    KeepsRecentGaps(t0, prefix);
    GuidingSinceSet(t0, prefix);
    var s := Tracked(t0, prefix);
    assert Tracked(t0, log) == if e.Step? then Stepped(s, e.e) else LostAt(s, e.time, e.reason);
    hide Tracked, HealthOf, Stepped, LostAt, IsOpen, AllGaps;
    if e.Step? {
      SteppedHealth(s, e.e, now);
    } else {
      LostHealth(s, e.time, e.reason, now);
    }
  }

  lemma SteppedHealth(s: State, e: GuideStep, now: real)
    requires |s.steps| <= MAX_STEPS && (!IsOpen(s) ==> s.guidingSince.Some?)
    ensures HealthOf(Stepped(s, e), now) == if IsOpen(s) then Guiding(now - e.time) else HealthOf(s, now)
  {
  }

  lemma LostHealth(s: State, t: real, reason: string, now: real)
    requires |s.gaps| <= MAX_GAPS
    ensures HealthOf(LostAt(s, t, reason), now) == if IsOpen(s) then HealthOf(s, now) else NotGuiding(now - t, reason)
  {
  }

  // ---- the gap list refines the log ----

  lemma OverlapSplit(s: real, m: real, e: real, a: real, b: real)
    requires s <= m <= e
    ensures Overlap(s, e, a, b) == Overlap(s, m, a, b) + Overlap(m, e, a, b)
  {
  }

  lemma UnguidedLast(gaps: seq<GapValue>, g: GapValue, a: real, b: real)
    ensures Unguided(gaps + [g], a, b) == Unguided(gaps, a, b) + GapOverlap(g, a, b)
    ensures Losses(gaps + [g], a, b) == Losses(gaps, a, b) + if IsLoss(g, a, b) then 1 else 0
  {
    assert (gaps + [g])[..|gaps|] == gaps;
  }

  /** What the gaps take from the window up to time t, which ends the last gap if it is open. */
  function UnguidedUntil(gaps: seq<GapValue>, t: real, a: real, b: real): real
    requires gaps != []
  {
    var last := gaps[|gaps| - 1];
    Unguided(gaps[..|gaps| - 1], a, b) + Overlap(last.start, if last.end.Some? then last.end.value else t, a, b)
  }

  /** Up to the last event, the closed gaps and the elapsed part of the open one account for the replayed time. */
  lemma {:induction false} GapsUntilLast(t0: real, log: seq<Event>, a: real, b: real)
    requires Chronological(t0, log) && a <= b
    ensures UnguidedUntil(AllGaps(t0, log), LastTime(t0, log), a, b) == ReplayedUntilLast(t0, log, a, b)
    ensures Losses(AllGaps(t0, log), a, b) == ReplayedLosses(log, a, b)
  {
    if log == [] {
      OverlapEmpty(t0, a, b);
    } else {
      var prefix, e := log[..|log| - 1], log[|log| - 1];
      GapsUntilLast(t0, prefix, a, b);
      OpenBeforeLast(t0, prefix);
      var had, t := AllGaps(t0, prefix), LastTime(t0, prefix);
      hide Overlap, Unguided, Losses, UnguidedUntil;
      if UnguidedAfter(prefix) {
        TimePasses(had, t, TimeOf(e), a, b);
      } else {
        GapClosed(had, t, TimeOf(e), a, b);
        if e.Lost? {
          GapOpens(had, t, GapValue(e.time, None, e.reason, true), a, b);
        }
      }
    }
  }

  /** While the last gap is open, time passing adds to it, and closing it then changes nothing more. */
  lemma TimePasses(gaps: seq<GapValue>, t: real, s: real, a: real, b: real)
    requires gaps != [] && gaps[|gaps| - 1].end == None && gaps[|gaps| - 1].start <= t <= s
    ensures var n := |gaps| - 1;
            var closed := gaps[n := gaps[n].(end := Some(s))];
            && UnguidedUntil(gaps, s, a, b) == UnguidedUntil(gaps, t, a, b) + Overlap(t, s, a, b)
            && UnguidedUntil(closed, s, a, b) == UnguidedUntil(gaps, s, a, b)
            && Losses(closed, a, b) == Losses(gaps, a, b)
  {
    var n := |gaps| - 1;
    OverlapSplit(gaps[n].start, t, s, a, b);
    hide Overlap;
    assert gaps[n := gaps[n].(end := Some(s))][..n] == gaps[..n];
  }

  lemma GapClosed(gaps: seq<GapValue>, t: real, s: real, a: real, b: real)
    requires gaps != [] && gaps[|gaps| - 1].end.Some?
    ensures UnguidedUntil(gaps, s, a, b) == UnguidedUntil(gaps, t, a, b)
  {
  }

  /** A new gap starts with nothing. */
  lemma GapOpens(gaps: seq<GapValue>, t: real, g: GapValue, a: real, b: real)
    requires gaps != [] && gaps[|gaps| - 1].end.Some? && g.end == None && a <= b
    ensures UnguidedUntil(gaps + [g], g.start, a, b) == UnguidedUntil(gaps, t, a, b)
    ensures Losses(gaps + [g], a, b) == Losses(gaps, a, b) + if IsLoss(g, a, b) then 1 else 0
  {
    var n := |gaps| - 1;
    OverlapEmpty(g.start, a, b);
    UnguidedLast(gaps[..n], gaps[n], a, b);
    UnguidedLast(gaps, g, a, b);
    assert gaps == gaps[..n] + [gaps[n]] && (gaps + [g])[..n + 1] == gaps;
    hide Overlap, Unguided, Losses;
  }

  lemma OverlapEmpty(t: real, a: real, b: real)
    requires a <= b
    ensures Overlap(t, t, a, b) == 0.0
  {
  }

  lemma OpenBeforeLast(t0: real, log: seq<Event>)
    requires Chronological(t0, log)
    ensures AllGaps(t0, log)[|AllGaps(t0, log)| - 1].start <= LastTime(t0, log)
  {
    AllGapsOrdered(t0, log);
  }

  /** The unbounded gap list gives exactly the replayed unguided time and losses. */
  lemma GapsRefineLog(t0: real, log: seq<Event>, a: real, b: real)
    requires Chronological(t0, log) && a <= b
    ensures Unguided(AllGaps(t0, log), a, b) == ReplayedUnguided(t0, log, a, b)
    ensures Losses(AllGaps(t0, log), a, b) == ReplayedLosses(log, a, b)
  {
    hide Unguided, Losses, ReplayedUntilLast, Chronological;
    var gaps := AllGaps(t0, log);
    var n := |gaps| - 1;
    GapsUntilLast(t0, log, a, b);
    AllGapsOrdered(t0, log);
    assert gaps == gaps[..n] + [gaps[n]];
    UnguidedLast(gaps[..n], gaps[n], a, b);
    if gaps[n].end.None? && LastTime(t0, log) <= b {
      OverlapSplit(gaps[n].start, LastTime(t0, log), b, a, b);
    }
  }

  /** Without eviction, a window's unguided time, loss count and step count are those of the replayed log. */
  lemma StatsRefineLog(t0: real, log: seq<Event>, a: real, b: real)
    requires Chronological(t0, log) && a <= b
    requires |AllGaps(t0, log)| <= MAX_GAPS && |log| <= MAX_STEPS
    ensures StatsOf(Tracked(t0, log), a, b) ==
            Stats(b - a, ReplayedSteps(log, a, b), ReplayedUnguided(t0, log, a, b), ReplayedLosses(log, a, b))
  {
    hide Unguided, Losses, ReplayedUntilLast, ReplayedUnguided, Chronological;
    GapsRefineLog(t0, log, a, b);
    KeepsRecentGaps(t0, log);
    StepsRefineLog(t0, log, a, b);
  }

  lemma {:induction false} StepsRefineLog(t0: real, log: seq<Event>, a: real, b: real)
    requires |log| <= MAX_STEPS
    ensures StepsIn(Tracked(t0, log).steps, a, b) == ReplayedSteps(log, a, b)
    ensures |Tracked(t0, log).steps| <= |log|
  {
    if log != [] {
      var prefix, e := log[..|log| - 1], log[|log| - 1];
      StepsRefineLog(t0, prefix, a, b);
      StepsStep(t0, log);
      hide Tracked, StepsIn;
      if e.Step? {
        StepsInLast(Tracked(t0, prefix).steps, e.e, a, b);
      }
    }
  }

  lemma StepsStep(t0: real, log: seq<Event>)
    requires log != []
    ensures var steps, e := Tracked(t0, log[..|log| - 1]).steps, log[|log| - 1];
            Tracked(t0, log).steps == if e.Step? then Append(steps, e.e, MAX_STEPS) else steps
  {
  }

  lemma StepsInLast(steps: seq<GuideStep>, e: GuideStep, a: real, b: real)
    ensures StepsIn(steps + [e], a, b) == StepsIn(steps, a, b) + if a <= e.time <= b then 1 else 0
  {
    assert (steps + [e])[..|steps|] == steps;
  }

  /** With eviction, windows that begin after the evicted gaps ended are still exact. */
  lemma {:induction false} EvictedGapsDoNotMatter(gaps: seq<GapValue>, cut: nat, a: real, b: real)
    requires cut <= |gaps|
    requires forall i :: 0 <= i < cut ==> gaps[i].start < a && gaps[i].end.Some? && gaps[i].end.value <= a
    ensures Unguided(gaps[cut..], a, b) == Unguided(gaps, a, b)
    ensures Losses(gaps[cut..], a, b) == Losses(gaps, a, b)
  {
    if gaps != [] {
      var n := |gaps| - 1;
      if cut < |gaps| {
        EvictedGapsDoNotMatter(gaps[..n], cut, a, b);
        assert gaps[cut..][..n - cut] == gaps[..n][cut..];
      } else {
        EvictedGapsDoNotMatter(gaps[..n], n, a, b);
        assert gaps[..n][n..] == [];
      }
    }
  }

  lemma StatsAfterEviction(t0: real, log: seq<Event>, a: real, b: real)
    requires Chronological(t0, log) && a <= b
    requires var all := AllGaps(t0, log);
             forall i :: 0 <= i < |all| - MAX_GAPS ==> all[i].start < a && all[i].end.Some? && all[i].end.value <= a
    ensures Unguided(Tracked(t0, log).gaps, a, b) == ReplayedUnguided(t0, log, a, b)
    ensures Losses(Tracked(t0, log).gaps, a, b) == ReplayedLosses(log, a, b)
  {
    hide Unguided, Losses, ReplayedUnguided, Chronological;
    var all := AllGaps(t0, log);
    GapsRefineLog(t0, log, a, b);
    KeepsRecentGaps(t0, log);
    if |all| > MAX_GAPS {
      EvictedGapsDoNotMatter(all, |all| - MAX_GAPS, a, b);
    }
  }

  // ---- windows ----

  /** Where the last gap ends, within the window; an open one lasts to the window's end. */
  function Reach(gaps: seq<GapValue>, a: real, b: real): (r: real)
    requires a <= b
    ensures a <= r <= b
  {
    if gaps == [] then a
    else
      var end := gaps[|gaps| - 1].end;
      if end == None then b else Max(a, Min(end.value, b))
  }

  /** Ordered disjoint gaps take no more of a window than lies before the end of the last one. */
  lemma {:induction false} GapsDisjoint(gaps: seq<GapValue>, t: real, a: real, b: real)
    requires Ordered(gaps, t) && a <= b
    ensures 0.0 <= Unguided(gaps, a, b) <= Reach(gaps, a, b) - a
    decreases |gaps|
  {
    if gaps != [] {
      var n := |gaps| - 1;
      GapsDisjoint(gaps[..n], t, a, b);
    }
  }

  /** A window is never unguided for longer than it lasts, whatever the bounded list has evicted. */
  lemma UnguidedWithinWindow(t0: real, log: seq<Event>, a: real, b: real)
    requires Chronological(t0, log) && a <= b
    ensures 0.0 <= Unguided(Tracked(t0, log).gaps, a, b) <= b - a
    ensures 0.0 <= Unguided(AllGaps(t0, log), a, b) <= b - a
  {
    TrackerInvariant(t0, log);
    AllGapsOrdered(t0, log);
    GapsDisjoint(Tracked(t0, log).gaps, LastTime(t0, log), a, b);
    GapsDisjoint(AllGaps(t0, log), LastTime(t0, log), a, b);
  }

  /** Losses that start exactly at time t. */
  function LossesAt(gaps: seq<GapValue>, t: real): nat {
    Losses(gaps, t, t)
  }

  /**
   Adjacent windows add up, for any gap list: unguided times exactly, losses up to those that
   start exactly on the cut, which both windows count.
   */
  lemma {:induction false} WindowsAddUp(gaps: seq<GapValue>, a: real, b: real, c: real)
    requires a <= b <= c
    requires forall i :: 0 <= i < |gaps| && gaps[i].end.Some? ==> gaps[i].start <= gaps[i].end.value
    ensures Unguided(gaps, a, b) + Unguided(gaps, b, c) == Unguided(gaps, a, c)
    ensures Losses(gaps, a, b) + Losses(gaps, b, c) == Losses(gaps, a, c) + LossesAt(gaps, b)
  {
    if gaps != [] {
      WindowsAddUp(gaps[..|gaps| - 1], a, b, c);
    }
  }
}
