/**
 The automation guards of one mount: the horizon action and the automatic meridian flip, each
 armed and re-armed over an unbounded stream of status samples with changing settings, and the
 nestable suspension of automatic flips. Angles are modelled as reals.
 */
module MountAutomation {
  import opened Wrappers

  const HORIZON_REARM_DEG := 1.0
  const FLIP_REARM_HOURS := -0.5

  datatype HorizonAction = NoAction | StopTracking | ParkMount

  datatype PierSide = East | West | Unknown

  datatype Settings = Settings(horizonMinAlt: real, horizonAction: HorizonAction, autoFlip: bool, autoFlipHours: real)

  /** What the driver reports, with the mount manager's own busy flag at that moment. */
  datatype Status = Status(alt: Option<real>, tracking: bool, parked: bool, hourAngle: Option<real>, pierSide: PierSide)

  // ---- meridian_flip_due ----

  function WholeDays(ha: real): int {
    ((ha + 12.0) / 24.0).Floor
  }

  /** Python (ha + 12) % 24 - 12. */
  function Wrapped(ha: real): (w: real)
    ensures -12.0 <= w < 12.0 && ha == w + 24.0 * WholeDays(ha) as real
  {
    ha - 24.0 * WholeDays(ha) as real
  }

  /** True when a flip would bring the mount to its normal side, False when it is there, None when unknown. */
  function MeridianFlipDue(side: PierSide, hourAngle: Option<real>): Option<bool> {
    if hourAngle.None? || side.Unknown? then None
    else Some(side != if Wrapped(hourAngle.value) >= 0.0 then East else West)
  }

  function Opposite(side: PierSide): PierSide {
    match side case East => West case West => East case Unknown => Unknown
  }

  /** A flip is due on exactly one of the two sides, whatever whole days are added to the hour angle. */
  lemma FlipDueOnOneSide(side: PierSide, ha: real, days: int)
    requires !side.Unknown?
    ensures MeridianFlipDue(side, Some(ha)).Some? && MeridianFlipDue(Opposite(side), Some(ha)).Some?
    ensures MeridianFlipDue(side, Some(ha)).value != MeridianFlipDue(Opposite(side), Some(ha)).value
    ensures MeridianFlipDue(side, Some(ha + 24.0 * days as real)) == MeridianFlipDue(side, Some(ha))
  {
    WholeDaysAdd(ha, days);
  }

  lemma WholeDaysAdd(ha: real, days: int)
    ensures WholeDays(ha + 24.0 * days as real) == WholeDays(ha) + days
    ensures Wrapped(ha + 24.0 * days as real) == Wrapped(ha)
  {
    assert (ha + 24.0 * days as real + 12.0) / 24.0 == (ha + 12.0) / 24.0 + days as real;
    assert ((ha + 12.0) / 24.0 + days as real).Floor == ((ha + 12.0) / 24.0).Floor + days;
  }

  // ---- inputs and outputs ----

  /**
   One atomic step. A status check is two steps, because the horizon action may suspend the
   check and suspensions may open or close meanwhile.
   */
  datatype Input =
    | Horizon(cfg: Settings, status: Status, busy: bool)
    | Flip(cfg: Settings, status: Status, busy: bool)
    | Suspend
    | Resume

  datatype Output = Nothing | HorizonStop | HorizonPark | FlipTrigger(commanded: bool)

  datatype State = State(horizonTriggered: bool, flipTriggered: bool, suspended: Option<int>)

  function Init(): State {
    State(false, false, None)
  }

  /** The sample shows the mount at least one degree above the limit. */
  predicate RoseAboveLimit(i: Input) {
    i.Horizon? && i.status.alt.Some? && i.status.alt.value >= i.cfg.horizonMinAlt + HORIZON_REARM_DEG
  }

  /** The sample shows the mount clearly east of the meridian. */
  predicate EastOfMeridian(i: Input) {
    i.Flip? && i.status.hourAngle.Some? && i.status.hourAngle.value < FLIP_REARM_HOURS
  }

  function NextHorizon(s: State, cfg: Settings, status: Status, busy: bool): (State, Output) {
    match status.alt
    case None => (s, Nothing)
    case Some(alt) =>
      if alt >= cfg.horizonMinAlt + HORIZON_REARM_DEG then (s.(horizonTriggered := false), Nothing)
      else if alt >= cfg.horizonMinAlt || cfg.horizonAction == NoAction || !status.tracking || status.parked
              || s.horizonTriggered || busy then (s, Nothing)
      else (s.(horizonTriggered := true), if cfg.horizonAction == ParkMount then HorizonPark else HorizonStop)
  }

  function NextFlip(s: State, cfg: Settings, status: Status, busy: bool): (State, Output) {
    if !cfg.autoFlip || s.suspended.Some? then (s, Nothing)
    else
      match status.hourAngle
      case None => (s, Nothing)
      case Some(ha) =>
        var armed := s.(flipTriggered := s.flipTriggered && ha >= FLIP_REARM_HOURS);
        if ha >= cfg.autoFlipHours && !armed.flipTriggered && MeridianFlipDue(status.pierSide, Some(ha)) != Some(false)
        then (armed.(flipTriggered := true), FlipTrigger(!busy))
        else (armed, Nothing)
  }

  /** Leaving a suspend context: the stored depth, 1 when absent, goes down by one. */
  function Resumed(s: State): State {
    var depth := (if s.suspended.Some? then s.suspended.value else 1) - 1;
    s.(suspended := if depth <= 0 then None else Some(depth))
  }

  function Next(s: State, i: Input): (State, Output) {
    match i
    case Horizon(cfg, status, busy) => NextHorizon(s, cfg, status, busy)
    case Flip(cfg, status, busy) => NextFlip(s, cfg, status, busy)
    case Suspend => (s.(suspended := Some((if s.suspended.Some? then s.suspended.value else 0) + 1)), Nothing)
    case Resume => (Resumed(s), Nothing)
  }

  /** The guard state of MountManager, updated in place. */
  class AutomationGuards {
    var horizonTriggered: bool
    var flipTriggered: bool
    var suspended: Option<int>

    function View(): State
      reads this
    {
      State(horizonTriggered, flipTriggered, suspended)
    }

    constructor ()
      ensures View() == Init()
    {
      horizonTriggered, flipTriggered, suspended := false, false, None;
    }

    /** Applies the horizon action once when a tracking mount sinks below the limit. */
    method CheckHorizon(cfg: Settings, status: Status, busy: bool) returns (out: Output)
      modifies this
      ensures (View(), out) == Next(old(View()), Horizon(cfg, status, busy))
    {
      out := Nothing;
      if status.alt.None? {
        return;
      }
      var alt := status.alt.value;
      if alt >= cfg.horizonMinAlt + HORIZON_REARM_DEG {
        horizonTriggered := false;
        return;
      }
      if alt >= cfg.horizonMinAlt || cfg.horizonAction == NoAction || !status.tracking || status.parked
         || horizonTriggered || busy {
        return;
      }
      horizonTriggered := true;
      out := if cfg.horizonAction == ParkMount then HorizonPark else HorizonStop;
    }

    /** Triggers the automatic meridian flip once per transit. */
    method CheckFlip(cfg: Settings, status: Status, busy: bool) returns (out: Output)
      modifies this
      ensures (View(), out) == Next(old(View()), Flip(cfg, status, busy))
    {
      out := Nothing;
      if cfg.autoFlip && suspended.None? {
        if status.hourAngle.None? {
          return;
        }
        var ha := status.hourAngle.value;
        if ha < FLIP_REARM_HOURS {
          flipTriggered := false;
        }
        if ha >= cfg.autoFlipHours && !flipTriggered && MeridianFlipDue(status.pierSide, Some(ha)) != Some(false) {
          flipTriggered := true;
          out := FlipTrigger(!busy);
        }
      }
    }

    method EnterSuspension()
      modifies this
      ensures View() == Next(old(View()), Suspend).0
    {
      suspended := Some((if suspended.Some? then suspended.value else 0) + 1);
    }

    method LeaveSuspension()
      modifies this
      ensures View() == Next(old(View()), Resume).0
    {
      var depth := (if suspended.Some? then suspended.value else 1) - 1;
      suspended := if depth <= 0 then None else Some(depth);
    }
  }

  // ---- runs ----

  function After(s: State, run: seq<Input>): State {
    if run == [] then s else Next(After(s, run[..|run| - 1]), run[|run| - 1]).0
  }

  /** What step j of a run does. */
  function OutputAt(run: seq<Input>, j: nat): Output
    requires j < |run|
  {
    Next(After(Init(), run[..j]), run[j]).1
  }

  predicate IsHorizonAction(o: Output) {
    o.HorizonStop? || o.HorizonPark?
  }

  lemma AfterStep(run: seq<Input>, j: nat)
    requires j < |run|
    ensures After(Init(), run[..j + 1]) == Next(After(Init(), run[..j]), run[j]).0
  {
    assert run[..j + 1][..j] == run[..j];
  }

  /** Once triggered, the horizon guard stays set until a sample rises a degree above the limit. */
  lemma {:induction false} HorizonStaysTriggered(run: seq<Input>, i: nat, j: nat)
    requires i < j <= |run| && IsHorizonAction(OutputAt(run, i))
    requires forall k :: i < k < j ==> !RoseAboveLimit(run[k])
    ensures After(Init(), run[..j]).horizonTriggered
  {
    AfterStep(run, j - 1);
    if j > i + 1 {
      HorizonStaysTriggered(run, i, j - 1);
    }
  }

  /** Between two horizon actions some sample rose to the limit plus one degree or more. */
  lemma HorizonHysteresis(run: seq<Input>, i: nat, j: nat)
    requires i < j < |run| && IsHorizonAction(OutputAt(run, i)) && IsHorizonAction(OutputAt(run, j))
    ensures exists k :: i < k < j && RoseAboveLimit(run[k])
  {
    if forall k :: i < k < j ==> !RoseAboveLimit(run[k]) {
      HorizonStaysTriggered(run, i, j);
    }
  }

  /** The action is taken only below the limit, for a tracking, unparked, idle mount with an action configured. */
  lemma HorizonActionOnlyBelowLimit(run: seq<Input>, j: nat)
    requires j < |run| && IsHorizonAction(OutputAt(run, j))
    ensures run[j].Horizon? && run[j].status.alt.Some? && run[j].status.alt.value < run[j].cfg.horizonMinAlt
    ensures run[j].status.tracking && !run[j].status.parked && !run[j].busy && !run[j].cfg.horizonAction.NoAction?
    ensures OutputAt(run, j).HorizonPark? <==> run[j].cfg.horizonAction.ParkMount?
  {
  }

  lemma {:induction false} FlipStaysTriggered(run: seq<Input>, i: nat, j: nat)
    requires i < j <= |run| && OutputAt(run, i).FlipTrigger?
    requires forall k :: i < k < j ==> !EastOfMeridian(run[k])
    ensures After(Init(), run[..j]).flipTriggered
  {
    AfterStep(run, j - 1);
    if j > i + 1 {
      FlipStaysTriggered(run, i, j - 1);
    }
  }

  /**
   Between two automatic flip triggers, the second one's own sample included, some sample had the
   hour angle below -0.5 h.
   */
  lemma FlipHysteresis(run: seq<Input>, i: nat, j: nat)
    requires i < j < |run| && OutputAt(run, i).FlipTrigger? && OutputAt(run, j).FlipTrigger?
    ensures exists k :: i < k <= j && EastOfMeridian(run[k])
  {
    if forall k :: i < k <= j ==> !EastOfMeridian(run[k]) {
      FlipStaysTriggered(run, i, j);
    }
  }

  /** The threshold decides whether the second sample itself can be the one below -0.5 h. */
  lemma FlipHysteresisStrict(run: seq<Input>, i: nat, j: nat)
    requires i < j < |run| && OutputAt(run, i).FlipTrigger? && OutputAt(run, j).FlipTrigger?
    requires run[j].cfg.autoFlipHours >= FLIP_REARM_HOURS
    ensures exists k :: i < k < j && EastOfMeridian(run[k])
  {
    FlipHysteresis(run, i, j);
  }

  /**
   The step right after a trigger triggers again exactly for a sample that re-arms the guard itself: its
   hour angle is below -0.5 h and yet at or above a threshold set that low.
   */
  lemma ConsecutiveFlips(run: seq<Input>, i: nat)
    requires i + 1 < |run| && OutputAt(run, i).FlipTrigger?
    ensures OutputAt(run, i + 1).FlipTrigger? <==>
            && run[i + 1].Flip? && run[i + 1].cfg.autoFlip && run[i + 1].status.hourAngle.Some?
            && run[i + 1].cfg.autoFlipHours <= run[i + 1].status.hourAngle.value < FLIP_REARM_HOURS
            && MeridianFlipDue(run[i + 1].status.pierSide, run[i + 1].status.hourAngle) != Some(false)
  {
    AfterStep(run, i);
  }

  /** A sample exactly at the threshold t, on a side from which no flip is known to be undue. */
  function AtThreshold(t: real): Input {
    Flip(Settings(0.0, NoAction, true, t), Status(None, true, false, Some(t), Unknown), false)
  }

  /** With any threshold below -0.5 h two such samples trigger one after the other. */
  lemma ConsecutiveFlipsExample(t: real)
    requires t < FLIP_REARM_HOURS
    ensures var run := [AtThreshold(t), AtThreshold(t)]; OutputAt(run, 0).FlipTrigger? && OutputAt(run, 1).FlipTrigger?
  {
    var run := [AtThreshold(t), AtThreshold(t)];
    assert run[..0] == [];
    ConsecutiveFlips(run, 0);
  }

  predicate HasThreshold(run: seq<Input>, t: real) {
    forall k :: 0 <= k < |run| && run[k].Flip? ==> run[k].cfg.autoFlipHours == t
  }

  ghost predicate RearmedBetween(run: seq<Input>, i: nat, j: nat) {
    exists k :: i < k < j < |run| && EastOfMeridian(run[k])
  }

  /** The threshold keeps any two triggers of any run apart by a sample below -0.5 h strictly between them. */
  ghost predicate KeepsFlipsApart(t: real) {
    forall run: seq<Input>, i: nat, j: nat ::
      HasThreshold(run, t) && i < j < |run| && OutputAt(run, i).FlipTrigger? && OutputAt(run, j).FlipTrigger?
      ==> RearmedBetween(run, i, j)
  }

  /** It does exactly when it is at least -0.5 h. */
  lemma FlipsApartIff(t: real)
    ensures KeepsFlipsApart(t) <==> t >= FLIP_REARM_HOURS
  {
    if t >= FLIP_REARM_HOURS {
      forall run: seq<Input>, i: nat, j: nat
        | HasThreshold(run, t) && i < j < |run| && OutputAt(run, i).FlipTrigger? && OutputAt(run, j).FlipTrigger?
        ensures RearmedBetween(run, i, j)
      {
        assert run[j].Flip?;
        FlipHysteresisStrict(run, i, j);
      }
    } else {
      var run := [AtThreshold(t), AtThreshold(t)];
      ConsecutiveFlipsExample(t);
      assert HasThreshold(run, t) && !RearmedBetween(run, 0, 1);
    }
  }

  // ---- suspension ----

  /** Suspend contexts open after a run; contexts may be released in any order, each once. */
  function Open(run: seq<Input>): int {
    if run == [] then 0
    else Open(run[..|run| - 1]) + match run[|run| - 1] case Suspend => 1 case Resume => -1 case _ => 0
  }

  /** Nobody leaves a context that is not open. */
  predicate WellNested(run: seq<Input>) {
    forall j :: 0 <= j <= |run| ==> Open(run[..j]) >= 0
  }

  /** The stored depth is the number of open contexts. */
  lemma {:induction false} DepthIsOpen(run: seq<Input>)
    requires WellNested(run)
    ensures After(Init(), run).suspended == if Open(run) > 0 then Some(Open(run)) else None
  {
    if run != [] {
      var before := run[..|run| - 1];
      forall j | 0 <= j <= |before| ensures Open(before[..j]) >= 0 {
        assert before[..j] == run[..j];
      }
      DepthIsOpen(before);
      assert run[..|run|] == run && Open(run[..|run|]) >= 0 && Open(run[..|before|]) >= 0;
    }
  }

  /** No flip is triggered while any suspend context is open, nor when the mount is on its normal side. */
  lemma NoFlipWhileSuspended(run: seq<Input>, j: nat)
    requires WellNested(run) && j < |run| && OutputAt(run, j).FlipTrigger?
    ensures Open(run[..j]) == 0
    ensures run[j].Flip? && MeridianFlipDue(run[j].status.pierSide, run[j].status.hourAngle) != Some(false)
    ensures run[j].cfg.autoFlip && run[j].status.hourAngle.Some?
            && run[j].status.hourAngle.value >= run[j].cfg.autoFlipHours
  {
    var before := run[..j];
    forall i | 0 <= i <= |before| ensures Open(before[..i]) >= 0 {
      assert before[..i] == run[..i];
    }
    DepthIsOpen(before);
  }

  /** A transit is flipped: with no context open, the first eligible sample after re-arming triggers. */
  lemma FlipTriggersWhenArmed(run: seq<Input>, i: nat, j: nat)
    requires WellNested(run) && i < j < |run|
    requires EastOfMeridian(run[i]) && run[i].cfg.autoFlip && Open(run[..i]) == 0
    requires forall k :: i <= k < j ==> !OutputAt(run, k).FlipTrigger?
    requires run[j].Flip? && run[j].cfg.autoFlip && run[j].status.hourAngle.Some? && Open(run[..j]) == 0
    requires run[j].status.hourAngle.value >= run[j].cfg.autoFlipHours
    requires MeridianFlipDue(run[j].status.pierSide, run[j].status.hourAngle) != Some(false)
    ensures OutputAt(run, j) == FlipTrigger(!run[j].busy)
  {
    StaysArmed(run, i, j);
    PrefixNested(run, j);
    DepthIsOpen(run[..j]);
  }

  lemma PrefixNested(run: seq<Input>, j: nat)
    requires WellNested(run) && j <= |run|
    ensures WellNested(run[..j])
  {
    forall i | 0 <= i <= j ensures Open(run[..j][..i]) >= 0 {
      assert run[..j][..i] == run[..i];
    }
  }

  lemma {:induction false} StaysArmed(run: seq<Input>, i: nat, j: nat)
    requires WellNested(run) && i < j <= |run|
    requires EastOfMeridian(run[i]) && run[i].cfg.autoFlip && Open(run[..i]) == 0
    requires forall k :: i <= k < j ==> !OutputAt(run, k).FlipTrigger?
    ensures !After(Init(), run[..j]).flipTriggered
  {
    AfterStep(run, j - 1);
    if j == i + 1 {
      PrefixNested(run, i);
      DepthIsOpen(run[..i]);
    } else {
      StaysArmed(run, i, j - 1);
      assert !OutputAt(run, j - 1).FlipTrigger?;
    }
  }
}
