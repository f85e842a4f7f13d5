/**
 The client's mirror of the server's properties as a value: what each message and each send makes of
 it, and the proof that it equals a replay that looks only at the messages.
 */
module IndiMirror {
  import opened Wrappers
  import opened IndiMessages

  /** One property vector. `timer` runs while a sent new...Vector waits for an answer. */
  datatype Vector = Vector(kind: Kind, members: Members, enable: bool, state: PropertyState,
                           timeout: Option<real>, timer: bool, newtimer: real)

  type Properties = map<string, Vector>

  type Mirror = map<string, Properties>

  // ---- one vector ----

  function Created(d: Definition): Vector {
    Vector(d.kind, d.members, true, d.state, d.timeout, false, 0.0)
  }

  /** A redefinition merges members and enables the vector; a light has no timer and no timeout. */
  function Redefined(v: Vector, d: Definition): Vector {
    var v := v.(members := v.members + d.members, enable := true, state := d.state);
    if v.kind == LightKind then v else v.(timer := false, timeout := d.timeout)
  }

  function Known(members: Members, given: Members): Members {
    map k | k in given && k in members :: given[k]
  }

  function Updated(v: Vector, u: Update): Vector {
    if !v.enable then v
    else v.(state := if u.state.Some? then u.state.value else v.state,
            timeout := if u.timeout.Some? && v.timeout.Some? then u.timeout else v.timeout,
            members := v.members + Known(v.members, u.members), timer := false)
  }

  function Sent(v: Vector, now: real): Vector {
    if !v.enable then v else v.(state := Busy, timer := true, newtimer := now)
  }

  datatype Settings = Settings(timeoutEnable: bool, timeoutMin: real, timeoutMax: real)

  /** The vector's timeout, pushed into the client's limits. */
  function Patience(v: Vector, s: Settings): real {
    var timeout := if v.timeout.Some? then v.timeout.value else 0.0;
    if timeout > s.timeoutMax then s.timeoutMax else if timeout < s.timeoutMin then s.timeoutMin else timeout
  }

  predicate TimesOut(v: Vector, now: real, s: Settings) {
    v.kind != LightKind && s.timeoutEnable && v.timer && now > v.newtimer + Patience(v, s)
  }

  function Checked(v: Vector, now: real, s: Settings): Vector {
    if v.kind == LightKind then v
    else v.(timer := v.timer && s.timeoutEnable && !TimesOut(v, now, s))
  }

  /** A map that differs from another only in what one key has. */
  lemma OnlyKey<V>(m: map<string, V>, after: map<string, V>, k: string, v: V)
    requires after.Keys == m.Keys + {k}
    requires forall j :: j in after ==> after[j] == if j == k then v else m[j]
    ensures after == m[k := v]
  {
  }

  // ---- one device ----

  predicate AnyEnabled(dev: Properties) {
    exists n :: n in dev && dev[n].enable
  }

  function Disabled(dev: Properties, n: string): Properties {
    if n in dev then dev[n := dev[n].(enable := false)] else dev
  }

  function AllDisabled(dev: Properties): Properties {
    map n | n in dev :: dev[n].(enable := false)
  }

  function AfterDelete(dev: Properties, x: Element): Option<Properties> {
    if !AnyEnabled(dev) then None
    else if Given(x.name) then Some(Disabled(dev, x.name.value))
    else Some(AllDisabled(dev))
  }

  function AfterDef(dev: Properties, kind: Kind, x: Element): Option<Properties> {
    var d := DefinitionOf(kind, x);
    if d == None then None
    else if x.name.value in dev then Some(dev[x.name.value := Redefined(dev[x.name.value], d.value)])
    else if AllNumbers(d.value) then Some(dev[x.name.value := Created(d.value)])
    else None
  }

  function AfterSet(dev: Properties, kind: Kind, x: Element): Option<Properties> {
    var u := UpdateOf(kind, x);
    if x.name == None || x.name.value !in dev || !dev[x.name.value].enable || u == None then None
    else Some(dev[x.name.value := Updated(dev[x.name.value], u.value)])
  }

  /** What rxvector makes of the device; None is a ParseException, which leaves the device as it was. */
  function AfterVector(dev: Properties, x: Element): Option<Properties> {
    match x.tag
    case Delete => AfterDelete(dev, x)
    case Def(kind) => AfterDef(dev, kind, x)
    case Set(kind) => AfterSet(dev, kind, x)
    case New(kind) => if kind == LightKind then None else AfterSet(dev, kind, x)
    case Note => Some(dev)
    case GetProperties => Some(dev)
    case Unrecognised => None
  }

  // ---- the client ----

  /** What _rxhandler makes of the mirror: an unknown device appears only with an accepted definition. */
  function Received(m: Mirror, x: Element): Mirror {
    if x.device == None then m
    else
      var d := x.device.value;
      var known := d in m;
      if !known && !x.tag.Def? then m
      else
        var dev := AfterVector(if known then m[d] else map[], x);
        if dev == None then m else m[d := dev.value]
  }

  /** A name keeps its type, and a known number is redefined with well-formed numbers only. */
  predicate Fits(m: Mirror, x: Element) {
    x.device.Some? && x.device.value in m && x.name.Some? && x.name.value in m[x.device.value] ==>
      && (x.tag.Def? || x.tag.Set? || x.tag.New? ==> x.tag.kind == m[x.device.value][x.name.value].kind)
      && (x.tag.Def? && DefinitionOf(x.tag.kind, x).Some? ==> AllNumbers(DefinitionOf(x.tag.kind, x).value))
  }

  datatype Input =
    | Receive(x: Element)
    | Send(device: string, name: string, now: real)
    | Check(now: real, settings: Settings)

  function AfterSend(m: Mirror, d: string, n: string, now: real): Mirror {
    if d in m && n in m[d] && m[d][n].kind != LightKind then m[d := m[d][n := Sent(m[d][n], now)]] else m
  }

  // _check_alive skips deleted vectors.
  function VectorChecked(v: Vector, now: real, s: Settings): Vector {
    if v.enable then Checked(v, now, s) else v
  }

  predicate VectorOverdue(v: Vector, now: real, s: Settings) {
    v.enable && TimesOut(v, now, s)
  }

  function AllChecked(dev: Properties, now: real, s: Settings): Properties {
    map n | n in dev :: VectorChecked(dev[n], now, s)
  }

  /** An enabled vector of the device that times out now. */
  predicate Overdue(dev: Properties, n: string, now: real, s: Settings) {
    n in dev && VectorOverdue(dev[n], now, s)
  }

  function AfterCheck(m: Mirror, now: real, s: Settings): Mirror {
    map d | d in m :: AllChecked(m[d], now, s)
  }

  function Step(m: Mirror, i: Input): Mirror {
    match i
    case Receive(x) => Received(m, x)
    case Send(d, n, now) => AfterSend(m, d, n, now)
    case Check(now, s) => AfterCheck(m, now, s)
  }

  function Run(history: seq<Input>): Mirror {
    if history == [] then map[] else Step(Run(history[..|history| - 1]), history[|history| - 1])
  }

  predicate AllFit(history: seq<Input>) {
    history != [] ==>
      var n := |history| - 1;
      AllFit(history[..n]) && (history[n].Receive? ==> Fits(Run(history[..n]), history[n].x))
  }

  // ---- reading the mirror ----

  predicate Has(m: Mirror, d: string, n: string) {
    d in m && n in m[d]
  }

  predicate IsEnabled(m: Mirror, d: string, n: string) {
    Has(m, d, n) && m[d][n].enable
  }

  function MemberValue(m: Mirror, d: string, n: string, k: string): Option<string> {
    if Has(m, d, n) && k in m[d][n].members then Some(m[d][n].members[k]) else None
  }

  // ---- reading the messages ----

  /** A sound definition of the vector. */
  predicate Defines(i: Input, d: string, n: string) {
    i.Receive? && i.x.tag.Def? && i.x.device == Some(d) && i.x.name == Some(n) &&
    DefinitionOf(i.x.tag.kind, i.x).Some? && AllNumbers(DefinitionOf(i.x.tag.kind, i.x).value)
  }

  /** A delete of the vector or of its whole device. */
  predicate Deletes(i: Input, d: string, n: string) {
    i.Receive? && i.x.tag == Delete && i.x.device == Some(d) && (Given(i.x.name) ==> i.x.name.value == n)
  }

  /** A sound set (or an echoed new) of the vector. */
  predicate Sets(i: Input, d: string, n: string) {
    i.Receive? && i.x.device == Some(d) && i.x.name == Some(n) &&
    (i.x.tag.Set? || (i.x.tag.New? && i.x.tag.kind != LightKind)) && UpdateOf(i.x.tag.kind, i.x).Some?
  }

  /** The last definition or delete that names the vector was a definition. */
  predicate ReplayEnabled(history: seq<Input>, d: string, n: string) {
    history != [] &&
    var last, before := history[|history| - 1], history[..|history| - 1];
    if Defines(last, d, n) then true
    else if Deletes(last, d, n) then false
    else ReplayEnabled(before, d, n)
  }

  /** The last value given by a definition, or by a set that came while the vector was defined and had the member. */
  function ReplayMember(history: seq<Input>, d: string, n: string, k: string): Option<string> {
    if history == [] then None
    else
      var last, before := history[|history| - 1], history[..|history| - 1];
      var earlier := ReplayMember(before, d, n, k);
      if Defines(last, d, n) && k in DefinitionOf(last.x.tag.kind, last.x).value.members then
        Some(DefinitionOf(last.x.tag.kind, last.x).value.members[k])
      else if Sets(last, d, n) && ReplayEnabled(before, d, n) && earlier.Some?
        && k in UpdateOf(last.x.tag.kind, last.x).value.members then
        Some(UpdateOf(last.x.tag.kind, last.x).value.members[k])
      else earlier
  }

  // ---- the mirror equals the replay ----

  lemma DeviceEnabled(dev: Properties, x: Element, n: string)
    requires AfterVector(dev, x).Some?
    ensures var after := AfterVector(dev, x).value;
            n in after && after[n].enable <==>
            if x.tag.Def? && x.name == Some(n) then true
            else if x.tag == Delete && (Given(x.name) ==> x.name.value == n) then false
            else n in dev && dev[n].enable
  {
    hide DefinitionOf, UpdateOf;
  }

  lemma ReceivedEnabled(m: Mirror, x: Element, d: string, n: string)
    requires Fits(m, x)
    ensures IsEnabled(Received(m, x), d, n) <==>
            if Defines(Receive(x), d, n) then true
            else if Deletes(Receive(x), d, n) then false
            else IsEnabled(m, d, n)
  {
    hide DefinitionOf, UpdateOf, AllNumbers;
    if x.device == Some(d) && (d in m || x.tag.Def?) {
      var dev := if d in m then m[d] else map[];
      if AfterVector(dev, x).Some? {
        DeviceEnabled(dev, x, n);
      }
    }
  }

  lemma {:induction false} EnabledIsReplay(history: seq<Input>, d: string, n: string)
    requires AllFit(history)
    ensures IsEnabled(Run(history), d, n) <==> ReplayEnabled(history, d, n)
    decreases |history|
  {
    if history != [] {
      var last, before := history[|history| - 1], history[..|history| - 1];
      EnabledIsReplay(before, d, n);
      if last.Receive? {
        ReceivedEnabled(Run(before), last.x, d, n);
      }
    }
  }

  function DeviceMember(dev: Properties, n: string, k: string): Option<string> {
    if n in dev && k in dev[n].members then Some(dev[n].members[k]) else None
  }

  lemma DeviceMembers(dev: Properties, x: Element, n: string, k: string)
    requires AfterVector(dev, x).Some?
    requires x.tag.Def? && x.name == Some(n) && n in dev ==> dev[n].kind == x.tag.kind
    ensures DeviceMember(AfterVector(dev, x).value, n, k) ==
            if x.tag.Def? && x.name == Some(n) && k in DefinitionOf(x.tag.kind, x).value.members then
              Some(DefinitionOf(x.tag.kind, x).value.members[k])
            else if (x.tag.Set? || x.tag.New?) && x.name == Some(n) && DeviceMember(dev, n, k).Some?
              && k in UpdateOf(x.tag.kind, x).value.members then
              Some(UpdateOf(x.tag.kind, x).value.members[k])
            else DeviceMember(dev, n, k)
  {
    hide DefinitionOf, UpdateOf, AllNumbers;
  }

  lemma ReceivedMember(m: Mirror, x: Element, d: string, n: string, k: string)
    requires Fits(m, x)
    ensures MemberValue(Received(m, x), d, n, k) ==
            if Defines(Receive(x), d, n) && k in DefinitionOf(x.tag.kind, x).value.members then
              Some(DefinitionOf(x.tag.kind, x).value.members[k])
            else if Sets(Receive(x), d, n) && IsEnabled(m, d, n) && MemberValue(m, d, n, k).Some?
              && k in UpdateOf(x.tag.kind, x).value.members then
              Some(UpdateOf(x.tag.kind, x).value.members[k])
            else MemberValue(m, d, n, k)
  {
    hide DefinitionOf, UpdateOf, AllNumbers;
    if x.device == Some(d) && (d in m || x.tag.Def?) {
      var dev := if d in m then m[d] else map[];
      if AfterVector(dev, x).Some? {
        DeviceMembers(dev, x, n, k);
      }
    }
  }

  /** What one input does to a member. */
  lemma StepMember(m: Mirror, i: Input, d: string, n: string, k: string)
    requires i.Receive? ==> Fits(m, i.x)
    ensures MemberValue(Step(m, i), d, n, k) ==
            if Defines(i, d, n) && k in DefinitionOf(i.x.tag.kind, i.x).value.members then
              Some(DefinitionOf(i.x.tag.kind, i.x).value.members[k])
            else if Sets(i, d, n) && IsEnabled(m, d, n) && MemberValue(m, d, n, k).Some?
              && k in UpdateOf(i.x.tag.kind, i.x).value.members then
              Some(UpdateOf(i.x.tag.kind, i.x).value.members[k])
            else MemberValue(m, d, n, k)
  {
    if i.Receive? {
      hide Received, Fits, DefinitionOf, UpdateOf, AllNumbers;
      ReceivedMember(m, i.x, d, n, k);
    }
  }

  /** Every member holds the last value an accepted definition or set gave it; redefinition merges members. */
  lemma {:induction false} MembersAreReplay(history: seq<Input>, d: string, n: string, k: string)
    requires AllFit(history)
    ensures MemberValue(Run(history), d, n, k) == ReplayMember(history, d, n, k)
    decreases |history|
  {
    if history != [] {
      var last, before := history[|history| - 1], history[..|history| - 1];
      MembersAreReplay(before, d, n, k);
      EnabledIsReplay(before, d, n);
      hide Step, Fits, Defines, Sets, DefinitionOf, UpdateOf, MemberValue, IsEnabled, ReplayEnabled;
      StepMember(Run(before), last, d, n, k);
    }
  }

  /** A set the client does not accept (malformed, unknown or deleted vector) changes nothing. */
  lemma RejectedSetChangesNothing(m: Mirror, x: Element)
    requires (x.tag.Set? || x.tag.New?) && x.device.Some?
    requires var (d, n) := (x.device.value, if x.name.Some? then x.name.value else "");
             !(Sets(Receive(x), d, n) && IsEnabled(m, d, n))
    ensures Received(m, x) == m
  {
    hide UpdateOf;
  }

  // ---- timeouts ----

  predicate TimerRuns(m: Mirror, d: string, n: string) {
    Has(m, d, n) && m[d][n].timer
  }

  /** A light is never sent, so it never waits. */
  ghost predicate LightsNeverWait(m: Mirror) {
    forall d, n :: Has(m, d, n) && m[d][n].kind == LightKind ==> !m[d][n].timer
  }

  /** This input makes the client report a timeout of the vector. */
  predicate Reports(m: Mirror, i: Input, d: string, n: string) {
    i.Check? && d in m && Overdue(m[d], n, i.now, i.settings)
  }

  /** The vector was answered: defined again, or set while enabled. */
  predicate Answers(m: Mirror, i: Input, d: string, n: string) {
    Defines(i, d, n) || (Sets(i, d, n) && IsEnabled(m, d, n))
  }

  predicate SendsTo(i: Input, d: string, n: string) {
    i.Send? && i.device == d && i.name == n
  }

  lemma DeviceTimer(dev: Properties, x: Element, n: string)
    requires AfterVector(dev, x).Some?
    requires n in dev && dev[n].kind == LightKind ==> !dev[n].timer
    ensures var after := AfterVector(dev, x).value;
            && (n in after && after[n].timer ==> n in dev && dev[n].timer && dev[n].newtimer == after[n].newtimer)
            && (n in after && after[n].kind == LightKind ==> !after[n].timer)
            && (x.name == Some(n) && x.tag.Def? ==> !after[n].timer)
            && (x.name == Some(n) && (x.tag.Set? || x.tag.New?) && dev[n].enable ==> !after[n].timer)
  {
    hide DefinitionOf, UpdateOf, AllNumbers;
  }

  lemma ReceivedTimer(m: Mirror, x: Element, d: string, n: string)
    requires Fits(m, x) && LightsNeverWait(m)
    ensures TimerRuns(Received(m, x), d, n) ==>
              TimerRuns(m, d, n) && !Answers(m, Receive(x), d, n) && Received(m, x)[d][n].newtimer == m[d][n].newtimer
    ensures Has(Received(m, x), d, n) && Received(m, x)[d][n].kind == LightKind ==> !TimerRuns(Received(m, x), d, n)
  {
    hide DefinitionOf, UpdateOf, AllNumbers;
    if x.device == Some(d) && (d in m || x.tag.Def?) {
      var dev := if d in m then m[d] else map[];
      if AfterVector(dev, x).Some? {
        DeviceTimer(dev, x, n);
      }
    }
  }

  /** Only a send starts the timer; a reported timeout and an answer stop it. */
  lemma StepTimer(m: Mirror, i: Input, d: string, n: string)
    requires LightsNeverWait(m) && (i.Receive? ==> Fits(m, i.x))
    ensures TimerRuns(Step(m, i), d, n) ==>
              !Reports(m, i, d, n) && !Answers(m, i, d, n) &&
              if SendsTo(i, d, n) && IsEnabled(m, d, n) then Step(m, i)[d][n].newtimer == i.now
              else TimerRuns(m, d, n) && Step(m, i)[d][n].newtimer == m[d][n].newtimer
    ensures Reports(m, i, d, n) ==> TimerRuns(m, d, n)
    ensures Has(Step(m, i), d, n) && Step(m, i)[d][n].kind == LightKind ==> !TimerRuns(Step(m, i), d, n)
  {
    hide DefinitionOf, UpdateOf, AllNumbers, Received;
    if i.Receive? {
      ReceivedTimer(m, i.x, d, n);
    }
  }

  lemma {:induction false} LightsStill(history: seq<Input>)
    requires AllFit(history)
    ensures LightsNeverWait(Run(history))
    decreases |history|
  {
    if history != [] {
      var last, before := history[|history| - 1], history[..|history| - 1];
      LightsStill(before);
      hide Step;
      forall d, n | Has(Run(history), d, n) && Run(history)[d][n].kind == LightKind ensures !Run(history)[d][n].timer {
        StepTimer(Run(before), last, d, n);
      }
    }
  }

  function Sends(history: seq<Input>, d: string, n: string): nat {
    if history == [] then 0
    else Sends(history[..|history| - 1], d, n) + if SendsTo(history[|history| - 1], d, n) then 1 else 0
  }

  function Timeouts(history: seq<Input>, d: string, n: string): nat {
    if history == [] then 0
    else
      var last, before := history[|history| - 1], history[..|history| - 1];
      Timeouts(before, d, n) + if Reports(Run(before), last, d, n) then 1 else 0
  }

  /** Each send yields at most one timeout. */
  lemma {:induction false} TimeoutsPerSend(history: seq<Input>, d: string, n: string)
    requires AllFit(history)
    ensures Timeouts(history, d, n) + (if TimerRuns(Run(history), d, n) then 1 else 0) <= Sends(history, d, n)
    decreases |history|
  {
    if history != [] {
      var last, before := history[|history| - 1], history[..|history| - 1];
      TimeoutsPerSend(before, d, n);
      LightsStill(before);
      StepTimer(Run(before), last, d, n);
      hide Step, Reports, TimerRuns;
    }
  }

  /** Once answered, a vector reports no timeout until something is sent again. */
  lemma {:induction false} NoTimeoutOnceAnswered(history: seq<Input>, answered: nat, d: string, n: string)
    requires AllFit(history) && answered < |history|
    requires Answers(Run(history[..answered]), history[answered], d, n)
    requires forall i :: answered < i < |history| ==> !SendsTo(history[i], d, n)
    ensures Timeouts(history, d, n) == Timeouts(history[..answered], d, n)
    ensures !TimerRuns(Run(history), d, n)
    decreases |history|
  {
    var last, before := history[|history| - 1], history[..|history| - 1];
    LightsStill(before);
    StepTimer(Run(before), last, d, n);
    if answered < |before| {
      assert before[..answered] == history[..answered];
      NoTimeoutOnceAnswered(before, answered, d, n);
    }
  }

  /** When the last send to the enabled vector happened. */
  function LastSend(history: seq<Input>, d: string, n: string): Option<real> {
    if history == [] then None
    else
      var last, before := history[|history| - 1], history[..|history| - 1];
      if SendsTo(last, d, n) && ReplayEnabled(before, d, n) then Some(last.now) else LastSend(before, d, n)
  }

  lemma {:induction false} TimerStartsAtSend(history: seq<Input>, d: string, n: string)
    requires AllFit(history) && TimerRuns(Run(history), d, n)
    ensures LastSend(history, d, n) == Some(Run(history)[d][n].newtimer)
    decreases |history|
  {
    if history != [] {
      var last, before := history[|history| - 1], history[..|history| - 1];
      LightsStill(before);
      StepTimer(Run(before), last, d, n);
      EnabledIsReplay(before, d, n);
      if !(SendsTo(last, d, n) && IsEnabled(Run(before), d, n)) {
        TimerStartsAtSend(before, d, n);
      }
    }
  }

  /** A timeout is reported only later than the last send plus the vector's timeout within the client's limits. */
  lemma TimeoutIsLate(history: seq<Input>, i: Input, d: string, n: string)
    requires AllFit(history) && Reports(Run(history), i, d, n)
    ensures LastSend(history, d, n).Some?
    ensures i.now > LastSend(history, d, n).value + Patience(Run(history)[d][n], i.settings)
    ensures i.settings.timeoutMin <= i.settings.timeoutMax ==>
              i.now > LastSend(history, d, n).value + i.settings.timeoutMin
  {
    TimerStartsAtSend(history, d, n);
    if i.settings.timeoutMin <= i.settings.timeoutMax {
      PatienceWithinLimits(Run(history)[d][n], i.settings);
    }
  }

  lemma PatienceWithinLimits(v: Vector, s: Settings)
    requires s.timeoutMin <= s.timeoutMax
    ensures s.timeoutMin <= Patience(v, s) <= s.timeoutMax
    ensures v.timeout.Some? && s.timeoutMin <= v.timeout.value <= s.timeoutMax ==> Patience(v, s) == v.timeout.value
  {
  }

  /** The input leaves a waiting vector waiting: no new send, no answer, no report, no check with timeouts
      switched off. */
  predicate Undisturbed(m: Mirror, i: Input, d: string, n: string) {
    && !SendsTo(i, d, n) && !Answers(m, i, d, n) && !Reports(m, i, d, n)
    && (i.Check? ==> i.settings.timeoutEnable)
  }

  lemma DeviceWaits(dev: Properties, x: Element, n: string)
    requires AfterVector(dev, x).Some? && n in dev && dev[n].timer
    requires x.name == Some(n) ==> !x.tag.Def? && !((x.tag.Set? || x.tag.New?) && dev[n].enable)
    ensures var after := AfterVector(dev, x).value;
            n in after && after[n].timer && after[n].newtimer == dev[n].newtimer && after[n].kind == dev[n].kind
  {
    hide DefinitionOf, UpdateOf, AllNumbers;
  }

  lemma StepWaits(m: Mirror, i: Input, d: string, n: string)
    requires (i.Receive? ==> Fits(m, i.x)) && TimerRuns(m, d, n) && Undisturbed(m, i, d, n)
    ensures TimerRuns(Step(m, i), d, n)
    ensures Step(m, i)[d][n].newtimer == m[d][n].newtimer && Step(m, i)[d][n].kind == m[d][n].kind
  {
    hide DefinitionOf, UpdateOf, AllNumbers;
    if i.Receive? && i.x.device == Some(d) && AfterVector(m[d], i.x).Some? {
      DeviceWaits(m[d], i.x, n);
    }
  }

  lemma {:induction false} KeepsWaiting(history: seq<Input>, sent: nat, d: string, n: string)
    requires AllFit(history) && sent < |history|
    requires SendsTo(history[sent], d, n) && IsEnabled(Run(history[..sent]), d, n)
             && Run(history[..sent])[d][n].kind != LightKind
    requires forall k :: sent < k < |history| ==> Undisturbed(Run(history[..k]), history[k], d, n)
    ensures TimerRuns(Run(history), d, n)
    ensures Run(history)[d][n].newtimer == history[sent].now && Run(history)[d][n].kind != LightKind
    decreases |history|
  {
    var last, before := history[|history| - 1], history[..|history| - 1];
    if sent < |before| {
      assert before[..sent] == history[..sent];
      forall k | sent < k < |before| ensures Undisturbed(Run(before[..k]), before[k], d, n) {
        assert before[..k] == history[..k];
      }
      KeepsWaiting(before, sent, d, n);
      hide Step;
      StepWaits(Run(before), last, d, n);
    }
  }

  /** A send nobody has answered is reported by exactly the first check that comes later than its timeout. */
  lemma UnansweredIsReported(history: seq<Input>, sent: nat, i: Input, d: string, n: string)
    requires AllFit(history) && sent < |history|
    requires SendsTo(history[sent], d, n) && IsEnabled(Run(history[..sent]), d, n)
             && Run(history[..sent])[d][n].kind != LightKind
    requires forall k :: sent < k < |history| ==> Undisturbed(Run(history[..k]), history[k], d, n)
    requires i.Check? && IsEnabled(Run(history), d, n)
    ensures Reports(Run(history), i, d, n) <==>
            i.settings.timeoutEnable && i.now > history[sent].now + Patience(Run(history)[d][n], i.settings)
  {
    KeepsWaiting(history, sent, d, n);
  }
}
