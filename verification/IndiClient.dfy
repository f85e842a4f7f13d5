/**
 The client's objects: property vectors whose fields the messages update, devices that hold them by
 name, and the client that dispatches received elements. Each method is proved to do to the objects
 what IndiMirror says happens to their value.
 */
module IndiClient {
  import opened Wrappers
  import opened IndiMessages
  import opened IndiMirror

  class PropertyVector {
    const kind: Kind
    var data: Members
    var enable: bool
    var state: PropertyState
    var timeout: Option<real>
    var timer: bool
    var newtimer: real

    ghost function Now(): Vector
      reads this
    {
      Vector(kind, data, enable, state, timeout, timer, newtimer)
    }

    constructor (d: Definition)
      ensures Now() == Created(d)
    {
      kind, data, enable, state, timeout, timer, newtimer := d.kind, d.members, true, d.state, d.timeout, false, 0.0;
    }

    method Define(d: Definition)
      requires d.kind == kind
      modifies this
      ensures Now() == Redefined(old(Now()), d)
    {
      if kind != LightKind {
        timer := false;
        timeout := d.timeout;
      }
      state := d.state;
      MergeMembers(d.members);
      enable := true;
    }

    /** The loop over the event's members: known ones are updated, new ones created. */
    method MergeMembers(given: Members)
      modifies this`data
      ensures data == old(data) + given
    {
      var left := given.Keys;
      while left != {}
        invariant left <= given.Keys
        invariant data == old(data) + (map k | k in given && k !in left :: given[k])
      {
        var k :| k in left;
        data := data[k := given[k]];
        left := left - {k};
      }
      assert (map k | k in given && k !in left :: given[k]) == given;
    }

    method Update(u: Update)
      modifies this
      ensures Now() == Updated(old(Now()), u)
    {
      if !enable {
        return;
      }
      if u.state.Some? {
        state := u.state.value;
      }
      if u.timeout.Some? && timeout.Some? {
        timeout := u.timeout;
      }
      SetMembers(u.members);
      timer := false;
    }

    /** The loop over the event's members: unknown ones are skipped. */
    method SetMembers(given: Members)
      modifies this`data
      ensures data == old(data) + Known(old(data), given)
    {
      var left := given.Keys;
      while left != {}
        invariant left <= given.Keys
        invariant data == old(data) + (map k | k in given && k in old(data) && k !in left :: given[k])
      {
        var k :| k in left;
        if k in data {
          data := data[k := given[k]];
        }
        left := left - {k};
      }
      assert (map k | k in given && k in old(data) && k !in left :: given[k]) == Known(old(data), given);
    }

    method CheckTimedOut(now: real, s: Settings) returns (timedOut: bool)
      modifies this`timer
      ensures timedOut == TimesOut(old(Now()), now, s)
      ensures Now() == Checked(old(Now()), now, s)
    {
      if kind == LightKind {
        return false;
      }
      if !s.timeoutEnable {
        timer := false;
      }
      if !timer {
        return false;
      }
      var wanted := if timeout.Some? then timeout.value else 0.0;
      var t: real;
      if wanted > s.timeoutMax {
        t := s.timeoutMax;
      } else if wanted < s.timeoutMin {
        t := s.timeoutMin;
      } else {
        t := wanted;
      }
      if now > newtimer + t {
        timer := false;
        return true;
      }
      return false;
    }

    /** send_newSwitchVector, send_newTextVector and send_newNumberVector; lights have none. */
    method SendNew(now: real) returns (sent: bool)
      requires kind != LightKind
      modifies this
      ensures sent == old(enable) && Now() == Sent(old(Now()), now)
    {
      if !enable {
        return false;
      }
      state := Busy;
      timer := true;
      newtimer := now;
      return true;
    }
  }

  /** One vector of _check_alive's inner loop: a deleted one is skipped. */
  method CheckVector(v: PropertyVector, now: real, s: Settings) returns (late: bool)
    modifies v
    ensures late == VectorOverdue(old(v.Now()), now, s)
    ensures v.Now() == VectorChecked(old(v.Now()), now, s)
  {
    late := false;
    if v.enable {
      late := v.CheckTimedOut(now, s);
    }
  }

  class Device {
    var data: map<string, PropertyVector>

    ghost function Now(): Properties
      reads this, data.Values
    {
      map n | n in data :: data[n].Now()
    }

    /** Different names, different objects. */
    ghost predicate Valid()
      reads this
    {
      forall n, m :: n in data && m in data && n != m ==> data[n] != data[m]
    }

    constructor ()
      ensures Valid() && data == map[] && Now() == map[]
    {
      data := map[];
    }

    method Enable() returns (on: bool)
      ensures on == AnyEnabled(Now())
    {
      var left := data.Keys;
      while left != {}
        invariant left <= data.Keys
        invariant forall n :: n in data && n !in left ==> !data[n].enable
      {
        var n :| n in left;
        if data[n].enable {
          assert n in Now() && Now()[n].enable;
          return true;
        }
        left := left - {n};
      }
      return false;
    }

    method DelProperty(x: Element) returns (accepted: bool)
      requires Valid()
      modifies data.Values
      ensures Valid() && data == old(data)
      ensures accepted == AfterDelete(old(Now()), x).Some?
      ensures Now() == if accepted then AfterDelete(old(Now()), x).value else old(Now())
    {
      var on := Enable();
      if !on {
        return false;
      }
      if Given(x.name) {
        if x.name.value in data {
          data[x.name.value].enable := false;
        }
      } else {
        DisableAll();
      }
      return true;
    }

    method DisableAll()
      requires Valid()
      modifies data.Values
      ensures Now() == AllDisabled(old(Now()))
    {
      var left := data.Keys;
      while left != {}
        invariant left <= data.Keys
        invariant forall n :: n in data ==>
                    data[n].Now() == old(data[n].Now()).(enable := n in left && old(data[n].enable))
      {
        var n :| n in left;
        data[n].enable := false;
        left := left - {n};
      }
    }

    method Def(kind: Kind, x: Element) returns (accepted: bool)
      requires Valid()
      requires x.name.Some? && x.name.value in data ==>
                 data[x.name.value].kind == kind
                 && (DefinitionOf(kind, x).Some? ==> AllNumbers(DefinitionOf(kind, x).value))
      modifies this, data.Values
      ensures Valid() && fresh(data.Values - old(data.Values))
      ensures accepted == AfterDef(old(Now()), kind, x).Some?
      ensures Now() == if accepted then AfterDef(old(Now()), kind, x).value else old(Now())
    {
      var d := ReadDefinition(kind, x);
      hide DefinitionOf, AllNumbers, Redefined, Created;
      if d == None {
        return false;
      }
      if x.name.value in data {
        data[x.name.value].Define(d.value);
        OnlyKey(old(Now()), Now(), x.name.value, Redefined(old(Now())[x.name.value], d.value));
        return true;
      }
      if !AllNumbers(d.value) {
        return false;
      }
      var vector := new PropertyVector(d.value);
      data := data[x.name.value := vector];
      OnlyKey(old(Now()), Now(), x.name.value, Created(d.value));
      return true;
    }

    method Set(kind: Kind, x: Element) returns (accepted: bool)
      requires Valid()
      modifies data.Values
      ensures Valid() && data == old(data)
      ensures accepted == AfterSet(old(Now()), kind, x).Some?
      ensures Now() == if accepted then AfterSet(old(Now()), kind, x).value else old(Now())
    {
      if x.name == None || x.name.value !in data || !data[x.name.value].enable {
        return false;
      }
      var u := ReadUpdate(kind, x);
      hide UpdateOf, Updated;
      if u == None {
        return false;
      }
      data[x.name.value].Update(u.value);
      OnlyKey(old(Now()), Now(), x.name.value, Updated(old(Now())[x.name.value], u.value));
      return true;
    }

    /** The device's vectors of that name, if any, is of the element's type (see IndiMirror.Fits). */
    ghost predicate Fitting(x: Element)
      reads this, data.Values
    {
      x.name.Some? && x.name.value in data ==>
        && (x.tag.Def? || x.tag.Set? || x.tag.New? ==> x.tag.kind == data[x.name.value].kind)
        && (x.tag.Def? && DefinitionOf(x.tag.kind, x).Some? ==> AllNumbers(DefinitionOf(x.tag.kind, x).value))
    }

    method RxVector(x: Element) returns (accepted: bool)
      requires Valid() && Fitting(x)
      modifies this, data.Values
      ensures Valid() && fresh(data.Values - old(data.Values))
      ensures accepted == AfterVector(old(Now()), x).Some?
      ensures Now() == if accepted then AfterVector(old(Now()), x).value else old(Now())
    {
      match x.tag
      case Delete => accepted := DelProperty(x);
      case Def(kind) => accepted := Def(kind, x);
      case Set(kind) => accepted := Set(kind, x);
      case New(kind) =>
        if kind == LightKind {
          accepted := false;
        } else {
          accepted := Set(kind, x);
        }
      case Note => accepted := true;
      case GetProperties => accepted := true;
      case Unrecognised => accepted := false;
    }

    method SendNew(n: string, now: real) returns (sent: bool)
      requires Valid() && n in data && data[n].kind != LightKind
      modifies data[n]
      ensures Valid() && Now() == old(Now())[n := Sent(old(Now())[n], now)] && sent == old(Now())[n].enable
    {
      sent := data[n].SendNew(now);
    }

    method CheckVectors(now: real, s: Settings) returns (timedOut: set<string>)
      requires Valid()
      modifies data.Values
      ensures Valid() && data == old(data)
      ensures Now() == AllChecked(old(Now()), now, s)
      ensures forall n :: n in timedOut <==> Overdue(old(Now()), n, now, s)
    {
      hide VectorChecked, VectorOverdue;
      timedOut := {};
      ghost var before := Now();
      var left := data.Keys;
      while left != {}
        invariant left <= data.Keys
        invariant forall n :: n in data ==>
                    data[n].Now() == if n in left then before[n] else VectorChecked(before[n], now, s)
        invariant forall n :: n in timedOut <==> n in data && n !in left && VectorOverdue(before[n], now, s)
      {
        var n :| n in left;
        var late := CheckVector(data[n], now, s);
        if late {
          timedOut := timedOut + {n};
        }
        left := left - {n};
      }
    }
  }

  class Client {
    var data: map<string, Device>
    ghost var Repr: set<object>

    /** Nothing is shared between devices. */
    ghost predicate Valid()
      reads this, Repr
    {
      && this !in Repr
      && (forall d :: d in data ==> data[d] in Repr && data[d].data.Values <= Repr && data[d].Valid())
      && (forall d, e :: d in data && e in data && d != e ==>
            data[d] != data[e] && data[d].data.Values !! data[e].data.Values)
    }

    ghost function Now(): Mirror
      requires Valid()
      reads this, Repr
    {
      map d | d in data :: data[d].Now()
    }

    constructor ()
      ensures Valid() && Now() == map[] && fresh(Repr)
    {
      data, Repr := map[], {};
    }

    /** A message for a known device: the other devices are not touched. */
    method RxKnown(d: string, x: Element)
      requires Valid() && d in data && data[d].Fitting(x)
      modifies this`Repr, Repr
      ensures Valid() && fresh(Repr - old(Repr)) && data == old(data)
      ensures forall e :: e in data && e != d ==> data[e].Now() == old(data[e].Now())
      ensures data[d].Now() == Kept(old(data[d].Now()), AfterVector(old(data[d].Now()), x))
    {
      hide AfterVector, Device.Valid, Device.Now, Device.Fitting;
      var accepted := data[d].RxVector(x);
      forall e | e in data && e != d ensures data[e].Now() == old(data[e].Now()) && data[e].data == old(data[e].data) {
        assert data[e] != data[d] && old(data[e].data.Values !! data[d].data.Values);
      }
      AdoptVectors(d);
    }

    /** A device's new vectors join the footprint. */
    method AdoptVectors(d: string)
      requires d in data && this !in Repr
      requires forall e :: e in data ==> data[e] in Repr && data[e].Valid() && (e != d ==> data[e].data.Values <= Repr)
      requires forall e, f :: e in data && f in data && e != f ==>
                 data[e] != data[f] && data[e].data.Values !! data[f].data.Values
      modifies this`Repr
      ensures Valid() && Repr == old(Repr) + data[d].data.Values
    {
      Repr := Repr + data[d].data.Values;
    }

    /** A new device that shares nothing with the others. */
    method AddDevice(d: string, device: Device)
      requires Valid() && d !in data && device.Valid()
      requires device !in Repr && Repr !! device.data.Values
      modifies this
      ensures Valid() && data == old(data)[d := device] && Repr == old(Repr) + {device} + device.data.Values
    {
      hide Device.Valid;
      data := data[d := device];
      Repr := Repr + {device} + device.data.Values;
    }

    /** The mirror gains exactly the new device. */
    method ShowDevice(d: string, device: Device)
      requires Valid() && d !in data && device.Valid()
      requires device !in Repr && Repr !! device.data.Values
      modifies this
      ensures Valid() && Repr == old(Repr) + {device} + device.data.Values
      ensures Now() == old(Now())[d := device.Now()]
    {
      hide Device.Valid, Device.Now;
      ghost var before, added := Now(), device.Now();
      AddDevice(d, device);
      hide Valid;
      OnlyKey(before, Now(), d, added);
    }

    method RxUnknown(d: string, x: Element)
      requires Valid() && d !in data && x.tag.Def?
      modifies this
      ensures Valid() && fresh(Repr - old(Repr))
      ensures Now() == if AfterVector(map[], x).Some? then old(Now())[d := AfterVector(map[], x).value] else old(Now())
    {
      hide AfterVector, Device.Valid, Device.Now;
      var device := new Device();
      var accepted := device.RxVector(x);
      assert Valid() && Now() == old(Now());
      hide Valid;
      if accepted {
        ShowDevice(d, device);
      }
    }

    method RxHandler(x: Element)
      requires Valid() && Fits(Now(), x)
      modifies this, Repr
      ensures Valid() && fresh(Repr - old(Repr))
      ensures Now() == Received(old(Now()), x)
    {
      ReceivedUnfolds(Now(), x);
      assert x.device.Some? && x.device.value in data ==> data[x.device.value].Fitting(x);
      hide Device.Fitting;
      hide AfterVector, DefinitionOf, AllNumbers, Received, Kept, Device.Valid, Device.Now;
      if x.device == None {
        return;
      }
      var d := x.device.value;
      if d in data {
        RxKnown(d, x);
        assert Now() == old(Now())[d := data[d].Now()];
      } else if x.tag.Def? {
        RxUnknown(d, x);
      }
    }

    /** One device of _check_alive's loop; the others are not touched. */
    method CheckDevice(d: string, now: real, s: Settings) returns (late: set<string>)
      requires Valid() && d in data
      modifies Repr
      ensures Valid() && data == old(data) && Repr == old(Repr)
      ensures forall e :: e in data && e != d ==> data[e].Now() == old(data[e].Now())
      ensures data[d].Now() == AllChecked(old(data[d].Now()), now, s)
      ensures forall n :: n in late <==> Overdue(old(data[d].Now()), n, now, s)
    {
      hide AllChecked, Checked, TimesOut, Device.Valid;
      late := data[d].CheckVectors(now, s);
      forall e | e in data && e != d ensures data[e].Now() == old(data[e].Now()) {
        assert data[e] != data[d] && old(data[e].data.Values !! data[d].data.Values);
      }
    }

    /** The loop of _check_alive over the devices. */
    method CheckDevices(now: real, s: Settings) returns (timedOut: map<string, set<string>>)
      requires Valid()
      modifies Repr
      ensures Valid() && data == old(data) && timedOut.Keys == data.Keys
      ensures forall d :: d in data ==> data[d].Now() == AllChecked(old(data[d].Now()), now, s)
      ensures forall d, n :: d in data ==> (n in timedOut[d] <==> Overdue(old(data[d].Now()), n, now, s))
    {
      hide AllChecked, Overdue, Device.Now, Device.Valid;
      timedOut := map[];
      var left := data.Keys;
      while left != {}
        invariant left <= data.Keys && Valid() && data == old(data) && Repr == old(Repr)
        invariant forall d :: d in data ==>
                    data[d].Now() == if d in left then old(data[d].Now()) else AllChecked(old(data[d].Now()), now, s)
        invariant timedOut.Keys == data.Keys - left
        invariant forall d, n :: d in timedOut ==> (n in timedOut[d] <==> Overdue(old(data[d].Now()), n, now, s))
      {
        hide Valid;
        var d :| d in left;
        var late := CheckDevice(d, now, s);
        timedOut := timedOut[d := late];
        left := left - {d};
      }
    }

    /** The timeout part of _check_alive: for each device the names of the vectors it reports. */
    method CheckAlive(now: real, s: Settings) returns (timedOut: map<string, set<string>>)
      requires Valid()
      modifies Repr
      ensures Valid() && Now() == AfterCheck(old(Now()), now, s)
      ensures timedOut.Keys == old(Now()).Keys
      ensures forall d, n :: d in timedOut ==> (n in timedOut[d] <==> Reports(old(Now()), Check(now, s), d, n))
    {
      hide AllChecked, Overdue, Device.Now, Device.Valid;
      timedOut := CheckDevices(now, s);
      hide Valid;
    }

    /** A send through one device; the others are not touched. */
    method SendIn(d: string, n: string, now: real) returns (sent: bool)
      requires Valid() && d in data && n in data[d].data && data[d].data[n].kind != LightKind
      modifies Repr
      ensures Valid() && data == old(data) && Repr == old(Repr)
      ensures forall e :: e in data && e != d ==> data[e].Now() == old(data[e].Now())
      ensures data[d].Now() == old(data[d].Now())[n := Sent(old(data[d].Now())[n], now)]
      ensures sent == old(data[d].Now())[n].enable
    {
      hide Sent, Device.Valid;
      sent := data[d].SendNew(n, now);
      forall e | e in data && e != d ensures data[e].Now() == old(data[e].Now()) {
        assert data[e] != data[d] && old(data[e].data.Values !! data[d].data.Values);
      }
    }

    method SendNew(d: string, n: string, now: real) returns (sent: bool)
      requires Valid() && d in data && n in data[d].data && data[d].data[n].kind != LightKind
      modifies Repr
      ensures Valid() && Now() == AfterSend(old(Now()), d, n, now)
      ensures sent == IsEnabled(old(Now()), d, n)
    {
      ghost var before := Now();
      assert d in before && n in before[d] && before[d] == data[d].Now();
      assert AfterSend(before, d, n, now) == before[d := before[d][n := Sent(before[d][n], now)]];
      hide Sent, AfterSend, Device.Now, Device.Valid;
      sent := SendIn(d, n, now);
      OnlyKey(before, Now(), d, before[d][n := Sent(before[d][n], now)]);
    }
  }

  // A rejected message leaves the device as it was.
  function Kept(dev: Properties, after: Option<Properties>): Properties {
    if after == None then dev else after.value
  }

  lemma ReceivedUnfolds(m: Mirror, x: Element)
    ensures Received(m, x) ==
            if x.device == None then m
            else if x.device.value in m then
              m[x.device.value := Kept(m[x.device.value], AfterVector(m[x.device.value], x))]
            else if x.tag.Def? && AfterVector(map[], x).Some? then m[x.device.value := AfterVector(map[], x).value]
            else m
  {
    hide AfterVector;
    if x.device.Some? && x.device.value in m {
      assert m == m[x.device.value := m[x.device.value]];
    }
  }
}
