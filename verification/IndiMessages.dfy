/**
 The messages an INDI server sends, as XML elements, and what the client reads out of them: a property
 definition or an update, or nothing when the element is malformed. BLOB messages are not modelled.
 */
module IndiMessages {
  import opened Wrappers
  import Text
  import Sexagesimal

  datatype Kind = SwitchKind | TextKind | NumberKind | LightKind

  datatype Tag = Def(kind: Kind) | Set(kind: Kind) | New(kind: Kind) | Delete | Note | GetProperties | Unrecognised

  datatype ChildTag = DefChild(kind: Kind) | OneChild(kind: Kind) | OtherChild

  // The attributes the client looks at; a missing attribute is None.
  datatype Element = Element(tag: Tag, device: Option<string>, name: Option<string>, state: Option<string>,
                             perm: Option<string>, rule: Option<string>, timeout: Option<string>, children: seq<Child>)

  datatype Child = Child(tag: ChildTag, name: Option<string>, text: Option<string>,
                         format: Option<string>, min: Option<string>, max: Option<string>, step: Option<string>)

  datatype PropertyState = Idle | Okay | Busy | Alert

  type Members = map<string, string>

  datatype Definition = Definition(kind: Kind, state: PropertyState, timeout: Option<real>, members: Members)

  datatype Update = Update(state: Option<PropertyState>, timeout: Option<real>, members: Members)

  /** Python truth of an attribute or text. */
  predicate Given(s: Option<string>) {
    s.Some? && s.value != ""
  }

  function StateOf(s: string): Option<PropertyState> {
    if s == "Idle" then Some(Idle)
    else if s == "Ok" then Some(Okay)
    else if s == "Busy" then Some(Busy)
    else if s == "Alert" then Some(Alert)
    else None
  }

  predicate IsNumber(s: string) {
    Sexagesimal.GetFloat(s).Ok?
  }

  // ---- members ----

  /** The value a child gives its member; None is a parse error. */
  function ValueOf(kind: Kind, define: bool, text: Option<string>): Option<string> {
    if kind == TextKind then Some(if Given(text) then Text.Strip(text.value) else "")
    else if !Given(text) then None
    else
      var value := Text.Strip(text.value);
      match kind
      case SwitchKind => if value == "On" || value == "Off" then Some(value) else None
      case LightKind => if StateOf(value).Some? then Some(value) else None
      case NumberKind => if define || (value != "" && IsNumber(value)) then Some(value) else None
  }

  function ChildValue(kind: Kind, define: bool, child: Child): Option<(string, string)> {
    if child.tag != (if define then DefChild(kind) else OneChild(kind)) || !Given(child.name) then None
    else if define && kind == NumberKind
            && !(Given(child.format) && Given(child.min) && Given(child.max) && Given(child.step)) then None
    else
      var value := ValueOf(kind, define, child.text);
      if value == None then None else Some((child.name.value, value.value))
  }

  /** All members, a later child overriding an earlier one of the same name. */
  function MembersOf(kind: Kind, define: bool, children: seq<Child>): Option<Members> {
    if children == [] then Some(map[])
    else
      var n := |children| - 1;
      var before, last := MembersOf(kind, define, children[..n]), ChildValue(kind, define, children[n]);
      if before == None || last == None then None else Some(before.value[last.value.0 := last.value.1])
  }

  lemma {:induction false} BadChild(kind: Kind, define: bool, children: seq<Child>, i: nat)
    requires i < |children| && ChildValue(kind, define, children[i]) == None
    ensures MembersOf(kind, define, children) == None
    decreases |children|
  {
    if i < |children| - 1 {
      BadChild(kind, define, children[..|children| - 1], i);
    }
  }

  /** A message is read as a whole: it gives its members iff every child is sound, each the last value given for it. */
  lemma {:induction false} MembersAreLast(kind: Kind, define: bool, children: seq<Child>, k: string, i: nat)
    requires MembersOf(kind, define, children).Some? && i < |children|
    requires children[i].name == Some(k) && forall j :: i < j < |children| ==> children[j].name != Some(k)
    ensures k in MembersOf(kind, define, children).value
    ensures ValueOf(kind, define, children[i].text) == Some(MembersOf(kind, define, children).value[k])
    decreases |children|
  {
    var n := |children| - 1;
    if i < n {
      MembersAreLast(kind, define, children[..n], k, i);
    }
  }

  method ReadMembers(kind: Kind, define: bool, children: seq<Child>) returns (members: Option<Members>)
    ensures members == MembersOf(kind, define, children)
  {
    var data: Members := map[];
    for i := 0 to |children|
      invariant MembersOf(kind, define, children[..i]) == Some(data)
    {
      assert children[..i + 1][..i] == children[..i];
      var value := ChildValue(kind, define, children[i]);
      if value == None {
        BadChild(kind, define, children, i);
        return None;
      }
      data := data[value.value.0 := value.value.1];
    }
    assert children[..|children|] == children;
    members := Some(data);
  }

  // ---- whole messages ----

  predicate ValidHeader(kind: Kind, x: Element) {
    && x.name.Some? && x.state.Some? && StateOf(x.state.value).Some?
    && (kind != LightKind ==> x.perm.Some? && x.perm.value in ["ro", "wo", "rw"])
    && (kind == SwitchKind ==> x.rule.Some? && x.rule.value in ["OneOfMany", "AtMostOne", "AnyOfMany"])
  }

  function DefTimeout(kind: Kind, x: Element): Option<real> {
    if kind == LightKind then None
    else if Given(x.timeout) && Text.PyFloat(x.timeout.value).Some? then Text.PyFloat(x.timeout.value)
    else Some(0.0)
  }

  function DefinitionOf(kind: Kind, x: Element): (r: Option<Definition>)
    ensures r.Some? ==> x.name.Some? && r.value.kind == kind
  {
    var members := MembersOf(kind, true, x.children);
    if ValidHeader(kind, x) && members.Some? && members.value != map[] then
      Some(Definition(kind, StateOf(x.state.value).value, DefTimeout(kind, x), members.value))
    else None
  }

  method ReadDefinition(kind: Kind, x: Element) returns (d: Option<Definition>)
    ensures d == DefinitionOf(kind, x)
  {
    if !ValidHeader(kind, x) {
      return None;
    }
    var members := ReadMembers(kind, true, x.children);
    if members == None || members.value == map[] {
      return None;
    }
    d := Some(Definition(kind, StateOf(x.state.value).value, DefTimeout(kind, x), members.value));
  }

  /** What a set message carries; that its vector exists and is enabled is the device's to check. */
  function UpdateOf(kind: Kind, x: Element): (r: Option<Update>)
    ensures r.Some? ==> x.name.Some?
  {
    var members := MembersOf(kind, false, x.children);
    if x.name.Some? && members.Some? then
      Some(Update(if x.state.Some? then StateOf(x.state.value) else None,
                  if kind != LightKind && x.timeout.Some? then Text.PyFloat(x.timeout.value) else None,
                  members.value))
    else None
  }

  method ReadUpdate(kind: Kind, x: Element) returns (u: Option<Update>)
    ensures u == UpdateOf(kind, x)
  {
    if x.name == None {
      return None;
    }
    var members := ReadMembers(kind, false, x.children);
    if members == None {
      return None;
    }
    u := Some(Update(if x.state.Some? then StateOf(x.state.value) else None,
                     if kind != LightKind && x.timeout.Some? then Text.PyFloat(x.timeout.value) else None,
                     members.value));
  }

  /** Number members are parsed when the member object is made, after the message was read. */
  predicate AllNumbers(d: Definition) {
    d.kind == NumberKind ==> forall k :: k in d.members ==> IsNumber(d.members[k])
  }
}
