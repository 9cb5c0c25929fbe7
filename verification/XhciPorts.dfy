/** How root hub ports are brought up, one at a time from reset to address, by the events of the controller
    (xHCI specification, section 4.3). */
module XhciPorts {
  const PORTS: nat := 256
  const MAX_SLOTS: nat := 8

  datatype Phase = NotConnected | WaitingAddressed | ResettingPort | EnablingSlot | AddressingDevice | InitializingDevice
                 | ConfiguringEndpoints | Configured

  datatype Error = Success | InvalidPhase | InvalidSlotID | UnknownSpeed

  /** A device: the port written in its input context, and the one in the context that the controller keeps. */
  datatype Device = Device(inputPort: nat, outputPort: nat)

  datatype Slot = Free | Used(device: Device)

  /** Commands on the command ring that are not completed yet, oldest first, with what they were issued for. */
  datatype Command = EnableSlotCommand(port: nat) | AddressDeviceCommand(port: nat, slot: nat) | ConfigureEndpointCommand(slot: nat)

  datatype State = State(phases: seq<Phase>, addressing: nat, slots: seq<Slot>, commands: seq<Command>)

  function Rank(p: Phase): nat {
    match p
    case NotConnected => 0
    case WaitingAddressed => 1
    case ResettingPort => 2
    case EnablingSlot => 3
    case AddressingDevice => 4
    case InitializingDevice => 5
    case ConfiguringEndpoints => 6
    case Configured => 7
  }

  predicate BeingAddressed(p: Phase) {
    p == ResettingPort || p == EnablingSlot || p == AddressingDevice
  }

  // ----- the invariant -----

  ghost predicate Shape(s: State) {
    |s.phases| == PORTS && s.addressing < PORTS && |s.slots| == MAX_SLOTS + 1 && s.phases[0] == NotConnected
  }

  /** The port being addressed is the one on record, and no other. */
  ghost predicate Exclusive(s: State) {
    Shape(s) && forall p :: 0 <= p < PORTS ==> (BeingAddressed(s.phases[p]) <==> p == s.addressing && p != 0)
  }

  /** An Enable Slot or Address Device command under way is the addressed port's, and there is one at most; the slot of
      an Address Device command is that port's. */
  ghost predicate Attributed(s: State) {
    && Shape(s)
    && (forall i | 0 <= i < |s.commands| && s.commands[i].EnableSlotCommand? ::
          s.commands[i].port == s.addressing != 0 && s.phases[s.addressing] == EnablingSlot)
    && (forall i | 0 <= i < |s.commands| && s.commands[i].AddressDeviceCommand? ::
          && s.commands[i].port == s.addressing != 0 && s.phases[s.addressing] == AddressingDevice
          && s.commands[i].slot <= MAX_SLOTS && s.slots[s.commands[i].slot].Used?
          && s.slots[s.commands[i].slot].device.inputPort == s.addressing)
    && (forall i, j | 0 <= i < |s.commands| && 0 <= j < |s.commands| && !s.commands[i].ConfigureEndpointCommand?
                      && !s.commands[j].ConfigureEndpointCommand? :: i == j)
  }

  /** While a port waits, another is being addressed, after which it is its turn. */
  ghost predicate NoneForgotten(s: State) {
    Shape(s) && ((exists p :: 0 <= p < PORTS && s.phases[p] == WaitingAddressed) ==> s.addressing != 0)
  }

  ghost predicate Valid(s: State) {
    Exclusive(s) && Attributed(s)
  }

  /** No port goes back to an earlier phase. */
  ghost predicate Forward(s: State, s': State) {
    |s.phases| == |s'.phases| && forall p :: 0 <= p < |s.phases| ==> Rank(s.phases[p]) <= Rank(s'.phases[p])
  }

  // ----- what the driver does -----

  /** Port p is connected and is to be reset, now or later. */
  function Reset(s: State, p: nat, connected: bool): (State, Error)
    requires |s.phases| == PORTS && p < PORTS
  {
    if !connected then (s, Success)
    else if s.addressing != 0 then (s.(phases := s.phases[p := WaitingAddressed]), Success)
    else if s.phases[p] != NotConnected && s.phases[p] != WaitingAddressed then (s, InvalidPhase)
    else (s.(phases := s.phases[p := ResettingPort], addressing := p), Success)
  }

  function Attach(s: State, p: nat, connected: bool): (State, Error)
    requires |s.phases| == PORTS && p < PORTS
  {
    if s.phases[p] == NotConnected then Reset(s, p, connected) else (s, Success)
  }

  function PortChanged(s: State, p: nat, connected: bool, enabled: bool, resetDone: bool): (State, Error)
    requires |s.phases| == PORTS && p < PORTS
  {
    if s.phases[p] == NotConnected then Reset(s, p, connected)
    else if s.phases[p] == ResettingPort then
      if enabled && resetDone
      then (s.(phases := s.phases[p := EnablingSlot], commands := s.commands + [EnableSlotCommand(p)]), Success)
      else (s, Success)
    else (s, InvalidPhase)
  }

  /** An Enable Slot command has completed with a slot: the port being addressed gets it. */
  function SlotEnabled(s: State, slot: nat): (State, Error)
    requires Shape(s)
  {
    var p := s.addressing;
    if s.phases[p] != EnablingSlot then (s, InvalidPhase)
    else if slot > MAX_SLOTS then (s, InvalidSlotID)
    else
      var device := Device(p, if s.slots[slot].Used? then s.slots[slot].device.outputPort else 0);
      (s.(slots := s.slots[slot := Used(device)], phases := s.phases[p := AddressingDevice],
          commands := s.commands + [AddressDeviceCommand(p, slot)]), Success)
  }

  function FirstWaiting(phases: seq<Phase>, i: nat): nat
    requires i <= |phases|
    decreases |phases| - i
  {
    if i == |phases| || phases[i] == WaitingAddressed then i else FirstWaiting(phases, i + 1)
  }

  /** An Address Device command has completed: the port is done with the part that excludes others, and the first port
      that waits is next. */
  function Addressed(s: State, slot: nat, connected: set<nat>): (State, Error)
    requires Shape(s)
  {
    if slot > MAX_SLOTS || s.slots[slot].Free? then (s, InvalidSlotID)
    else
      var p := s.slots[slot].device.outputPort;
      if p != s.addressing || s.phases[p] != AddressingDevice then (s, InvalidPhase)
      else
        var w := FirstWaiting(s.phases, 0);
        var s1 := s.(addressing := 0);
        var (s2, err) := if w < PORTS then Reset(s1, w, w in connected) else (s1, Success);
        if err != Success then (s2, err) else (s2.(phases := s2.phases[p := InitializingDevice]), Success)
  }

  /** A transfer event completes a device's initialization, or not yet; then its endpoints are configured. */
  function Transferred(s: State, slot: nat, initialized: bool, speedKnown: bool): (State, Error)
    requires Shape(s)
  {
    if slot > MAX_SLOTS || s.slots[slot].Free? then (s, InvalidSlotID)
    else
      var p := s.slots[slot].device.outputPort;
      if p < PORTS && initialized && s.phases[p] == InitializingDevice then
        if !speedKnown then (s, UnknownSpeed)
        else (s.(phases := s.phases[p := ConfiguringEndpoints], commands := s.commands + [ConfigureEndpointCommand(slot)]), Success)
      else (s, Success)
  }

  function EndpointsConfigured(s: State, slot: nat): (State, Error)
    requires Shape(s)
  {
    if slot > MAX_SLOTS || s.slots[slot].Free? then (s, InvalidSlotID)
    else
      var p := s.slots[slot].device.outputPort;
      if p >= PORTS || s.phases[p] != ConfiguringEndpoints then (s, InvalidPhase)
      else (s.(phases := s.phases[p := Configured]), Success)
  }

  // ----- events -----

  /** What the controller and its ports report. Commands complete in the order they were issued; a completed Address
      Device command has copied the input context to the device's context, if it was successful. */
  datatype Event =
    | Attached(port: nat, connected: bool)
    | StatusChange(port: nat, connected: bool, enabled: bool, resetDone: bool)
    | EnableSlotDone(slot: nat)
    | AddressDeviceDone(success: bool, connectedPorts: set<nat>)
    | ConfigureEndpointDone
    | Transfer(slot: nat, initialized: bool, speedKnown: bool)

  /** What a conforming controller reports: events of existing ports, completions of commands under way, new slots. */
  ghost predicate Conforms(s: State, e: Event) {
    Shape(s)
    && match e {
      case Attached(p, _) => 0 < p < PORTS
      case StatusChange(p, _, _, _) => 0 < p < PORTS
      case EnableSlotDone(slot) =>
        s.commands != [] && s.commands[0].EnableSlotCommand? && 0 < slot && (slot <= MAX_SLOTS ==> s.slots[slot].Free?)
      case AddressDeviceDone(_, _) => s.commands != [] && s.commands[0].AddressDeviceCommand?
      case ConfigureEndpointDone => s.commands != [] && s.commands[0].ConfigureEndpointCommand?
      case Transfer(_, _, _) => true
    }
  }

  function Completed(s: State): State
    requires s.commands != []
  {
    s.(commands := s.commands[1..])
  }

  /** The controller writes the device's context from its input context. */
  function ContextWritten(s: State, slot: nat): State
    requires slot < |s.slots| && s.slots[slot].Used?
  {
    var d := s.slots[slot].device;
    s.(slots := s.slots[slot := Used(d.(outputPort := d.inputPort))])
  }

  function AddressCompleted(s: State, success: bool): State
    requires Shape(s) && s.commands != [] && s.commands[0].AddressDeviceCommand?
  {
    var slot := s.commands[0].slot;
    if success && slot <= MAX_SLOTS && s.slots[slot].Used? then ContextWritten(Completed(s), slot) else Completed(s)
  }

  ghost function Handled(s: State, e: Event): (State, Error)
    requires Conforms(s, e)
  {
    match e
    case Attached(p, connected) => Attach(s, p, connected)
    case StatusChange(p, connected, enabled, resetDone) => PortChanged(s, p, connected, enabled, resetDone)
    case EnableSlotDone(slot) => SlotEnabled(Completed(s), slot)
    case AddressDeviceDone(success, connectedPorts) => Addressed(AddressCompleted(s, success), s.commands[0].slot, connectedPorts)
    case ConfigureEndpointDone => EndpointsConfigured(Completed(s), s.commands[0].slot)
    case Transfer(slot, initialized, speedKnown) => Transferred(s, slot, initialized, speedKnown)
  }

  // ----- every event keeps the invariant -----

  lemma {:induction false} FirstWaitingIs(phases: seq<Phase>, i: nat)
    requires i <= |phases|
    ensures var w := FirstWaiting(phases, i);
            && i <= w <= |phases| && (w < |phases| ==> phases[w] == WaitingAddressed)
            && forall p :: i <= p < w ==> phases[p] != WaitingAddressed
    decreases |phases| - i
  {
    if i < |phases| && phases[i] != WaitingAddressed {
      FirstWaitingIs(phases, i + 1);
    }
  }

  lemma ResetValid(s: State, p: nat, connected: bool)
    requires Valid(s) && 0 < p < PORTS && (s.phases[p] == NotConnected || (s.phases[p] == WaitingAddressed && s.addressing == 0))
    ensures Valid(Reset(s, p, connected).0) && Forward(s, Reset(s, p, connected).0)
    ensures NoneForgotten(s) ==> NoneForgotten(Reset(s, p, connected).0)
    ensures Reset(s, p, connected).1 == Success
  {
  }

  lemma PortChangedValid(s: State, p: nat, connected: bool, enabled: bool, resetDone: bool)
    requires Valid(s) && 0 < p < PORTS
    ensures Valid(PortChanged(s, p, connected, enabled, resetDone).0)
    ensures Forward(s, PortChanged(s, p, connected, enabled, resetDone).0)
    ensures NoneForgotten(s) ==> NoneForgotten(PortChanged(s, p, connected, enabled, resetDone).0)
  {
    if s.phases[p] == NotConnected {
      ResetValid(s, p, connected);
    }
  }

  lemma CompletedValid(s: State)
    requires Valid(s) && s.commands != []
    ensures Valid(Completed(s)) && Forward(s, Completed(s))
    ensures !s.commands[0].ConfigureEndpointCommand? ==>
              forall i | 0 <= i < |s.commands| - 1 :: Completed(s).commands[i].ConfigureEndpointCommand?
  {
    var s' := Completed(s);
    assert forall i :: 0 <= i < |s'.commands| ==> s'.commands[i] == s.commands[i + 1];
  }

  /** The slot goes to the port that asked for it. */
  lemma SlotEnabledValid(s: State, slot: nat)
    requires Valid(s) && s.commands != [] && s.commands[0].EnableSlotCommand? && (slot <= MAX_SLOTS ==> s.slots[slot].Free?)
    ensures var r := SlotEnabled(Completed(s), slot);
            && Valid(r.0) && Forward(s, r.0) && (NoneForgotten(s) ==> NoneForgotten(r.0))
            && (slot <= MAX_SLOTS ==> r.1 == Success && r.0.slots[slot] == Used(Device(s.commands[0].port, 0)))
            && (slot > MAX_SLOTS ==> r.1 == InvalidSlotID && r.0 == Completed(s))
  {
    CompletedValid(s);
  }

  /** The port that was addressed moves on, and the first that waits and is connected takes its place. If it succeeds, ports
      that wait are left without one being addressed exactly if that first one is no longer connected. */
  lemma AddressedValid(s: State, slot: nat, connected: set<nat>)
    requires Valid(s) && (forall i | 0 <= i < |s.commands| :: s.commands[i].ConfigureEndpointCommand?)
    ensures var (r, err) := Addressed(s, slot, connected);
            && Valid(r) && Forward(s, r) && (err != Success ==> r == s)
            && (err == Success ==> (NoneForgotten(r) <==> FirstWaiting(s.phases, 0) == PORTS || FirstWaiting(s.phases, 0) in connected))
  {
    var w := FirstWaiting(s.phases, 0);
    FirstWaitingIs(s.phases, 0);
    var (r, err) := Addressed(s, slot, connected);
    if err == Success {
      var p := s.slots[slot].device.outputPort;
      if w < PORTS && w !in connected {
        assert r.phases[w] == WaitingAddressed;
      }
    }
  }

  lemma AddressCompletedValid(s: State, success: bool)
    requires Valid(s) && s.commands != [] && s.commands[0].AddressDeviceCommand?
    ensures Valid(AddressCompleted(s, success)) && Forward(s, AddressCompleted(s, success))
    ensures AddressCompleted(s, success).phases == s.phases && AddressCompleted(s, success).addressing == s.addressing
    ensures forall i | 0 <= i < |AddressCompleted(s, success).commands| ::
              AddressCompleted(s, success).commands[i].ConfigureEndpointCommand?
    ensures success ==> Addressed(AddressCompleted(s, success), s.commands[0].slot, {}).1 == Success
  {
    CompletedValid(s);
    var c := s.commands[0];
    assert c.slot <= MAX_SLOTS && s.slots[c.slot].Used? && s.slots[c.slot].device.inputPort == s.addressing;
    if success {
      FirstWaitingIs(s.phases, 0);
    }
  }

  lemma TransferredValid(s: State, slot: nat, initialized: bool, speedKnown: bool)
    requires Valid(s)
    ensures var r := Transferred(s, slot, initialized, speedKnown).0;
            Valid(r) && Forward(s, r) && (NoneForgotten(s) ==> NoneForgotten(r))
  {
  }

  lemma EndpointsConfiguredValid(s: State, slot: nat)
    requires Valid(s)
    ensures var r := EndpointsConfigured(s, slot).0; Valid(r) && Forward(s, r) && (NoneForgotten(s) ==> NoneForgotten(r))
  {
  }

  /** The ports that a completed Address Device command finds waiting are still connected, or none waits. */
  ghost predicate StillConnected(s: State, e: Event)
    requires Shape(s)
  {
    e.AddressDeviceDone? ==> FirstWaiting(s.phases, 0) == PORTS || FirstWaiting(s.phases, 0) in e.connectedPorts
  }

  lemma ForwardAcross(s: State, r: State, q: State)
    requires Forward(s, r) && Forward(r, q)
    ensures Forward(s, q)
  {
  }

  lemma SamePhases(s: State, r: State)
    requires Shape(s) && r.phases == s.phases && r.addressing == s.addressing && |r.slots| == |s.slots|
    ensures NoneForgotten(s) <==> NoneForgotten(r)
  {
  }

  /** Whatever a conforming controller reports, one port at most is between reset and address, and no phase goes back. */
  lemma HandledValid(s: State, e: Event)
    requires Valid(s) && Conforms(s, e)
    ensures Valid(Handled(s, e).0) && Forward(s, Handled(s, e).0)
    ensures NoneForgotten(s) && StillConnected(s, e) ==> NoneForgotten(Handled(s, e).0)
  {
    hide Exclusive, Attributed, Forward;
    match e
    case Attached(p, connected) =>
      if s.phases[p] == NotConnected { ResetValid(s, p, connected); } else { ForwardSelf(s); }
    case StatusChange(p, connected, enabled, resetDone) => PortChangedValid(s, p, connected, enabled, resetDone);
    case EnableSlotDone(slot) => SlotEnabledValid(s, slot);
    case AddressDeviceDone(success, ports) => AddressDoneValid(s, success, ports);
    case ConfigureEndpointDone =>
      CompletedValid(s);
      SamePhases(s, Completed(s));
      EndpointsConfiguredValid(Completed(s), s.commands[0].slot);
      ForwardAcross(s, Completed(s), Handled(s, e).0);
    case Transfer(slot, initialized, speedKnown) => TransferredValid(s, slot, initialized, speedKnown);
  }

  /** After a device was addressed no port is forgotten exactly if none waits or the first that waits is connected; a
      failure changes nothing for the ports. */
  lemma AddressDoneValid(s: State, success: bool, ports: set<nat>)
    requires Valid(s) && Conforms(s, AddressDeviceDone(success, ports))
    ensures var e := AddressDeviceDone(success, ports);
            var (r, err) := Handled(s, e);
            && Valid(r) && Forward(s, r)
            && (err == Success ==> (NoneForgotten(r) <==> StillConnected(s, e)))
            && (err != Success ==> (NoneForgotten(r) <==> NoneForgotten(s)))
  {
    hide Exclusive, Attributed, Forward;
    var s1, slot := AddressCompleted(s, success), s.commands[0].slot;
    AddressCompletedValid(s, success);
    SamePhases(s, s1);
    AddressedValid(s1, slot, ports);
    ForwardAcross(s, s1, Addressed(s1, slot, ports).0);
  }

  lemma ForwardSelf(s: State)
    ensures Forward(s, s)
  {
  }

  /** Events one after the other, each from a conforming controller. */
  ghost predicate Run(s: State, events: seq<Event>, s': State)
    decreases |events|
  {
    if events == [] then s' == s else Conforms(s, events[0]) && Run(Handled(s, events[0]).0, events[1..], s')
  }

  /** In the course of a run the first port that waits is still connected whenever its turn comes. */
  ghost predicate KeepsPorts(s: State, events: seq<Event>, s': State)
    requires Run(s, events, s')
    decreases |events|
  {
    events != [] ==> StillConnected(s, events[0]) && KeepsPorts(Handled(s, events[0]).0, events[1..], s')
  }

  /** In every reachable state one port at most is between reset and address, the one on record, and no phase goes back.
      No port waits in vain while ports that wait stay connected. */
  lemma {:induction false} RunValid(s: State, events: seq<Event>, s': State)
    requires Valid(s) && Run(s, events, s')
    ensures Valid(s') && Forward(s, s')
    ensures NoneForgotten(s) && KeepsPorts(s, events, s') ==> NoneForgotten(s')
    decreases |events|
  {
    hide Valid, NoneForgotten, Forward, Handled, Conforms, StillConnected;
    if events == [] {
      ForwardSelf(s);
    } else {
      HandledValid(s, events[0]);
      RunValid(Handled(s, events[0]).0, events[1..], s');
      ForwardAcross(s, Handled(s, events[0]).0, s');
    }
  }

  ghost function Initial(): State {
    State(seq(PORTS, i => NotConnected), 0, seq(MAX_SLOTS + 1, i => Free), [])
  }

  lemma InitialValid()
    ensures Valid(Initial()) && NoneForgotten(Initial())
  {
  }

  /** The slot that a completed Enable Slot command brings is recorded for the port that issued it. */
  lemma SlotOfPort(s: State, slot: nat)
    requires Valid(s) && Conforms(s, EnableSlotDone(slot)) && slot <= MAX_SLOTS
    ensures s.commands[0].port == s.addressing
    ensures Handled(s, EnableSlotDone(slot)).0.slots[slot] == Used(Device(s.commands[0].port, 0))
    ensures Handled(s, EnableSlotDone(slot)).0.phases[s.commands[0].port] == AddressingDevice
  {
    SlotEnabledValid(s, slot);
  }

  lemma RunStep(s: State, e: Event, rest: seq<Event>, s': State)
    requires Conforms(s, e) && Run(Handled(s, e).0, rest, s')
    ensures Run(s, [e] + rest, s')
  {
    assert ([e] + rest)[1..] == rest;
  }

  lemma FirstTwo(s0: State) returns (s1: State, s2: State)
    requires s0 == Initial() && Valid(s0)
    ensures Conforms(s0, Attached(3, true)) && s1 == Handled(s0, Attached(3, true)).0
    ensures Conforms(s1, Attached(1, true)) && s2 == Handled(s1, Attached(1, true)).0 && Valid(s2)
    ensures s2.addressing == 3 && s2.phases[1] == WaitingAddressed && s2.phases[2] == NotConnected && s2.phases[3] == ResettingPort
    ensures s2.commands == [] && s2.slots[1].Free?
  {
    HandledValid(s0, Attached(3, true));
    s1 := Handled(s0, Attached(3, true)).0;
    HandledValid(s1, Attached(1, true));
    s2 := Handled(s1, Attached(1, true)).0;
  }

  lemma NextTwo(s2: State) returns (s3: State, s4: State)
    requires Valid(s2) && s2.addressing == 3 && s2.phases[1] == WaitingAddressed && s2.phases[2] == NotConnected
    requires s2.phases[3] == ResettingPort && s2.commands == [] && s2.slots[1].Free?
    ensures Conforms(s2, Attached(2, true)) && s3 == Handled(s2, Attached(2, true)).0
    ensures Conforms(s3, StatusChange(3, true, true, true)) && s4 == Handled(s3, StatusChange(3, true, true, true)).0 && Valid(s4)
    ensures s4.addressing == 3 && s4.phases[1] == s4.phases[2] == WaitingAddressed && s4.phases[3] == EnablingSlot
    ensures s4.commands == [EnableSlotCommand(3)] && s4.slots[1].Free?
  {
    HandledValid(s2, Attached(2, true));
    s3 := Handled(s2, Attached(2, true)).0;
    HandledValid(s3, StatusChange(3, true, true, true));
    s4 := Handled(s3, StatusChange(3, true, true, true)).0;
  }

  lemma LastOne(s4: State) returns (s: State)
    requires Valid(s4) && s4.addressing == 3 && s4.phases[1] == s4.phases[2] == WaitingAddressed && s4.phases[3] == EnablingSlot
    requires s4.commands == [EnableSlotCommand(3)] && s4.slots[1].Free?
    ensures Conforms(s4, EnableSlotDone(1)) && s == Handled(s4, EnableSlotDone(1)).0 && Valid(s)
    ensures s.addressing == 3 && s.phases[1] == s.phases[2] == WaitingAddressed && s.commands == [AddressDeviceCommand(3, 1)]
  {
    HandledValid(s4, EnableSlotDone(1));
    s := Handled(s4, EnableSlotDone(1)).0;
  }

  lemma CompletedOne(s: State)
    requires Valid(s) && s.addressing == 3 && s.phases[1] == s.phases[2] == WaitingAddressed && s.commands == [AddressDeviceCommand(3, 1)]
    ensures Handled(s, AddressDeviceDone(true, {2, 3})).1 == Success
  {
    FirstWaitingIs(s.phases, 0);
    AddressCompletedValid(s, true);
  }

  /** Three ports are attached; the first of them is being addressed, the others wait. */
  lemma ThreeAttached() returns (s: State)
    ensures Valid(s) && s.phases[1] == s.phases[2] == WaitingAddressed && s.commands == [AddressDeviceCommand(3, 1)]
    ensures Handled(s, AddressDeviceDone(true, {2, 3})).1 == Success
    ensures forall rest, s' :: Run(s, rest, s') ==>
              Run(Initial(), [Attached(3, true)] + ([Attached(1, true)] + ([Attached(2, true)] +
                             ([StatusChange(3, true, true, true)] + ([EnableSlotDone(1)] + rest)))), s')
  {
    var s0 := Initial();
    var e0, e1, e2, e3, e4 := Attached(3, true), Attached(1, true), Attached(2, true), StatusChange(3, true, true, true), EnableSlotDone(1);
    hide *;
    InitialValid();
    var s1, s2 := FirstTwo(s0);
    var s3, s4 := NextTwo(s2);
    s := LastOne(s4);
    CompletedOne(s);
    forall rest, s' | Run(s, rest, s')
      ensures Run(s0, [e0] + ([e1] + ([e2] + ([e3] + ([e4] + rest)))), s')
    {
      RunStep(s4, e4, rest, s');
      RunStep(s3, e3, [e4] + rest, s');
      RunStep(s2, e2, [e3] + ([e4] + rest), s');
      RunStep(s1, e1, [e2] + ([e3] + ([e4] + rest)), s');
      RunStep(s0, e0, [e1] + ([e2] + ([e3] + ([e4] + rest))), s');
    }
  }

  /** Where the driver leaves a port waiting: the first port that waits is gone when its turn comes, the next one is not
      looked at, and nothing is being addressed any more. */
  lemma ForgottenPort() returns (events: seq<Event>, s': State)
    ensures Run(Initial(), events, s') && |events| == 6 && events[5] == AddressDeviceDone(true, {2, 3})
    ensures Valid(s') && s'.phases[2] == WaitingAddressed && s'.addressing == 0 && !NoneForgotten(s')
  {
    var s := ThreeAttached();
    var e := AddressDeviceDone(true, {2, 3});
    s' := Handled(s, e).0;
    FirstWaitingIs(s.phases, 0);
    AddressDoneValid(s, true, {2, 3});
    RunStep(s, e, [], s');
    events := [Attached(3, true)] + ([Attached(1, true)] + ([Attached(2, true)] +
                             ([StatusChange(3, true, true, true)] + ([EnableSlotDone(1)] + ([e] + [])))));
  }
}
