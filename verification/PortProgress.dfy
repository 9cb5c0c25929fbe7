/** How far ports get: which event moves which port to which phase, and what brings one from its connection to its
    configuration. */
module PortProgress {
  import opened XhciPorts

  // ----- when a port gets on -----

  /** The port is the next of those that wait. */
  ghost predicate NextToReset(s: State, p: nat, connected: set<nat>)
    requires Shape(s) && p < PORTS
  {
    p in connected && forall q :: 0 <= q < p ==> s.phases[q] != WaitingAddressed
  }

  /** The completed Address Device command has left the port being addressed in its device's context. */
  ghost predicate DeviceAddressed(s: State, success: bool)
    requires Shape(s) && s.commands != [] && s.commands[0].AddressDeviceCommand?
  {
    var slot := s.commands[0].slot;
    slot <= MAX_SLOTS && s.slots[slot].Used? && (success || s.slots[slot].device.outputPort == s.addressing)
  }

  ghost predicate OnSlot(s: State, slot: nat, p: nat)
    requires Shape(s)
  {
    slot <= MAX_SLOTS && s.slots[slot].Used? && s.slots[slot].device.outputPort == p
  }

  /** The event is the one that port p waits for in its phase. */
  ghost predicate Advances(s: State, e: Event, p: nat)
    requires Conforms(s, e) && p < PORTS
  {
    match s.phases[p]
    case NotConnected => (e.Attached? || e.StatusChange?) && e.port == p && e.connected
    case WaitingAddressed => e.AddressDeviceDone? && DeviceAddressed(s, e.success) && NextToReset(s, p, e.connectedPorts)
    case ResettingPort => e.StatusChange? && e.port == p && e.enabled && e.resetDone
    case EnablingSlot => e.EnableSlotDone? && e.slot <= MAX_SLOTS
    case AddressingDevice => e.AddressDeviceDone? && DeviceAddressed(s, e.success)
    case InitializingDevice => e.Transfer? && e.initialized && e.speedKnown && OnSlot(s, e.slot, p)
    case ConfiguringEndpoints => e.ConfigureEndpointDone? && OnSlot(s, s.commands[0].slot, p)
    case Configured => false
  }

  /** The phase that comes next; a port that is connected while another is being addressed has to wait. */
  ghost function Next(s: State, p: nat): Phase
    requires Shape(s) && p < PORTS
  {
    match s.phases[p]
    case NotConnected => if s.addressing == 0 then ResettingPort else WaitingAddressed
    case WaitingAddressed => ResettingPort
    case ResettingPort => EnablingSlot
    case EnablingSlot => AddressingDevice
    case AddressingDevice => InitializingDevice
    case InitializingDevice => ConfiguringEndpoints
    case _ => Configured
  }

  /** The command that a port in a new phase waits for. */
  ghost function Issued(s: State, e: Event, p: nat): seq<Command>
    requires Conforms(s, e) && p < PORTS
  {
    match s.phases[p]
    case ResettingPort => [EnableSlotCommand(p)]
    case EnablingSlot => if e.EnableSlotDone? then [AddressDeviceCommand(p, e.slot)] else []
    case InitializingDevice => if e.Transfer? then [ConfigureEndpointCommand(e.slot)] else []
    case _ => []
  }

  /** Commands under way once the event's own is done. */
  ghost function Remaining(s: State, e: Event): seq<Command>
    requires Conforms(s, e)
  {
    if e.EnableSlotDone? || e.AddressDeviceDone? || e.ConfigureEndpointDone? then s.commands[1..] else s.commands
  }

  /** Exactly the event that a port waits for moves it, to the next phase and with the next command; without one no command is
      issued. */
  ghost predicate Exact(s: State, e: Event)
    requires Conforms(s, e)
  {
    var (r, err) := Handled(s, e);
    && |r.phases| == PORTS
    && (forall p :: 0 <= p < PORTS ==> r.phases[p] == if Advances(s, e, p) then Next(s, p) else s.phases[p])
    && (forall p :: 0 <= p < PORTS && Advances(s, e, p) ==> err == Success)
    && (forall p :: 0 <= p < PORTS && Advances(s, e, p) && s.phases[p] != WaitingAddressed ==>
          r.commands == Remaining(s, e) + Issued(s, e, p))
    && ((forall p :: 0 <= p < PORTS ==> !Advances(s, e, p)) ==> r.commands == Remaining(s, e))
  }

  lemma HandledExactly(s: State, e: Event)
    requires Valid(s) && Conforms(s, e)
    ensures Exact(s, e)
  {
    hide Exact, Handled, Valid, Conforms;
    match e
    case Attached(_, _) => ExactConnected(s, e);
    case StatusChange(_, _, _, _) => ExactConnected(s, e);
    case EnableSlotDone(_) => ExactSlot(s, e);
    case AddressDeviceDone(_, _) => ExactAddress(s, e);
    case ConfigureEndpointDone => ExactConfigured(s, e);
    case Transfer(_, _, _) => ExactTransfer(s, e);
  }

  lemma ExactConnected(s: State, e: Event)
    requires Valid(s) && Conforms(s, e) && (e.Attached? || e.StatusChange?)
    ensures Exact(s, e)
  {
    assert !Advances(s, e, e.port) ==> Handled(s, e).0.commands == Remaining(s, e);
  }

  lemma ExactSlot(s: State, e: Event)
    requires Valid(s) && Conforms(s, e) && e.EnableSlotDone?
    ensures Exact(s, e)
  {
    assert s.phases[s.addressing] == EnablingSlot;
    assert !Advances(s, e, s.addressing) ==> Handled(s, e).0.commands == Remaining(s, e);
  }

  lemma ExactTransfer(s: State, e: Event)
    requires Valid(s) && Conforms(s, e) && e.Transfer?
    ensures Exact(s, e)
  {
    if e.slot <= MAX_SLOTS && s.slots[e.slot].Used? {
      var p := s.slots[e.slot].device.outputPort;
      assert p < PORTS && !Advances(s, e, p) ==> Handled(s, e).0.commands == Remaining(s, e);
    }
  }

  lemma ExactConfigured(s: State, e: Event)
    requires Valid(s) && Conforms(s, e) && e.ConfigureEndpointDone?
    ensures Exact(s, e)
  {
  }

  lemma ExactAddress(s: State, e: Event)
    requires Valid(s) && Conforms(s, e) && e.AddressDeviceDone?
    ensures Exact(s, e)
  {
    hide Valid, Handled, FirstWaiting;
    FirstWaitingIs(s.phases, 0);
    AddressMoves(s, e);
    OnlyAddressed(s);
    if DeviceAddressed(s, e.success) {
      assert Advances(s, e, s.addressing);
    }
  }

  lemma OnlyAddressed(s: State)
    requires Valid(s)
    ensures |s.phases| == PORTS && forall p :: 0 <= p < PORTS && s.phases[p] == AddressingDevice ==> p == s.addressing
  {
  }

  lemma AddressMoves(s: State, e: Event)
    requires Valid(s) && Conforms(s, e) && e.AddressDeviceDone?
    ensures s.addressing != 0 && s.phases[s.addressing] == AddressingDevice && Handled(s, e).0.commands == s.commands[1..]
    ensures var (r, err) := Handled(s, e);
            var w, next := FirstWaiting(s.phases, 0), s.phases[s.addressing := InitializingDevice];
            if DeviceAddressed(s, e.success)
            then err == Success && r.phases == if w < PORTS && w in e.connectedPorts then next[w := ResettingPort] else next
            else r.phases == s.phases
  {
    FirstWaitingIs(s.phases, 0);
    AddressCompletedValid(s, e.success);
  }

  // ----- runs -----

  /** How many events of a run port p waits for when they come. */
  ghost function Steps(s: State, events: seq<Event>, s': State, p: nat): nat
    requires Run(s, events, s') && p < PORTS
    decreases |events|
  {
    if events == [] then 0 else (if Advances(s, events[0], p) then 1 else 0) + Steps(Handled(s, events[0]).0, events[1..], s', p)
  }

  /** Whatever else happens in between, each event that a port waits for brings it a phase further, until it is configured; and
      nothing else does. */
  lemma {:induction false} RunProgress(s: State, events: seq<Event>, s': State, p: nat)
    requires Valid(s) && Run(s, events, s') && p < PORTS
    ensures |s.phases| == |s'.phases| == PORTS
    ensures Rank(s.phases[p]) + Steps(s, events, s', p) <= Rank(s'.phases[p])
    ensures Steps(s, events, s', p) == 0 ==> s'.phases[p] == s.phases[p]
    ensures Rank(s.phases[p]) + Steps(s, events, s', p) >= 7 ==> s'.phases[p] == Configured
    decreases |events|
  {
    hide Valid, Handled, Advances, Conforms;
    if events == [] {
      ShapeOf(s);
    } else {
      OneStep(s, events[0], p);
      RunProgress(Handled(s, events[0]).0, events[1..], s', p);
    }
  }

  lemma ShapeOf(s: State)
    requires Valid(s)
    ensures |s.phases| == PORTS
  {
  }

  lemma OneStep(s: State, e: Event, p: nat)
    requires Valid(s) && Conforms(s, e) && p < PORTS
    ensures Valid(Handled(s, e).0) && |s.phases| == |Handled(s, e).0.phases| == PORTS
    ensures var r := Handled(s, e).0; if Advances(s, e, p) then Rank(s.phases[p]) < Rank(r.phases[p]) else r.phases[p] == s.phases[p]
  {
    ShapeOf(s);
    HandledExactly(s, e);
    HandledValid(s, e);
    hide Handled, Valid;
  }

  // ----- a port that is connected is brought up -----

  /** Port p alone is connected, and has got to a phase with a command under way. */
  ghost predicate Alone(s: State, p: nat, phase: Phase, commands: seq<Command>) {
    && Valid(s) && 0 < p < PORTS && s.phases[p] == phase && s.commands == commands
    && forall q :: 0 <= q < PORTS && q != p ==> s.phases[q] == NotConnected
  }

  lemma AloneNext(s: State, p: nat, phase: Phase, commands: seq<Command>, e: Event)
    requires Alone(s, p, phase, commands) && Conforms(s, e) && Advances(s, e, p) && phase != WaitingAddressed
    requires phase == NotConnected ==> s.addressing == 0
    requires phase != NotConnected ==> !e.Attached? && (e.StatusChange? ==> e.port == p)
    ensures Alone(Handled(s, e).0, p, Next(s, p), Remaining(s, e) + Issued(s, e, p))
  {
    HandledExactly(s, e);
    HandledValid(s, e);
    hide Handled, Valid, Next, Issued, Remaining;
    forall q | 0 <= q < PORTS && q != p
      ensures !Advances(s, e, q)
    {
      assert s.phases[q] == NotConnected;
    }
  }

  lemma Connected(s0: State, p: nat) returns (s1: State)
    requires s0 == Initial() && 0 < p < PORTS
    ensures Conforms(s0, Attached(p, true)) && s1 == Handled(s0, Attached(p, true)).0
    ensures Alone(s1, p, ResettingPort, []) && s1.slots[1].Free?
  {
    InitialValid();
    s1 := Handled(s0, Attached(p, true)).0;
    HandledValid(s0, Attached(p, true));
  }

  lemma SlotAsked(s1: State, p: nat) returns (s2: State)
    requires Alone(s1, p, ResettingPort, []) && s1.slots[1].Free?
    ensures Conforms(s1, StatusChange(p, true, true, true)) && s2 == Handled(s1, StatusChange(p, true, true, true)).0
    ensures Alone(s2, p, EnablingSlot, [EnableSlotCommand(p)]) && s2.slots[1].Free?
  {
    s2 := Handled(s1, StatusChange(p, true, true, true)).0;
    AloneNext(s1, p, ResettingPort, [], StatusChange(p, true, true, true));
  }

  lemma SlotGiven(s2: State, p: nat) returns (s3: State)
    requires Alone(s2, p, EnablingSlot, [EnableSlotCommand(p)]) && s2.slots[1].Free?
    ensures Conforms(s2, EnableSlotDone(1)) && s3 == Handled(s2, EnableSlotDone(1)).0
    ensures Alone(s3, p, AddressingDevice, [AddressDeviceCommand(p, 1)])
  {
    s3 := Handled(s2, EnableSlotDone(1)).0;
    AloneNext(s2, p, EnablingSlot, [EnableSlotCommand(p)], EnableSlotDone(1));
  }

  lemma AddressGiven(s3: State, p: nat) returns (s4: State)
    requires Alone(s3, p, AddressingDevice, [AddressDeviceCommand(p, 1)])
    ensures Conforms(s3, AddressDeviceDone(true, {})) && s4 == Handled(s3, AddressDeviceDone(true, {})).0
    ensures Alone(s4, p, InitializingDevice, []) && OnSlot(s4, 1, p)
  {
    var e := AddressDeviceDone(true, {});
    s4 := Handled(s3, e).0;
    assert s3.slots[1].Used? && s3.slots[1].device.inputPort == s3.addressing == p by { FirstCommand(s3); }
    AloneNext(s3, p, AddressingDevice, [AddressDeviceCommand(p, 1)], e);
    ContextOf(s3, e);
  }

  lemma FirstCommand(s: State)
    requires Valid(s) && s.commands != [] && s.commands[0].AddressDeviceCommand?
    ensures var c := s.commands[0];
            c.port == s.addressing && c.slot <= MAX_SLOTS && s.slots[c.slot].Used? && s.slots[c.slot].device.inputPort == s.addressing
  {
  }

  lemma ContextOf(s: State, e: Event)
    requires Valid(s) && Conforms(s, e) && e.AddressDeviceDone? && e.success
    ensures var c := s.commands[0]; c.slot < |Handled(s, e).0.slots| && OnSlot(Handled(s, e).0.(phases := s.phases), c.slot, c.port)
  {
    FirstCommand(s);
    FirstWaitingIs(s.phases, 0);
  }

  lemma Initialized(s4: State, p: nat) returns (s5: State)
    requires Alone(s4, p, InitializingDevice, []) && OnSlot(s4, 1, p)
    ensures Conforms(s4, Transfer(1, true, true)) && s5 == Handled(s4, Transfer(1, true, true)).0
    ensures Alone(s5, p, ConfiguringEndpoints, [ConfigureEndpointCommand(1)]) && OnSlot(s5, 1, p)
  {
    s5 := Handled(s4, Transfer(1, true, true)).0;
    AloneNext(s4, p, InitializingDevice, [], Transfer(1, true, true));
  }

  lemma EndpointsDone(s5: State, p: nat) returns (s6: State)
    requires Alone(s5, p, ConfiguringEndpoints, [ConfigureEndpointCommand(1)]) && OnSlot(s5, 1, p)
    ensures Conforms(s5, ConfigureEndpointDone) && s6 == Handled(s5, ConfigureEndpointDone).0
    ensures Alone(s6, p, Configured, [])
  {
    s6 := Handled(s5, ConfigureEndpointDone).0;
    AloneNext(s5, p, ConfiguringEndpoints, [ConfigureEndpointCommand(1)], ConfigureEndpointDone);
  }

  /** From the initial state the six events of one port's connection, whichever it is, end with the port configured, no other
      port moved and no command left. */
  lemma BroughtUp(p: nat) returns (s': State)
    requires 0 < p < PORTS
    ensures Run(Initial(), [Attached(p, true)] + ([StatusChange(p, true, true, true)] + ([EnableSlotDone(1)] +
                           ([AddressDeviceDone(true, {})] + ([Transfer(1, true, true)] + ([ConfigureEndpointDone] + []))))), s')
    ensures Alone(s', p, Configured, [])
  {
    hide *;
    var s0 := Initial();
    var s1 := Connected(s0, p);
    var s2 := SlotAsked(s1, p);
    var s3 := SlotGiven(s2, p);
    var s4 := AddressGiven(s3, p);
    var s5 := Initialized(s4, p);
    s' := EndpointsDone(s5, p);
    RunEnd(s');
    RunStep(s5, ConfigureEndpointDone, [], s');
    RunStep(s4, Transfer(1, true, true), [ConfigureEndpointDone] + [], s');
    RunStep(s3, AddressDeviceDone(true, {}), [Transfer(1, true, true)] + ([ConfigureEndpointDone] + []), s');
    RunStep(s2, EnableSlotDone(1), [AddressDeviceDone(true, {})] + ([Transfer(1, true, true)] + ([ConfigureEndpointDone] + [])), s');
    RunStep(s1, StatusChange(p, true, true, true), [EnableSlotDone(1)] +
            ([AddressDeviceDone(true, {})] + ([Transfer(1, true, true)] + ([ConfigureEndpointDone] + []))), s');
    RunStep(s0, Attached(p, true), [StatusChange(p, true, true, true)] + ([EnableSlotDone(1)] +
            ([AddressDeviceDone(true, {})] + ([Transfer(1, true, true)] + ([ConfigureEndpointDone] + [])))), s');
  }

  lemma RunEnd(s: State)
    ensures Run(s, [], s)
  {
  }
}
