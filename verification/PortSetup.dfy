/** The driver's handlers, which keep the phases of the ports and the slots of the devices up to date in place. */
module PortSetup {
  import opened XhciPorts
  import opened PortProgress

  class Driver {
    const phases: array<Phase>
    const slots: array<Slot>
    var addressing: nat
    /** The command ring's commands that are not completed. */
    var commands: seq<Command>

    ghost function View(): State
      reads this, phases, slots
    {
      State(phases[..], addressing, slots[..], commands)
    }

    ghost predicate WellFormed()
      reads this, phases, slots
    {
      Shape(View())
    }

    constructor ()
      ensures View() == Initial()
      ensures fresh(phases) && fresh(slots)
    {
      phases := new Phase[PORTS](i => NotConnected);
      slots := new Slot[MAX_SLOTS + 1](i => Free);
      addressing, commands := 0, [];
    }

    method ResetPort(p: nat, connected: bool) returns (err: Error)
      requires WellFormed() && 0 < p < PORTS
      modifies this, phases
      ensures (View(), err) == Reset(old(View()), p, connected)
    {
      if !connected {
        return Success;
      }
      if addressing != 0 {
        phases[p] := WaitingAddressed;
      } else {
        if phases[p] != NotConnected && phases[p] != WaitingAddressed {
          return InvalidPhase;
        }
        addressing := p;
        phases[p] := ResettingPort;
      }
      return Success;
    }

    method ConfigurePort(p: nat, connected: bool) returns (err: Error)
      requires WellFormed() && 0 < p < PORTS
      modifies this, phases
      ensures (View(), err) == Attach(old(View()), p, connected)
    {
      if phases[p] == NotConnected {
        err := ResetPort(p, connected);
      } else {
        err := Success;
      }
    }

    method EnableSlot(p: nat, enabled: bool, resetDone: bool) returns (err: Error)
      requires WellFormed() && 0 < p < PORTS && phases[p] == ResettingPort
      modifies this, phases
      ensures forall connected :: (View(), err) == PortChanged(old(View()), p, connected, enabled, resetDone)
    {
      if enabled && resetDone {
        phases[p] := EnablingSlot;
        commands := commands + [EnableSlotCommand(p)];
      }
      err := Success;
    }

    method OnPortStatusChange(p: nat, connected: bool, enabled: bool, resetDone: bool) returns (err: Error)
      requires WellFormed() && 0 < p < PORTS
      modifies this, phases
      ensures (View(), err) == PortChanged(old(View()), p, connected, enabled, resetDone)
    {
      match phases[p]
      case NotConnected => err := ResetPort(p, connected);
      case ResettingPort => err := EnableSlot(p, enabled, resetDone);
      case _ => err := InvalidPhase;
    }

    /** The device is allocated unless the slot already has one, and its input context names the port. */
    method AddressDevice(p: nat, slot: nat) returns (err: Error)
      requires WellFormed() && p == addressing && phases[p] == EnablingSlot
      modifies this, phases, slots
      ensures (View(), err) == SlotEnabled(old(View()), slot)
    {
      if slot > MAX_SLOTS {
        return InvalidSlotID;
      }
      if slots[slot].Free? {
        slots[slot] := Used(Device(p, 0));
      } else {
        slots[slot] := Used(slots[slot].device.(inputPort := p));
      }
      phases[p] := AddressingDevice;
      commands := commands + [AddressDeviceCommand(p, slot)];
      err := Success;
    }

    method OnSlotEnabled(slot: nat) returns (err: Error)
      requires WellFormed()
      modifies this, phases, slots
      ensures (View(), err) == SlotEnabled(old(View()), slot)
    {
      if phases[addressing] != EnablingSlot {
        return InvalidPhase;
      }
      err := AddressDevice(addressing, slot);
    }

    /** The first port that waits to be addressed is reset. */
    method ResetWaiting(connected: set<nat>) returns (err: Error)
      requires WellFormed() && addressing == 0
      modifies this, phases
      ensures WellFormed()
      ensures var w := FirstWaiting(old(phases[..]), 0);
              w <= PORTS && (View(), err) == if w < PORTS then Reset(old(View()), w, w in connected) else (old(View()), Success)
    {
      FirstWaitingIs(phases[..], 0);
      var i := 0;
      while i < phases.Length
        invariant i <= phases.Length && View() == old(View())
        invariant FirstWaiting(phases[..], 0) == FirstWaiting(phases[..], i)
      {
        if phases[i] == WaitingAddressed {
          err := ResetPort(i, i in connected);
          return;
        }
        i := i + 1;
      }
      err := Success;
    }

    method OnAddressed(slot: nat, connected: set<nat>) returns (err: Error)
      requires WellFormed()
      modifies this, phases
      ensures (View(), err) == Addressed(old(View()), slot, connected)
    {
      if slot > MAX_SLOTS || slots[slot].Free? {
        return InvalidSlotID;
      }
      var p := slots[slot].device.outputPort;
      if p != addressing {
        return InvalidPhase;
      }
      if phases[p] != AddressingDevice {
        return InvalidPhase;
      }
      addressing := 0;
      err := ResetWaiting(connected);
      if err != Success {
        return;
      }
      phases[p] := InitializingDevice;
    }

    method ConfigureEndpoints(p: nat, slot: nat, speedKnown: bool) returns (err: Error)
      requires WellFormed() && slot <= MAX_SLOTS && slots[slot].Used? && p == slots[slot].device.outputPort
      requires p < PORTS && phases[p] == InitializingDevice
      modifies this, phases
      ensures (View(), err) == Transferred(old(View()), slot, true, speedKnown)
    {
      if !speedKnown {
        return UnknownSpeed;
      }
      phases[p] := ConfiguringEndpoints;
      commands := commands + [ConfigureEndpointCommand(slot)];
      err := Success;
    }

    method OnTransfer(slot: nat, initialized: bool, speedKnown: bool) returns (err: Error)
      requires WellFormed()
      modifies this, phases
      ensures (View(), err) == Transferred(old(View()), slot, initialized, speedKnown)
    {
      if slot > MAX_SLOTS || slots[slot].Free? {
        return InvalidSlotID;
      }
      var p := slots[slot].device.outputPort;
      if p < PORTS && initialized && phases[p] == InitializingDevice {
        err := ConfigureEndpoints(p, slot, speedKnown);
      } else {
        err := Success;
      }
    }

    method CompleteConfiguration(slot: nat) returns (err: Error)
      requires WellFormed()
      modifies phases
      ensures (View(), err) == EndpointsConfigured(old(View()), slot)
    {
      if slot > MAX_SLOTS || slots[slot].Free? {
        return InvalidSlotID;
      }
      var p := slots[slot].device.outputPort;
      if p >= PORTS || phases[p] != ConfiguringEndpoints {
        return InvalidPhase;
      }
      phases[p] := Configured;
      err := Success;
    }

    /** The command ring's oldest command is done; the controller has written the context of a device it addressed. */
    method Complete(success: bool) returns (command: Command)
      requires WellFormed() && commands != []
      modifies this, slots
      ensures command == old(commands[0])
      ensures View() == if command.AddressDeviceCommand? then AddressCompleted(old(View()), success) else Completed(old(View()))
    {
      command := commands[0];
      commands := commands[1..];
      if command.AddressDeviceCommand? && success && command.slot <= MAX_SLOTS && slots[command.slot].Used? {
        var d := slots[command.slot].device;
        slots[command.slot] := Used(d.(outputPort := d.inputPort));
      }
    }

    /** The handlers do to the phases and slots what the transition says; so whatever events come, the ports stay as
        RunValid has it. */
    method Handle(e: Event) returns (err: Error)
      requires Conforms(View(), e) && XhciPorts.Valid(View())
      modifies this, phases, slots
      ensures (View(), err) == Handled(old(View()), e)
      ensures XhciPorts.Valid(View()) && Forward(old(View()), View())
      ensures old(NoneForgotten(View()) && StillConnected(View(), e)) ==> NoneForgotten(View())
      ensures Exact(old(View()), e)
    {
      HandledValid(View(), e);
      HandledExactly(View(), e);
      hide Exact;
      match e
      case Attached(p, connected) => err := ConfigurePort(p, connected);
      case StatusChange(p, connected, enabled, resetDone) => err := OnPortStatusChange(p, connected, enabled, resetDone);
      case EnableSlotDone(slot) =>
        var _ := Complete(true);
        err := OnSlotEnabled(slot);
      case AddressDeviceDone(success, ports) =>
        var c := Complete(success);
        err := OnAddressed(c.slot, ports);
      case ConfigureEndpointDone =>
        var c := Complete(true);
        err := CompleteConfiguration(c.slot);
      case Transfer(slot, initialized, speedKnown) => err := OnTransfer(slot, initialized, speedKnown);
    }
  }
}
