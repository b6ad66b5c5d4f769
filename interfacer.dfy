/** The engine as the program holds it: two byte arrays updated in place, the
    pedal fields, and the configuration read at start-up. */
module Interfacer {
  import opened MidiTypes
  import opened Layout
  import opened ByteCounter
  import opened PedalTrigger
  import opened EngineSpec

  class Engine {
    const cfg: Config
    const keyCounter: array<Byte>
    const oldKeyCounter: array<Byte>
    var pedalStatus: bool
    var lastPedal: int
    var pedalValue: int
    var oldPedalValue: int

    ghost predicate Valid()
      reads this
    {
      ValidConfig(cfg)
      && keyCounter.Length == NumSlots && oldKeyCounter.Length == NumSlots
      && keyCounter != oldKeyCounter
    }

    /** The engine's state as a value of the specification. */
    ghost function Snapshot(): (s: State)
      reads this, keyCounter, oldKeyCounter
    {
      State(keyCounter[..], oldKeyCounter[..], PedalState(pedalStatus, lastPedal, pedalValue, oldPedalValue))
    }

    /** Start-up: zeroed counters and shadows, latch clear, last trigger at `startTime`. */
    constructor (config: Config, startTime: int)
      requires ValidConfig(config)
      ensures Valid() && fresh(keyCounter) && fresh(oldKeyCounter)
      ensures cfg == config && Snapshot() == Initial(startTime)
    {
      cfg := config;
      keyCounter := new Byte[NumSlots](_ => 0);
      oldKeyCounter := new Byte[NumSlots](_ => 0);
      pedalStatus := false;
      lastPedal := startTime;
      pedalValue := 0;
      oldPedalValue := 0;
      new;
      assert keyCounter[..] == Zeros();
      assert oldKeyCounter[..] == Zeros();
    }

    /** The MIDI message handler, for one decoded event arriving at `now`. */
    method MessageReceived(ev: MidiEvent, now: int)
      requires Valid()
      modifies this, keyCounter
      ensures Valid()
      ensures Snapshot() == Ingest(cfg, old(Snapshot()), ev, now)
    {
      match ev
      case NoteOff(n) =>
        var slot := MapNote(cfg.layoutMode, cfg.keyboardCutPoint, n);
        keyCounter[slot] := Dec(keyCounter[slot]);
      case NoteOn(n) =>
        var slot := MapNote(cfg.layoutMode, cfg.keyboardCutPoint, n);
        keyCounter[slot] := Inc(keyCounter[slot]);
      case ControlChange(ctrl, v) =>
        if ctrl == cfg.pedalControllerIndex {
          pedalValue := v;
          if cfg.triggerOnRelease && cfg.triggerOnPush {
            if oldPedalValue != pedalValue {
              LatchPedal(now);
            }
          } else if cfg.triggerOnPush && !cfg.triggerOnRelease {
            if oldPedalValue < pedalValue {
              LatchPedal(now);
            }
          } else if !cfg.triggerOnPush && cfg.triggerOnRelease {
            if oldPedalValue > pedalValue {
              LatchPedal(now);
            }
          }
          oldPedalValue := pedalValue;
        }
      case Other =>
    }

    /** The latch block shared by the three trigger policies. */
    method LatchPedal(now: int)
      modifies this
      ensures pedalValue == old(pedalValue) && oldPedalValue == old(oldPedalValue)
      ensures if !old(pedalStatus) && now - old(lastPedal) > DebounceMs
              then pedalStatus && lastPedal == now
              else pedalStatus == old(pedalStatus) && lastPedal == old(lastPedal)
    {
      if !pedalStatus {
        if now - lastPedal > DebounceMs {
          pedalStatus := true;
          lastPedal := now;
        }
      }
    }

    /** One pass of the synchronizer loop; returns the actions it emits, in order. */
    method SyncTick() returns (actions: seq<Action>)
      requires Valid()
      modifies this, oldKeyCounter
      ensures Valid()
      ensures Step(Snapshot(), actions) == Tick(cfg, old(Snapshot()))
    {
      ghost var shadow := oldKeyCounter[..];
      actions := [];
      for i := 0 to NumSlots
        modifies oldKeyCounter
        invariant forall j :: 0 <= j < i ==> oldKeyCounter[j] == keyCounter[j]
        invariant forall j :: i <= j < NumSlots ==> oldKeyCounter[j] == shadow[j]
        invariant actions == SyncActions(cfg.keyCodes, keyCounter[..], shadow, i)
      {
        if keyCounter[i] > 0 {
          actions := actions + [Hold(cfg.keyCodes[i])];
        }
        if keyCounter[i] != oldKeyCounter[i] {
          if keyCounter[i] == 0 {
            actions := actions + [Release(cfg.keyCodes[i])];
          }
          oldKeyCounter[i] := keyCounter[i];
        }
      }
      if pedalStatus {
        actions := actions + [Hold(cfg.keyCodes[PedalSlot])];
        actions := actions + [Release(cfg.keyCodes[PedalSlot])];
        pedalStatus := false;
      }
      assert oldKeyCounter[..] == keyCounter[..];
    }

    /** The reset run after the input stream stops: zero every counter. */
    method ResetCounters()
      requires Valid()
      modifies keyCounter
      ensures Valid()
      ensures Snapshot() == Reset(old(Snapshot()))
    {
      for i := 0 to NumSlots
        invariant forall j :: 0 <= j < i ==> keyCounter[j] == 0
      {
        keyCounter[i] := 0;
      }
      assert keyCounter[..] == Zeros();
    }
  }
}
