/** The translation engine as a state machine over values: ingesting one
    decoded MIDI event, one synchronizer tick, and the reconnect reset. The
    class in module Interfacer is proved to follow these functions. */
module EngineSpec {
  import opened MidiTypes
  import opened Layout
  import opened ByteCounter
  import opened PedalTrigger

  /** `counters` is `keyCounter`, `shadow` is `oldKeyCounter`. */
  datatype State = State(counters: seq<Byte>, shadow: seq<Byte>, pedal: PedalState)

  /** The result of one tick: the new state and the actions emitted, in order. */
  datatype Step = Step(next: State, actions: seq<Action>)

  predicate ValidState(s: State) {
    |s.counters| == NumSlots && |s.shadow| == NumSlots
  }

  function Zeros(): (z: seq<Byte>)
    ensures |z| == NumSlots && forall i :: 0 <= i < NumSlots ==> z[i] == 0
  {
    seq(NumSlots, _ => 0)
  }

  /** The state at start-up: all counters and shadows zero, latch clear, both
      pedal values zero, and the last-trigger time set to the start time. */
  function Initial(startTime: int): (s: State)
    ensures ValidState(s)
  {
    State(Zeros(), Zeros(), PedalState(false, startTime, 0, 0))
  }

  /** The slot a note maps to under the configured layout. */
  function SlotOf(cfg: Config, note: Note): (slot: int)
    ensures 0 <= slot < NumSlots
  {
    MapNote(cfg.layoutMode, cfg.keyboardCutPoint, note)
  }

  /** Ingest one event at time `now` (ms). Notes move their slot's counter;
      a control change on the pedal controller runs the edge detector; every
      other event leaves the state alone. */
  function Ingest(cfg: Config, s: State, ev: MidiEvent, now: int): (r: State)
    requires ValidState(s)
    ensures ValidState(r)
  {
    match ev
    case NoteOff(n) =>
      var slot := SlotOf(cfg, n);
      s.(counters := s.counters[slot := Dec(s.counters[slot])])
    case NoteOn(n) =>
      var slot := SlotOf(cfg, n);
      s.(counters := s.counters[slot := Inc(s.counters[slot])])
    case ControlChange(ctrl, v) =>
      if ctrl == cfg.pedalControllerIndex then
        s.(pedal := OnPedalValue(cfg.triggerOnPush, cfg.triggerOnRelease, s.pedal, v, now))
      else s
    case Other => s
  }

  /** What one slot contributes to a tick: Hold while its counter is positive
      (on every tick, not only on a change), Release when the counter differs
      from the shadow and is zero. */
  function SlotActions(keys: seq<KeyCode>, counters: seq<Byte>, shadow: seq<Byte>, i: nat): (acts: seq<Action>)
    requires i < NumSlots == |counters| == |shadow| && |keys| >= NumKeyCodes
    ensures |acts| <= 1
  {
    (if counters[i] > 0 then [Hold(keys[i])] else [])
    + (if counters[i] != shadow[i] && counters[i] == 0 then [Release(keys[i])] else [])
  }

  /** The actions of slots 0 .. n-1, in slot order. */
  function SyncActions(keys: seq<KeyCode>, counters: seq<Byte>, shadow: seq<Byte>, n: nat): (acts: seq<Action>)
    requires n <= NumSlots == |counters| == |shadow| && |keys| >= NumKeyCodes
    ensures |acts| <= n
  {
    if n == 0 then [] else SyncActions(keys, counters, shadow, n - 1) + SlotActions(keys, counters, shadow, n - 1)
  }

  /** The pedal pulse: Hold then Release of the pedal's key, when latched. */
  function PedalPulse(cfg: Config, latched: bool): (acts: seq<Action>)
    requires ValidConfig(cfg)
    ensures |acts| == (if latched then 2 else 0)
    ensures forall a :: a in acts ==> a.key == cfg.keyCodes[PedalSlot]
    ensures latched ==> acts[0].Hold? && acts[1].Release?
  {
    if latched then [Hold(cfg.keyCodes[PedalSlot]), Release(cfg.keyCodes[PedalSlot])] else []
  }

  /** One synchronizer tick: emit the slot actions, bring the shadow up to
      date, then pulse the pedal key if latched and clear the latch. */
  function Tick(cfg: Config, s: State): (r: Step)
    requires ValidConfig(cfg) && ValidState(s)
    ensures ValidState(r.next)
  {
    Step(s.(shadow := s.counters, pedal := s.pedal.(status := false)),
         SyncActions(cfg.keyCodes, s.counters, s.shadow, NumSlots) + PedalPulse(cfg, s.pedal.status))
  }

  /** The reconnect reset: zero the counters, and nothing else. */
  function Reset(s: State): (r: State)
    requires ValidState(s)
    ensures ValidState(r)
  {
    s.(counters := Zeros())
  }
}
