/** Basic values shared by the translation engine: C# byte counters, MIDI note
    numbers, key codes, the decoded input events, the emitted key actions and
    the configuration record. */
module MidiTypes {

  /** An unsigned 8-bit value: the C# `byte` of the overlap counters and of `layoutMode`. */
  type Byte = x: int | 0 <= x < 256

  /** A MIDI note number; the 7-bit data byte of a note message. */
  type Note = n: int | 0 <= n < 128

  /** A Windows virtual-key code (the `VirtualKeyCode` enumeration is 16 bits wide). */
  type KeyCode = k: int | 0 <= k < 0x1_0000

  /** Logical slots 0..11 are musical keys; slot 12 is the pedal's synthetic key. */
  const NumSlots: nat := 12
  const PedalSlot: nat := 12
  const NumKeyCodes: nat := 13

  /** Minimum time, in milliseconds, between two accepted pedal triggers. */
  const DebounceMs: int := 50

  /** An input message as the MIDI decoder delivers it. `NoteOff` stands for every
      note message that is not a note-on; velocity is only displayed, so it is dropped. */
  datatype MidiEvent =
    | NoteOn(note: Note)
    | NoteOff(note: Note)
    | ControlChange(controller: int, value: int)
    | Other

  /** An action handed to the key-simulation collaborator. */
  datatype Action = Hold(key: KeyCode) | Release(key: KeyCode)

  /** The configuration snapshot read at start-up and immutable afterwards. */
  datatype Config = Config(
    layoutMode: Byte,
    pedalControllerIndex: int,
    keyboardCutPoint: int,
    triggerOnPush: bool,
    triggerOnRelease: bool,
    keyCodes: seq<KeyCode>)

  /** The engine indexes `keyCodes` with slots 0..12; codes beyond the
      thirteenth are never read. */
  predicate ValidConfig(cfg: Config) {
    |cfg.keyCodes| >= NumKeyCodes
  }

  /** No two logical slots share a key code. Codes beyond the thirteenth are
      never read, so they are not compared. */
  predicate DistinctKeys(keys: seq<KeyCode>) {
    forall i, j :: 0 <= i < j < |keys| && j < NumKeyCodes ==> keys[i] != keys[j]
  }

  /** The configuration written when no configuration file exists: split layout,
      pedal on controller 64 with cut point 64, both pedal edges, and the keys
      A S D F G H J K L ` ' / for the twelve slots and Space for the pedal. */
  function DefaultConfig(): (cfg: Config)
    ensures |cfg.keyCodes| == NumKeyCodes && DistinctKeys(cfg.keyCodes)
    ensures cfg.layoutMode != 1 && cfg.triggerOnPush && cfg.triggerOnRelease
  {
    Config(2, 64, 64, true, true,
           [0x41, 0x53, 0x44, 0x46, 0x47, 0x48, 0x4A, 0x4B, 0x4C, 0xC0, 0xDE, 0xBF, 0x20])
  }
}
