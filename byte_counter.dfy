/** Overlap counters are C# `byte`s updated with unchecked `++` and `--`. */
module ByteCounter {
  import opened MidiTypes

  /** `b++` on a byte: the low eight bits of `b + 1`. */
  function Inc(b: Byte): (r: Byte)
    ensures b < 255 ==> r == b + 1
    ensures b == 255 ==> r == 0
  {
    (b + 1) % 256
  }

  /** `b--` on a byte: the low eight bits of `b - 1` (Dafny's `%` is Euclidean). */
  function Dec(b: Byte): (r: Byte)
    ensures b > 0 ==> r == b - 1
    ensures b == 0 ==> r == 255
  {
    (b - 1) % 256
  }

  /** The source's `if (counter < 0) counter = 0` can never change a byte:
      a note-off on an idle counter leaves it at 255, not at 0. */
  lemma DecWrapsAtZero()
    ensures Dec(0) == 255
  {
  }

  /** Increment and decrement undo each other, wrap-around included. */
  lemma IncDecInverse(b: Byte)
    ensures Dec(Inc(b)) == b && Inc(Dec(b)) == b
  {
  }
}
