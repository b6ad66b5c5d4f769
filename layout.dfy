/** The note-to-slot mapping under the two layouts. */
module Layout {
  import opened MidiTypes

  /** `layoutMode == 1` selects the chromatic layout; any other value the split
      white/black layout around `cutPoint`. Note numbers are non-negative, so
      Dafny's `%` and `/` agree with the truncating C# operators here. */
  function MapNote(layoutMode: Byte, cutPoint: int, note: Note): (slot: int)
    ensures 0 <= slot < NumSlots
  {
    if layoutMode == 1 then note % 12
    else if note < cutPoint then (note % 12) / 2
    else 6 + (note % 12) / 2
  }

  predicate IsChromatic(layoutMode: Byte) {
    layoutMode == 1
  }

  /** Chromatic layout: a note's slot is its pitch class, whatever the cut point. */
  lemma ChromaticSlot(layoutMode: Byte, cutPoint: int, note: Note)
    requires IsChromatic(layoutMode)
    ensures MapNote(layoutMode, cutPoint, note) == note % 12
  {
  }

  /** Chromatic layout: two notes share a slot exactly when they share a pitch class. */
  lemma ChromaticSameSlotIff(layoutMode: Byte, cutPoint: int, n1: Note, n2: Note)
    requires IsChromatic(layoutMode)
    ensures MapNote(layoutMode, cutPoint, n1) == MapNote(layoutMode, cutPoint, n2) <==> n1 % 12 == n2 % 12
  {
  }

  /** Chromatic layout: every slot is reached, in every complete octave. */
  lemma ChromaticOnto(layoutMode: Byte, cutPoint: int, slot: int, octave: nat)
    requires IsChromatic(layoutMode)
    requires 0 <= slot < NumSlots && 12 * octave + slot < 128
    ensures MapNote(layoutMode, cutPoint, 12 * octave + slot) == slot
  {
  }

  /** Split layout, below the cut point: the lower six slots. */
  lemma SplitLowerSlot(layoutMode: Byte, cutPoint: int, note: Note)
    requires !IsChromatic(layoutMode) && note < cutPoint
    ensures MapNote(layoutMode, cutPoint, note) == (note % 12) / 2
    ensures 0 <= MapNote(layoutMode, cutPoint, note) <= 5
  {
  }

  /** Split layout, at or above the cut point: the upper six slots. */
  lemma SplitUpperSlot(layoutMode: Byte, cutPoint: int, note: Note)
    requires !IsChromatic(layoutMode) && cutPoint <= note
    ensures MapNote(layoutMode, cutPoint, note) == 6 + (note % 12) / 2
    ensures 6 <= MapNote(layoutMode, cutPoint, note) <= 11
  {
  }

  /** Split layout: a note below the cut point never shares a slot with one at or above it. */
  lemma SplitSidesDisjoint(layoutMode: Byte, cutPoint: int, low: Note, high: Note)
    requires !IsChromatic(layoutMode) && low < cutPoint <= high
    ensures MapNote(layoutMode, cutPoint, low) != MapNote(layoutMode, cutPoint, high)
  {
  }

  /** Split layout: an even pitch class and the one above it share a slot when
      both notes lie on the same side of the cut point. */
  lemma SplitPairShares(layoutMode: Byte, cutPoint: int, note: Note)
    requires !IsChromatic(layoutMode) && note % 2 == 0 && note + 1 < 128
    requires note + 1 < cutPoint || cutPoint <= note
    ensures MapNote(layoutMode, cutPoint, note) == MapNote(layoutMode, cutPoint, note + 1)
  {
    var q, r := note / 12, note % 12;
    assert note == 12 * q + r && 0 <= r < 12;
    assert r % 2 == 0 && r + 1 < 12;
    assert (note + 1) % 12 == r + 1;
  }

  /** The worked examples for cut point 64: note 60 goes to slot 0, note 61
      shares it, and note 65 goes to slot 8. */
  lemma SplitExamples()
    ensures MapNote(2, 64, 60) == 0 && MapNote(2, 64, 61) == 0
    ensures MapNote(2, 64, 65) == 8
  {
  }
}
