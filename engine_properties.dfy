/** Properties of the engine's state machine: what a tick emits, overlap
    counting, the partial reset, and pedal debouncing across events. */
module EngineProperties {
  import opened MidiTypes
  import opened Layout
  import opened ByteCounter
  import opened PedalTrigger
  import opened EngineSpec

  // ---------- the slot part of a tick ----------

  /** The rule of one loop iteration: the slot's key is held exactly when its
      counter is positive (and then nothing else is emitted), and released
      exactly when the counter is zero and differs from the shadow. */
  lemma SlotActionsRule(keys: seq<KeyCode>, c: seq<Byte>, o: seq<Byte>, i: nat)
    requires i < NumSlots == |c| == |o| && |keys| >= NumKeyCodes
    ensures Hold(keys[i]) in SlotActions(keys, c, o, i) <==> c[i] > 0
    ensures c[i] > 0 ==> SlotActions(keys, c, o, i) == [Hold(keys[i])]
    ensures Release(keys[i]) in SlotActions(keys, c, o, i) <==> c[i] == 0 && c[i] != o[i]
  {
  }

  /** Each slot contributes at most one action to a pass, so the pass has at
      most one action per slot; with distinct key codes no slot's key is both
      held and released in the same pass. */
  lemma {:induction false} SyncActionsAtMostOnePerSlot(keys: seq<KeyCode>, c: seq<Byte>, o: seq<Byte>, n: nat)
    requires n <= NumSlots == |c| == |o| && |keys| >= NumKeyCodes
    ensures forall i :: 0 <= i < n ==> |SlotActions(keys, c, o, i)| <= 1
    ensures |SyncActions(keys, c, o, n)| <= n
    ensures DistinctKeys(keys) ==>
      forall i :: 0 <= i < n ==>
        !(Hold(keys[i]) in SyncActions(keys, c, o, n) && Release(keys[i]) in SyncActions(keys, c, o, n))
  {
    if n > 0 {
      SyncActionsAtMostOnePerSlot(keys, c, o, n - 1);
    }
    if DistinctKeys(keys) {
      forall i | 0 <= i < n
        ensures !(Hold(keys[i]) in SyncActions(keys, c, o, n) && Release(keys[i]) in SyncActions(keys, c, o, n))
      {
        SyncActionsMembership(keys, c, o, n, i);
      }
    }
  }

  /** Whatever slot i contributes appears in the actions of every prefix that covers i. */
  lemma {:induction false} SyncActionsContainSlot(keys: seq<KeyCode>, c: seq<Byte>, o: seq<Byte>, n: nat, i: nat)
    requires n <= NumSlots == |c| == |o| && |keys| >= NumKeyCodes && i < n
    ensures forall a :: a in SlotActions(keys, c, o, i) ==> a in SyncActions(keys, c, o, n)
  {
    if i < n - 1 {
      SyncActionsContainSlot(keys, c, o, n - 1, i);
    }
  }

  /** With distinct key codes: slot i's key is held exactly when its counter is
      positive, and released exactly when the counter moved away from the
      shadow and is now zero. No action names the pedal's key. */
  lemma {:induction false} SyncActionsMembership(keys: seq<KeyCode>, c: seq<Byte>, o: seq<Byte>, n: nat, i: nat)
    requires n <= NumSlots == |c| == |o| && |keys| >= NumKeyCodes && DistinctKeys(keys)
    requires i < NumKeyCodes
    ensures Hold(keys[i]) in SyncActions(keys, c, o, n) <==> i < n && c[i] > 0
    ensures Release(keys[i]) in SyncActions(keys, c, o, n) <==> i < n && c[i] != o[i] && c[i] == 0
  {
    if n > 0 {
      SyncActionsMembership(keys, c, o, n - 1, i);
      var last := SlotActions(keys, c, o, n - 1);
      assert SyncActions(keys, c, o, n) == SyncActions(keys, c, o, n - 1) + last;
      if i != n - 1 {
        assert keys[i] != keys[n - 1];
        assert Hold(keys[i]) !in last && Release(keys[i]) !in last;
      }
    }
  }

  /** When the shadow already equals the counters nothing is released. */
  lemma {:induction false} SyncActionsInSyncOnlyHold(keys: seq<KeyCode>, c: seq<Byte>, n: nat)
    requires n <= NumSlots == |c| && |keys| >= NumKeyCodes
    ensures forall a :: a in SyncActions(keys, c, c, n) ==> a.Hold?
  {
    if n > 0 {
      SyncActionsInSyncOnlyHold(keys, c, n - 1);
      var last := SlotActions(keys, c, c, n - 1);
      assert last == if c[n - 1] > 0 then [Hold(keys[n - 1])] else [];
      assert SyncActions(keys, c, c, n) == SyncActions(keys, c, c, n - 1) + last;
    }
  }

  /** When every slot but j is idle on both sides, the pass emits only slot j's action. */
  lemma {:induction false} SyncActionsSingleSlot(keys: seq<KeyCode>, c: seq<Byte>, o: seq<Byte>, n: nat, j: nat)
    requires n <= NumSlots == |c| == |o| && |keys| >= NumKeyCodes && j < NumSlots
    requires forall i :: 0 <= i < NumSlots && i != j ==> c[i] == 0 && o[i] == 0
    ensures SyncActions(keys, c, o, n) == if j < n then SlotActions(keys, c, o, j) else []
  {
    if n > 0 {
      SyncActionsSingleSlot(keys, c, o, n - 1, j);
    }
  }

  // ---------- whole ticks ----------

  /** After a tick the shadow equals the counters and the latch is clear;
      the counters and the other pedal fields are untouched. */
  lemma TickSynchronizes(cfg: Config, s: State)
    requires ValidConfig(cfg) && ValidState(s)
    ensures var r := Tick(cfg, s).next;
      r.counters == s.counters && r.shadow == s.counters && !r.pedal.status
      && r.pedal.lastPedal == s.pedal.lastPedal
      && r.pedal.value == s.pedal.value && r.pedal.oldValue == s.pedal.oldValue
  {
  }

  /** The actions of a tick, slot by slot, when key codes are distinct; and the
      pedal pulse: if latched, the tick ends with Hold then Release of the
      pedal key, otherwise the pedal key is not touched. */
  lemma TickActionsCharacterized(cfg: Config, s: State)
    requires ValidConfig(cfg) && ValidState(s) && DistinctKeys(cfg.keyCodes)
    ensures var acts := Tick(cfg, s).actions;
      (forall i :: 0 <= i < NumSlots ==>
         (Hold(cfg.keyCodes[i]) in acts <==> s.counters[i] > 0)
         && (Release(cfg.keyCodes[i]) in acts <==> s.counters[i] != s.shadow[i] && s.counters[i] == 0))
      && (s.pedal.status ==>
            |acts| >= 2 && acts[|acts| - 2..] == [Hold(cfg.keyCodes[PedalSlot]), Release(cfg.keyCodes[PedalSlot])])
      && (!s.pedal.status ==>
            Hold(cfg.keyCodes[PedalSlot]) !in acts && Release(cfg.keyCodes[PedalSlot]) !in acts)
  {
    var keys := cfg.keyCodes;
    var acts := Tick(cfg, s).actions;
    var sync := SyncActions(keys, s.counters, s.shadow, NumSlots);
    assert acts == sync + PedalPulse(cfg, s.pedal.status);
    forall i | 0 <= i < NumSlots
      ensures (Hold(keys[i]) in acts <==> s.counters[i] > 0)
      ensures (Release(keys[i]) in acts <==> s.counters[i] != s.shadow[i] && s.counters[i] == 0)
    {
      SyncActionsMembership(keys, s.counters, s.shadow, NumSlots, i);
      assert keys[i] != keys[PedalSlot];
    }
    SyncActionsMembership(keys, s.counters, s.shadow, NumSlots, PedalSlot);
  }

  /** A second tick with no event in between releases nothing and fires no
      pedal pulse, but keeps holding every slot whose counter is positive;
      it leaves the state as the first tick left it. */
  lemma SecondTickOnlyHolds(cfg: Config, s: State)
    requires ValidConfig(cfg) && ValidState(s)
    ensures var t1 := Tick(cfg, s);
      var t2 := Tick(cfg, t1.next);
      t2.next == t1.next
      && (forall a :: a in t2.actions ==> a.Hold?)
      && (DistinctKeys(cfg.keyCodes) ==>
            forall i :: 0 <= i < NumSlots ==> (Hold(cfg.keyCodes[i]) in t2.actions <==> s.counters[i] > 0))
  {
    var t1 := Tick(cfg, s);
    assert t1.next.shadow == t1.next.counters == s.counters;
    SyncActionsInSyncOnlyHold(cfg.keyCodes, s.counters, NumSlots);
    if DistinctKeys(cfg.keyCodes) {
      TickActionsCharacterized(cfg, t1.next);
    }
  }

  // ---------- the reconnect reset ----------

  /** The reset zeroes the counters and keeps the shadow and all pedal fields;
      with distinct keys, the next tick releases exactly the slots whose
      shadow was non-zero and holds none. */
  lemma ResetThenTick(cfg: Config, s: State)
    requires ValidConfig(cfg) && ValidState(s)
    ensures var r := Reset(s);
      (forall i :: 0 <= i < NumSlots ==> r.counters[i] == 0)
      && r.shadow == s.shadow && r.pedal == s.pedal
    ensures DistinctKeys(cfg.keyCodes) ==>
      var acts := Tick(cfg, Reset(s)).actions;
      forall i :: 0 <= i < NumSlots ==>
        (Release(cfg.keyCodes[i]) in acts <==> s.shadow[i] != 0) && Hold(cfg.keyCodes[i]) !in acts
  {
    if DistinctKeys(cfg.keyCodes) {
      TickActionsCharacterized(cfg, Reset(s));
    }
  }

  // ---------- ingesting events ----------

  /** A note event changes only its own slot's counter, by one step modulo 256;
      the other counters, the shadow and the pedal state are unchanged. */
  lemma NoteTouchesOnlyItsSlot(cfg: Config, s: State, ev: MidiEvent, now: int)
    requires ValidState(s) && (ev.NoteOn? || ev.NoteOff?)
    ensures var slot := SlotOf(cfg, ev.note);
      var r := Ingest(cfg, s, ev, now);
      r.counters[slot] == (if ev.NoteOn? then Inc(s.counters[slot]) else Dec(s.counters[slot]))
      && (forall j :: 0 <= j < NumSlots && j != slot ==> r.counters[j] == s.counters[j])
      && r.shadow == s.shadow && r.pedal == s.pedal
  {
  }

  /** Control changes on other controllers, and events that are neither notes
      nor control changes, leave the whole state unchanged. */
  lemma OtherEventsIgnored(cfg: Config, s: State, ev: MidiEvent, now: int)
    requires ValidState(s)
    requires ev.Other? || (ev.ControlChange? && ev.controller != cfg.pedalControllerIndex)
    ensures Ingest(cfg, s, ev, now) == s
  {
  }

  /** A control change on the pedal controller leaves the counters and shadow
      alone, records the value as the previous one whether or not it
      triggered, and sets the latch exactly on an accepted trigger. */
  lemma PedalEventEffect(cfg: Config, s: State, v: int, now: int)
    requires ValidState(s)
    ensures var r := Ingest(cfg, s, ControlChange(cfg.pedalControllerIndex, v), now);
      r.counters == s.counters && r.shadow == s.shadow
      && r.pedal.oldValue == v && r.pedal.value == v
      && ((!s.pedal.status && r.pedal.status) <==>
            (Triggers(cfg.triggerOnPush, cfg.triggerOnRelease, s.pedal.oldValue, v)
             && !s.pedal.status && now - s.pedal.lastPedal > DebounceMs))
      && (if !s.pedal.status && r.pedal.status then r.pedal.lastPedal == now
          else r.pedal.status == s.pedal.status && r.pedal.lastPedal == s.pedal.lastPedal)
  {
  }

  /** Two notes on one slot: after both are pressed and the first is released
      the slot is still active; releasing the second restores the whole state. */
  lemma SharedSlotOverlap(cfg: Config, s: State, n1: Note, n2: Note, now: int)
    requires ValidState(s) && SlotOf(cfg, n1) == SlotOf(cfg, n2)
    requires s.counters[SlotOf(cfg, n1)] < 255
    ensures var slot := SlotOf(cfg, n1);
      var s1 := Ingest(cfg, s, NoteOn(n1), now);
      var s2 := Ingest(cfg, s1, NoteOn(n2), now);
      var s3 := Ingest(cfg, s2, NoteOff(n1), now);
      var s4 := Ingest(cfg, s3, NoteOff(n2), now);
      s3.counters[slot] == s.counters[slot] + 1 && s3.counters[slot] > 0 && s4 == s
  {
  }

  /** The same sequence from a counter of 255, which a stray note-off leaves
      behind: the first note-on wraps the counter to 0, so after releasing one
      of the two notes the slot is idle although the other is still down. */
  lemma SharedSlotOverlapFailsAt255(cfg: Config, s: State, n1: Note, n2: Note, now: int)
    requires ValidState(s) && SlotOf(cfg, n1) == SlotOf(cfg, n2)
    requires s.counters[SlotOf(cfg, n1)] == 255
    ensures var slot := SlotOf(cfg, n1);
      var s1 := Ingest(cfg, s, NoteOn(n1), now);
      var s2 := Ingest(cfg, s1, NoteOn(n2), now);
      var s3 := Ingest(cfg, s2, NoteOff(n1), now);
      s3.counters[slot] == 0
  {
  }

  /** Notes 60 and 61 under the split layout with cut point 64 share slot 0,
      which stays active until both have been released. */
  lemma SplitOverlapExample(s: State, now: int)
    requires ValidState(s) && s.counters[0] == 0
    ensures var cfg := DefaultConfig();
      var s1 := Ingest(cfg, s, NoteOn(60), now);
      var s2 := Ingest(cfg, s1, NoteOn(61), now);
      var s3 := Ingest(cfg, s2, NoteOff(60), now);
      var s4 := Ingest(cfg, s3, NoteOff(61), now);
      s3.counters[0] > 0 && s4.counters[0] == 0
  {
  }

  /** A note-off for an idle slot wraps its counter to 255, and the next tick
      holds the slot's key. The key then stays held until one note-on or 255
      further note-offs on that slot bring the counter back to 0. */
  lemma StrayNoteOffHoldsKey(cfg: Config, s: State, n: Note, now: int)
    requires ValidConfig(cfg) && ValidState(s) && s.counters[SlotOf(cfg, n)] == 0
    ensures var slot := SlotOf(cfg, n);
      var r := Ingest(cfg, s, NoteOff(n), now);
      r.counters[slot] == 255 && Hold(cfg.keyCodes[slot]) in Tick(cfg, r).actions
  {
    var slot := SlotOf(cfg, n);
    var r := Ingest(cfg, s, NoteOff(n), now);
    assert Hold(cfg.keyCodes[slot]) in SlotActions(cfg.keyCodes, r.counters, r.shadow, slot);
    SyncActionsContainSlot(cfg.keyCodes, r.counters, r.shadow, NumSlots, slot);
  }

  /** After a stray note-off has been synchronized, the slot's output is
      inverted: pressing a note of that slot brings its counter back to 0, and
      the next tick releases the key (and, with distinct keys, does not hold it). */
  lemma StrayNoteOffInvertsKey(cfg: Config, s: State, n: Note, t1: int, t2: int)
    requires ValidConfig(cfg) && ValidState(s) && s.counters[SlotOf(cfg, n)] == 0
    ensures var slot := SlotOf(cfg, n);
      var r := Tick(cfg, Ingest(cfg, s, NoteOff(n), t1)).next;
      var u := Ingest(cfg, r, NoteOn(n), t2);
      var acts := Tick(cfg, u).actions;
      u.counters[slot] == 0 && Release(cfg.keyCodes[slot]) in acts
      && (DistinctKeys(cfg.keyCodes) ==> Hold(cfg.keyCodes[slot]) !in acts)
  {
    var slot := SlotOf(cfg, n);
    var r := Tick(cfg, Ingest(cfg, s, NoteOff(n), t1)).next;
    var u := Ingest(cfg, r, NoteOn(n), t2);
    assert r.shadow[slot] == 255;
    assert Release(cfg.keyCodes[slot]) in SlotActions(cfg.keyCodes, u.counters, u.shadow, slot);
    SyncActionsContainSlot(cfg.keyCodes, u.counters, u.shadow, NumSlots, slot);
    if DistinctKeys(cfg.keyCodes) {
      TickActionsCharacterized(cfg, u);
    }
  }

  /** A tick of a state in which only slot j may be busy, with the latch
      clear, emits only slot j's action. */
  lemma TickSingleSlot(cfg: Config, s: State, j: nat)
    requires ValidConfig(cfg) && ValidState(s) && j < NumSlots && !s.pedal.status
    requires forall i :: 0 <= i < NumSlots && i != j ==> s.counters[i] == 0 && s.shadow[i] == 0
    ensures Tick(cfg, s).actions == SlotActions(cfg.keyCodes, s.counters, s.shadow, j)
  {
    SyncActionsSingleSlot(cfg.keyCodes, s.counters, s.shadow, NumSlots, j);
  }

  /** End to end from start-up: a note-on makes the next tick hold exactly its
      slot's key; after the note-off the next tick releases exactly that key;
      and a further tick emits nothing. */
  lemma NoteOnOffEndToEnd(cfg: Config, startTime: int, n: Note, t1: int, t2: int)
    requires ValidConfig(cfg)
    ensures var k := cfg.keyCodes[SlotOf(cfg, n)];
      var a := Tick(cfg, Ingest(cfg, Initial(startTime), NoteOn(n), t1));
      var b := Tick(cfg, Ingest(cfg, a.next, NoteOff(n), t2));
      var c := Tick(cfg, b.next);
      a.actions == [Hold(k)] && b.actions == [Release(k)] && c.actions == []
  {
    var slot := SlotOf(cfg, n);
    var s1 := Ingest(cfg, Initial(startTime), NoteOn(n), t1);
    assert s1.counters == Zeros()[slot := 1] && s1.shadow == Zeros() && !s1.pedal.status;
    TickSingleSlot(cfg, s1, slot);
    var a := Tick(cfg, s1);
    var s2 := Ingest(cfg, a.next, NoteOff(n), t2);
    assert s2.counters == Zeros() && s2.shadow == Zeros()[slot := 1] && !s2.pedal.status;
    TickSingleSlot(cfg, s2, slot);
    var b := Tick(cfg, s2);
    assert b.next.counters == Zeros() && b.next.shadow == Zeros() && !b.next.pedal.status;
    TickSingleSlot(cfg, b.next, slot);
  }

  /** Two pedal changes within 50 ms of each other yield one trigger, even
      when a tick has consumed and cleared the first one in between. */
  lemma DebounceCollapsesTriggers(cfg: Config, s: State, v1: int, v2: int, t1: int, t2: int)
    requires ValidConfig(cfg) && ValidState(s) && !s.pedal.status
    requires t1 <= t2 <= t1 + DebounceMs
    ensures var s1 := Ingest(cfg, s, ControlChange(cfg.pedalControllerIndex, v1), t1);
      var s2 := Ingest(cfg, Tick(cfg, s1).next, ControlChange(cfg.pedalControllerIndex, v2), t2);
      s1.pedal.status ==> !s2.pedal.status
  {
  }
}
