/** The pedal edge detector: the trigger policy over consecutive controller
    values, the 50 ms debounce and the latch that the synchronizer clears. */
module PedalTrigger {
  import opened MidiTypes

  /** `status` is the latch (`pedalStatus`), `lastPedal` the time in ms of the
      last accepted trigger, `value` and `oldValue` the current and previous
      controller values (`pedalValue`, `oldPedalValue`). */
  datatype PedalState = PedalState(status: bool, lastPedal: int, value: int, oldValue: int)

  /** The trigger policy chosen by the two flags; with neither flag set the
      pedal never triggers. */
  predicate Triggers(onPush: bool, onRelease: bool, oldValue: int, newValue: int)
    ensures Triggers(onPush, onRelease, oldValue, newValue) ==> oldValue != newValue
    ensures !onPush && !onRelease ==> !Triggers(onPush, onRelease, oldValue, newValue)
  {
    if onRelease && onPush then oldValue != newValue
    else if onPush && !onRelease then oldValue < newValue
    else if !onPush && onRelease then oldValue > newValue
    else false
  }

  /** A triggering value change that also passes the latch and the debounce window. */
  predicate Accepts(onPush: bool, onRelease: bool, p: PedalState, newValue: int, now: int)
    ensures Accepts(onPush, onRelease, p, newValue, now) ==>
      !p.status && p.lastPedal + DebounceMs < now && p.oldValue != newValue
  {
    Triggers(onPush, onRelease, p.oldValue, newValue) && !p.status && now - p.lastPedal > DebounceMs
  }

  /** One control-change event on the pedal controller, at time `now`. */
  function OnPedalValue(onPush: bool, onRelease: bool, p: PedalState, newValue: int, now: int): (r: PedalState)
    ensures r.value == newValue && r.oldValue == newValue
  {
    if Accepts(onPush, onRelease, p, newValue, now) then
      PedalState(true, now, newValue, newValue)
    else
      p.(value := newValue, oldValue := newValue)
  }

  /** Every policy fires only on an actual change of value. */
  lemma TriggerNeedsChange(onPush: bool, onRelease: bool, oldValue: int, newValue: int)
    requires Triggers(onPush, onRelease, oldValue, newValue)
    ensures oldValue != newValue
  {
  }

  /** The both-edges policy is exactly the union of the push-only and
      release-only policies, and those two are mirror images. */
  lemma BothEdgesIsUnion(oldValue: int, newValue: int)
    ensures Triggers(true, true, oldValue, newValue)
        <==> Triggers(true, false, oldValue, newValue) || Triggers(false, true, oldValue, newValue)
    ensures Triggers(true, false, oldValue, newValue) <==> Triggers(false, true, newValue, oldValue)
    ensures !Triggers(false, false, oldValue, newValue)
  {
  }

  /** The latch goes from clear to set exactly on an accepted trigger, and then
      records the time; otherwise latch and timestamp are left as they were. */
  lemma LatchSetIff(onPush: bool, onRelease: bool, p: PedalState, newValue: int, now: int)
    ensures var r := OnPedalValue(onPush, onRelease, p, newValue, now);
      ((!p.status && r.status) <==>
         (Triggers(onPush, onRelease, p.oldValue, newValue) && !p.status && now - p.lastPedal > DebounceMs))
      && (if !p.status && r.status then r.lastPedal == now
          else r.status == p.status && r.lastPedal == p.lastPedal)
  {
  }

  /** Within 50 ms of the last accepted trigger nothing new is accepted, even
      if the latch has been cleared in between. */
  lemma WithinDebounceNoTrigger(onPush: bool, onRelease: bool, p: PedalState, newValue: int, now: int)
    requires now - p.lastPedal <= DebounceMs
    ensures var r := OnPedalValue(onPush, onRelease, p, newValue, now);
      r.status == p.status && r.lastPedal == p.lastPedal
  {
  }
}
