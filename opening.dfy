/**
 * The kiosk opening screen: a four-slot pad with no digit filter, a
 * submission that the server validates, and on success a stored PIN record
 * that expires seven days later.  The two clock readings the submission takes
 * are parameters; the stored record is reduced to its expiry time.
 */
module Opening {
  import opened Common
  import opened PinPad

  /** Seven days in milliseconds. */
  const PinValidityMs: int := 7 * 24 * 60 * 60 * 1000

  /** The validation request's fate: a response with its status, or no response at all. */
  datatype ValidationResponse = Status(code: int) | NoResponse

  /**
   * What a submission did: nothing (PIN too short); the PIN sent and refused;
   * the PIN sent, accepted and stored with its expiry; or accepted but found
   * expired at once, in which case the stored record is removed again.
   */
  datatype SubmitOutcome = TooShort | Rejected(pin: string) | Validated(pin: string, expiryTime: int) | Expired(pin: string)

  /** The expiry stored with a PIN validated at `storedAt`. */
  function ExpiryTime(storedAt: int): (e: int)
    ensures e - storedAt == 604_800_000
  {
    storedAt + PinValidityMs
  }

  /** The check right after storing: the record counts as expired iff more than seven days have passed. */
  predicate ExpiredAt(expiryTime: int, checkedAt: int) {
    checkedAt > expiryTime
  }

  /**
   * The record is found expired iff the check comes more than seven days
   * after it was stored; within seven days the removal never happens.
   */
  lemma ExpiredIffPastSevenDays(storedAt: int, checkedAt: int)
    ensures ExpiredAt(ExpiryTime(storedAt), checkedAt) <==> checkedAt - storedAt > 604_800_000
  {
  }

  /** The state of the screen: the slot buffer, the slot the screen last focused and the stored record's expiry, if any. */
  class PinEntry {
    var pins: array<string>
    /** The slot the component last focused itself; focus moved by the user's clicks is not tracked. */
    var focus: int
    var storedExpiry: Option<int>

    /** Four slots and a focus among them. */
    predicate Valid()
      reads this
    {
      pins.Length == SlotCount && 0 <= focus < SlotCount
    }

    /** On mount: four empty slots, the first one focused; the stored record is whatever was stored before. */
    constructor (stored: Option<int>)
      ensures Valid() && fresh(pins)
      ensures pins[..] == EmptySlots() && focus == 0 && storedExpiry == stored
    {
      var slots := new string[SlotCount](_ => "");
      assert slots[..] == EmptySlots();
      pins, focus, storedExpiry := slots, 0, stored;
    }

    /**
     * `handleChange`: any value is taken as it is; a copy of the buffer with
     * `value` in slot `index` replaces it and the focus follows the pad's rule.
     */
    method HandleChange(index: int, value: string)
      requires Valid() && 0 <= index < SlotCount
      modifies this`pins, this`focus
      ensures Valid() && fresh(pins)
      ensures pins[..] == old(pins[..])[index := value]
      ensures focus == NextFocus(index, value, old(focus))
    {
      var newPins := new string[SlotCount];
      forall i | 0 <= i < SlotCount {
        newPins[i] := pins[i];
      }
      newPins[index] := value;
      pins := newPins;
      focus := NextFocus(index, value, focus);
    }

    /**
     * `handleSubmit`: a PIN under four characters is refused before any
     * request.  Status 200 stores the record with the expiry seven days after
     * `storedAt`, then removes it again if `checkedAt` is past that expiry.
     * Any other status or no response reports the PIN invalid, empties all
     * four slots and focuses the first; the stored record is then untouched.
     */
    method HandleSubmit(response: ValidationResponse, storedAt: int, checkedAt: int) returns (outcome: SubmitOutcome)
      requires Valid()
      modifies this`pins, this`focus, this`storedExpiry
      ensures Valid()
      ensures outcome == TooShort <==> |Pin(old(pins[..]))| < SlotCount
      ensures outcome != TooShort && response == Status(200) ==>
        var expiry := ExpiryTime(storedAt);
        if ExpiredAt(expiry, checkedAt) then outcome == Expired(Pin(old(pins[..]))) && storedExpiry == None
        else outcome == Validated(Pin(old(pins[..])), expiry) && storedExpiry == Some(expiry)
      ensures outcome != TooShort && response != Status(200) ==>
        outcome == Rejected(Pin(old(pins[..]))) && fresh(pins) && pins[..] == EmptySlots() && focus == 0
      ensures !outcome.Rejected? ==> pins == old(pins) && pins[..] == old(pins[..]) && focus == old(focus)
      ensures !outcome.Validated? && !outcome.Expired? ==> storedExpiry == old(storedExpiry)
    {
      var pin := Pin(pins[..]);
      if |pin| < SlotCount {
        return TooShort;
      }
      if response == Status(200) {
        var expiry := ExpiryTime(storedAt);
        storedExpiry := Some(expiry);
        if ExpiredAt(expiry, checkedAt) {
          storedExpiry := None;
          return Expired(pin);
        }
        return Validated(pin, expiry);
      }
      var slots := new string[SlotCount](_ => "");
      assert slots[..] == EmptySlots();
      pins, focus := slots, 0;
      outcome := Rejected(pin);
    }
  }
}
