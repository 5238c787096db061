/**
 * The admin PIN screen: a four-slot pad that accepts digits only, and a
 * submission that the server validates.  A failed validation clears the pad.
 */
module PinManagement {
  import Strings
  import opened PinPad

  /** The validation request's fate: a response with its status, or no response at all. */
  datatype ValidationResponse = Status(code: int) | NoResponse

  /** What a submission did: nothing (empty PIN), or which PIN it sent and whether the server accepted it. */
  datatype SubmitOutcome = EmptyPin | Validated(pin: string) | Rejected(pin: string)

  /** The state of the screen: the slot buffer and the slot the screen last focused. */
  class PinEntry {
    var pins: array<string>
    /** The slot the component last focused itself; focus moved by the user's clicks is not tracked. */
    var focus: int

    /** Four slots, a focus among them, and only digits in the slots. */
    predicate Valid()
      reads this, pins
    {
      pins.Length == SlotCount && 0 <= focus < SlotCount &&
      forall i :: 0 <= i < pins.Length ==> Strings.IsDigits(pins[i])
    }

    /** On mount: four empty slots, the first one focused. */
    constructor ()
      ensures Valid() && fresh(pins)
      ensures pins[..] == EmptySlots() && focus == 0
    {
      var slots := new string[SlotCount](_ => "");
      assert slots[..] == EmptySlots();
      pins, focus := slots, 0;
    }

    /**
     * `handleChange`: a value with a non-digit is refused and changes
     * nothing; otherwise a copy of the buffer with `value` in slot `index`
     * replaces it and the focus follows the pad's rule.
     */
    method HandleChange(index: int, value: string) returns (accepted: bool)
      requires Valid() && 0 <= index < SlotCount
      modifies this`pins, this`focus
      ensures Valid()
      ensures accepted <==> Strings.IsDigits(value)
      ensures accepted ==>
        fresh(pins) && pins[..] == old(pins[..])[index := value] && focus == NextFocus(index, value, old(focus))
      ensures !accepted ==> pins == old(pins) && pins[..] == old(pins[..]) && focus == old(focus)
    {
      if !Strings.IsDigits(value) {
        return false;
      }
      var newPins := new string[SlotCount];
      forall i | 0 <= i < SlotCount {
        newPins[i] := pins[i];
      }
      newPins[index] := value;
      pins := newPins;
      focus := NextFocus(index, value, focus);
      accepted := true;
    }

    /**
     * `handleSubmit`: an empty PIN is refused before any request; a status
     * of 200 validates the PIN; any other status or no response reports the
     * PIN invalid, empties all four slots and focuses the first.
     */
    method HandleSubmit(response: ValidationResponse) returns (outcome: SubmitOutcome)
      requires Valid()
      modifies this`pins, this`focus
      ensures Valid()
      ensures outcome == EmptyPin <==> Pin(old(pins[..])) == ""
      ensures outcome == Validated(Pin(old(pins[..]))) <==> Pin(old(pins[..])) != "" && response == Status(200)
      ensures Pin(old(pins[..])) != "" && response != Status(200) ==>
        outcome == Rejected(Pin(old(pins[..]))) && fresh(pins) && pins[..] == EmptySlots() && focus == 0
      ensures !outcome.Rejected? ==> pins == old(pins) && pins[..] == old(pins[..]) && focus == old(focus)
    {
      var pin := Pin(pins[..]);
      if pin == "" {
        return EmptyPin;
      }
      if response == Status(200) {
        return Validated(pin);
      }
      var slots := new string[SlotCount](_ => "");
      assert slots[..] == EmptySlots();
      pins, focus := slots, 0;
      outcome := Rejected(pin);
    }
  }
}
