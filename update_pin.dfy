/**
 * The kiosk "Update PIN" form: an ordered chain of checks on the old and the
 * new PIN, where the first failing check is the one reported, and the key
 * filter that lets only digits through.
 */
module UpdatePin {
  import opened Common
  import Strings

  /** The reasons the form refuses a change, in the order they are checked. */
  datatype PinError = NotNumeric | OldPinMissing | NewPinMissing | WrongLength | SameAsOld

  const PinLength: nat := 4

  /**
   * The check chain of `handleChangePin`.  The digits check comes first, and
   * since the empty string consists only of digits it lets an empty new PIN
   * through to the later checks.
   */
  function CheckPinChange(oldPin: string, newPin: string): (r: Outcome<PinError>)
    ensures r == Pass <==>
      Strings.IsDigits(newPin) && oldPin != "" && |newPin| == PinLength && oldPin != newPin
    ensures r == Fail(NotNumeric) <==> !Strings.IsDigits(newPin)
    ensures r == Fail(OldPinMissing) <==> Strings.IsDigits(newPin) && oldPin == ""
    ensures r == Fail(NewPinMissing) <==> oldPin != "" && newPin == ""
    ensures r == Fail(WrongLength) <==>
      Strings.IsDigits(newPin) && oldPin != "" && newPin != "" && |newPin| != PinLength
    ensures r == Fail(SameAsOld) <==>
      Strings.IsDigits(newPin) && oldPin != "" && |newPin| == PinLength && oldPin == newPin
  {
    if !Strings.IsDigits(newPin) then Fail(NotNumeric)
    else if oldPin == "" then Fail(OldPinMissing)
    else if newPin == "" then Fail(NewPinMissing)
    else if |newPin| != PinLength then Fail(WrongLength)
    else if oldPin == newPin then Fail(SameAsOld)
    else Pass
  }

  /** An accepted new PIN is exactly four digits and differs from the old one, which is not empty. */
  lemma AcceptedPinIsFourDigits(oldPin: string, newPin: string)
    requires CheckPinChange(oldPin, newPin) == Pass
    ensures |newPin| == 4 && forall i :: 0 <= i < 4 ==> '0' <= newPin[i] <= '9'
    ensures oldPin != "" && oldPin != newPin
  {
  }

  /** `String.fromCharCode` reads its argument modulo 2^16, as a UTF-16 code unit. */
  function CodeUnit(code: int): (u: int)
    ensures 0 <= u < 0x1_0000
    ensures (code - u) % 0x1_0000 == 0
  {
    code % 0x1_0000
  }

  /** `event.keyCode || event.which`: a zero key code falls back to `which`. */
  function KeyCodeOf(keyCode: int, which: int): int {
    if keyCode != 0 then keyCode else which
  }

  /**
   * `handleKeyPress`: the keystroke is let through iff the one-character
   * string it produces matches `/^[0-9]+$/`, that is, iff that character is
   * a decimal digit.
   */
  predicate KeyAllowed(keyCode: int, which: int)
    ensures var u := CodeUnit(KeyCodeOf(keyCode, which));
      KeyAllowed(keyCode, which) <==> u < 0xD800 && Strings.IsDigit(u as char)
  {
    var u := CodeUnit(KeyCodeOf(keyCode, which));
    '0' as int <= u <= '9' as int
  }

  /** The state of the form. */
  class PinChangeForm {
    var oldPin: string
    var newPin: string

    constructor ()
      ensures oldPin == "" && newPin == ""
    {
      oldPin, newPin := "", "";
    }

    /** `handleChangePin`: a failed check is reported and changes nothing; success clears both inputs. */
    method HandleChangePin() returns (result: Outcome<PinError>)
      modifies this`oldPin, this`newPin
      ensures result == CheckPinChange(old(oldPin), old(newPin))
      ensures result == Pass ==> oldPin == "" && newPin == ""
      ensures result != Pass ==> oldPin == old(oldPin) && newPin == old(newPin)
    {
      result := CheckPinChange(oldPin, newPin);
      if result == Pass {
        oldPin, newPin := "", "";
      }
    }
  }
}
