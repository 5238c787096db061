/**
 * The four-slot PIN pad shared by the admin PIN screen and the kiosk opening
 * screen: the focus rule after each keystroke and the PIN formed by joining
 * the slots.
 */
module PinPad {
  import Strings

  const SlotCount: nat := 4

  /** Four empty slots: the initial buffer and the one a failed validation restores. */
  function EmptySlots(): (pins: seq<string>)
    ensures |pins| == SlotCount && forall i :: 0 <= i < |pins| ==> pins[i] == ""
  {
    ["", "", "", ""]
  }

  /**
   * The slot the handler focuses after `value` was entered in slot `index`:
   * a non-empty value moves it to the next slot, an emptied slot moves it back,
   * and on the last slot (or when the first slot is emptied) the handler
   * focuses nothing, so the slot it focused last stays recorded.
   */
  function NextFocus(index: int, value: string, focus: int): (f: int)
    requires 0 <= index < SlotCount && 0 <= focus < SlotCount
    ensures 0 <= f < SlotCount
    ensures value != "" && index < SlotCount - 1 ==> f == index + 1
    ensures value == "" && index > 0 ==> f == index - 1
    ensures (value != "" && index == SlotCount - 1) || (value == "" && index == 0) ==> f == focus
  {
    if value != "" && index < 3 then index + 1
    else if value == "" && index > 0 then index - 1
    else focus
  }

  /** Typing one character into each slot in turn, starting from the first, leaves the focus on the last slot. */
  lemma TypingFourDigitsEndsOnLastSlot(c0: char, c1: char, c2: char, c3: char)
    ensures NextFocus(3, [c3], NextFocus(2, [c2], NextFocus(1, [c1], NextFocus(0, [c0], 0)))) == SlotCount - 1
  {
  }

  /** `pins.join('')`: the PIN that is submitted. */
  function Pin(pins: seq<string>): (p: string)
    ensures |p| == Strings.TotalLength(pins)
  {
    Strings.Join(pins, "")
  }

  /** The joined PIN is empty iff every slot is empty. */
  lemma {:induction false} PinEmptyIff(pins: seq<string>)
    ensures Pin(pins) == "" <==> forall i :: 0 <= i < |pins| ==> pins[i] == ""
    decreases |pins|
  {
    if |pins| > 1 {
      PinEmptyIff(pins[1..]);
      assert forall i :: 1 <= i < |pins| ==> pins[i] == pins[1..][i - 1];
      assert Pin(pins) == pins[0] + Pin(pins[1..]);
    }
  }

  /** Slots that hold only digits join into a PIN of digits. */
  lemma {:induction false} PinOfDigits(pins: seq<string>)
    requires forall i :: 0 <= i < |pins| ==> Strings.IsDigits(pins[i])
    ensures Strings.IsDigits(Pin(pins))
    decreases |pins|
  {
    if |pins| > 1 {
      assert forall i :: 0 <= i < |pins[1..]| ==> pins[1..][i] == pins[i + 1];
      PinOfDigits(pins[1..]);
      var p := Pin(pins);
      assert p == pins[0] + Pin(pins[1..]);
      forall k | 0 <= k < |p| ensures Strings.IsDigit(p[k]) {
        if k >= |pins[0]| {
          assert p[k] == Pin(pins[1..])[k - |pins[0]|];
        }
      }
    }
  }

  /**
   * With at most one character per slot the PIN is no longer than the
   * number of slots, and it reaches that length iff every slot holds a
   * character.
   */
  lemma {:induction false} PinLengthWithSingleCharSlots(pins: seq<string>)
    requires forall i :: 0 <= i < |pins| ==> |pins[i]| <= 1
    ensures |Pin(pins)| <= |pins|
    ensures |Pin(pins)| == |pins| <==> forall i :: 0 <= i < |pins| ==> |pins[i]| == 1
    decreases |pins|
  {
    if |pins| > 1 {
      assert forall i :: 0 <= i < |pins[1..]| ==> pins[1..][i] == pins[i + 1];
      PinLengthWithSingleCharSlots(pins[1..]);
      assert Pin(pins) == pins[0] + Pin(pins[1..]);
      if |Pin(pins)| == |pins| {
        forall i | 0 <= i < |pins| ensures |pins[i]| == 1 {
          if i > 0 {
            assert pins[i] == pins[1..][i - 1];
          }
        }
      }
    }
  }

  /**
   * On a four-slot pad whose inputs take one character each, the PIN has at
   * least four characters iff all four slots are filled.
   */
  lemma FullPinIffAllSlotsFilled(pins: seq<string>)
    requires |pins| == SlotCount
    requires forall i :: 0 <= i < |pins| ==> |pins[i]| <= 1
    ensures |Pin(pins)| >= SlotCount <==> forall i :: 0 <= i < SlotCount ==> |pins[i]| == 1
  {
    PinLengthWithSingleCharSlots(pins);
  }
}
