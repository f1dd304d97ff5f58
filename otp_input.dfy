/** The one-time-code input of testifyhq's sign-up (`OTPInput`): a row of one-character
    boxes, each empty or holding one digit. Typing, backspace and pasting change the boxes,
    and once every box is filled the whole code is handed to the completion callback, which
    the model returns instead of calling. */
module OtpInput {
  import opened Wrappers
  import opened JsText
  import Validation

  /** `/^\d$/`: exactly one ASCII digit. */
  predicate OneDigit(v: string) { |v| == 1 && IsDigit(v[0]) }

  /** What a box may hold. */
  predicate Slot(v: string) { v == "" || OneDigit(v) }

  predicate AllFilled(boxes: seq<string>) { forall k :: 0 <= k < |boxes| ==> boxes[k] != "" }

  /** `boxes.join('')`. */
  function Concat(boxes: seq<string>): string {
    if boxes == [] then "" else Concat(boxes[..|boxes| - 1]) + boxes[|boxes| - 1]
  }

  /** `s.split('')`: one box per character. */
  function Chars(s: string): (boxes: seq<string>)
    ensures |boxes| == |s| && forall k :: 0 <= k < |s| ==> boxes[k] == [s[k]]
  {
    seq(|s|, k requires 0 <= k < |s| => [s[k]])
  }

  /** Joining filled boxes gives one digit per box, in box order. */
  lemma {:induction false} FilledConcat(boxes: seq<string>)
    requires forall k :: 0 <= k < |boxes| ==> OneDigit(boxes[k])
    ensures var code := Concat(boxes);
            |code| == |boxes| && AllDigits(code)
            && forall k :: 0 <= k < |boxes| ==> [code[k]] == boxes[k]
  {
    if boxes != [] {
      var init := boxes[..|boxes| - 1];
      FilledConcat(init);
    }
  }

  /** Splitting a code into boxes and joining them again gives the code back. */
  lemma {:induction false} ConcatChars(s: string)
    ensures Concat(Chars(s)) == s
    decreases |s|
  {
    if s != [] {
      var init := s[..|s| - 1];
      assert Chars(s)[..|s| - 1] == Chars(init);
      ConcatChars(init);
    }
  }

  /** A pasted code may be pasted only when, trimmed, it is a non-empty run of digits exactly as
      long as the row. */
  predicate PasteAccepted(text: string, length: nat) {
    var code := Trim(text);
    code != [] && AllDigits(code) && |code| == length
  }

  /** A six-box row only ever completes with a code the sign-up form's code validator accepts. */
  lemma CompletedCodeIsValid(boxes: seq<string>)
    requires |boxes| == 6 && (forall k :: 0 <= k < 6 ==> Slot(boxes[k])) && AllFilled(boxes)
    ensures Validation.ValidateOtp(Concat(boxes)).isValid
  {
    FilledConcat(boxes);
  }

  /** A pasted code a six-box row accepts is one the code validator accepts. */
  lemma PastedCodeIsValid(text: string)
    requires PasteAccepted(text, 6)
    ensures Validation.ValidateOtp(Trim(text)).isValid
  {
  }

  class OtpInput {
    const length: nat
    var otp: seq<string>
    /** The box the component last moved the focus to. */
    var focus: nat

    predicate Valid()
      reads this
    {
      |otp| == length && (forall k :: 0 <= k < |otp| ==> Slot(otp[k])) && focus <= length
    }

    /** The row starts with every box empty and the focus on the first. */
    constructor (length: nat)
      ensures this.length == length && otp == seq(length, _ => "") && focus == 0
      ensures Valid()
    {
      this.length := length;
      otp := seq(length, _ => "");
      focus := 0;
    }

    /** `handleChange`: anything but the empty value or one digit is ignored. Otherwise the box
        takes the value, the focus moves on after a digit, and the code is completed when no
        box is left empty. */
    method HandleChange(index: nat, value: string) returns (completed: Option<string>)
      requires Valid() && index < length
      modifies this
      ensures Valid()
      ensures value != "" && !OneDigit(value) ==> otp == old(otp) && focus == old(focus) && completed == None
      ensures Slot(value) ==> otp == old(otp)[index := value]
      ensures Slot(value) ==> focus == (if value != "" && index + 1 < length then index + 1 else old(focus))
      ensures completed.Some? <==> Slot(value) && AllFilled(otp)
      ensures completed.Some? ==> completed.value == Concat(otp)
      ensures completed.Some? ==> |completed.value| == length && AllDigits(completed.value)
    {
      if value != "" && !OneDigit(value) {
        return None;
      }
      var newOtp := otp[index := value];
      otp := newOtp;
      if value != "" && index + 1 < length {
        focus := index + 1;
      }
      if forall k :: 0 <= k < |newOtp| ==> newOtp[k] != "" {
        FilledConcat(newOtp);
        completed := Some(Concat(newOtp));
      } else {
        completed := None;
      }
    }

    /** `handleKeyDown`: backspace on an empty box after the first clears the box before it
        and moves the focus there; otherwise it clears the box itself. Other keys do nothing. */
    method HandleKeyDown(index: nat, key: string)
      requires Valid() && index < length
      modifies this
      ensures Valid()
      ensures key != "Backspace" ==> otp == old(otp) && focus == old(focus)
      ensures key == "Backspace" && old(otp)[index] == "" && index > 0 ==>
                otp == old(otp)[index - 1 := ""] && focus == index - 1
      ensures key == "Backspace" && !(old(otp)[index] == "" && index > 0) ==>
                otp == old(otp)[index := ""] && focus == old(focus)
    {
      if key == "Backspace" {
        if otp[index] == "" && index > 0 {
          otp := otp[index - 1 := ""];
          focus := index - 1;
        } else {
          otp := otp[index := ""];
        }
      }
    }

    /** `handlePaste`: an accepted code fills the boxes one digit each, the focus goes to the
        last box, and the code is completed; anything else changes nothing. */
    method HandlePaste(text: string) returns (completed: Option<string>)
      requires Valid()
      modifies this
      ensures Valid()
      ensures PasteAccepted(text, length) ==>
                otp == Chars(Trim(text)) && focus == length - 1 && completed == Some(Trim(text))
      ensures !PasteAccepted(text, length) ==> otp == old(otp) && focus == old(focus) && completed == None
      ensures completed.Some? ==> completed.value == Concat(otp)
    {
      var code := Trim(text);
      if !(code != [] && AllDigits(code)) || |code| != length {
        return None;
      }
      otp := Chars(code);
      focus := length - 1;
      ConcatChars(code);
      completed := Some(code);
    }
  }
}
