/** The donation prompt of testifyhq (`useDonationPrompt`): a count of finished exams kept in
    local storage under `testifyhq_exam_count`, and a prompt that is raised after every second
    exam and stays up until it is dismissed. The hook's state and the stored text are the
    fields of a class; the value read from storage when the hook mounts is an input. */
module DonationPrompt {
  import opened Wrappers
  import opened JsText
  import opened JsMath

  const StorageKey: string := "testifyhq_exam_count"

  const ExamsBeforePrompt: nat := 2

  /** The longest run of decimal digits at the start of `s`. */
  function DigitPrefix(s: string): (p: string)
    ensures p <= s && AllDigits(p)
    ensures |p| < |s| ==> !IsDigit(s[|p|])
  {
    if s != [] && IsDigit(s[0]) then [s[0]] + DigitPrefix(s[1..]) else []
  }

  lemma {:induction false} DigitPrefixOfDigits(s: string, t: string)
    requires AllDigits(s) && (t == [] || !IsDigit(t[0]))
    ensures DigitPrefix(s + t) == s
    decreases |s|
  {
    if s != [] {
      assert (s + t)[1..] == s[1..] + t;
      DigitPrefixOfDigits(s[1..], t);
    } else {
      assert s + t == t;
    }
  }

  /** The text after an optional leading `+` or `-`. */
  function Unsigned(t: string): (u: string)
    ensures u == t || (t != [] && (t[0] == '+' || t[0] == '-') && u == t[1..])
  {
    if t != [] && (t[0] == '-' || t[0] == '+') then t[1..] else t
  }

  /** `parseInt(s, 10)`: leading white space is skipped, then an optional sign, then the
      longest run of decimal digits is read; without a digit the result is `NaN`. */
  function ParseInt(s: string): (n: Number)
    ensures n != Infinity
    ensures n.NaN? <==> DigitPrefix(Unsigned(TrimStart(s))) == []
    ensures n.Int? && n.value < 0 ==> TrimStart(s)[0] == '-'
  {
    var t := TrimStart(s);
    var digits := DigitPrefix(Unsigned(t));
    if digits == [] then NaN
    else if t[0] == '-' then Int(-(ParseNat(digits) as int))
    else Int(ParseNat(digits))
  }

  /** `n.toString()`. */
  function NumberText(n: Number): (t: string)
    ensures n.NaN? ==> t == "NaN"
    ensures n.Int? ==> t == IntText(n.value)
  {
    match n
    case Int(v) => IntText(v)
    case NaN => "NaN"
    case Infinity => "Infinity"
  }

  /** `parseInt` once the trimmed text is known to start with the digits `d`. */
  lemma ReadAfterTrim(s: string, t: string, d: string)
    requires TrimStart(s) == t && t != [] && IsDigit(t[0])
    requires DigitPrefix(t) == d && d != []
    ensures ParseInt(s) == Int(ParseNat(d))
  {
  }

  /** A run of digits between white space and a non-digit reads as its value. */
  lemma ReadDigitRun(pad: string, d: string, tail: string)
    requires AllSpace(pad) && d != [] && AllDigits(d)
    requires tail == [] || !IsDigit(tail[0])
    ensures ParseInt(pad + d + tail) == Int(ParseNat(d))
  {
    var t := d + tail;
    var s := pad + d + tail;
    assert IsDigit(t[0]);
    assert s == pad + t;
    TrimStartSkips(pad, t);
    DigitPrefixOfDigits(d, tail);
    ReadAfterTrim(s, t, d);
  }

  /** A run of digits alone reads as its value. */
  lemma ReadDigits(d: string)
    requires d != [] && AllDigits(d)
    ensures ParseInt(d) == Int(ParseNat(d))
  {
    assert IsDigit(d[0]);
    assert TrimStart(d) == d;
    DigitPrefixOfDigits(d, []);
    assert d + [] == d;
    ReadAfterTrim(d, d, d);
  }

  /** `parseInt` once the trimmed text is known to be `-` followed by the digits `d`. */
  lemma ReadAfterTrimNegative(s: string, t: string, d: string)
    requires TrimStart(s) == t && t != [] && t[0] == '-'
    requires DigitPrefix(t[1..]) == d && d != []
    ensures ParseInt(s) == Int(-(ParseNat(d) as int))
  {
  }

  /** A `-` followed by digits reads as the negated value. */
  lemma ReadNegativeRun(d: string)
    requires d != [] && AllDigits(d)
    ensures ParseInt("-" + d) == Int(-(ParseNat(d) as int))
  {
    var t := "-" + d;
    assert t[0] == '-' && !IsSpace(t[0]);
    assert TrimStart(t) == t;
    assert t[1..] == d + [];
    DigitPrefixOfDigits(d, []);
    ReadAfterTrimNegative(t, t, d);
  }

  lemma ReadNat(v: nat)
    ensures ParseInt(NatToString(v)) == Int(v)
  {
    ParseNatToString(v);
    ReadValue(NatToString(v), v);
  }

  lemma ReadValue(d: string, v: nat)
    requires d != [] && AllDigits(d) && ParseNat(d) == v
    ensures ParseInt(d) == Int(v)
  {
    ReadDigits(d);
  }

  lemma ReadNegated(v: nat)
    ensures ParseInt("-" + NatToString(v)) == Int(-(v as int))
  {
    ParseNatToString(v);
    ReadNegatedValue(NatToString(v), v);
  }

  lemma ReadNegatedValue(d: string, v: nat)
    requires d != [] && AllDigits(d) && ParseNat(d) == v
    ensures ParseInt("-" + d) == Int(-(v as int))
  {
    ReadNegativeRun(d);
  }

  /** The text of an integer reads back as that integer. */
  lemma IntRoundTrip(v: int)
    ensures ParseInt(IntText(v)) == Int(v)
  {
    if v >= 0 {
      ReadNat(v);
    } else {
      ReadNegated(-v);
    }
  }

  /** Reading back what was stored gives the count that was stored: a reload keeps the count,
      and a count that has become `NaN` stays `NaN`. */
  lemma CountRoundTrip(n: Number)
    requires n != Infinity
    ensures ParseInt(NumberText(n)) == n
  {
    if n.NaN? {
      NonNumericIsNaN("NaN");
    } else {
      IntRoundTrip(n.value);
    }
  }

  /** Text after the digits is ignored, as is white space before them. */
  lemma ParseIntReadsLeadingDigits(pad: string, v: nat, tail: string)
    requires AllSpace(pad)
    requires tail == [] || !IsDigit(tail[0])
    ensures ParseInt(pad + NatToString(v) + tail) == Int(v)
  {
    ReadDigitRun(pad, NatToString(v), tail);
    ParseNatToString(v);
  }

  /** Text that starts with neither a digit nor a sign reads as `NaN`. */
  lemma NonNumericIsNaN(s: string)
    requires s != [] && !IsSpace(s[0]) && !IsDigit(s[0]) && s[0] != '+' && s[0] != '-'
    ensures ParseInt(s) == NaN
  {
  }

  /** The count the hook starts from: the stored text when there is one, otherwise 0. */
  function InitialCount(saved: Option<string>): (n: Number)
    ensures saved.None? || saved.value == "" ==> n == Int(0)
    ensures saved.Some? && saved.value != "" ==> n == ParseInt(saved.value)
  {
    if saved.None? || saved.value == "" then Int(0) else ParseInt(saved.value)
  }

  /** `examCount + 1`. */
  function Next(n: Number): Number {
    match n
    case Int(v) => Int(v + 1)
    case NaN => NaN
    case Infinity => Infinity
  }

  /** `newCount > 0 && newCount % 2 === 0`; `NaN` and `Infinity` fail it. */
  predicate PromptsAt(n: Number) {
    n.Int? && n.value > 0 && n.value % ExamsBeforePrompt == 0
  }

  /** The count after `k` finished exams. */
  function CountAfter(start: Number, k: nat): Number {
    if k == 0 then start else Next(CountAfter(start, k - 1))
  }

  /** From a clean start the count is the number of finished exams, and the prompt is raised
      exactly after the second, the fourth, and so on. */
  lemma {:induction false} PromptEverySecondExam(k: nat)
    ensures CountAfter(Int(0), k) == Int(k)
    ensures PromptsAt(CountAfter(Int(0), k)) <==> k > 0 && k % 2 == 0
  {
    if k > 0 {
      PromptEverySecondExam(k - 1);
    }
  }

  /** A stored text that does not read as a number leaves the count at `NaN` for good, and the
      prompt is never raised again. */
  lemma {:induction false} CorruptCountNeverPrompts(k: nat)
    ensures CountAfter(NaN, k) == NaN
    ensures !PromptsAt(CountAfter(NaN, k))
  {
    if k > 0 {
      CorruptCountNeverPrompts(k - 1);
    }
  }

  class DonationPrompt {
    var examCount: Number
    var shouldShowPrompt: bool
    /** The text under `StorageKey`. */
    var stored: Option<string>

    /** The effect that writes the count back has run. */
    predicate Persisted()
      reads this
    {
      stored == Some(NumberText(examCount))
    }

    /** Mounting the hook: the count is read from storage, the prompt is down, and the effect
        stores the count's text. */
    constructor (saved: Option<string>)
      ensures examCount == InitialCount(saved) && !shouldShowPrompt
      ensures Persisted()
    {
      examCount := InitialCount(saved);
      shouldShowPrompt := false;
      stored := Some(NumberText(InitialCount(saved)));
    }

    /** `incrementExamCount`: one more finished exam. The prompt is raised when the new count
        is a positive multiple of two and is never lowered here; the effect stores the new
        count when it differs from the old one. */
    method IncrementExamCount()
      requires Persisted()
      modifies this
      ensures examCount == Next(old(examCount))
      ensures shouldShowPrompt == (old(shouldShowPrompt) || PromptsAt(examCount))
      ensures Persisted()
    {
      var newCount := Next(examCount);
      var changed := newCount != examCount;
      examCount := newCount;
      if PromptsAt(newCount) {
        shouldShowPrompt := true;
      }
      if changed {
        stored := Some(NumberText(examCount));
      }
    }

    /** `dismissPrompt`: the prompt goes down; the count is untouched. */
    method DismissPrompt()
      modifies this`shouldShowPrompt
      ensures !shouldShowPrompt
    {
      shouldShowPrompt := false;
    }
  }
}
