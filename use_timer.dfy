/** The countdown hook of the React application: the `MM:SS` rendering, the two warning
    bands, and the one-second interval that calls the store's `decrementTime`. */
module Timer {
  import opened JsText
  import opened Wrappers
  import ExamStore

  /** `formatTime`: whole minutes and the remaining seconds, each padded to two digits. */
  function FormatTime(seconds: nat): string {
    Join([Pad2(seconds / 60), Pad2(seconds % 60)], ':')
  }

  /** Reads a `minutes:seconds` rendering back into a number of seconds. */
  function ParseClock(text: string): Option<nat> {
    var parts := Split(text, ':');
    if |parts| == 2 && AllDigits(parts[0]) && AllDigits(parts[1]) && ParseNat(parts[1]) < 60
    then Some(60 * ParseNat(parts[0]) + ParseNat(parts[1]))
    else None
  }

  /** The rendering is two digit groups around one colon, and reads back as the seconds it
      was made from: minutes are `seconds div 60`, seconds are `seconds mod 60`. */
  lemma FormatTimeRoundTrip(seconds: nat)
    ensures ParseClock(FormatTime(seconds)) == Some(seconds)
    ensures |Split(FormatTime(seconds), ':')| == 2
    ensures seconds < 6000 ==> |FormatTime(seconds)| == 5
  {
    var m, s := Pad2(seconds / 60), Pad2(seconds % 60);
    assert ':' !in m && ':' !in s by {
      assert forall k :: 0 <= k < |m| ==> m[k] != ':';
      assert forall k :: 0 <= k < |s| ==> s[k] != ':';
    }
    SplitJoin([m, s], ':');
    assert Join([m, s], ':') == m + [':'] + s;
    Pad2Value(seconds / 60);
    Pad2Value(seconds % 60);
  }

  /** `isLowTime`: between one and five minutes left (both ends excluded). */
  predicate IsLowTime(t: int) { t < 300 && t > 60 }

  /** `isCriticalTime`: one minute or less left. */
  predicate IsCriticalTime(t: int) { t <= 60 }

  /** The two bands never hold together; above five minutes neither holds. */
  lemma TimeBands(t: int)
    ensures !(IsLowTime(t) && IsCriticalTime(t))
    ensures t >= 300 ==> !IsLowTime(t) && !IsCriticalTime(t)
    ensures IsLowTime(t) || IsCriticalTime(t) <==> t < 300
  {
  }

  /** The effect installs its interval only while the exam runs and time is left. */
  predicate IntervalActive(examStarted: bool, timeRemaining: int) {
    examStarted && timeRemaining > 0
  }

  /** The interval's work: tick the store once a second for as long as the effect keeps the
      interval installed. A started exam with `t` seconds left is auto-submitted after exactly
      `t` ticks; an exam that is not running is not ticked at all. */
  method RunInterval(store: ExamStore.ExamState) returns (ticks: nat)
    modifies store
    ensures old(IntervalActive(store.examStarted, store.timeRemaining)) ==>
              ticks == old(store.timeRemaining) && store.timeRemaining == 0
              && store.examCompleted && !store.examStarted
    ensures !old(IntervalActive(store.examStarted, store.timeRemaining)) ==>
              ticks == 0 && store.timeRemaining == old(store.timeRemaining)
              && store.examStarted == old(store.examStarted)
              && store.examCompleted == old(store.examCompleted)
    ensures store.answers == old(store.answers) && store.currentQuestion == old(store.currentQuestion)
  {
    ticks := 0;
    ghost var t0 := store.timeRemaining;
    while IntervalActive(store.examStarted, store.timeRemaining)
      invariant store.answers == old(store.answers) && store.currentQuestion == old(store.currentQuestion)
      invariant old(IntervalActive(store.examStarted, store.timeRemaining)) ==>
                  store.timeRemaining == t0 - ticks && store.timeRemaining >= 0
                  && (store.examStarted ==> store.timeRemaining > 0)
                  && (!store.examStarted ==> store.timeRemaining == 0 && store.examCompleted)
      invariant !old(IntervalActive(store.examStarted, store.timeRemaining)) ==>
                  ticks == 0 && store.timeRemaining == old(store.timeRemaining)
                  && store.examStarted == old(store.examStarted)
                  && store.examCompleted == old(store.examCompleted)
      decreases if store.timeRemaining > 0 then store.timeRemaining else 0
    {
      store.DecrementTime();
      ticks := ticks + 1;
    }
  }
}
