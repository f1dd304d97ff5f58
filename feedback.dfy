/** The feedback message of an exam file: `retroalimentacion` is a list of thresholds with a
    message each, and a result shows the message of the first entry, in list order, whose
    `umbral` the percentage reaches. */
module Feedback {
  import opened Wrappers

  datatype Item = Item(umbral: int, mensaje: string)

  /** `find(item => percent >= item.umbral)` as a position. A `NaN` percentage (`None`: an
      exam without questions) compares false against every threshold. */
  function FindReached(items: seq<Item>, percent: Option<real>): (r: Option<nat>)
    ensures r.Some? ==> r.value < |items| && percent.Some?
                        && percent.value >= items[r.value].umbral as real
    ensures r.Some? ==> forall j :: 0 <= j < r.value ==> percent.value < items[j].umbral as real
    ensures r.None? ==> forall j :: 0 <= j < |items| ==>
                          percent.None? || percent.value < items[j].umbral as real
  {
    if items == [] || percent.None? then None
    else if percent.value >= items[0].umbral as real then Some(0)
    else
      match FindReached(items[1..], percent)
      case None => None
      case Some(k) => Some(k + 1)
  }

  /** The message shown: the found entry's message, or the empty string. */
  function Message(items: seq<Item>, percent: Option<real>): (m: string)
    ensures FindReached(items, percent).None? ==> m == ""
    ensures FindReached(items, percent).Some? ==> m == items[FindReached(items, percent).value].mensaje
  {
    match FindReached(items, percent)
    case None => ""
    case Some(k) => items[k].mensaje
  }

  /** A higher percentage still finds an entry, and never a later one. */
  lemma {:induction false} HigherPercentEarlierEntry(items: seq<Item>, p: real, q: real)
    requires p <= q
    requires FindReached(items, Some(p)).Some?
    ensures FindReached(items, Some(q)).Some?
    ensures FindReached(items, Some(q)).value <= FindReached(items, Some(p)).value
  {
    var k := FindReached(items, Some(p)).value;
    assert q >= items[k].umbral as real;
  }

  /** A `NaN` percentage shows no feedback at all. */
  lemma NaNShowsNothing(items: seq<Item>)
    ensures Message(items, None) == ""
  {
  }
}
