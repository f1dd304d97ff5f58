/** The client-side access gate of certifyme: premium users may take any exam at any time,
    free users may take each exam once per day. The Firestore reads become inputs: the user
    document read (which may fail, or find no document) and the user's history records (which
    may fail to load), with the start of the current day passed in as a timestamp. */
module AccessGate {
  import opened Wrappers

  /** The outcome of one database read: it fails, or it yields a value. */
  datatype Fetch<+T> = Failed | Ok(value: T)

  /** The user document: `subscription.type`, when the document has a subscription. */
  datatype UserDoc = UserDoc(subscriptionType: Option<string>)

  /** One record of `users/<id>/history`: the exam slug and the attempt's date. ISO-8601
      dates of one format compare as text in the same order as the instants they name, so a
      date is modelled by its instant. */
  datatype Record = Record(slug: string, date: int)

  /** `{ allowed, reason }`; the plain allowed result has no reason. */
  datatype Decision = Decision(allowed: bool, reason: Option<string>)

  /** `checkSubscriptionStatus`: the user document exists and its subscription type is
      `premium`; a missing document, a missing subscription and a failed read all give false. */
  function IsPremium(user: Fetch<Option<UserDoc>>): (r: bool)
    ensures r <==> user == Ok(Some(UserDoc(Some("premium"))))
  {
    match user
    case Failed => false
    case Ok(None) => false
    case Ok(Some(doc)) => doc.subscriptionType.Some? && doc.subscriptionType.value == "premium"
  }

  /** The query `where("date", ">=", startOfDay)`: the records of the current day, in order. */
  function Today(records: seq<Record>, startOfDay: int): (today: seq<Record>)
    ensures |today| <= |records|
    ensures forall r :: r in today <==> r in records && r.date >= startOfDay
  {
    if records == [] then []
    else
      var init, last := records[..|records| - 1], records[|records| - 1];
      assert records == init + [last];
      Today(init, startOfDay) + (if last.date >= startOfDay then [last] else [])
  }

  /** `docs.some(doc => doc.data().slug === examSlug)`. */
  predicate TakenToday(records: seq<Record>, slug: string, startOfDay: int) {
    exists r :: r in Today(records, startOfDay) && r.slug == slug
  }

  /** `checkDailyExamLimit`. The premium check runs first and needs no history; a failed user
      read counts as a free user; a failed history read fails closed. */
  function CheckDailyExamLimit(user: Fetch<Option<UserDoc>>, history: Fetch<seq<Record>>,
                               slug: string, startOfDay: int): (d: Decision)
    ensures IsPremium(user) ==> d == Decision(true, Some("premium"))
    ensures !IsPremium(user) && history.Failed? ==> d == Decision(false, Some("error"))
    ensures !IsPremium(user) && history.Ok? ==>
              (d == Decision(false, Some("daily_limit")) <==>
               exists r :: r in history.value && r.slug == slug && r.date >= startOfDay)
    ensures !IsPremium(user) && history.Ok? ==>
              d.allowed == !exists r :: r in history.value && r.slug == slug && r.date >= startOfDay
  {
    if IsPremium(user) then Decision(true, Some("premium"))
    else match history
      case Failed => Decision(false, Some("error"))
      case Ok(records) =>
        if TakenToday(records, slug, startOfDay) then Decision(false, Some("daily_limit"))
        else Decision(true, None)
  }

  /** `getTodaysAttempts`: the slugs of the current day's records, or nothing when the read
      fails. */
  function TodaysAttempts(history: Fetch<seq<Record>>, startOfDay: int): (slugs: seq<string>)
    ensures history.Failed? ==> slugs == []
    ensures history.Ok? ==>
              forall s :: s in slugs <==> exists r :: r in history.value && r.date >= startOfDay && r.slug == s
  {
    match history
    case Failed => []
    case Ok(records) =>
      var today := Today(records, startOfDay);
      var slugs := seq(|today|, i requires 0 <= i < |today| => today[i].slug);
      assert forall s :: s in slugs ==> exists r :: r in today && r.slug == s by {
        forall s | s in slugs ensures exists r :: r in today && r.slug == s {
          var i :| 0 <= i < |slugs| && slugs[i] == s;
          assert today[i] in today;
        }
      }
      assert forall r :: r in today ==> r.slug in slugs by {
        forall r | r in today ensures r.slug in slugs {
          var i :| 0 <= i < |today| && today[i] == r;
          assert slugs[i] == r.slug;
        }
      }
      slugs
  }

  /** For a premium user the history plays no part: any two histories, even a failed read,
      give the same decision. */
  lemma PremiumIgnoresHistory(user: Fetch<Option<UserDoc>>, h1: Fetch<seq<Record>>, h2: Fetch<seq<Record>>,
                              slug: string, startOfDay: int)
    requires IsPremium(user)
    ensures CheckDailyExamLimit(user, h1, slug, startOfDay) == CheckDailyExamLimit(user, h2, slug, startOfDay)
    ensures CheckDailyExamLimit(user, h1, slug, startOfDay).allowed
  {
  }

  /** A failed user read is treated as a free user, not as an error. */
  lemma FailedUserReadIsFree(history: Fetch<seq<Record>>, slug: string, startOfDay: int)
    ensures CheckDailyExamLimit(Failed, history, slug, startOfDay) == CheckDailyExamLimit(Ok(None), history, slug, startOfDay)
    ensures history.Ok? && history.value == [] ==> CheckDailyExamLimit(Failed, history, slug, startOfDay) == Decision(true, None)
  {
  }

  /** Attempts at other exams, and attempts before the start of the day, do not count against
      a free user. */
  lemma {:induction false} OtherAttemptsDoNotCount(user: Fetch<Option<UserDoc>>, records: seq<Record>,
                                                   other: Record, slug: string, startOfDay: int)
    requires other.slug != slug || other.date < startOfDay
    ensures CheckDailyExamLimit(user, Ok(records + [other]), slug, startOfDay)
            == CheckDailyExamLimit(user, Ok(records), slug, startOfDay)
  {
    var more := records + [other];
    assert forall r :: r in more && r.slug == slug && r.date >= startOfDay ==> r in records;
    assert forall r :: r in records ==> r in more;
  }

  /** One attempt at the exam today is enough to close it for a free user until the next day. */
  lemma AttemptTodayCloses(user: Fetch<Option<UserDoc>>, records: seq<Record>, slug: string,
                           date: int, startOfDay: int)
    requires !IsPremium(user) && date >= startOfDay
    ensures CheckDailyExamLimit(user, Ok(records + [Record(slug, date)]), slug, startOfDay)
            == Decision(false, Some("daily_limit"))
    ensures !CheckDailyExamLimit(user, Ok(records + [Record(slug, date)]), slug, date + 1).allowed
            ==> !CheckDailyExamLimit(user, Ok(records), slug, date + 1).allowed
  {
    var more := records + [Record(slug, date)];
    assert Record(slug, date) in more;
    assert forall r :: r in more && r.date >= date + 1 ==> r in records;
  }

  /** The gate only closes for a free user, for the listed reasons. */
  lemma DenialReasons(user: Fetch<Option<UserDoc>>, history: Fetch<seq<Record>>, slug: string, startOfDay: int)
    ensures var d := CheckDailyExamLimit(user, history, slug, startOfDay);
            !d.allowed ==> !IsPremium(user) && (d.reason == Some("error") <==> history.Failed?)
                           && (d.reason == Some("daily_limit") <==> history.Ok?)
  {
  }

  /** With the history loaded, a free user is denied exactly when the exam is among the
      day's attempts. */
  lemma DeniedIffAttemptedToday(user: Fetch<Option<UserDoc>>, records: seq<Record>, slug: string, startOfDay: int)
    requires !IsPremium(user)
    ensures !CheckDailyExamLimit(user, Ok(records), slug, startOfDay).allowed
            <==> slug in TodaysAttempts(Ok(records), startOfDay)
  {
  }
}
