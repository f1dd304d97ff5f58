/** The server-side access check of certifyme (`can-take-exam`): an early-return ladder over
    the request method, the request's parameters, the user document and the day's history of
    that exam. The Firestore reads become inputs; a read that throws is a failed fetch. */
module CanTakeExam {
  import opened Wrappers
  import opened AccessGate

  /** The parsed request body: `JSON.parse` either throws or yields the two fields, each of
      which may be missing. */
  datatype Body = Unparsable | Params(userId: Option<string>, examSlug: Option<string>)

  datatype ResponseBody =
    | Empty
    | Error(error: string)
    | Verdict(allowed: bool, reason: string)
    | InternalError

  datatype Response = Response(statusCode: int, body: ResponseBody)

  /** `!field`: a missing field and the empty string are both falsy. */
  predicate Falsy(field: Option<string>) {
    field.None? || field.value == ""
  }

  /** The history query: the user's records of this exam dated from the start of the day. */
  function SameExamToday(records: seq<Record>, slug: string, startOfDay: int): (hits: seq<Record>)
    ensures forall r :: r in hits <==> r in records && r.slug == slug && r.date >= startOfDay
  {
    if records == [] then []
    else
      var init, last := records[..|records| - 1], records[|records| - 1];
      assert records == init + [last];
      SameExamToday(init, slug, startOfDay)
      + (if last.slug == slug && last.date >= startOfDay then [last] else [])
  }

  /** `handler`. Every response is one of five statuses; 200 carries the empty preflight
      answer or a verdict, and a positive verdict names one of the two allowing reasons. */
  function Handle(httpMethod: string, body: Body, user: Fetch<Option<UserDoc>>,
                  history: Fetch<seq<Record>>, startOfDay: int): (r: Response)
    ensures r.statusCode in {200, 400, 404, 405, 500}
    ensures r.statusCode == 200 <==> r.body.Empty? || r.body.Verdict?
    ensures r.body.Verdict? && r.body.allowed ==> r.body.reason in {"premium", "daily_limit_not_reached"}
    ensures r.body.Verdict? && !r.body.allowed ==> r.body.reason == "daily_limit"
  {
    if httpMethod == "OPTIONS" then Response(200, Empty)
    else if httpMethod != "POST" then Response(405, Error("Method not allowed"))
    else match body
      case Unparsable => Response(500, InternalError)
      case Params(userId, examSlug) =>
        if Falsy(userId) || Falsy(examSlug) then Response(400, Error("Missing userId or examSlug"))
        else match user
          case Failed => Response(500, InternalError)
          case Ok(None) => Response(404, Error("User not found"))
          case Ok(Some(doc)) =>
            if doc.subscriptionType == Some("premium") then Response(200, Verdict(true, "premium"))
            else match history
              case Failed => Response(500, InternalError)
              case Ok(records) =>
                if SameExamToday(records, examSlug.value, startOfDay) != [] then
                  Response(200, Verdict(false, "daily_limit"))
                else Response(200, Verdict(true, "daily_limit_not_reached"))
  }

  /** The method ladder: the preflight is answered first, any other method but POST is
      refused, and neither depends on the body or the database. */
  lemma MethodLadder(httpMethod: string, body: Body, user: Fetch<Option<UserDoc>>,
                     history: Fetch<seq<Record>>, startOfDay: int)
    ensures httpMethod == "OPTIONS" ==> Handle(httpMethod, body, user, history, startOfDay) == Response(200, Empty)
    ensures httpMethod != "OPTIONS" && httpMethod != "POST" ==>
              Handle(httpMethod, body, user, history, startOfDay).statusCode == 405
    ensures Handle(httpMethod, body, user, history, startOfDay).statusCode == 405 <==>
              httpMethod != "OPTIONS" && httpMethod != "POST"
  {
  }

  /** A request without a user id or an exam slug is refused with 400 whatever the database
      holds: the answer is the same for any two user reads and any two histories. */
  lemma MissingParamsBeforeLookup(body: Body, u1: Fetch<Option<UserDoc>>, u2: Fetch<Option<UserDoc>>,
                                  h1: Fetch<seq<Record>>, h2: Fetch<seq<Record>>, startOfDay: int)
    requires body.Params? && (Falsy(body.userId) || Falsy(body.examSlug))
    ensures Handle("POST", body, u1, h1, startOfDay) == Handle("POST", body, u2, h2, startOfDay)
    ensures Handle("POST", body, u1, h1, startOfDay).statusCode == 400
  {
  }

  /** A well-formed request: a POST whose body names a user and an exam. */
  predicate WellFormed(httpMethod: string, body: Body) {
    httpMethod == "POST" && body.Params? && !Falsy(body.userId) && !Falsy(body.examSlug)
  }

  /** For a well-formed request, an unknown user is 404, a premium user is allowed without the
      history being consulted, and a free user is denied exactly when some record of this exam
      is dated from the start of the day. */
  lemma DecisionLadder(httpMethod: string, body: Body, user: Fetch<Option<UserDoc>>,
                       records: seq<Record>, startOfDay: int)
    requires WellFormed(httpMethod, body)
    ensures user == Ok(None) ==> Handle(httpMethod, body, user, Ok(records), startOfDay).statusCode == 404
    ensures IsPremium(user) ==>
              Handle(httpMethod, body, user, Failed, startOfDay) == Response(200, Verdict(true, "premium"))
    ensures user.Ok? && user.value.Some? && !IsPremium(user) ==>
              var r := Handle(httpMethod, body, user, Ok(records), startOfDay);
              r.statusCode == 200 && r.body.Verdict?
              && (!r.body.allowed <==> exists h :: h in records && h.slug == body.examSlug.value && h.date >= startOfDay)
              && r.body.reason == (if r.body.allowed then "daily_limit_not_reached" else "daily_limit")
  {
    if user.Ok? && user.value.Some? && !IsPremium(user) {
      var hits := SameExamToday(records, body.examSlug.value, startOfDay);
      if hits != [] {
        assert hits[0] in hits;
      }
    }
  }

  /** A verdict is only ever given with status 200; every failure is a 500 that neither allows
      nor denies. */
  lemma VerdictOnlyOnSuccess(httpMethod: string, body: Body, user: Fetch<Option<UserDoc>>,
                             history: Fetch<seq<Record>>, startOfDay: int)
    ensures var r := Handle(httpMethod, body, user, history, startOfDay);
            (r.body.Verdict? ==> r.statusCode == 200)
            && (r.statusCode == 500 <==> r.body == InternalError)
            && (r.statusCode == 500 <==>
                  (WellFormed(httpMethod, body) && (user.Failed? || (user.Ok? && user.value.Some? && !IsPremium(user) && history.Failed?)))
                  || (httpMethod == "POST" && body.Unparsable?))
  {
  }

  /** The server agrees with the client-side gate whenever every read succeeds and the user
      exists: the same users are allowed, for the same premium and daily-limit reasons. */
  lemma {:induction false} AgreesWithClientGate(body: Body, doc: UserDoc, records: seq<Record>, startOfDay: int)
    requires WellFormed("POST", body)
    ensures var server := Handle("POST", body, Ok(Some(doc)), Ok(records), startOfDay);
            var client := CheckDailyExamLimit(Ok(Some(doc)), Ok(records), body.examSlug.value, startOfDay);
            server.body.Verdict?
            && server.body.allowed == client.allowed
            && (client.reason == Some("premium") <==> server.body.reason == "premium")
            && (client.reason == Some("daily_limit") <==> server.body.reason == "daily_limit")
  {
    DecisionLadder("POST", body, Ok(Some(doc)), records, startOfDay);
  }

  /** Where the two gates part: a user without a document is refused by the server but
      treated as a free user by the client, which lets them in when there is no history. */
  lemma UnknownUserDiffers(body: Body, startOfDay: int)
    requires WellFormed("POST", body)
    ensures Handle("POST", body, Ok(None), Ok([]), startOfDay).statusCode == 404
    ensures CheckDailyExamLimit(Ok(None), Ok([]), body.examSlug.value, startOfDay).allowed
  {
  }
}
