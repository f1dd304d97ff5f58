/** The PayPhone payment webhook of testifyhq: it reads the user id out of the client
    transaction id, resolves an 8-character id prefix to the full user id, records the payment
    (one row per client transaction id), and grants premium access when the payment is
    approved. The two tables it writes are the fields of a class; the prefix query's answer
    and the failure of each write are inputs. */
module Payphone {
  import opened Wrappers
  import opened JsText

  /** The fields of the webhook's JSON body the handler reads, each possibly absent. */
  datatype Payload = Payload(id: Option<int>, clientTransactionId: Option<string>,
                             transactionStatus: Option<int>, amount: Option<int>,
                             currency: Option<string>, paymentMethod: Option<string>)

  datatype UserRow = UserRow(subscriptionTier: string, subscriptionExpiresAt: Option<string>)

  datatype PaymentRow = PaymentRow(userId: string, transactionId: string, clientTransactionId: string,
                                   amount: int, currency: string, status: string,
                                   paymentMethod: Option<string>)

  datatype Body = Text(text: string) | Failure(error: string) | Processed(status: string)

  datatype Response = Response(status: int, body: Body)

  /** A field `tag` followed by `-` starts the string exactly when the split's first field is
      `tag` and there is a second field, which is then the first field after the `-`. */
  lemma {:induction false} LeadingField(tag: string, s: string)
    requires '-' !in tag
    ensures (|Split(s, '-')| >= 2 && Split(s, '-')[0] == tag) <==> tag + "-" <= s
    ensures tag + "-" <= s ==> Split(s, '-')[1] == Split(s[|tag| + 1..], '-')[0]
  {
    var parts := Split(s, '-');
    if tag + "-" <= s {
      assert s == tag + ['-'] + s[|tag| + 1..];
      SplitAfterField(tag, s[|tag| + 1..], '-');
    }
    if |parts| >= 2 && parts[0] == tag {
      JoinSplit(s, '-');
      assert s == parts[0] + ['-'] + Join(parts[1..], '-');
      assert (tag + "-") == (parts[0] + ['-'] + Join(parts[1..], '-'))[..|tag| + 1];
    }
  }

  /** `extractUserIdFromClientTxId`: the second `-`-separated field of an id whose first field
      is `TFY` (the new format, an 8-character id prefix) or `TESTIFYHQ` (the old format). */
  function ExtractUserId(clientTxId: string): (r: Option<string>)
    ensures r.Some? <==> "TFY-" <= clientTxId || "TESTIFYHQ-" <= clientTxId
    ensures r.Some? ==> '-' !in r.value
    ensures "TFY-" <= clientTxId ==> r == Some(Split(clientTxId[4..], '-')[0])
    ensures "TESTIFYHQ-" <= clientTxId ==> r == Some(Split(clientTxId[10..], '-')[0])
  {
    LeadingField("TFY", clientTxId);
    LeadingField("TESTIFYHQ", clientTxId);
    var parts := Split(clientTxId, '-');
    if |parts| >= 2 && parts[0] == "TFY" then Some(parts[1])
    else if |parts| >= 2 && parts[0] == "TESTIFYHQ" then Some(parts[1])
    else None
  }

  /** An id built in either format gives back the user id it was built from. */
  lemma ExtractRoundTrip(tag: string, userId: string, rest: string)
    requires tag == "TFY" || tag == "TESTIFYHQ"
    requires '-' !in userId
    ensures ExtractUserId(tag + "-" + userId + "-" + rest) == Some(userId)
    ensures ExtractUserId(tag + "-" + userId) == Some(userId)
  {
    var s := tag + "-" + userId + "-" + rest;
    assert s[|tag| + 1..] == userId + ['-'] + rest;
    SplitAfterField(userId, rest, '-');
    var s2 := tag + "-" + userId;
    assert s2[|tag| + 1..] == userId;
    SplitNoSeparator(userId, '-');
    assert tag + "-" <= s && tag + "-" <= s2;
  }

  /** The old format was meant to carry the full user id, but a UUID holds `-` itself, so only
      its first group of 8 characters is extracted, and that goes through the prefix lookup
      like a new-format id. */
  lemma OldFormatYieldsFirstGroup(g1: string, g2: string, g3: string, g4: string, g5: string, rest: string)
    requires |g1| == 8 && '-' !in g1
    ensures var uuid := g1 + "-" + g2 + "-" + g3 + "-" + g4 + "-" + g5;
            ExtractUserId("TESTIFYHQ-" + uuid + "-" + rest) == Some(g1)
            && |ExtractUserId("TESTIFYHQ-" + uuid + "-" + rest).value| == 8
  {
    var tail := g2 + "-" + g3 + "-" + g4 + "-" + g5 + "-" + rest;
    assert "TESTIFYHQ-" + (g1 + "-" + g2 + "-" + g3 + "-" + g4 + "-" + g5) + "-" + rest
           == "TESTIFYHQ" + "-" + g1 + "-" + tail;
    ExtractRoundTrip("TESTIFYHQ", g1, tail);
  }

  /** Any other first field, or no `-` at all, gives no user id. */
  lemma UnknownFormat(clientTxId: string)
    requires Split(clientTxId, '-')[0] != "TFY" && Split(clientTxId, '-')[0] != "TESTIFYHQ"
    ensures ExtractUserId(clientTxId) == None
  {
  }

  lemma NoSeparatorNoId(clientTxId: string)
    requires '-' !in clientTxId
    ensures ExtractUserId(clientTxId) == None
  {
    SplitNoSeparator(clientTxId, '-');
  }

  /** `transactionStatus === 3 ? 'approved' : === 2 ? 'rejected' : 'pending'`. */
  function StatusOf(transactionStatus: Option<int>): (s: string)
    ensures s == "approved" <==> transactionStatus == Some(3)
    ensures s == "rejected" <==> transactionStatus == Some(2)
    ensures s == "pending" <==> transactionStatus != Some(3) && transactionStatus != Some(2)
  {
    if transactionStatus == Some(3) then "approved"
    else if transactionStatus == Some(2) then "rejected"
    else "pending"
  }

  predicate FalsyText(o: Option<string>) { o.None? || o.value == "" }

  predicate FalsyNumber(o: Option<int>) { o.None? || o.value == 0 }

  /** `!payload.clientTransactionId || !payload.id`. */
  predicate MissingFields(p: Payload) {
    FalsyText(p.clientTransactionId) || FalsyNumber(p.id)
  }

  /** A database answer to `ilike('id', prefix + '%')`: ids of existing users that start with
      the prefix, letter case aside. */
  predicate PrefixAnswer(users: set<string>, prefix: string, answer: seq<string>) {
    forall k :: 0 <= k < |answer| ==> answer[k] in users && Lower(prefix) <= Lower(answer[k])
  }

  /** The full user id: an 8-character id is a prefix whose first match is taken (no answer, or
      an empty one, resolves nothing); any other id is used as it is. */
  function Resolve(userId: string, lookup: Option<seq<string>>): (r: Option<string>)
    ensures |userId| != 8 ==> r == Some(userId)
    ensures |userId| == 8 ==> (r.Some? <==> lookup.Some? && lookup.value != [])
  {
    if |userId| == 8 then
      if lookup.None? || lookup.value == [] then None else Some(lookup.value[0])
    else Some(userId)
  }

  /** A prefix is resolved to an existing user whose id starts with it. */
  lemma ResolvedUserHasPrefix(users: set<string>, userId: string, answer: seq<string>)
    requires |userId| == 8 && PrefixAnswer(users, userId, answer)
    requires Resolve(userId, Some(answer)).Some?
    ensures Resolve(userId, Some(answer)).value in users
    ensures Lower(userId) <= Lower(Resolve(userId, Some(answer)).value)
  {
  }

  /** The user the payment belongs to, once the id checks pass; `None` when the handler stops
      with 400 (no usable id) or 404 (a prefix that resolves to nobody). */
  function TargetUser(p: Payload, lookup: Option<seq<string>>): (r: Option<string>)
    requires !MissingFields(p)
    ensures var e := ExtractUserId(p.clientTransactionId.value);
            (r.None? <==> e.None? || e.value == "" || (|e.value| == 8 && (lookup.None? || lookup.value == [])))
            && (e.Some? && e.value != "" && |e.value| != 8 ==> r == e)
  {
    var extracted := ExtractUserId(p.clientTransactionId.value);
    if extracted.None? || extracted.value == "" then None
    else Resolve(extracted.value, lookup)
  }

  /** The `payment_history` row upserted for a payment. */
  function RowOf(userId: string, p: Payload): (row: PaymentRow)
    requires !MissingFields(p)
    ensures row.userId == userId && row.clientTransactionId == p.clientTransactionId.value
    ensures row.transactionId == IntText(p.id.value)
    ensures row.amount == (if FalsyNumber(p.amount) then 899 else p.amount.value)
    ensures row.currency == (if FalsyText(p.currency) then "USD" else p.currency.value)
    ensures row.status == StatusOf(p.transactionStatus) && row.paymentMethod == p.paymentMethod
  {
    PaymentRow(userId, IntText(p.id.value), p.clientTransactionId.value,
               if FalsyNumber(p.amount) then 899 else p.amount.value,
               if FalsyText(p.currency) then "USD" else p.currency.value,
               StatusOf(p.transactionStatus), p.paymentMethod)
  }

  /** A payment without an amount or a currency is recorded at 899 in USD. */
  lemma RowDefaults(userId: string, p: Payload)
    requires !MissingFields(p) && p.amount.None? && p.currency.None?
    ensures RowOf(userId, p).amount == 899 && RowOf(userId, p).currency == "USD"
  {
  }

  /** `update({ subscription_tier: 'premium', subscription_expires_at: null }).eq('id', id)`:
      the matching user, if any, gets lifetime premium; no other row changes. */
  function Activate(users: map<string, UserRow>, id: string): (r: map<string, UserRow>)
    ensures r.Keys == users.Keys
    ensures id in users ==> r[id] == UserRow("premium", None)
    ensures forall u :: u in users && u != id ==> r[u] == users[u]
  {
    if id in users then users[id := UserRow("premium", None)] else users
  }

  /** The `payment_history` and `users` tables. */
  class Tables {
    var payments: map<string, PaymentRow>
    var users: map<string, UserRow>

    constructor (payments: map<string, PaymentRow>, users: map<string, UserRow>)
      ensures this.payments == payments && this.users == users
    {
      this.payments, this.users := payments, users;
    }

    /** The webhook. `payload` is `None` when the body is not JSON; `lookup` is the answer of
        the prefix query (`None` when it fails); the two flags say whether the upsert and the
        update fail. Any method but the preflight is handled. */
    method Webhook(httpMethod: string, payload: Option<Payload>, lookup: Option<seq<string>>,
                   upsertFails: bool, updateFails: bool) returns (resp: Response)
      modifies this
      ensures httpMethod == "OPTIONS" ==>
                resp == Response(200, Text("ok")) && payments == old(payments) && users == old(users)
      ensures httpMethod != "OPTIONS" && payload.None? ==>
                resp == Response(500, Failure("Internal server error")) && payments == old(payments) && users == old(users)
      ensures httpMethod != "OPTIONS" && payload.Some? && MissingFields(payload.value) ==>
                resp == Response(400, Failure("Missing required fields")) && payments == old(payments) && users == old(users)
      ensures httpMethod != "OPTIONS" && payload.Some? && !MissingFields(payload.value) ==>
                var p := payload.value;
                var extracted := ExtractUserId(p.clientTransactionId.value);
                var target := TargetUser(p, lookup);
                (extracted.None? || extracted.value == "" ==>
                   resp == Response(400, Failure("Invalid clientTransactionId format")))
                && (extracted.Some? && extracted.value != "" && target.None? ==>
                   resp == Response(404, Failure("User not found for transaction")))
                && (target.None? || upsertFails ==> payments == old(payments) && users == old(users))
                && (target.Some? && upsertFails ==> resp == Response(500, Failure("Failed to record payment")))
                && (target.Some? && !upsertFails ==>
                      payments == old(payments)[p.clientTransactionId.value := RowOf(target.value, p)]
                      && (StatusOf(p.transactionStatus) != "approved" ==>
                            users == old(users) && resp == Response(200, Processed(StatusOf(p.transactionStatus))))
                      && (StatusOf(p.transactionStatus) == "approved" && updateFails ==>
                            users == old(users) && resp == Response(500, Failure("Failed to activate subscription")))
                      && (StatusOf(p.transactionStatus) == "approved" && !updateFails ==>
                            users == Activate(old(users), target.value) && resp == Response(200, Processed("approved"))))
    {
      if httpMethod == "OPTIONS" {
        return Response(200, Text("ok"));
      }
      if payload.None? {
        return Response(500, Failure("Internal server error"));
      }
      var p := payload.value;
      if MissingFields(p) {
        return Response(400, Failure("Missing required fields"));
      }
      var userId := ExtractUserId(p.clientTransactionId.value);
      if userId.None? || userId.value == "" {
        return Response(400, Failure("Invalid clientTransactionId format"));
      }
      var fullUserId := userId.value;
      if |userId.value| == 8 {
        if lookup.None? || lookup.value == [] {
          return Response(404, Failure("User not found for transaction"));
        }
        fullUserId := lookup.value[0];
      }
      var status := StatusOf(p.transactionStatus);
      if upsertFails {
        return Response(500, Failure("Failed to record payment"));
      }
      payments := payments[p.clientTransactionId.value := RowOf(fullUserId, p)];
      if status == "approved" {
        if updateFails {
          return Response(500, Failure("Failed to activate subscription"));
        }
        users := Activate(users, fullUserId);
      }
      resp := Response(200, Processed(status));
    }
  }
}
