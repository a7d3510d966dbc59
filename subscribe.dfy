/** The newsletter `/subscribe` route: insert an email into the subscriber
    collection unless it is missing or already there. The collection is the
    sequence of subscribed emails held by `SubscriberList`. */
module Subscribe {
  import opened Common

  datatype Body = Error(error: string) | Success(success: bool, message: string)

  datatype Response = Response(status: int, body: Body)

  ghost predicate NoDup(s: seq<string>) {
    forall i, j :: 0 <= i < j < |s| ==> s[i] != s[j]
  }

  /** The collection after a request with body email `email`, and the answer. */
  function SubscribeOutcome(emails: seq<string>, email: Option<string>): (r: (seq<string>, Response))
    ensures r.1.status in {200, 400, 409}
    ensures r.0 == emails || (TruthyText(email) && email.value !in emails && r.0 == emails + [email.value])
  {
    if !TruthyText(email) then (emails, Response(400, Error("Email is required")))
    else if email.value in emails then (emails, Response(409, Error("Email already subscribed")))
    else (emails + [email.value], Response(200, Success(true, "Subscribed successfully")))
  }

  /** Only a success changes the collection, and it adds exactly the new
      email at the end; a missing email is 400 and a present one is 409. */
  lemma SubscribeChanges(emails: seq<string>, email: Option<string>)
    ensures var (after, res) := SubscribeOutcome(emails, email);
      (res.status == 200 <==> after != emails) &&
      (res.status == 200 ==> TruthyText(email) && email.value !in emails && after == emails + [email.value]) &&
      (res.status == 400 <==> !TruthyText(email)) &&
      (res.status == 409 <==> TruthyText(email) && email.value in emails) &&
      res.status in {200, 400, 409}
  {
    if TruthyText(email) && email.value !in emails {
      assert |emails + [email.value]| != |emails|;
    }
  }

  /** The collection keeps holding each email at most once. */
  lemma SubscribeKeepsNoDup(emails: seq<string>, email: Option<string>)
    requires NoDup(emails)
    ensures NoDup(SubscribeOutcome(emails, email).0)
  {
    if TruthyText(email) && email.value !in emails {
      var after := emails + [email.value];
      forall i, j | 0 <= i < j < |after|
        ensures after[i] != after[j]
      {
        if j == |emails| {
          assert after[i] == emails[i];
        }
      }
    }
  }

  /** A repeated subscribe of a subscribed email is refused and changes nothing. */
  lemma RepeatSubscribeConflicts(emails: seq<string>, email: Option<string>)
    requires TruthyText(email)
    ensures var after := SubscribeOutcome(emails, email).0;
      SubscribeOutcome(after, email) == (after, Response(409, Error("Email already subscribed")))
  {
    var after := SubscribeOutcome(emails, email).0;
    assert email.value in after by {
      if email.value !in emails {
        assert after[|emails|] == email.value;
      }
    }
  }

  /** A run of requests, one after the other. */
  function SubscribeAll(emails: seq<string>, requests: seq<Option<string>>): (seq<string>, seq<Response>)
    decreases |requests|
  {
    if |requests| == 0 then (emails, [])
    else
      var (next, res) := SubscribeOutcome(emails, requests[0]);
      var (last, rest) := SubscribeAll(next, requests[1..]);
      (last, [res] + rest)
  }

  /** After any run of requests the collection holds every email it held and
      every email some request carried, each once, and nothing else; one
      answer is 200 for each email added. */
  lemma {:induction false} SubscribeAllFacts(emails: seq<string>, requests: seq<Option<string>>)
    requires NoDup(emails)
    decreases |requests|
    ensures var (after, answers) := SubscribeAll(emails, requests);
      NoDup(after) && |answers| == |requests| &&
      (forall x :: x in after <==>
        x in emails || exists i :: 0 <= i < |requests| && requests[i] == Some(x) && x != "") &&
      |after| == |emails| + Successes(answers)
  {
    if |requests| > 0 {
      var (next, res) := SubscribeOutcome(emails, requests[0]);
      SubscribeKeepsNoDup(emails, requests[0]);
      SubscribeChanges(emails, requests[0]);
      SubscribeAllFacts(next, requests[1..]);
      var (after, answers) := SubscribeAll(emails, requests);
      var rest := SubscribeAll(next, requests[1..]).1;
      assert answers == [res] + rest;
      assert Successes(answers) == (if res.status == 200 then 1 else 0) + Successes(rest) by {
        assert answers[0] == res && answers[1..] == rest;
      }
      forall x
        ensures x in after <==>
          x in emails || exists i :: 0 <= i < |requests| && requests[i] == Some(x) && x != ""
      {
        if exists i :: 0 <= i < |requests[1..]| && requests[1..][i] == Some(x) && x != "" {
          var i :| 0 <= i < |requests[1..]| && requests[1..][i] == Some(x) && x != "";
          assert requests[i + 1] == Some(x);
        }
        if exists i :: 0 <= i < |requests| && requests[i] == Some(x) && x != "" {
          var i :| 0 <= i < |requests| && requests[i] == Some(x) && x != "";
          if i > 0 {
            assert requests[1..][i - 1] == Some(x);
          } else {
            assert x in next;
          }
        }
      }
    }
  }

  /** The number of successful answers. */
  function Successes(answers: seq<Response>): nat {
    if |answers| == 0 then 0
    else (if answers[0].status == 200 then 1 else 0) + Successes(answers[1..])
  }

  /** The subscriber collection. */
  class SubscriberList {
    var emails: seq<string>

    ghost predicate Valid()
      reads this
    {
      NoDup(emails)
    }

    constructor ()
      ensures Valid() && emails == []
    {
      emails := [];
    }

    /** The `/subscribe` handler: look the email up, then create it. */
    method Subscribe(email: Option<string>) returns (res: Response)
      requires Valid()
      modifies this
      ensures Valid()
      ensures (emails, res) == SubscribeOutcome(old(emails), email)
    {
      SubscribeKeepsNoDup(emails, email);
      if !TruthyText(email) {
        return Response(400, Error("Email is required"));
      }
      var existing := email.value in emails;
      if existing {
        return Response(409, Error("Email already subscribed"));
      }
      emails := emails + [email.value];
      res := Response(200, Success(true, "Subscribed successfully"));
    }
  }
}
