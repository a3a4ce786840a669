/** `POST /api/newsletter`: one subscription per email address. */
module Newsletter {
  import opened Wrappers
  import opened Text
  import Checkout
  import Schema

  datatype Subscription = Subscription(id: nat, email: string, isActive: bool)

  /** The reply's `subscription` object: only the id and the email. */
  datatype SubscriptionView = SubscriptionView(id: nat, email: string)

  /** `/\S+@\S+\.\S+/.test(s)` with no anchors: somewhere in `s` a non-space character, '@',
      a non-empty run of non-space characters, '.', and a non-space character follow each other. */
  predicate LooseEmail(s: string) {
    exists at, dot :: 0 < at < dot < |s| && LooseEmailAt(s, at, dot)
  }

  /** The match with its '@' at `at` and its '.' at `dot`. */
  predicate LooseEmailAt(s: string, at: int, dot: int) {
    && 0 < at && at + 1 < dot && dot + 1 < |s| && s[at] == '@' && s[dot] == '.'
    && !IsSpace(s[at - 1]) && NoSpace(s[at + 1..dot]) && !IsSpace(s[dot + 1])
  }

  predicate Subscribed(subs: seq<Subscription>, email: string) {
    exists i :: 0 <= i < |subs| && subs[i].email == email
  }

  predicate UniqueEmails(subs: seq<Subscription>) {
    forall i, j :: 0 <= i < j < |subs| ==> subs[i].id != subs[j].id && subs[i].email != subs[j].email
  }

  function Subscribe(subs: seq<Subscription>, email: Option<string>): (r: (Response<SubscriptionView>, seq<Subscription>))
    ensures email.None? || email.value == "" || !LooseEmail(email.value) ==>
      r == (Err(400, "Valid email address is required"), subs)
    ensures email.Some? && LooseEmail(email.value) && Subscribed(subs, email.value) ==>
      r == (Err(409, "Email is already subscribed"), subs)
    ensures r.0.Ok? <==> email.Some? && LooseEmail(email.value) && !Subscribed(subs, email.value)
    ensures r.0.Ok? ==>
      && r.0.status == 201
      && r.0.value.email == email.value
      && (forall i :: 0 <= i < |subs| ==> subs[i].id < r.0.value.id)
      && r.1 == subs + [Subscription(r.0.value.id, email.value, true)]
  {
    if email.None? || email.value == "" || !LooseEmail(email.value) then (Err(400, "Valid email address is required"), subs)
    else if Subscribed(subs, email.value) then (Err(409, "Email is already subscribed"), subs)
    else
      var id := Schema.NextId(subs, (x: Subscription) => x.id);
      (Ok(201, SubscriptionView(id, email.value)), subs + [Subscription(id, email.value, true)])
  }

  /** Subscribing keeps one row per email, and subscribing the same address again is refused. */
  lemma SubscribeKeepsEmailsUnique(subs: seq<Subscription>, email: Option<string>)
    requires UniqueEmails(subs)
    ensures var r := Subscribe(subs, email);
      && UniqueEmails(r.1)
      && (r.0.Ok? ==> Subscribe(r.1, email) == (Err(409, "Email is already subscribed"), r.1))
  {
    var r := Subscribe(subs, email);
    if r.0.Ok? {
      forall i, j | 0 <= i < j < |r.1| ensures r.1[i].id != r.1[j].id && r.1[i].email != r.1[j].email {
        if j == |subs| {
          assert r.1[i] == subs[i];
          assert subs[i].email != email.value;
        }
      }
      assert r.1[|subs|].email == email.value;
    }
  }

  /** Every address the checkout form accepts passes this check too. */
  lemma CheckoutEmailsPass(s: string)
    requires Checkout.ValidEmail(s)
    ensures LooseEmail(s)
  {
    var p, q :| 0 <= p < q < |s| && s[p] == '@' && s[q] == '.' &&
      Checkout.EmailPart(s[..p]) && Checkout.EmailPart(s[p + 1..q]) && Checkout.EmailPart(s[q + 1..]);
    assert s[..p][p - 1] == s[p - 1];
    assert s[q + 1..][0] == s[q + 1];
    assert LooseEmailAt(s, p, q);
  }

  /** Because the pattern is not anchored, an address with a space in it, which the checkout
      form refuses, is accepted here. */
  lemma UnanchoredAcceptsSpaces()
    ensures LooseEmail("a b@c.in")
    ensures !Checkout.ValidEmail("a b@c.in")
  {
    var s := "a b@c.in";
    assert s[3] == '@' && s[5] == '.' && s[4..5] == "c";
    assert NoSpace(s[4..5]);
    assert LooseEmailAt(s, 3, 5);
    Checkout.EmailExamples();
  }
}
