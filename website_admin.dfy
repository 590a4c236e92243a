/**
 * The website's writing endpoints (WebsiteBackendFunctions): the admin hut
 * update, which keeps the server-owned columns of the stored hut, and the
 * free-bed notification sign-up with its validation attributes.
 */
module WebsiteAdmin {
  import opened Wrappers
  import opened Strings
  import opened Store
  import Dispatch

  // ------------------------------------------------------ admin UpdateHut

  /**
   * Lines 71-75: the request's hut, with Added, Activated and Source taken
   * from the stored hut, marked as manually edited and stamped now.
   */
  function AdminUpdated(stored: Hut, request: Hut, now: Time): (h: Hut)
    ensures h.added == stored.added && h.activated == stored.activated && h.source == stored.source
    ensures h.manuallyEdited == Some(true) && h.lastUpdated == Some(now)
    ensures h == request.(added := h.added, activated := h.activated, source := h.source,
                          manuallyEdited := h.manuallyEdited, lastUpdated := h.lastUpdated)
  {
    request.(added := stored.added, activated := stored.activated, source := stored.source,
             lastUpdated := Some(now), manuallyEdited := Some(true))
  }

  /**
   * `UpdateHut` (UpdateHutFunction.cs lines 28-85): 404 for an unknown id,
   * 400 for a body that is null or not a hut, 400 when the body's id is not
   * the route's; otherwise 200 with the merged hut, which the output
   * binding writes. `request` is `None` when the body did not deserialize.
   */
  function AdminUpdateReply(huts: map<int, Hut>, id: int, request: Option<Hut>, now: Time): (reply: Dispatch.Reply<Hut>)
    ensures reply.NotFound? <==> id !in huts
    ensures reply.BadRequest? <==> id in huts && (request.None? || request.value.id != id)
    ensures reply.Ok? <==> id in huts && request.Some? && request.value.id == id
    ensures reply.Ok? ==> reply.body.id == id && reply.body == AdminUpdated(huts[id], request.value, now)
  {
    if id !in huts then Dispatch.NotFound
    else if request.None? then Dispatch.BadRequest
    else if request.value.id != id then Dispatch.BadRequest
    else Dispatch.Ok(AdminUpdated(huts[id], request.value, now))
  }

  /** The admin update as the function runs it; only a successful reply writes the hut. */
  method UpdateHut(db: Database, id: int, request: Option<Hut>, now: Time) returns (reply: Dispatch.Reply<Hut>)
    requires db.Valid()
    modifies db`huts
    ensures reply == AdminUpdateReply(old(db.huts), id, request, now)
    ensures db.huts == if reply.Ok? then old(db.huts)[id := reply.body] else old(db.huts)
    ensures db.Valid()
  {
    if id !in db.huts {
      return Dispatch.NotFound;
    }
    var hut := db.huts[id];
    if request.None? {
      return Dispatch.BadRequest;
    }
    var requestBody := request.value;
    if requestBody.id != id {
      return Dispatch.BadRequest;
    }
    requestBody := requestBody.(added := hut.added, activated := hut.activated, source := hut.source,
                                lastUpdated := Some(now), manuallyEdited := Some(true));
    db.huts := db.huts[id := requestBody];
    reply := Dispatch.Ok(requestBody);
  }

  /** Sending the same update twice at the same time leaves what sending it once left. */
  lemma AdminUpdateIdempotent(huts: map<int, Hut>, id: int, request: Option<Hut>, now: Time)
    requires AdminUpdateReply(huts, id, request, now).Ok?
    ensures var h := AdminUpdateReply(huts, id, request, now).body;
      AdminUpdateReply(huts[id := h], id, request, now) == Dispatch.Ok(h)
  {
  }

  /** Whatever the admin sends, the stored hut's Added, Activated and Source survive. */
  lemma AdminUpdateKeepsServerColumns(huts: map<int, Hut>, id: int, request: Option<Hut>, now: Time)
    requires id in huts
    ensures var r := AdminUpdateReply(huts, id, request, now);
      r.Ok? ==> r.body.added == huts[id].added && r.body.activated == huts[id].activated &&
                r.body.source == huts[id].source && r.body.manuallyEdited == Some(true)
  {
  }

  // ---------------------------------------------- e-mail address validation

  predicate IsAsciiLetterOrDigit(c: char)
  {
    'a' <= c <= 'z' || 'A' <= c <= 'Z' || '0' <= c <= '9'
  }

  /** `[a-zA-Z0-9_.+-]`, the local part's class. */
  predicate LocalChar(c: char)
  {
    IsAsciiLetterOrDigit(c) || c == '_' || c == '.' || c == '+' || c == '-'
  }

  /** `[a-zA-Z0-9-]`, the domain label's class. */
  predicate DomainChar(c: char)
  {
    IsAsciiLetterOrDigit(c) || c == '-'
  }

  /** `[a-zA-Z0-9-.]`, the class after the first dot. */
  predicate TopChar(c: char)
  {
    IsAsciiLetterOrDigit(c) || c == '-' || c == '.'
  }

  predicate LocalRun(s: string) { |s| > 0 && forall i :: 0 <= i < |s| ==> LocalChar(s[i]) }
  predicate DomainRun(s: string) { |s| > 0 && forall i :: 0 <= i < |s| ==> DomainChar(s[i]) }
  predicate TopRun(s: string) { |s| > 0 && forall i :: 0 <= i < |s| ==> TopChar(s[i]) }

  /**
   * The whole address matches `^[a-zA-Z0-9_.+-]+@[a-zA-Z0-9-]+\.[a-zA-Z0-9-.]+$`
   * (FreeBedUpdateSubscription.cs line 9), read as the regular expression
   * says: some split into a local part, '@', a label, '.', and a tail.
   */
  ghost predicate MatchesEmailPattern(s: string)
  {
    exists at, dot :: 0 < at && at + 1 < dot < |s| - 1 && s[at] == '@' && s[dot] == '.' &&
      LocalRun(s[..at]) && DomainRun(s[at + 1..dot]) && TopRun(s[dot + 1..])
  }

  /** The position of the first c in s. */
  function IndexOf(s: string, c: char): (r: Option<nat>)
    ensures r.Some? ==> r.value < |s| && s[r.value] == c && forall i :: 0 <= i < r.value ==> s[i] != c
    ensures r.None? ==> forall i :: 0 <= i < |s| ==> s[i] != c
    decreases |s|
  {
    if s == [] then None
    else if s[0] == c then Some(0)
    else
      var r := IndexOf(s[1..], c);
      assert forall i :: 1 <= i < |s| ==> s[i] == s[1..][i - 1];
      if r.None? then None else Some(r.value + 1)
  }

  /**
   * The matcher: no class holds '@' and the label's class holds no '.', so
   * the split is at the first '@' and at the first '.' after it.
   */
  function EmailMatches(s: string): bool
  {
    match IndexOf(s, '@')
    case None => false
    case Some(at) =>
      var rest := s[at + 1..];
      match IndexOf(rest, '.')
      case None => false
      case Some(k) =>
        LocalRun(s[..at]) && DomainRun(rest[..k]) && TopRun(rest[k + 1..])
  }

  /** Every address the matcher accepts matches the pattern. */
  lemma MatchedIsPattern(s: string)
    requires EmailMatches(s)
    ensures MatchesEmailPattern(s)
  {
    var at := IndexOf(s, '@').value;
    var rest := s[at + 1..];
    var k := IndexOf(rest, '.').value;
    var dot := at + 1 + k;
    assert s[at + 1..dot] == rest[..k];
    assert s[dot + 1..] == rest[k + 1..];
    assert s[dot] == rest[k];
  }

  /** Every address of the pattern is accepted by the matcher. */
  lemma PatternIsMatched(s: string, at: int, dot: int)
    requires 0 < at && at + 1 < dot < |s| - 1 && s[at] == '@' && s[dot] == '.'
    requires LocalRun(s[..at]) && DomainRun(s[at + 1..dot]) && TopRun(s[dot + 1..])
    ensures EmailMatches(s)
  {
    assert forall i :: 0 <= i < at ==> s[..at][i] == s[i];
    assert IndexOf(s, '@') == Some(at);
    var rest := s[at + 1..];
    var k := dot - at - 1;
    assert forall i :: 0 <= i < k ==> rest[i] == s[at + 1..dot][i];
    assert IndexOf(rest, '.') == Some(k);
    assert rest[..k] == s[at + 1..dot];
    assert rest[k + 1..] == s[dot + 1..];
  }

  /** The matcher accepts exactly the addresses the pattern describes. */
  lemma EmailMatchesPattern(s: string)
    ensures EmailMatches(s) <==> MatchesEmailPattern(s)
  {
    if EmailMatches(s) {
      MatchedIsPattern(s);
    }
    if MatchesEmailPattern(s) {
      var at, dot :| 0 < at && at + 1 < dot < |s| - 1 && s[at] == '@' && s[dot] == '.' &&
        LocalRun(s[..at]) && DomainRun(s[at + 1..dot]) && TopRun(s[dot + 1..]);
      PatternIsMatched(s, at, dot);
    }
  }

  /** An accepted address holds exactly one '@'. */
  lemma AcceptedHasOneAt(s: string)
    requires EmailMatches(s)
    ensures exists at :: 0 <= at < |s| && s[at] == '@' && forall i :: 0 <= i < |s| && s[i] == '@' ==> i == at
  {
    var at := IndexOf(s, '@').value;
    var rest := s[at + 1..];
    var k := IndexOf(rest, '.').value;
    forall i | at < i < |s|
      ensures s[i] != '@'
    {
      var j := i - at - 1;
      assert s[i] == rest[j];
      if j < k {
        assert rest[..k][j] == s[i];
        assert DomainChar(s[i]);
      } else if j > k {
        assert rest[k + 1..][j - k - 1] == s[i];
        assert TopChar(s[i]);
      }
    }
  }

  /** A domain that starts with '.' is refused: "a@.com". */
  lemma DotAfterAtRejected()
    ensures !EmailMatches("a@.com")
  {
    var s := "a@.com";
    assert s[1] == '@' && s[0] != '@';
    assert IndexOf(s, '@') == Some(1);
    var rest := s[2..];
    assert rest[0] == '.';
    assert IndexOf(rest, '.') == Some(0);
  }

  /** A plain address is accepted. */
  lemma PlainAddressAccepted()
    ensures EmailMatches("a@b.ch")
  {
    var s := "a@b.ch";
    assert s[1] == '@' && s[0] != '@';
    assert IndexOf(s, '@') == Some(1);
    var rest := s[2..];
    assert rest == "b.ch";
    assert rest[1] == '.' && rest[0] != '.';
    assert IndexOf(rest, '.') == Some(1);
    assert rest[..1] == "b" && rest[2..] == "ch";
  }

  // ------------------------------------------------- subscription sign-up

  /** The request body (`FreeBedUpdateSubscription`), as it deserialized. */
  datatype SubscriptionRequest = SubscriptionRequest(
    emailAddress: Option<string>,
    hutId: Option<int>,
    date: Option<Day>,
    notified: Option<bool>)

  /** The validation attributes' messages, in the order the validator reports them. */
  datatype ValidationError = EmailRequired | EmailFormat | EmailTooLong | DateRequired

  const MaxEmailLength: int := 100

  /**
   * `Validator.TryValidateObject` over the attributes (lines 8-16): a
   * missing or blank address fails `Required` and nothing else is checked
   * on it; otherwise the pattern and the length of 100 are each checked; a
   * missing date fails `Required`.
   */
  function ValidationErrors(body: SubscriptionRequest): (errors: seq<ValidationError>)
    ensures errors == [] <==>
      body.emailAddress.Some? && !IsNullOrWhiteSpace(body.emailAddress) && EmailMatches(body.emailAddress.value) &&
      |body.emailAddress.value| <= MaxEmailLength && body.date.Some?
  {
    var email := body.emailAddress;
    (if IsNullOrWhiteSpace(email) then [EmailRequired]
     else (if EmailMatches(email.value) then [] else [EmailFormat]) +
          (if |email.value| <= MaxEmailLength then [] else [EmailTooLong])) +
    (if body.date.None? then [DateRequired] else [])
  }

  /** The table key of a subscription: hut, date and address. */
  predicate SameKey(a: FreeBedSubscription, b: FreeBedSubscription)
  {
    a.hutId == b.hutId && a.date == b.date && a.emailAddress == b.emailAddress
  }

  /**
   * The SQL output binding's upsert: the row with the same key is
   * replaced, otherwise the row is appended.
   */
  function UpsertSubscription(subs: seq<FreeBedSubscription>, s: FreeBedSubscription): (r: seq<FreeBedSubscription>)
    ensures s in r
    ensures |r| == |subs| || |r| == |subs| + 1
    ensures forall t :: t in r ==> t == s || t in subs
    ensures forall t :: t in subs && !SameKey(t, s) ==> t in r
    decreases |subs|
  {
    if subs == [] then [s]
    else if SameKey(subs[0], s) then [s] + subs[1..]
    else [subs[0]] + UpsertSubscription(subs[1..], s)
  }

  /** Row k is the first row with the key of s. */
  predicate FirstWithKey(subs: seq<FreeBedSubscription>, s: FreeBedSubscription, k: int)
  {
    0 <= k < |subs| && SameKey(subs[k], s) && forall i :: 0 <= i < k ==> !SameKey(subs[i], s)
  }

  /**
   * The new row takes the place of the first row with its key; when no row
   * has its key it is appended, and nothing else changes.
   */
  lemma UpsertSubscriptionPlace(subs: seq<FreeBedSubscription>, s: FreeBedSubscription)
    ensures (forall i :: 0 <= i < |subs| ==> !SameKey(subs[i], s)) ==> UpsertSubscription(subs, s) == subs + [s]
    ensures forall k :: FirstWithKey(subs, s, k) ==> UpsertSubscription(subs, s) == subs[k := s]
  {
    if forall i :: 0 <= i < |subs| ==> !SameKey(subs[i], s) {
      UpsertAppends(subs, s);
    }
    forall k | FirstWithKey(subs, s, k)
      ensures UpsertSubscription(subs, s) == subs[k := s]
    {
      UpsertReplaces(subs, s, k);
    }
  }

  lemma {:induction false} UpsertAppends(subs: seq<FreeBedSubscription>, s: FreeBedSubscription)
    requires forall i :: 0 <= i < |subs| ==> !SameKey(subs[i], s)
    ensures UpsertSubscription(subs, s) == subs + [s]
    decreases |subs|
  {
    if subs != [] {
      assert !SameKey(subs[0], s);
      assert forall i :: 0 <= i < |subs| - 1 ==> subs[1..][i] == subs[i + 1];
      UpsertAppends(subs[1..], s);
      assert [subs[0]] + (subs[1..] + [s]) == subs + [s];
    }
  }

  lemma {:induction false} UpsertReplaces(subs: seq<FreeBedSubscription>, s: FreeBedSubscription, k: int)
    requires FirstWithKey(subs, s, k)
    ensures UpsertSubscription(subs, s) == subs[k := s]
    decreases |subs|
  {
    if k == 0 {
      assert [s] + subs[1..] == subs[0 := s];
    } else {
      assert !SameKey(subs[0], s);
      assert FirstWithKey(subs[1..], s, k - 1) by {
        assert forall i :: 0 <= i < k - 1 ==> subs[1..][i] == subs[i + 1];
      }
      UpsertReplaces(subs[1..], s, k - 1);
      assert [subs[0]] + subs[1..][k - 1 := s] == subs[k := s];
    }
  }

  /** At most one row per key, as the table's key promises. */
  predicate KeysUnique(subs: seq<FreeBedSubscription>)
  {
    forall i, j :: 0 <= i < j < |subs| ==> !SameKey(subs[i], subs[j])
  }

  /**
   * On a table with one row per key the upsert keeps one row per key, and
   * the row of the new key is the new row.
   */
  lemma {:induction false} UpsertKeepsKeysUnique(subs: seq<FreeBedSubscription>, s: FreeBedSubscription)
    requires KeysUnique(subs)
    ensures KeysUnique(UpsertSubscription(subs, s))
    ensures forall t :: t in UpsertSubscription(subs, s) && SameKey(t, s) ==> t == s
    decreases |subs|
  {
    var r := UpsertSubscription(subs, s);
    if subs != [] {
      if SameKey(subs[0], s) {
        assert r == [s] + subs[1..];
        assert forall j :: 1 <= j < |subs| ==> !SameKey(subs[0], subs[j]);
        assert forall t :: t in subs[1..] ==> !SameKey(t, s);
      } else {
        UpsertKeepsKeysUnique(subs[1..], s);
        var rest := UpsertSubscription(subs[1..], s);
        assert r == [subs[0]] + rest;
        forall j | 0 < j < |r|
          ensures !SameKey(r[0], r[j])
        {
          assert r[j] in rest;
        }
      }
    }
  }

  /** The row the sign-up writes: the route's hut id, not yet notified. */
  function NewSubscription(body: SubscriptionRequest, hutId: int): FreeBedSubscription
    requires body.emailAddress.Some?
  {
    FreeBedSubscription(body.emailAddress.value, Some(hutId), body.date, Some(false))
  }

  /**
   * `CreateFreeBedNotificationSubscription.Run` (lines 21-65), checks in
   * order: the hut must exist, must not be disabled (a null flag passes),
   * the body must pass validation, and its date must not lie before today.
   * A body that does not deserialize to an object fails with status 500.
   */
  function SubscriptionReply(huts: map<int, Hut>, hutId: int, body: Option<SubscriptionRequest>, today: Day)
    : (r: (Dispatch.Reply<()>, seq<ValidationError>))
    ensures r.0.NotFound? == false
    ensures hutId !in huts ==> r.0.BadRequest? && r.1 == []
    ensures r.0.Ok? <==>
      hutId in huts && huts[hutId].enabled != Some(false) && body.Some? && ValidationErrors(body.value) == [] &&
      body.value.date.value >= today
    ensures r.1 != [] ==> r.0.BadRequest? && body.Some? && r.1 == ValidationErrors(body.value)
    ensures hutId in huts && huts[hutId].enabled == Some(false) ==> r.0.BadRequest? && r.1 == []
    ensures hutId in huts && huts[hutId].enabled != Some(false) ==>
      (r.0.ServerError? <==> body.None?) &&
      (body.Some? && ValidationErrors(body.value) != [] ==> r.0.BadRequest? && r.1 == ValidationErrors(body.value))
  {
    if hutId !in huts then (Dispatch.BadRequest, [])
    else if huts[hutId].enabled == Some(false) then (Dispatch.BadRequest, [])
    else if body.None? then (Dispatch.ServerError, [])
    else if ValidationErrors(body.value) != [] then (Dispatch.BadRequest, ValidationErrors(body.value))
    else if body.value.date.value < today then (Dispatch.BadRequest, [])
    else (Dispatch.Ok(()), [])
  }

  /** The sign-up as the function runs it: on success exactly one row, for the route's hut, is written. */
  method CreateFreeBedNotificationSubscription(db: Database, hutId: int, body: Option<SubscriptionRequest>, today: Day)
    returns (reply: Dispatch.Reply<()>, errors: seq<ValidationError>)
    modifies db`subscriptions
    ensures (reply, errors) == SubscriptionReply(db.huts, hutId, body, today)
    ensures reply.Ok? ==>
      body.value.emailAddress.Some? &&
      db.subscriptions == UpsertSubscription(old(db.subscriptions), NewSubscription(body.value, hutId))
    ensures !reply.Ok? ==> db.subscriptions == old(db.subscriptions)
  {
    errors := [];
    if hutId !in db.huts {
      return Dispatch.BadRequest, [];
    }
    var hut := db.huts[hutId];
    if hut.enabled == Some(false) {
      return Dispatch.BadRequest, [];
    }
    if body.None? {
      return Dispatch.ServerError, [];
    }
    var results := ValidationErrors(body.value);
    if results != [] {
      return Dispatch.BadRequest, results;
    }
    if body.value.date.value < today {
      return Dispatch.BadRequest, [];
    }
    var item := body.value.(hutId := Some(hutId), notified := Some(false));
    db.subscriptions := UpsertSubscription(db.subscriptions,
      FreeBedSubscription(item.emailAddress.value, item.hutId, item.date, item.notified));
    reply := Dispatch.Ok(());
  }

  /** A date of today is accepted; the day before is refused. */
  lemma TodayAcceptedYesterdayRefused(huts: map<int, Hut>, hutId: int, body: SubscriptionRequest, today: Day)
    requires hutId in huts && huts[hutId].enabled != Some(false) && ValidationErrors(body) == []
    ensures body.date == Some(today) ==> SubscriptionReply(huts, hutId, Some(body), today).0.Ok?
    ensures body.date == Some(today - 1) ==> SubscriptionReply(huts, hutId, Some(body), today).0.BadRequest?
  {
  }
}
