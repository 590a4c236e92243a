/**
 * The hut importer of the newer function app (FetchDataFunctions
 * `UpdateHutsFunctions`): one activity per hut id loads the provider's hut
 * page, parses it and either inserts a new hut or merges the page into the
 * stored one; a debugging HTTP trigger runs the activity over a list of ids.
 */
module UpdateHuts {
  import opened Wrappers
  import opened Strings
  import opened Store
  import opened HutParsing
  import Dispatch

  /** The provider's page text for an id it does not know. */
  const NotFoundPhrase: string := "kann nicht gefunden werden"

  /**
   * What the activity loads for one id: the text of the first page (locale
   * de_DE), then the page it parses (reloaded when the hut's German locale
   * is another one) and that page's address, which becomes the hut's link.
   */
  datatype HutFetch = HutFetch(firstText: string, page: HutPage, url: string)

  /** The parsed hut is rejected: no info container or no name (a null result), or an excluded name. */
  predicate Rejected(page: HutPage)
  {
    page.info.None? || page.info.value.name == [] || page.info.value.name in ExcludedHutNames
  }

  /** An existing hut is geocoded again only when its position or its country is missing. */
  predicate NeedsGeocoding(stored: Hut)
  {
    stored.latitude.None? || stored.longitude.None? || IsNullOrEmpty(stored.country)
  }

  /**
   * Lines 167-179: for a stored hut that needs it, a coordinate search by the
   * parsed name; a hit sets the position and, where the reverse lookup
   * answers, the country and region.
   */
  function Regeocode(stored: Hut, parsed: Hut, search: Search, reverse: Reverse, fuel: nat): (r: Hut)
    ensures !NeedsGeocoding(stored) ==> r == parsed
    ensures r.latitude.Some? != parsed.latitude.Some? ==> NeedsGeocoding(stored)
    ensures r.latitude != parsed.latitude ==>
      r.latitude.Some? && r.longitude.Some? &&
      SearchHutCoordinates(parsed.name, search, fuel) == Some((r.latitude.value, r.longitude.value)) &&
      InBox(r.latitude.value, r.longitude.value)
    ensures r.(latitude := parsed.latitude, longitude := parsed.longitude, country := parsed.country, region := parsed.region) == parsed
    ensures SearchHutCoordinates(parsed.name, search, fuel).None? ==> r == parsed
    ensures NeedsGeocoding(stored) && SearchHutCoordinates(parsed.name, search, fuel).Some? ==>
      var p := SearchHutCoordinates(parsed.name, search, fuel).value;
      r.latitude == Some(p.0) && r.longitude == Some(p.1) &&
      r.country == (if reverse(p.0, p.1).0.Some? then reverse(p.0, p.1).0 else parsed.country) &&
      r.region == (if reverse(p.0, p.1).1.Some? then reverse(p.0, p.1).1 else parsed.region)
  {
    if !NeedsGeocoding(stored) then parsed
    else
      var position := SearchHutCoordinates(parsed.name, search, fuel);
      if position.None? then parsed
      else
        var geocoded := reverse(position.value.0, position.value.1);
        parsed.(latitude := Some(position.value.0), longitude := Some(position.value.1),
                country := geocoded.0.OrElse(parsed.country), region := geocoded.1.OrElse(parsed.region))
  }

  /** The activation stamp of a stored hut: today exactly when the hut goes from disabled to enabled. */
  function Activation(stored: Hut, enabled: Option<bool>, today: Time): Option<Time>
  {
    if stored.enabled == Some(false) && enabled == Some(true) then Some(today) else stored.activated
  }

  /**
   * Lines 180-192: name, enabled flag, link and website are overwritten;
   * position, country and region take the page's value only when it has one.
   */
  function MergeExisting(stored: Hut, parsed: Hut, today: Time, now: Time): (h: Hut)
    ensures h.id == stored.id && h.coordinates == stored.coordinates && h.altitude == stored.altitude
    ensures h.added == stored.added && h.manuallyEdited == stored.manuallyEdited && h.source == stored.source
    ensures h.name == parsed.name && h.enabled == parsed.enabled && h.link == parsed.link && h.hutWebsite == parsed.hutWebsite
    ensures h.latitude == (if parsed.latitude.Some? then parsed.latitude else stored.latitude)
    ensures h.longitude == (if parsed.longitude.Some? then parsed.longitude else stored.longitude)
    ensures h.country == (if parsed.country.Some? then parsed.country else stored.country)
    ensures h.region == (if parsed.region.Some? then parsed.region else stored.region)
    ensures h.activated == Activation(stored, parsed.enabled, today) && h.lastUpdated == Some(now)
  {
    stored.(name := parsed.name, activated := Activation(stored, parsed.enabled, today), enabled := parsed.enabled,
            link := parsed.link, hutWebsite := parsed.hutWebsite,
            latitude := parsed.latitude.OrElse(stored.latitude), longitude := parsed.longitude.OrElse(stored.longitude),
            country := parsed.country.OrElse(stored.country), region := parsed.region.OrElse(stored.region),
            lastUpdated := Some(now))
  }

  /**
   * `GetHutFromProviderActivity` (lines 110-221) as a function of the stored
   * huts: the hut it writes and returns, or None when it writes nothing. A
   * null parse result reaches `ExcludedHutNames.Contains(parsedHut.Name)`
   * first and throws; the handler swallows it, so that case writes nothing
   * as well.
   */
  function HutActivity(huts: map<int, Hut>, hutId: int, fetch: HutFetch, search: Search, reverse: Reverse,
                       fuel: nat, today: Time, now: Time): (r: Option<Hut>)
    ensures r.None? <==> Contains(fetch.firstText, NotFoundPhrase) || Rejected(fetch.page)
    ensures r.Some? ==>
      r.value.id == (if hutId in huts then huts[hutId].id else hutId) &&
      r.value.name == fetch.page.info.value.name && r.value.link == Some(fetch.url) &&
      r.value.enabled == Some(HutEnabled(fetch.page.text)) && r.value.hutWebsite == WebsiteWithScheme(fetch.page.websiteHref) &&
      r.value.lastUpdated == Some(now)
    ensures r.Some? && hutId !in huts ==>
      r.value.added == Some(today) && r.value.activated == (if HutEnabled(fetch.page.text) then Some(today) else None)
    ensures r.Some? && hutId in huts ==>
      var stored := huts[hutId];
      r.value.added == stored.added && r.value.manuallyEdited == stored.manuallyEdited && r.value.source == stored.source &&
      r.value.coordinates == stored.coordinates && r.value.altitude == stored.altitude &&
      r.value.activated == Activation(stored, Some(HutEnabled(fetch.page.text)), today) &&
      (stored.latitude.Some? ==> r.value.latitude.Some?) && (stored.longitude.Some? ==> r.value.longitude.Some?) &&
      (stored.country.Some? ==> r.value.country.Some?) && (stored.region.Some? ==> r.value.region.Some?)
  {
    if Contains(fetch.firstText, NotFoundPhrase) then None
    else
      var parsed := ParseHutInformation(hutId, fetch.page, hutId !in huts, search, reverse, fuel, now);
      if parsed.None? || parsed.value.name in ExcludedHutNames then None
      else
        var hut := parsed.value.(link := Some(fetch.url));
        if hutId in huts then
          var stored := huts[hutId];
          Some(MergeExisting(stored, Regeocode(stored, hut, search, reverse, fuel), today, now))
        else
          Some(hut.(added := Some(today), activated := if hut.enabled == Some(true) then Some(today) else None))
  }

  /** Lines 164-192: the stored hut, re-geocoded when it needs it and merged with the page. */
  method UpdateStoredHut(stored: Hut, parsed: Hut, search: Search, reverse: Reverse, fuel: nat, today: Time, now: Time)
    returns (updated: Hut)
    ensures updated == MergeExisting(stored, Regeocode(stored, parsed, search, reverse, fuel), today, now)
  {
    var hut := parsed;
    if NeedsGeocoding(stored) {
      var position := SearchHutCoordinates(hut.name, search, fuel);
      if position.Some? {
        hut := hut.(latitude := Some(position.value.0), longitude := Some(position.value.1));
        var geocoded := reverse(position.value.0, position.value.1);
        hut := hut.(country := geocoded.0.OrElse(hut.country), region := geocoded.1.OrElse(hut.region));
      }
    }
    updated := stored.(name := hut.name);
    if stored.enabled == Some(false) && hut.enabled == Some(true) {
      updated := updated.(activated := Some(today));
    }
    updated := updated.(enabled := hut.enabled, link := hut.link, hutWebsite := hut.hutWebsite);
    updated := updated.(latitude := hut.latitude.OrElse(stored.latitude), longitude := hut.longitude.OrElse(stored.longitude));
    updated := updated.(country := hut.country.OrElse(stored.country), region := hut.region.OrElse(stored.region));
    updated := updated.(lastUpdated := Some(now));
  }

  /**
   * The activity against the database: it changes at most the hut stored
   * under `hutId`, and only when it returns that hut.
   */
  method GetHutFromProviderActivity(db: Database, hutId: int, fetch: HutFetch, search: Search, reverse: Reverse,
                                    fuel: nat, today: Time, now: Time) returns (result: Option<Hut>)
    requires db.Valid()
    modifies db`huts
    ensures result == HutActivity(old(db.huts), hutId, fetch, search, reverse, fuel, today, now)
    ensures db.huts == if result.Some? then old(db.huts)[hutId := result.value] else old(db.huts)
    ensures db.Valid()
  {
    var existingHut := if hutId in db.huts then Some(db.huts[hutId]) else None;
    if Contains(fetch.firstText, NotFoundPhrase) {
      return None;
    }
    var parsedHut := ParseHutInformation(hutId, fetch.page, existingHut.None?, search, reverse, fuel, now);
    if parsedHut.None? {
      return None;
    }
    if parsedHut.value.name in ExcludedHutNames {
      return None;
    }
    var hut := parsedHut.value.(link := Some(fetch.url));
    if existingHut.Some? {
      var updated := UpdateStoredHut(existingHut.value, hut, search, reverse, fuel, today, now);
      db.huts := db.huts[hutId := updated];
      result := Some(updated);
    } else {
      hut := hut.(added := Some(today));
      if hut.enabled == Some(true) {
        hut := hut.(activated := Some(today));
      }
      db.huts := db.huts[hutId := hut];
      result := Some(hut);
    }
  }

  /** `ManuallyEdited` is never consulted: flipping it on the stored hut only flips it on the result. */
  lemma ManuallyEditedIgnored(huts: map<int, Hut>, hutId: int, edited: Option<bool>, fetch: HutFetch, search: Search,
                              reverse: Reverse, fuel: nat, today: Time, now: Time)
    requires hutId in huts
    ensures var r := HutActivity(huts, hutId, fetch, search, reverse, fuel, today, now);
      var e := HutActivity(huts[hutId := huts[hutId].(manuallyEdited := edited)], hutId, fetch, search, reverse, fuel, today, now);
      e.Some? == r.Some? && (r.Some? ==> e.value == r.value.(manuallyEdited := edited))
  {
  }

  /** A stored hut with a position and a country is not geocoded: the search is never consulted. */
  lemma LocatedHutNotGeocoded(huts: map<int, Hut>, hutId: int, fetch: HutFetch, search: Search, other: Search,
                              reverse: Reverse, fuel: nat, today: Time, now: Time)
    requires hutId in huts && !NeedsGeocoding(huts[hutId])
    ensures HutActivity(huts, hutId, fetch, search, reverse, fuel, today, now)
         == HutActivity(huts, hutId, fetch, other, reverse, fuel, today, now)
  {
    var parsed := ParseHutInformation(hutId, fetch.page, false, search, reverse, fuel, now);
    assert parsed == ParseHutInformation(hutId, fetch.page, false, other, reverse, fuel, now);
  }

  /**
   * A stored hut without a position takes the first coordinate hit for the
   * page's name, which lies in the Alpine bounding box.
   */
  lemma UnlocatedHutTakesSearchHit(huts: map<int, Hut>, hutId: int, fetch: HutFetch, search: Search,
                                   reverse: Reverse, fuel: nat, today: Time, now: Time)
    requires hutId in huts && huts[hutId].latitude.None?
    requires !Contains(fetch.firstText, NotFoundPhrase) && !Rejected(fetch.page)
    requires SearchHutCoordinates(fetch.page.info.value.name, search, fuel).Some?
    ensures var r := HutActivity(huts, hutId, fetch, search, reverse, fuel, today, now).value;
      var position := SearchHutCoordinates(fetch.page.info.value.name, search, fuel).value;
      r.latitude == Some(position.0) && r.longitude == Some(position.1) && InBox(position.0, position.1)
  {
    var parsed := ParseHutInformation(hutId, fetch.page, false, search, reverse, fuel, now).value;
    assert parsed.latitude.None?;
  }

  /** The run of the HTTP trigger over its ids, in order: the final huts and each call's result. */
  datatype TriggerState = TriggerState(huts: map<int, Hut>, results: seq<Option<Hut>>)

  function TriggerRun(huts: map<int, Hut>, ids: seq<int>, fetchOf: int -> HutFetch, search: Search, reverse: Reverse,
                      fuel: nat, today: Time, now: Time): (st: TriggerState)
    ensures |st.results| == |ids|
    decreases |ids|
  {
    if ids == [] then TriggerState(huts, [])
    else
      var before := TriggerRun(huts, ids[..|ids| - 1], fetchOf, search, reverse, fuel, today, now);
      var id := ids[|ids| - 1];
      var r := HutActivity(before.huts, id, fetchOf(id), search, reverse, fuel, today, now);
      TriggerState(if r.Some? then before.huts[id := r.value] else before.huts, before.results + [r])
  }

  /** One more id: its activity runs against the huts the earlier ids left behind. */
  lemma TriggerRunSnoc(huts: map<int, Hut>, ids: seq<int>, id: int, fetchOf: int -> HutFetch, search: Search,
                       reverse: Reverse, fuel: nat, today: Time, now: Time)
    ensures var before := TriggerRun(huts, ids, fetchOf, search, reverse, fuel, today, now);
      var r := HutActivity(before.huts, id, fetchOf(id), search, reverse, fuel, today, now);
      TriggerRun(huts, ids + [id], fetchOf, search, reverse, fuel, today, now) ==
      TriggerState(if r.Some? then before.huts[id := r.value] else before.huts, before.results + [r])
  {
    assert (ids + [id])[..|ids|] == ids;
  }

  /** Every hut the trigger writes is stored under the id it was fetched for. */
  lemma {:induction false} TriggerRunKeepsIds(huts: map<int, Hut>, ids: seq<int>, fetchOf: int -> HutFetch, search: Search,
                                              reverse: Reverse, fuel: nat, today: Time, now: Time)
    requires KeyedById(huts)
    ensures KeyedById(TriggerRun(huts, ids, fetchOf, search, reverse, fuel, today, now).huts)
    decreases |ids|
  {
    if ids != [] {
      TriggerRunKeepsIds(huts, ids[..|ids| - 1], fetchOf, search, reverse, fuel, today, now);
      var before := TriggerRun(huts, ids[..|ids| - 1], fetchOf, search, reverse, fuel, today, now);
      var id := ids[|ids| - 1];
      var r := HutActivity(before.huts, id, fetchOf(id), search, reverse, fuel, today, now);
      assert id in before.huts ==> before.huts[id].id == id;
      assert r.Some? ==> r.value.id == id;
    }
  }

  /**
   * `UpdateHutHttpTriggered` (lines 59-84): a missing or empty list is a bad
   * request; otherwise every comma-separated piece is fetched in turn, a
   * piece that is not a number as id 0, and the answer lists every result,
   * null ones included.
   */
  method UpdateHutHttpTriggered(db: Database, hutIds: Option<string>, fetchOf: int -> HutFetch, search: Search,
                                reverse: Reverse, fuel: nat, today: Time, now: Time)
    returns (reply: Dispatch.Reply<seq<Option<Hut>>>, requested: seq<int>)
    requires db.Valid()
    modifies db`huts
    ensures reply.BadRequest? <==> IsNullOrEmpty(hutIds)
    ensures reply.BadRequest? ==> db.huts == old(db.huts) && requested == []
    ensures !reply.BadRequest? ==>
      requested == Dispatch.IdsOrZero(Split(hutIds.value, {','})) &&
      var st := TriggerRun(old(db.huts), requested, fetchOf, search, reverse, fuel, today, now);
      reply == Dispatch.Ok(st.results) && db.huts == st.huts
    ensures db.Valid()
  {
    if IsNullOrEmpty(hutIds) {
      return Dispatch.BadRequest, [];
    }
    var results;
    requested, results := FetchPieces(db, Split(hutIds.value, {','}), fetchOf, search, reverse, fuel, today, now);
    reply := Dispatch.Ok(results);
  }

  /** Lines 73-81: the loop over the pieces, each fetched in turn under its id or under 0. */
  method FetchPieces(db: Database, pieces: seq<string>, fetchOf: int -> HutFetch, search: Search,
                     reverse: Reverse, fuel: nat, today: Time, now: Time)
    returns (requested: seq<int>, results: seq<Option<Hut>>)
    requires db.Valid()
    modifies db`huts
    ensures requested == Dispatch.IdsOrZero(pieces)
    ensures TriggerRun(old(db.huts), requested, fetchOf, search, reverse, fuel, today, now) == TriggerState(db.huts, results)
    ensures db.Valid()
  {
    ghost var ids := Dispatch.IdsOrZero(pieces);
    results := [];
    requested := [];
    var i := 0;
    while i < |pieces|
      invariant 0 <= i <= |pieces|
      invariant db.Valid()
      invariant requested == ids[..i]
      invariant TriggerRun(old(db.huts), requested, fetchOf, search, reverse, fuel, today, now) == TriggerState(db.huts, results)
    {
      var parsed := Int32TryParse(pieces[i]);
      var parsedId := parsed.GetOr(0);
      TriggerRunSnoc(old(db.huts), requested, parsedId, fetchOf, search, reverse, fuel, today, now);
      var res := GetHutFromProviderActivity(db, parsedId, fetchOf(parsedId), search, reverse, fuel, today, now);
      results := results + [res];
      requested := requested + [parsedId];
      assert requested[..i] == ids[..i];
      i := i + 1;
    }
    assert ids[..i] == ids;
  }
}
