/**
 * The hut importers of the older function app (AzureFunctions): the
 * `UpdateHutsFunctions` activity that parses one provider page and merges it
 * into the stored hut, the `UpdateHuts` generation that fetches 100 ids,
 * splits the answers into found huts and missing ids and hands the huts to
 * `UpsertHuts`, and the two historical `UpsertHuts` variants.
 */
module LegacyHuts {
  import opened Wrappers
  import opened Strings
  import opened Store
  import opened HutParsing
  import Dispatch

  /** `Helpers.HutProviderBaseUrl` (AzureFunctions/Helpers.cs line 16); the hut id is appended. */
  const ProviderBaseUrl: string := "https://www.alpsonline.org/reservation/calendar?lang=de_DE&hut_id="

  /** The provider's page text for an id it does not know. */
  const NotFoundPhrase: string := "kann nicht gefunden werden"

  /** The hut's provider link: the base address followed by the decimal id. */
  function ProviderLink(hutId: int): (link: string)
    ensures StartsWith(link, ProviderBaseUrl)
    ensures link[|ProviderBaseUrl|..] == IntToString(hutId)
  {
    ProviderBaseUrl + IntToString(hutId)
  }

  /**
   * The four-argument `Helpers.ParseHutInformation(hutId, body, isNewHut)`
   * the activity calls: its body is not part of this model, so the activity
   * takes it as a parameter.
   */
  type ParsePage = (int, string, bool) -> Option<Hut>

  /**
   * The older `Helpers.SearchHutCoordinates(name)`, likewise not part of this
   * model: a position when both coordinates were found.
   */
  type Locate = string -> Option<(real, real)>

  // ------------------------------------------- UpdateHutsFunctions activity

  /** A body the activity parses: non-empty, and not the provider's "unknown id" page. */
  predicate PageFound(body: string)
  {
    body != [] && !Contains(body, NotFoundPhrase)
  }

  /** The older rule for calling the geocoder (line 137): a renamed hut, or no stored country or region. */
  predicate LegacyNeedsGeocoding(stored: Hut, parsed: Hut)
  {
    stored.name != parsed.name || stored.country.None? || stored.region.None?
  }

  /**
   * Lines 137-148: a geocoder hit sets the position, takes the reverse
   * lookup's country when it has one and its region in any case.
   */
  function LegacyRegeocode(stored: Hut, parsed: Hut, locate: Locate, reverse: Reverse): (r: Hut)
    ensures !LegacyNeedsGeocoding(stored, parsed) ==> r == parsed
    ensures r.latitude != parsed.latitude || r.longitude != parsed.longitude || r.region != parsed.region
            ==> LegacyNeedsGeocoding(stored, parsed) && locate(parsed.name).Some?
    ensures r == parsed.(latitude := r.latitude, longitude := r.longitude, country := r.country, region := r.region)
    ensures parsed.country.Some? ==> r.country.Some?
    ensures locate(parsed.name).None? ==> r == parsed
    ensures LegacyNeedsGeocoding(stored, parsed) && locate(parsed.name).Some? ==>
      var p := locate(parsed.name).value;
      r.latitude == Some(p.0) && r.longitude == Some(p.1) &&
      r.country == (if reverse(p.0, p.1).0.Some? then reverse(p.0, p.1).0 else parsed.country) &&
      r.region == reverse(p.0, p.1).1
  {
    if LegacyNeedsGeocoding(stored, parsed) then
      match locate(parsed.name)
      case None => parsed
      case Some(position) =>
        var (country, region) := reverse(position.0, position.1);
        parsed.(latitude := Some(position.0), longitude := Some(position.1),
                country := country.OrElse(parsed.country), region := region)
    else parsed
  }

  /**
   * Lines 150-156: the stored hut takes the page's name and enabled flag,
   * and its position, country and region where the (re-geocoded) page has
   * one; the link, the coordinate text and everything else stay.
   */
  function LegacyMerge(stored: Hut, parsed: Hut, now: Time): (h: Hut)
    ensures h.name == parsed.name && h.enabled == parsed.enabled && h.lastUpdated == Some(now)
    ensures h.latitude == parsed.latitude.OrElse(stored.latitude)
    ensures h.longitude == parsed.longitude.OrElse(stored.longitude)
    ensures h.country == parsed.country.OrElse(stored.country)
    ensures h.region == parsed.region.OrElse(stored.region)
    ensures h.id == stored.id && h.link == stored.link && h.coordinates == stored.coordinates
    ensures h.hutWebsite == stored.hutWebsite && h.altitude == stored.altitude && h.added == stored.added
    ensures h.activated == stored.activated && h.manuallyEdited == stored.manuallyEdited && h.source == stored.source
  {
    stored.(name := parsed.name, enabled := parsed.enabled,
            latitude := parsed.latitude.OrElse(stored.latitude),
            longitude := parsed.longitude.OrElse(stored.longitude),
            country := parsed.country.OrElse(stored.country),
            region := parsed.region.OrElse(stored.region),
            lastUpdated := Some(now))
  }

  /**
   * What the older `GetHutFromProviderActivity` (AzureFunctions
   * UpdateHutsFunctions.cs lines 108-184) stores and returns for one id;
   * `response` is the page body, `None` when the request failed.
   */
  function LegacyHutActivity(huts: map<int, Hut>, hutId: int, response: Option<string>, parse: ParsePage,
                             locate: Locate, reverse: Reverse, now: Time): (r: Option<Hut>)
    ensures r.Some? ==> response.Some? && PageFound(response.value) && parse(hutId, response.value, hutId !in huts).Some?
    ensures r.Some? && hutId in huts ==>
      var parsed := parse(hutId, response.value, false).value;
      var stored := huts[hutId];
      r.value.id == stored.id && r.value.name == parsed.name && r.value.enabled == parsed.enabled &&
      r.value.link == stored.link && r.value.lastUpdated == Some(now) &&
      (stored.latitude.Some? ==> r.value.latitude.Some?) && (stored.longitude.Some? ==> r.value.longitude.Some?) &&
      (stored.country.Some? ==> r.value.country.Some?) && (stored.region.Some? ==> r.value.region.Some?)
    ensures r.Some? && hutId !in huts ==>
      r.value == parse(hutId, response.value, true).value.(link := Some(ProviderLink(hutId)), lastUpdated := Some(now)) &&
      r.value.id !in huts
  {
    if response.None? || !PageFound(response.value) then None
    else
      match parse(hutId, response.value, hutId !in huts)
      case None => None
      case Some(page) =>
        var parsed := page.(link := Some(ProviderLink(hutId)), lastUpdated := Some(now));
        if hutId in huts then
          var stored := huts[hutId];
          Some(LegacyMerge(stored, LegacyRegeocode(stored, parsed, locate, reverse), now))
        // inserting a second hut under a stored key fails when the changes are saved
        else if parsed.id in huts then None
        else Some(parsed)
  }

  /** The store after the activity: the returned hut under its own id, nothing when it returned null. */
  function LegacyActivityStore(huts: map<int, Hut>, r: Option<Hut>): map<int, Hut>
  {
    if r.Some? then huts[r.value.id := r.value] else huts
  }

  /** The activity keeps every stored hut under its own id. */
  lemma LegacyActivityKeepsIds(huts: map<int, Hut>, hutId: int, response: Option<string>, parse: ParsePage,
                               locate: Locate, reverse: Reverse, now: Time)
    requires KeyedById(huts)
    ensures var r := LegacyHutActivity(huts, hutId, response, parse, locate, reverse, now);
      KeyedById(LegacyActivityStore(huts, r)) &&
      (r.Some? && hutId in huts ==> r.value.id == hutId)
  {
  }

  /**
   * The geocoder is consulted only under the older rule: with the name
   * unchanged and a country and region on file, any two geocoders give the
   * same result.
   */
  lemma LegacyGeocodingOnlyWhenNeeded(huts: map<int, Hut>, hutId: int, response: Option<string>, parse: ParsePage,
                                      locate1: Locate, reverse1: Reverse, locate2: Locate, reverse2: Reverse, now: Time)
    requires hutId in huts && response.Some?
    requires var p := parse(hutId, response.value, false);
      p.Some? && p.value.name == huts[hutId].name && huts[hutId].country.Some? && huts[hutId].region.Some?
    ensures LegacyHutActivity(huts, hutId, response, parse, locate1, reverse1, now)
         == LegacyHutActivity(huts, hutId, response, parse, locate2, reverse2, now)
  {
  }

  /** A renamed stored hut that the geocoder finds gets the geocoder's position, whatever the page said. */
  lemma LegacyRenamedHutTakesSearchHit(huts: map<int, Hut>, hutId: int, response: Option<string>, parse: ParsePage,
                                       locate: Locate, reverse: Reverse, now: Time)
    requires hutId in huts && response.Some? && PageFound(response.value)
    requires var p := parse(hutId, response.value, false);
      p.Some? && p.value.name != huts[hutId].name && locate(p.value.name).Some?
    ensures var r := LegacyHutActivity(huts, hutId, response, parse, locate, reverse, now);
      var position := locate(parse(hutId, response.value, false).value.name).value;
      r.Some? && r.value.latitude == Some(position.0) && r.value.longitude == Some(position.1)
  {
  }

  /** The older activity as the function app runs it: read the stored hut, parse, merge or insert, save. */
  method LegacyGetHutFromProviderActivity(db: Database, hutId: int, response: Option<string>, parse: ParsePage,
                                          locate: Locate, reverse: Reverse, now: Time) returns (result: Option<Hut>)
    requires db.Valid()
    modifies db`huts
    ensures result == LegacyHutActivity(old(db.huts), hutId, response, parse, locate, reverse, now)
    ensures db.huts == LegacyActivityStore(old(db.huts), result)
    ensures db.Valid()
  {
    var existingHut := if hutId in db.huts then Some(db.huts[hutId]) else None;
    if response.None? {
      return None;
    }
    var responseBody := response.value;
    if !(responseBody != [] && !Contains(responseBody, NotFoundPhrase)) {
      return None;
    }
    var parsedHut := parse(hutId, responseBody, existingHut.None?);
    if parsedHut.None? {
      return None;
    }
    var hut := parsedHut.value.(link := Some(ProviderLink(hutId)), lastUpdated := Some(now));
    if existingHut.Some? {
      var stored := existingHut.value;
      if stored.name != hut.name || stored.country.None? || stored.region.None? {
        var latLong := locate(hut.name);
        if latLong.Some? {
          var (country, region) := reverse(latLong.value.0, latLong.value.1);
          hut := hut.(latitude := Some(latLong.value.0), longitude := Some(latLong.value.1),
                      country := country.OrElse(hut.country), region := region);
        }
      }
      stored := stored.(name := hut.name, enabled := hut.enabled,
                        latitude := hut.latitude.OrElse(stored.latitude),
                        longitude := hut.longitude.OrElse(stored.longitude),
                        country := hut.country.OrElse(stored.country),
                        region := hut.region.OrElse(stored.region),
                        lastUpdated := Some(now));
      db.huts := db.huts[hutId := stored];
      result := Some(stored);
    } else if hut.id in db.huts {
      result := None;
    } else {
      db.huts := db.huts[hut.id := hut];
      result := Some(hut);
    }
  }

  // ------------------------------------------ UpdateHutsFunctions HTTP trigger

  datatype LegacyTriggerState = LegacyTriggerState(huts: map<int, Hut>, results: seq<Option<Hut>>)

  /** The activity run over ids in turn, each run seeing the writes of the ones before. */
  function LegacyTriggerRun(huts: map<int, Hut>, ids: seq<int>, responseOf: int -> Option<string>, parse: ParsePage,
                            locate: Locate, reverse: Reverse, now: Time): (st: LegacyTriggerState)
    ensures |st.results| == |ids|
    decreases |ids|
  {
    if ids == [] then LegacyTriggerState(huts, [])
    else
      var before := LegacyTriggerRun(huts, ids[..|ids| - 1], responseOf, parse, locate, reverse, now);
      var id := ids[|ids| - 1];
      var r := LegacyHutActivity(before.huts, id, responseOf(id), parse, locate, reverse, now);
      LegacyTriggerState(LegacyActivityStore(before.huts, r), before.results + [r])
  }

  /** One more id: its activity runs against the huts the earlier ids left behind. */
  lemma LegacyTriggerRunSnoc(huts: map<int, Hut>, ids: seq<int>, id: int, responseOf: int -> Option<string>,
                             parse: ParsePage, locate: Locate, reverse: Reverse, now: Time)
    ensures var before := LegacyTriggerRun(huts, ids, responseOf, parse, locate, reverse, now);
      var r := LegacyHutActivity(before.huts, id, responseOf(id), parse, locate, reverse, now);
      LegacyTriggerRun(huts, ids + [id], responseOf, parse, locate, reverse, now) ==
      LegacyTriggerState(LegacyActivityStore(before.huts, r), before.results + [r])
  {
    assert (ids + [id])[..|ids|] == ids;
  }

  /** However many ids the trigger runs, every stored hut stays under its own id. */
  lemma {:induction false} LegacyTriggerRunKeepsIds(huts: map<int, Hut>, ids: seq<int>, responseOf: int -> Option<string>,
                                                    parse: ParsePage, locate: Locate, reverse: Reverse, now: Time)
    requires KeyedById(huts)
    ensures KeyedById(LegacyTriggerRun(huts, ids, responseOf, parse, locate, reverse, now).huts)
    decreases |ids|
  {
    if ids != [] {
      LegacyTriggerRunKeepsIds(huts, ids[..|ids| - 1], responseOf, parse, locate, reverse, now);
      var before := LegacyTriggerRun(huts, ids[..|ids| - 1], responseOf, parse, locate, reverse, now);
      LegacyActivityKeepsIds(before.huts, ids[|ids| - 1], responseOf(ids[|ids| - 1]), parse, locate, reverse, now);
    }
  }

  /**
   * `UpdateHutHttpTriggered` (lines 43-69): a missing or empty list is a bad
   * request; otherwise each comma-separated piece is fetched in turn, one
   * that is not a number as id 0, and every result is listed.
   */
  method LegacyUpdateHutHttpTriggered(db: Database, hutIds: Option<string>, responseOf: int -> Option<string>,
                                      parse: ParsePage, locate: Locate, reverse: Reverse, now: Time)
    returns (reply: Dispatch.Reply<seq<Option<Hut>>>, requested: seq<int>)
    requires db.Valid()
    modifies db`huts
    ensures reply.BadRequest? <==> IsNullOrEmpty(hutIds)
    ensures reply.BadRequest? ==> db.huts == old(db.huts) && requested == []
    ensures !reply.BadRequest? ==>
      requested == Dispatch.IdsOrZero(Split(hutIds.value, {','})) &&
      var st := LegacyTriggerRun(old(db.huts), requested, responseOf, parse, locate, reverse, now);
      reply == Dispatch.Ok(st.results) && db.huts == st.huts
    ensures db.Valid()
  {
    if IsNullOrEmpty(hutIds) {
      return Dispatch.BadRequest, [];
    }
    var results;
    requested, results := LegacyFetchPieces(db, Split(hutIds.value, {','}), responseOf, parse, locate, reverse, now);
    reply := Dispatch.Ok(results);
  }

  /** The loop over the pieces, each fetched in turn under its id or under 0. */
  method LegacyFetchPieces(db: Database, pieces: seq<string>, responseOf: int -> Option<string>,
                           parse: ParsePage, locate: Locate, reverse: Reverse, now: Time)
    returns (requested: seq<int>, results: seq<Option<Hut>>)
    requires db.Valid()
    modifies db`huts
    ensures requested == Dispatch.IdsOrZero(pieces)
    ensures LegacyTriggerRun(old(db.huts), requested, responseOf, parse, locate, reverse, now) == LegacyTriggerState(db.huts, results)
    ensures db.Valid()
  {
    ghost var ids := Dispatch.IdsOrZero(pieces);
    results := [];
    requested := [];
    var i := 0;
    while i < |pieces|
      invariant 0 <= i <= |pieces|
      invariant db.Valid()
      invariant requested == ids[..i]
      invariant LegacyTriggerRun(old(db.huts), requested, responseOf, parse, locate, reverse, now)
             == LegacyTriggerState(db.huts, results)
    {
      var parsedId := Int32TryParse(pieces[i]).GetOr(0);
      LegacyTriggerRunSnoc(old(db.huts), requested, parsedId, responseOf, parse, locate, reverse, now);
      var res := LegacyGetHutFromProviderActivity(db, parsedId, responseOf(parsedId), parse, locate, reverse, now);
      results := results + [res];
      requested := requested + [parsedId];
      assert requested[..i] == ids[..i];
      i := i + 1;
    }
    assert ids[..i] == ids;
  }

  // ----------------------------------------------------------- UpsertHuts

  /**
   * The two historical `UpsertHuts`: the one in `UpdateHutsFunctions`
   * replaces a stored column only by a non-empty or non-null value, the one
   * in `UpdateHuts` overwrites its columns outright.
   */
  datatype UpsertStyle = KeepNonEmpty | Overwrite

  /** `!string.IsNullOrEmpty(value) ? value : stored`. */
  function NonEmptyOr(value: Option<string>, stored: Option<string>): (r: Option<string>)
    ensures IsNullOrEmpty(r) ==> IsNullOrEmpty(value) && IsNullOrEmpty(stored)
    ensures r == value || r == stored
  {
    if !IsNullOrEmpty(value) then value else stored
  }

  /**
   * A stored hut updated by a listed one: AzureFunctions
   * UpdateHutsFunctions.cs lines 197-206 for `KeepNonEmpty`, UpdateHuts.cs
   * lines 134-139 for `Overwrite`.
   */
  function Upserted(style: UpsertStyle, stored: Hut, hut: Hut): (h: Hut)
    ensures h.id == stored.id && h.lastUpdated == hut.lastUpdated
    ensures h.hutWebsite == stored.hutWebsite && h.altitude == stored.altitude && h.added == stored.added
    ensures h.activated == stored.activated && h.manuallyEdited == stored.manuallyEdited && h.source == stored.source
    ensures style == Overwrite ==>
      h.name == hut.name && h.link == hut.link && h.coordinates == hut.coordinates && h.country == hut.country &&
      h.enabled == hut.enabled && h.region == stored.region && h.latitude == stored.latitude &&
      h.longitude == stored.longitude
    ensures style == KeepNonEmpty ==>
      h.name == (if hut.name != "" then hut.name else stored.name) &&
      h.link == NonEmptyOr(hut.link, stored.link) && h.coordinates == NonEmptyOr(hut.coordinates, stored.coordinates) &&
      h.country == NonEmptyOr(hut.country, stored.country) && h.region == NonEmptyOr(hut.region, stored.region) &&
      h.enabled == hut.enabled.OrElse(stored.enabled) && h.latitude == hut.latitude.OrElse(stored.latitude) &&
      h.longitude == hut.longitude.OrElse(stored.longitude)
  {
    match style
    case KeepNonEmpty =>
      stored.(name := if hut.name != "" then hut.name else stored.name,
              link := NonEmptyOr(hut.link, stored.link),
              coordinates := NonEmptyOr(hut.coordinates, stored.coordinates),
              country := NonEmptyOr(hut.country, stored.country),
              region := NonEmptyOr(hut.region, stored.region),
              enabled := hut.enabled.OrElse(stored.enabled),
              latitude := hut.latitude.OrElse(stored.latitude),
              longitude := hut.longitude.OrElse(stored.longitude),
              lastUpdated := hut.lastUpdated)
    case Overwrite =>
      stored.(name := hut.name, link := hut.link, coordinates := hut.coordinates, country := hut.country,
              enabled := hut.enabled, lastUpdated := hut.lastUpdated)
  }

  /** Upserting the same hut twice leaves what upserting it once left, in both styles. */
  lemma UpsertedIdempotent(style: UpsertStyle, stored: Hut, hut: Hut)
    ensures Upserted(style, Upserted(style, stored, hut), hut) == Upserted(style, stored, hut)
  {
  }

  /** One listed hut: an update of the stored hut with its id, or an insert. */
  function UpsertOne(style: UpsertStyle, huts: map<int, Hut>, hut: Hut): (r: map<int, Hut>)
    ensures r.Keys == huts.Keys + {hut.id}
    ensures forall id :: id in huts && id != hut.id ==> r[id] == huts[id]
  {
    if hut.id in huts then huts[hut.id := Upserted(style, huts[hut.id], hut)] else huts[hut.id := hut]
  }

  /** The whole list, in order. */
  function UpsertAll(style: UpsertStyle, huts: map<int, Hut>, list: seq<Hut>): map<int, Hut>
    decreases |list|
  {
    if list == [] then huts else UpsertOne(style, UpsertAll(style, huts, list[..|list| - 1]), list[|list| - 1])
  }

  /** The ids a list names. */
  function IdsOf(list: seq<Hut>): (ids: set<int>)
    ensures forall k :: 0 <= k < |list| ==> list[k].id in ids
    ensures forall id :: id in ids ==> exists k :: 0 <= k < |list| && list[k].id == id
    decreases |list|
  {
    if list == [] then {}
    else
      var ids := IdsOf(list[..|list| - 1]);
      assert forall k :: 0 <= k < |list| - 1 ==> list[..|list| - 1][k] == list[k];
      ids + {list[|list| - 1].id}
  }

  /** After the upsert, exactly the stored ids and the listed ids are stored, and other huts are untouched. */
  lemma {:induction false} UpsertAllKeys(style: UpsertStyle, huts: map<int, Hut>, list: seq<Hut>)
    ensures UpsertAll(style, huts, list).Keys == huts.Keys + IdsOf(list)
    ensures forall id :: id in huts && id !in IdsOf(list) ==> UpsertAll(style, huts, list)[id] == huts[id]
    decreases |list|
  {
    if list != [] {
      UpsertAllKeys(style, huts, list[..|list| - 1]);
    }
  }

  /** The upsert keeps every hut under its own id. */
  lemma {:induction false} UpsertAllKeepsIds(style: UpsertStyle, huts: map<int, Hut>, list: seq<Hut>)
    requires KeyedById(huts)
    ensures KeyedById(UpsertAll(style, huts, list))
    decreases |list|
  {
    if list != [] {
      UpsertAllKeepsIds(style, huts, list[..|list| - 1]);
    }
  }

  /** With `KeepNonEmpty`, a stored non-empty name, country or region is never lost. */
  lemma {:induction false} KeepNonEmptyNeverBlanks(huts: map<int, Hut>, list: seq<Hut>, id: int)
    requires id in huts
    ensures var r := UpsertAll(KeepNonEmpty, huts, list);
      id in r &&
      (huts[id].name != "" ==> r[id].name != "") &&
      (!IsNullOrEmpty(huts[id].country) ==> !IsNullOrEmpty(r[id].country)) &&
      (!IsNullOrEmpty(huts[id].region) ==> !IsNullOrEmpty(r[id].region))
    decreases |list|
  {
    if list != [] {
      KeepNonEmptyNeverBlanks(huts, list[..|list| - 1], id);
    }
  }

  /** With `Overwrite`, the last listed hut with an id decides its overwritten columns. */
  lemma {:induction false} OverwriteLastWins(huts: map<int, Hut>, list: seq<Hut>, k: int)
    requires 0 <= k < |list|
    requires forall j :: k < j < |list| ==> list[j].id != list[k].id
    ensures var r := UpsertAll(Overwrite, huts, list);
      list[k].id in r &&
      var h := r[list[k].id];
      h.name == list[k].name && h.link == list[k].link && h.coordinates == list[k].coordinates &&
      h.country == list[k].country && h.enabled == list[k].enabled && h.lastUpdated == list[k].lastUpdated
    decreases |list|
  {
    if k < |list| - 1 {
      var init := list[..|list| - 1];
      assert forall j :: k < j < |init| ==> init[j] == list[j];
      OverwriteLastWins(huts, init, k);
    }
  }

  /** The upsert and the id set of a prefix, one hut further. */
  lemma UpsertNext(style: UpsertStyle, huts: map<int, Hut>, list: seq<Hut>, i: int)
    requires 0 <= i < |list|
    ensures UpsertAll(style, huts, list[..i + 1]) == UpsertOne(style, UpsertAll(style, huts, list[..i]), list[i])
    ensures IdsOf(list[..i + 1]) == IdsOf(list[..i]) + {list[i].id}
  {
    assert list[..i + 1][..i] == list[..i];
  }

  /**
   * `UpsertHuts` of either style: each listed hut updates the stored hut
   * with its id or is inserted; the answer is the number of rows saved, or
   * -1 when saving fails, in which case nothing is written.
   */
  method UpsertHuts(db: Database, huts: seq<Hut>, style: UpsertStyle, saveFails: bool) returns (written: int)
    requires db.Valid()
    modifies db`huts
    ensures saveFails ==> written == -1 && db.huts == old(db.huts)
    ensures !saveFails ==> written == |IdsOf(huts)| && db.huts == UpsertAll(style, old(db.huts), huts)
    ensures db.Valid()
  {
    var staged := db.huts;
    var ids: set<int> := {};
    var i := 0;
    while i < |huts|
      invariant 0 <= i <= |huts|
      invariant db.huts == old(db.huts)
      invariant staged == UpsertAll(style, db.huts, huts[..i])
      invariant ids == IdsOf(huts[..i])
    {
      var hut := huts[i];
      staged := UpsertOne(style, staged, hut);
      ids := ids + {hut.id};
      UpsertNext(style, db.huts, huts, i);
      i := i + 1;
    }
    assert huts[..i] == huts;
    assert staged == UpsertAll(style, old(db.huts), huts) && ids == IdsOf(huts);
    UpsertAllKeepsIds(style, db.huts, huts);
    if saveFails {
      return -1;
    }
    db.huts := staged;
    written := |ids|;
  }

  // ------------------------------------------------ UpdateHuts generation

  /**
   * The `UpdateHuts` activity (lines 84-117): the page of one id, `None`
   * when the request failed. The answer always carries the id; its hut is
   * null for a missing page, a failed parse or a failed request, and
   * otherwise is the parsed hut under that id with its provider link.
   */
  function FetchHut(hutId: int, page: Option<HutPage>, now: Time): (r: (int, Option<Hut>))
    ensures r.0 == hutId
    ensures r.1.Some? <==> page.Some? && PageFound(page.value.text) && page.value.info.Some?
    ensures r.1.Some? ==>
      r.1.value.id == hutId && r.1.value.link == Some(ProviderLink(hutId)) &&
      r.1.value.name == page.value.info.value.name && r.1.value.lastUpdated == Some(now)
  {
    if page.None? || !PageFound(page.value.text) then (hutId, None)
    else
      match ParseLegacyHutInformation(page.value, now)
      case None => (hutId, None)
      case Some(hut) => (hutId, Some(hut.(id := hutId, link := Some(ProviderLink(hutId)))))
  }

  /** The huts the generation found, in task order (line 57). */
  function FoundHuts(results: seq<(int, Option<Hut>)>): (found: seq<Hut>)
    ensures |found| <= |results|
    decreases |results|
  {
    if results == [] then []
    else
      var last := results[|results| - 1];
      FoundHuts(results[..|results| - 1]) + (if last.1.Some? then [last.1.value] else [])
  }

  /** The ids the generation did not find, in task order (line 59). */
  function NotFoundIds(results: seq<(int, Option<Hut>)>): (ids: seq<int>)
    ensures |ids| <= |results|
    decreases |results|
  {
    if results == [] then []
    else
      var last := results[|results| - 1];
      NotFoundIds(results[..|results| - 1]) + (if last.1.None? then [last.0] else [])
  }

  /** Both lists of two answer lists one after the other are those of the first, then those of the second. */
  lemma {:induction false} FoundAndNotFoundAppend(a: seq<(int, Option<Hut>)>, b: seq<(int, Option<Hut>)>)
    ensures FoundHuts(a + b) == FoundHuts(a) + FoundHuts(b)
    ensures NotFoundIds(a + b) == NotFoundIds(a) + NotFoundIds(b)
    decreases |b|
  {
    if b == [] {
      assert a + b == a;
    } else {
      assert (a + b)[..|a + b| - 1] == a + b[..|b| - 1];
      FoundAndNotFoundAppend(a, b[..|b| - 1]);
    }
  }

  /**
   * Each answer, in task order, contributes its hut to the found list when
   * there is one and its id to the not-found list otherwise, in its place
   * among the others.
   */
  lemma FoundAndNotFoundInOrder(results: seq<(int, Option<Hut>)>)
    ensures forall n :: 0 <= n < |results| ==>
      FoundHuts(results) == FoundHuts(results[..n]) +
        (if results[n].1.Some? then [results[n].1.value] else []) + FoundHuts(results[n + 1..])
    ensures forall n :: 0 <= n < |results| ==>
      NotFoundIds(results) == NotFoundIds(results[..n]) +
        (if results[n].1.None? then [results[n].0] else []) + NotFoundIds(results[n + 1..])
  {
    forall n | 0 <= n < |results|
      ensures FoundHuts(results) == FoundHuts(results[..n]) +
        (if results[n].1.Some? then [results[n].1.value] else []) + FoundHuts(results[n + 1..])
      ensures NotFoundIds(results) == NotFoundIds(results[..n]) +
        (if results[n].1.None? then [results[n].0] else []) + NotFoundIds(results[n + 1..])
    {
      FoundAndNotFoundAt(results, n);
    }
  }

  lemma FoundAndNotFoundAt(results: seq<(int, Option<Hut>)>, n: nat)
    requires n < |results|
    ensures FoundHuts(results) == FoundHuts(results[..n]) +
      (if results[n].1.Some? then [results[n].1.value] else []) + FoundHuts(results[n + 1..])
    ensures NotFoundIds(results) == NotFoundIds(results[..n]) +
      (if results[n].1.None? then [results[n].0] else []) + NotFoundIds(results[n + 1..])
  {
    var a, b := results[..n + 1], results[n + 1..];
    assert results == a + b;
    assert a[..n] == results[..n];
    FoundHutsAt(a, b);
    NotFoundIdsAt(a, b);
  }

  lemma FoundHutsAt(a: seq<(int, Option<Hut>)>, b: seq<(int, Option<Hut>)>)
    requires a != []
    ensures FoundHuts(a + b) == FoundHuts(a[..|a| - 1]) +
      (if a[|a| - 1].1.Some? then [a[|a| - 1].1.value] else []) + FoundHuts(b)
  {
    FoundAndNotFoundAppend(a, b);
  }

  lemma NotFoundIdsAt(a: seq<(int, Option<Hut>)>, b: seq<(int, Option<Hut>)>)
    requires a != []
    ensures NotFoundIds(a + b) == NotFoundIds(a[..|a| - 1]) +
      (if a[|a| - 1].1.None? then [a[|a| - 1].0] else []) + NotFoundIds(b)
  {
    FoundAndNotFoundAppend(a, b);
  }

  /** Every answer lands in exactly one of the two lists. */
  lemma {:induction false} FoundAndNotFoundPartition(results: seq<(int, Option<Hut>)>)
    ensures |FoundHuts(results)| + |NotFoundIds(results)| == |results|
    ensures forall k :: 0 <= k < |results| && results[k].1.Some? ==> results[k].1.value in FoundHuts(results)
    ensures forall k :: 0 <= k < |results| && results[k].1.None? ==> results[k].0 in NotFoundIds(results)
    decreases |results|
  {
    if results != [] {
      var init := results[..|results| - 1];
      FoundAndNotFoundPartition(init);
      assert forall k :: 0 <= k < |init| ==> init[k] == results[k];
    }
  }

  /** The answers of one generation's 100 activities. */
  function GenerationResults(startHutId: int, pageOf: int -> Option<HutPage>, now: Time): (r: seq<(int, Option<Hut>)>)
    ensures |r| == Dispatch.ParallelTasks
    ensures forall k :: 0 <= k < |r| ==> r[k] == FetchHut(startHutId + k, pageOf(startHutId + k), now)
  {
    seq(Dispatch.ParallelTasks, k => FetchHut(startHutId + k, pageOf(startHutId + k), now))
  }

  /** The answer of the generation that starts at an id: every found hut is listed under an id of that generation. */
  lemma FoundHutsOfGeneration(startHutId: int, pageOf: int -> Option<HutPage>, now: Time)
    ensures forall h :: h in FoundHuts(GenerationResults(startHutId, pageOf, now)) ==>
      startHutId <= h.id < startHutId + Dispatch.ParallelTasks && h.link == Some(ProviderLink(h.id))
  {
    FoundHutsFromResults(GenerationResults(startHutId, pageOf, now), startHutId, pageOf, now);
  }

  lemma {:induction false} FoundHutsFromResults(results: seq<(int, Option<Hut>)>, startHutId: int,
                                                pageOf: int -> Option<HutPage>, now: Time)
    requires |results| <= Dispatch.ParallelTasks
    requires forall k :: 0 <= k < |results| ==> results[k] == FetchHut(startHutId + k, pageOf(startHutId + k), now)
    ensures forall h :: h in FoundHuts(results) ==>
      startHutId <= h.id < startHutId + Dispatch.ParallelTasks && h.link == Some(ProviderLink(h.id))
    decreases |results|
  {
    if results != [] {
      var init := results[..|results| - 1];
      assert forall k :: 0 <= k < |init| ==> init[k] == results[k];
      FoundHutsFromResults(init, startHutId, pageOf, now);
    }
  }

  /** Lines 47-53: the fan-out loop, one activity per id of the generation, in order. */
  method FanOut(startHutId: int, pageOf: int -> Option<HutPage>, now: Time) returns (tasks: seq<(int, Option<Hut>)>)
    ensures tasks == GenerationResults(startHutId, pageOf, now)
  {
    tasks := [];
    for i := 0 to Dispatch.ParallelTasks
      invariant |tasks| == i
      invariant forall k :: 0 <= k < i ==> tasks[k] == FetchHut(startHutId + k, pageOf(startHutId + k), now)
    {
      tasks := tasks + [FetchHut(i + startHutId, pageOf(i + startHutId), now)];
    }
  }

  /**
   * `UpdateHutsOrchestrator` of `UpdateHuts` (lines 38-81): fan out 100
   * activities, upsert the huts found (overwriting), list the ids not found,
   * and continue with the next 100 while they start at or below 300.
   */
  method UpdateHutsGeneration(db: Database, startHutId: int, pageOf: int -> Option<HutPage>, saveFails: bool, now: Time)
    returns (notFoundIds: seq<int>, databaseUpdates: int, continueAsNew: Option<int>)
    requires db.Valid()
    modifies db`huts
    ensures var results := GenerationResults(startHutId, pageOf, now);
      notFoundIds == NotFoundIds(results) &&
      (saveFails ==> databaseUpdates == -1 && db.huts == old(db.huts)) &&
      (!saveFails ==> db.huts == UpsertAll(Overwrite, old(db.huts), FoundHuts(results)) &&
                      databaseUpdates == |IdsOf(FoundHuts(results))|)
    ensures continueAsNew == Dispatch.NextStart(startHutId)
    ensures db.Valid()
  {
    var tasks := FanOut(startHutId, pageOf, now);
    var hutList := FoundHuts(tasks);
    notFoundIds := NotFoundIds(tasks);
    databaseUpdates := UpsertHuts(db, hutList, Overwrite, saveFails);
    var nextStartId := startHutId + Dispatch.ParallelTasks;
    if nextStartId <= Dispatch.LegacyMaxHutId {
      continueAsNew := Some(nextStartId);
    } else {
      continueAsNew := None;
    }
  }
}
