/**
 * The hut import of the second provider (Hütten-Holiday): the cabin list is
 * read page by page, and every cabin that is not deleted is inserted as a
 * hut under its id plus 10000 or merged into the stored hut, unless that hut
 * was edited by hand. The current import (`HuettenHolidayGetHutsFromProvider`)
 * fills in country and region by reverse geocoding; the older one
 * (`HuettenHolidayGetHutFromProvider`) takes the provider's country only.
 */
module HuettenHolidayHuts {
  import opened Wrappers
  import opened Strings
  import opened Store
  import opened HutParsing
  import HuettenHolidayAvailability
  import Dispatch

  /** The address of the first page of the cabin list. */
  const FirstPageUrl: string := "https://www.huetten-holiday.com/get-cabins?page=1"

  const HutLinkBase: string := "https://www.huetten-holiday.com/huts/"

  const SourceName: string := "HuettenHoliday"

  /**
   * The fields of a provider cabin the import reads; `countryNameDe` is the
   * German name of the cabin's country (`cabin.country.name.de`).
   */
  datatype Cabin = Cabin(
    id: int,
    name: string,
    slug: string,
    website: Option<string>,
    altitude: Option<real>,
    latitude: Option<real>,
    longitude: Option<real>,
    isDelete: bool,
    countryNameDe: Option<string>)

  /** One page of the cabin list and the address of the next one, if any. */
  datatype CabinPage = CabinPage(data: seq<Cabin>, nextPageUrl: Option<string>)

  // ------------------------------------------------------------ cabin fields

  /** A website without "http://" or "https://" (case-sensitive) gets "https://" in front. */
  function CabinWebsite(website: Option<string>): (w: Option<string>)
    ensures w.None? <==> website.None?
    ensures w.Some? ==> StartsWith(w.value, "http://") || StartsWith(w.value, "https://")
    ensures w.Some? && (StartsWith(website.value, "http://") || StartsWith(website.value, "https://")) ==> w == website
    ensures w.Some? && w != website ==> w.value == "https://" + website.value
  {
    if website.None? then None
    else if StartsWith(website.value, "http://") || StartsWith(website.value, "https://") then website
    else
      assert ("https://" + website.value)[..8] == "https://";
      Some("https://" + website.value)
  }

  lemma CabinWebsiteIdempotent(website: Option<string>)
    ensures CabinWebsite(CabinWebsite(website)) == CabinWebsite(website)
  {
  }

  /** `(int?)altitude`: the conversion of a double to an integer cuts toward zero. */
  function TruncateToInt(x: real): (n: int)
    ensures 0.0 <= x ==> n as real <= x < n as real + 1.0
    ensures x < 0.0 ==> n as real - 1.0 < x <= n as real
  {
    if x >= 0.0 then x.Floor else -((-x).Floor)
  }

  function Altitude(altitude: Option<real>): Option<int>
  {
    if altitude.Some? then Some(TruncateToInt(altitude.value)) else None
  }

  /** The provider's German country name when it has one, otherwise the geocoded country. */
  function CabinCountry(cabin: Cabin, geocodedCountry: Option<string>): (c: Option<string>)
    ensures !IsNullOrEmpty(cabin.countryNameDe) ==> c == cabin.countryNameDe
    ensures IsNullOrEmpty(cabin.countryNameDe) ==> c == geocodedCountry
  {
    if !IsNullOrEmpty(cabin.countryNameDe) then cabin.countryNameDe else geocodedCountry
  }

  /** Lines 88-95: the reverse lookup runs only for a cabin with both coordinates. */
  function Geocoded(cabin: Cabin, reverse: Reverse): (Option<string>, Option<string>)
  {
    if cabin.latitude.Some? && cabin.longitude.Some? then reverse(cabin.latitude.value, cabin.longitude.value)
    else (None, None)
  }

  /**
   * The hut of a new cabin. With `geocoding` the country falls back to the
   * geocoded one and the region is the geocoded one (lines 103-118 of the
   * current import); without it the country is the provider's name as it is
   * and no region is set (lines 94-108 of the older import).
   */
  function NewCabinHut(cabin: Cabin, geocoding: bool, reverse: Reverse, now: Time): (h: Hut)
    ensures h.id == cabin.id + HuettenHolidayAvailability.HutIdOffset && h.name == cabin.name
    ensures h.source == Some(SourceName) && h.enabled == Some(true)
    ensures h.link == Some(HutLinkBase + cabin.slug) && h.hutWebsite == CabinWebsite(cabin.website)
    ensures h.latitude == cabin.latitude && h.longitude == cabin.longitude && h.altitude == Altitude(cabin.altitude)
    ensures h.added == Some(now) && h.lastUpdated == Some(now)
    ensures h.activated.None? && h.manuallyEdited.None? && h.coordinates.None?
    ensures geocoding ==> h.country == CabinCountry(cabin, Geocoded(cabin, reverse).0) && h.region == Geocoded(cabin, reverse).1
    ensures !geocoding ==> h.country == cabin.countryNameDe && h.region.None?
  {
    var geocoded := if geocoding then Geocoded(cabin, reverse) else (None, None);
    Hut(cabin.id + HuettenHolidayAvailability.HutIdOffset, cabin.name, Some(HutLinkBase + cabin.slug), CabinWebsite(cabin.website),
        None, if geocoding then CabinCountry(cabin, geocoded.0) else cabin.countryNameDe, geocoded.1,
        cabin.latitude, cabin.longitude, Altitude(cabin.altitude), Some(true), Some(now), Some(now), None, None, Some(SourceName))
  }

  /**
   * A stored hut overwritten from its cabin: every mapped field, positions
   * that may become null included, and Enabled set. The current import also
   * overwrites the region, even with null (lines 131-140); the older one
   * leaves the region alone (lines 121-129).
   */
  function UpdatedCabinHut(stored: Hut, cabin: Cabin, geocoding: bool, reverse: Reverse, now: Time): (h: Hut)
    ensures h.id == stored.id && h.added == stored.added && h.activated == stored.activated
    ensures h.source == stored.source && h.manuallyEdited == stored.manuallyEdited && h.coordinates == stored.coordinates
    ensures h.name == cabin.name && h.enabled == Some(true) && h.lastUpdated == Some(now)
    ensures h.link == Some(HutLinkBase + cabin.slug) && h.hutWebsite == CabinWebsite(cabin.website)
    ensures h.latitude == cabin.latitude && h.longitude == cabin.longitude && h.altitude == Altitude(cabin.altitude)
    ensures geocoding ==> h.country == CabinCountry(cabin, Geocoded(cabin, reverse).0) && h.region == Geocoded(cabin, reverse).1
    ensures !geocoding ==> h.country == cabin.countryNameDe && h.region == stored.region
  {
    var geocoded := Geocoded(cabin, reverse);
    var h := stored.(name := cabin.name, hutWebsite := CabinWebsite(cabin.website), link := Some(HutLinkBase + cabin.slug),
                     latitude := cabin.latitude, longitude := cabin.longitude, altitude := Altitude(cabin.altitude),
                     enabled := Some(true), lastUpdated := Some(now));
    if geocoding then h.(country := CabinCountry(cabin, geocoded.0), region := geocoded.1)
    else h.(country := cabin.countryNameDe)
  }

  // ------------------------------------------------------------ the import

  /** The stored huts and the list of huts the import returns, so far. */
  datatype ImportState = ImportState(huts: map<int, Hut>, result: seq<Hut>)

  /** One cabin of the inner `foreach` (lines 69-144 of the current import, 69-133 of the older one). */
  function CabinStep(st: ImportState, cabin: Cabin, geocoding: bool, reverse: Reverse, now: Time): (r: ImportState)
    ensures var id := cabin.id + HuettenHolidayAvailability.HutIdOffset;
      forall other :: other != id ==> (other in r.huts <==> other in st.huts) && (other in st.huts ==> r.huts[other] == st.huts[other])
    ensures cabin.isDelete ==> r == st
    ensures var id := cabin.id + HuettenHolidayAvailability.HutIdOffset;
      id in st.huts && st.huts[id].manuallyEdited == Some(true) ==> r == st
    ensures r != st ==> var id := cabin.id + HuettenHolidayAvailability.HutIdOffset;
      !cabin.isDelete && id in r.huts && r.result == st.result + [r.huts[id]] && r.huts[id].enabled == Some(true)
    ensures var id := cabin.id + HuettenHolidayAvailability.HutIdOffset;
      !cabin.isDelete && id !in st.huts ==>
        var hut := NewCabinHut(cabin, geocoding, reverse, now);
        r == ImportState(st.huts[id := hut], st.result + [hut])
    ensures var id := cabin.id + HuettenHolidayAvailability.HutIdOffset;
      !cabin.isDelete && id in st.huts && st.huts[id].manuallyEdited != Some(true) ==>
        var hut := UpdatedCabinHut(st.huts[id], cabin, geocoding, reverse, now);
        r == ImportState(st.huts[id := hut], st.result + [hut])
  {
    var id := cabin.id + HuettenHolidayAvailability.HutIdOffset;
    if cabin.isDelete then st
    else if id !in st.huts then
      var hut := NewCabinHut(cabin, geocoding, reverse, now);
      ImportState(st.huts[id := hut], st.result + [hut])
    else if st.huts[id].manuallyEdited == Some(true) then st
    else
      var hut := UpdatedCabinHut(st.huts[id], cabin, geocoding, reverse, now);
      ImportState(st.huts[id := hut], st.result + [hut])
  }

  function Import(st: ImportState, cabins: seq<Cabin>, geocoding: bool, reverse: Reverse, now: Time): ImportState
    decreases |cabins|
  {
    if cabins == [] then st
    else CabinStep(Import(st, cabins[..|cabins| - 1], geocoding, reverse, now), cabins[|cabins| - 1], geocoding, reverse, now)
  }

  /** The cabins of the pages, page after page. */
  function PageCabins(pages: seq<CabinPage>): seq<Cabin>
  {
    if pages == [] then [] else PageCabins(pages[..|pages| - 1]) + pages[|pages| - 1].data
  }

  /**
   * The pages the `do`/`while` loop processes, given the reply to each GET
   * in order: it stops at a null reply, and after a page without a next one.
   */
  function ProcessedPages(responses: seq<Option<CabinPage>>): (pages: seq<CabinPage>)
    ensures |pages| <= |responses|
  {
    if responses == [] || responses[0].None? then []
    else if responses[0].value.nextPageUrl.None? then [responses[0].value]
    else [responses[0].value] + ProcessedPages(responses[1..])
  }

  /** The replies end with one that stops the paging, so the loop ends within them. */
  predicate PagingEnds(responses: seq<Option<CabinPage>>)
  {
    |responses| > 0 && (responses[|responses| - 1].None? || responses[|responses| - 1].value.nextPageUrl.None?)
  }

  /** The addresses the loop requests: the first page, then every next-page address it follows. */
  predicate FollowsPaging(responses: seq<Option<CabinPage>>, urls: seq<string>)
  {
    1 <= |urls| <= |responses| && urls[0] == FirstPageUrl && FollowedNext(responses, urls) &&
    (responses[|urls| - 1].None? || responses[|urls| - 1].value.nextPageUrl.None?)
  }

  /** Every address after the first is the next-page address of the reply before it. */
  predicate FollowedNext(responses: seq<Option<CabinPage>>, urls: seq<string>)
    requires |urls| <= |responses|
  {
    forall k :: 0 <= k < |urls| - 1 ==> responses[k].Some? && responses[k].value.nextPageUrl == Some(urls[k + 1])
  }

  /**
   * Against the requests the loop makes: the processed pages are the replies
   * to those requests, in order, all but a final null one.
   */
  lemma {:induction false} ProcessedPagesAreReplies(responses: seq<Option<CabinPage>>, n: nat)
    requires 1 <= n <= |responses|
    requires forall k :: 0 <= k < n - 1 ==> responses[k].Some? && responses[k].value.nextPageUrl.Some?
    requires responses[n - 1].None? || responses[n - 1].value.nextPageUrl.None?
    ensures var pages := ProcessedPages(responses);
      |pages| == (if responses[n - 1].None? then n - 1 else n) &&
      forall k :: 0 <= k < |pages| ==> responses[k] == Some(pages[k])
    decreases n
  {
    if n > 1 {
      var rest := responses[1..];
      forall k | 0 <= k < n - 2
        ensures rest[k].Some? && rest[k].value.nextPageUrl.Some?
      {
        assert rest[k] == responses[k + 1];
      }
      ProcessedPagesAreReplies(rest, n - 1);
      var pages := ProcessedPages(responses);
      assert pages == [responses[0].value] + ProcessedPages(rest);
      forall k | 1 <= k < |pages|
        ensures responses[k] == Some(pages[k])
      {
        assert pages[k] == ProcessedPages(rest)[k - 1];
        assert responses[k] == rest[k - 1];
      }
    }
  }

  /** The pages processed from the `i`-th reply on, one reply unfolded. */
  lemma ProcessedFrom(responses: seq<Option<CabinPage>>, i: nat, done: seq<CabinPage>)
    requires i < |responses| && PagingEnds(responses)
    requires ProcessedPages(responses) == done + ProcessedPages(responses[i..])
    ensures responses[i].None? ==> ProcessedPages(responses) == done
    ensures responses[i].Some? && responses[i].value.nextPageUrl.None? ==> ProcessedPages(responses) == done + [responses[i].value]
    ensures responses[i].Some? && responses[i].value.nextPageUrl.Some? ==>
      i + 1 < |responses| && ProcessedPages(responses) == (done + [responses[i].value]) + ProcessedPages(responses[i + 1..])
  {
    ProcessedAt(responses, i);
    if responses[i].None? {
      assert done + [] == done;
    } else if responses[i].value.nextPageUrl.Some? {
      assert done + ([responses[i].value] + ProcessedPages(responses[i + 1..]))
          == (done + [responses[i].value]) + ProcessedPages(responses[i + 1..]);
    }
  }

  lemma ProcessedAt(responses: seq<Option<CabinPage>>, i: nat)
    requires i < |responses|
    ensures responses[i].None? ==> ProcessedPages(responses[i..]) == []
    ensures responses[i].Some? && responses[i].value.nextPageUrl.None? ==> ProcessedPages(responses[i..]) == [responses[i].value]
    ensures responses[i].Some? && responses[i].value.nextPageUrl.Some? ==>
      ProcessedPages(responses[i..]) == [responses[i].value] + ProcessedPages(responses[i + 1..])
  {
    assert responses[i..][0] == responses[i];
    assert responses[i..][1..] == responses[i + 1..];
  }

  /** The processing of one cabin against the database. */
  method ImportCabin(db: Database, cabin: Cabin, geocoding: bool, reverse: Reverse, now: Time, huts: seq<Hut>)
    returns (result: seq<Hut>)
    modifies db`huts
    ensures ImportState(db.huts, result) == CabinStep(ImportState(old(db.huts), huts), cabin, geocoding, reverse, now)
  {
    result := huts;
    if cabin.isDelete {
      return;
    }
    var id := cabin.id + HuettenHolidayAvailability.HutIdOffset;
    var website := CabinWebsite(cabin.website);
    var geocoded := if geocoding then Geocoded(cabin, reverse) else (None, None);
    if id !in db.huts {
      var hut := NewCabinHut(cabin, geocoding, reverse, now);
      db.huts := db.huts[id := hut];
      result := result + [hut];
    } else {
      var hut := db.huts[id];
      if hut.manuallyEdited == Some(true) {
        return;
      }
      hut := hut.(name := cabin.name, hutWebsite := website, link := Some(HutLinkBase + cabin.slug));
      hut := hut.(latitude := cabin.latitude, longitude := cabin.longitude, altitude := Altitude(cabin.altitude));
      if geocoding {
        hut := hut.(country := CabinCountry(cabin, geocoded.0), region := geocoded.1);
      } else {
        hut := hut.(country := cabin.countryNameDe);
      }
      hut := hut.(enabled := Some(true), lastUpdated := Some(now));
      db.huts := db.huts[id := hut];
      result := result + [hut];
    }
  }

  /** The cabins of one page, in order. */
  method ImportPage(db: Database, page: CabinPage, geocoding: bool, reverse: Reverse, now: Time, huts: seq<Hut>)
    returns (result: seq<Hut>)
    modifies db`huts
    ensures ImportState(db.huts, result) == Import(ImportState(old(db.huts), huts), page.data, geocoding, reverse, now)
  {
    ghost var start := ImportState(db.huts, huts);
    result := huts;
    var j := 0;
    while j < |page.data|
      invariant 0 <= j <= |page.data|
      invariant Import(start, page.data[..j], geocoding, reverse, now) == ImportState(db.huts, result)
    {
      assert page.data[..j + 1][..j] == page.data[..j];
      result := ImportCabin(db, page.data[j], geocoding, reverse, now, result);
      j := j + 1;
    }
    assert page.data[..j] == page.data;
  }

  lemma ImportNextPage(st: ImportState, done: seq<CabinPage>, page: CabinPage, geocoding: bool, reverse: Reverse, now: Time)
    ensures Import(st, PageCabins(done + [page]), geocoding, reverse, now)
         == Import(Import(st, PageCabins(done), geocoding, reverse, now), page.data, geocoding, reverse, now)
  {
    assert (done + [page])[..|done|] == done;
    ImportAppend(st, PageCabins(done), page.data, geocoding, reverse, now);
  }

  lemma {:induction false} ImportAppend(st: ImportState, xs: seq<Cabin>, ys: seq<Cabin>, geocoding: bool, reverse: Reverse, now: Time)
    ensures Import(st, xs + ys, geocoding, reverse, now) == Import(Import(st, xs, geocoding, reverse, now), ys, geocoding, reverse, now)
    decreases |ys|
  {
    if ys == [] {
      assert xs + ys == xs;
    } else {
      ImportAppend(st, xs, ys[..|ys| - 1], geocoding, reverse, now);
      assert (xs + ys)[..|xs + ys| - 1] == xs + ys[..|ys| - 1];
    }
  }

  /**
   * `HuettenHolidayUpdateHutsActivityTrigger` (geocoding) and the older
   * `HuettenHolidayGetHutsFromProvider` (no geocoding): the paging loop over
   * the replies, in order, and the cabins of every processed page.
   */
  method UpdateHutsFromProvider(db: Database, responses: seq<Option<CabinPage>>, geocoding: bool, reverse: Reverse, now: Time)
    returns (huts: seq<Hut>, urls: seq<string>)
    requires PagingEnds(responses)
    modifies db`huts
    ensures FollowsPaging(responses, urls)
    ensures ImportState(db.huts, huts) ==
      Import(ImportState(old(db.huts), []), PageCabins(ProcessedPages(responses)), geocoding, reverse, now)
  {
    ghost var start := ImportState(db.huts, []);
    ghost var done: seq<CabinPage> := [];
    huts := [];
    urls := [FirstPageUrl];
    var i := 0;
    while true
      invariant 0 <= i < |responses| && |urls| == i + 1 && urls[0] == FirstPageUrl
      invariant FollowedNext(responses, urls)
      invariant ProcessedPages(responses) == done + ProcessedPages(responses[i..])
      invariant Import(start, PageCabins(done), geocoding, reverse, now) == ImportState(db.huts, huts)
      decreases |responses| - i
    {
      var response := responses[i];
      ProcessedFrom(responses, i, done);
      if response.None? {
        assert FollowsPaging(responses, urls);
        break;
      }
      var page := response.value;
      ghost var old_urls := urls;
      huts := ImportPage(db, page, geocoding, reverse, now, huts);
      ImportNextPage(start, done, page, geocoding, reverse, now);
      done := done + [page];
      if page.nextPageUrl.None? {
        assert FollowsPaging(responses, urls);
        break;
      }
      urls := urls + [page.nextPageUrl.value];
      i := i + 1;
      assert FollowedNext(responses, urls) by {
        forall k | 0 <= k < |urls| - 1
          ensures responses[k].Some? && responses[k].value.nextPageUrl == Some(urls[k + 1])
        {
          if k < |urls| - 2 {
            assert urls[k + 1] == old_urls[k + 1];
          }
        }
      }
    }
  }

  // ------------------------------------------------------------ properties

  /** A hut edited by hand is neither changed nor returned, whatever the cabins say. */
  lemma {:induction false} ManuallyEditedUntouched(st: ImportState, cabins: seq<Cabin>, geocoding: bool, reverse: Reverse,
                                                   now: Time, id: int)
    requires KeyedById(st.huts) && id in st.huts && st.huts[id].manuallyEdited == Some(true)
    ensures var r := Import(st, cabins, geocoding, reverse, now);
      id in r.huts && r.huts[id] == st.huts[id] &&
      |st.result| <= |r.result| && r.result[..|st.result|] == st.result &&
      forall k :: |st.result| <= k < |r.result| ==> r.result[k].id != id
    decreases |cabins|
  {
    if cabins != [] {
      var before := Import(st, cabins[..|cabins| - 1], geocoding, reverse, now);
      ManuallyEditedUntouched(st, cabins[..|cabins| - 1], geocoding, reverse, now, id);
      ResultFromLiveCabins(st, cabins[..|cabins| - 1], geocoding, reverse, now);
      var cabin := cabins[|cabins| - 1];
      var after := CabinStep(before, cabin, geocoding, reverse, now);
      if after != before {
        var cid := cabin.id + HuettenHolidayAvailability.HutIdOffset;
        assert cid != id;
        assert after.result[|after.result| - 1].id == cid by {
          if cid in before.huts {
            assert after.huts[cid] == UpdatedCabinHut(before.huts[cid], cabin, geocoding, reverse, now);
          }
        }
      }
    }
  }

  /** Every returned hut is stored under the id of a cabin that is not deleted, plus the offset. */
  lemma {:induction false} ResultFromLiveCabins(st: ImportState, cabins: seq<Cabin>, geocoding: bool, reverse: Reverse, now: Time)
    requires KeyedById(st.huts)
    ensures var r := Import(st, cabins, geocoding, reverse, now);
      KeyedById(r.huts) && |st.result| <= |r.result| &&
      forall k :: |st.result| <= k < |r.result| ==>
        exists c :: c in cabins && !c.isDelete && r.result[k].id == c.id + HuettenHolidayAvailability.HutIdOffset
    decreases |cabins|
  {
    if cabins != [] {
      var init := cabins[..|cabins| - 1];
      var before := Import(st, init, geocoding, reverse, now);
      ResultFromLiveCabins(st, init, geocoding, reverse, now);
      var cabin := cabins[|cabins| - 1];
      var after := CabinStep(before, cabin, geocoding, reverse, now);
      var cid := cabin.id + HuettenHolidayAvailability.HutIdOffset;
      forall k | |st.result| <= k < |after.result|
        ensures exists c :: c in cabins && !c.isDelete && after.result[k].id == c.id + HuettenHolidayAvailability.HutIdOffset
      {
        if k < |before.result| {
          assert after.result[k] == before.result[k] by {
            if after != before {
              assert after.result == before.result + [after.huts[cid]];
            }
          }
          var c :| c in init && !c.isDelete && before.result[k].id == c.id + HuettenHolidayAvailability.HutIdOffset;
          assert c in cabins;
        } else {
          assert after != before;
          assert after.result[k] == after.huts[cid];
          assert cabin in cabins;
        }
      }
      if after != before {
        if cid in before.huts {
          assert after.huts[cid] == UpdatedCabinHut(before.huts[cid], cabin, geocoding, reverse, now);
        }
        assert after.huts[cid].id == cid;
      }
    }
  }

  /** Deleted cabins change nothing: the import over the live cabins alone is the same. */
  function Live(cabins: seq<Cabin>): (r: seq<Cabin>)
    ensures forall c :: c in r <==> c in cabins && !c.isDelete
  {
    if cabins == [] then []
    else Live(cabins[..|cabins| - 1]) + (if cabins[|cabins| - 1].isDelete then [] else [cabins[|cabins| - 1]])
  }

  lemma {:induction false} DeletedCabinsIgnored(st: ImportState, cabins: seq<Cabin>, geocoding: bool, reverse: Reverse, now: Time)
    ensures Import(st, Live(cabins), geocoding, reverse, now) == Import(st, cabins, geocoding, reverse, now)
    decreases |cabins|
  {
    if cabins != [] {
      var init := cabins[..|cabins| - 1];
      var cabin := cabins[|cabins| - 1];
      DeletedCabinsIgnored(st, init, geocoding, reverse, now);
      if !cabin.isDelete {
        assert (Live(init) + [cabin])[..|Live(init)|] == Live(init);
      } else {
        assert Live(cabins) == Live(init);
      }
    }
  }

  // ------------------------------------------------------------ HTTP trigger

  /** The huts of the run whose ids were asked for, in the order the run returned them. */
  function Requested(huts: seq<Hut>, ids: seq<int>): (r: seq<Hut>)
    ensures forall h :: h in r <==> h in huts && h.id in ids
    ensures |r| <= |huts|
  {
    if huts == [] then []
    else Requested(huts[..|huts| - 1], ids) + (if huts[|huts| - 1].id in ids then [huts[|huts| - 1]] else [])
  }

  /**
   * `HuettenHolidayUpdateHutHttpTriggered` (lines 30-46 of either file):
   * every piece of the list is parsed with `int.Parse` and shifted by the
   * offset before the import runs, so one bad piece answers 500 with nothing
   * written, and so does a request without the `hutId` parameter, whose null
   * string throws in `Split`; otherwise the whole import runs and only the
   * asked-for huts are returned.
   */
  method HuettenHolidayUpdateHutHttpTriggered(db: Database, hutIds: Option<string>, responses: seq<Option<CabinPage>>, geocoding: bool,
                                              reverse: Reverse, now: Time)
    returns (reply: Dispatch.Reply<seq<Hut>>)
    requires PagingEnds(responses)
    modifies db`huts
    ensures reply.ServerError? <==>
      hutIds.None? || Dispatch.OffsetIds(Split(hutIds.value, {','}), HuettenHolidayAvailability.HutIdOffset).None?
    ensures reply.ServerError? ==> db.huts == old(db.huts)
    ensures reply.Ok? ==>
      var ids := Dispatch.OffsetIds(Split(hutIds.value, {','}), HuettenHolidayAvailability.HutIdOffset).value;
      var run := Import(ImportState(old(db.huts), []), PageCabins(ProcessedPages(responses)), geocoding, reverse, now);
      db.huts == run.huts && reply.body == Requested(run.result, ids)
    ensures reply.ServerError? || reply.Ok?
  {
    if hutIds.None? {
      return Dispatch.ServerError;
    }
    var hutIdsList := Dispatch.OffsetIds(Split(hutIds.value, {','}), HuettenHolidayAvailability.HutIdOffset);
    if hutIdsList.None? {
      return Dispatch.ServerError;
    }
    var allHuts, _ := UpdateHutsFromProvider(db, responses, geocoding, reverse, now);
    reply := Dispatch.Ok(Requested(allHuts, hutIdsList.value));
  }
}
