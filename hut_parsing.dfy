/**
 * What the hut importers take from a provider's hut page: the excluded test
 * huts, the website and enabled flag, the coordinate text, and the
 * coordinate search with its fallback spellings of the hut name. The HTML
 * lookup itself is abstracted: a page arrives as the texts it was found to
 * hold.
 */
module HutParsing {
  import opened Wrappers
  import opened Strings
  import opened Store
  import opened Country
  import Dispatch

  /** Names of huts the provider lists only for testing; they are never imported. */
  const ExcludedHutNames: seq<string> := [
    "testhuette_elca, ELCA",
    "ZZZ TEST Monbijouhütte, SAC GS",
    "TEST123, TEST",
    "ZZZ TEST, TEST",
    "AV Testhütte, DAV Bundesgeschäftsstelle",
    "Test",
    "Domžalski dom Test",
    "ZZZ TEST - Demo Cabane CAS Gruyere, CAS Gruyere",
    "Testhütte Carolin"
  ]

  /** The phrase on the page of a hut that is not open for booking. */
  const DisabledPhrase: string := "Diese Hütte ist nicht freigeschaltet"

  /** The `info` container of a hut page: the `h4` text and the texts of the second and fifth `span`. */
  datatype InfoDiv = InfoDiv(name: string, phone: string, coordinatesText: string)

  /** A hut page: its info container if there is one, the first link of its logo, and its whole text. */
  datatype HutPage = HutPage(info: Option<InfoDiv>, websiteHref: Option<string>, text: string)

  predicate HutEnabled(pageText: string)
  {
    !Contains(pageText, DisabledPhrase)
  }

  // ------------------------------------------------------------- website

  /**
   * FetchDataFunctions/Helpers.cs:83-90: an empty link leaves the website
   * unset; a link whose lower-case form does not start with "http" gets
   * "http://" in front.
   */
  function WebsiteWithScheme(href: Option<string>): (w: Option<string>)
    ensures w.None? <==> IsNullOrEmpty(href)
    ensures w.Some? ==> StartsWith(ToLower(w.value), "http")
    ensures w.Some? ==> |href.value| <= |w.value| && w.value[|w.value| - |href.value|..] == href.value
  {
    if IsNullOrEmpty(href) then None
    else if StartsWith(ToLower(href.value), "http") then href
    else
      var w := "http://" + href.value;
      assert ToLower(w)[..4] == "http" by {
        ToLowerSlice(w, 0, 4);
        assert w[..4] == "http";
      }
      Some(w)
  }

  lemma WebsiteWithSchemeIdempotent(href: Option<string>)
    ensures WebsiteWithScheme(WebsiteWithScheme(href)) == WebsiteWithScheme(href)
  {
  }

  // ---------------------------------------------------------- coordinates

  /** The coordinate text: runs of whitespace become one space, then every "Koordinaten: " is removed. */
  function CleanCoordinates(text: string): string
  {
    Replace(CollapseWhitespace(text), "Koordinaten: ", "")
  }

  /** The label in front of collapsed coordinates is removed and nothing else changes. */
  lemma CleanCoordinatesOfLabelled(c: string)
    requires Collapsed(c) && (c == [] || !IsWhiteSpace(c[0]))
    requires !Contains(c, "Koordinaten: ")
    ensures CleanCoordinates("Koordinaten: " + c) == c
  {
    var prefix := "Koordinaten: ";
    var s := prefix + c;
    forall i | 0 <= i < |s| && IsWhiteSpace(s[i])
      ensures s[i] == ' ' && (i + 1 == |s| || !IsWhiteSpace(s[i + 1]))
    {
      if i >= |prefix| {
        assert s[i] == c[i - |prefix|];
        if i + 1 < |s| {
          assert s[i + 1] == c[i + 1 - |prefix|];
        }
      } else if i == 12 {
        if i + 1 < |s| {
          assert s[i + 1] == c[0];
        }
      }
    }
    assert Collapsed(s);
    CollapseWhitespaceFixed(s);
    ReplaceLeadingPrefix(prefix, c);
  }

  // ---------------------------------------------------- coordinate search

  /** A search hit; a coordinate is `None` when its text does not parse, which throws. */
  datatype SearchResult = SearchResult(kind: string, lat: Option<real>, lon: Option<real>)

  /** The Nominatim search by name: `None` when the request fails or throws. */
  type Search = string -> Option<seq<SearchResult>>

  /** The sanity check for a location in central Europe. */
  predicate InBox(lat: real, lon: real)
  {
    !(lon < 4.0 || lon > 17.0 || lat > 53.0 || lat < 44.0)
  }

  /** Lines 183-186: the part of the name before the first comma, the section name dropped. */
  function NamePart(hutName: string): (r: string)
    ensures Free(r, {','}) && StartsWith(hutName, r)
    ensures |r| < |hutName| ==> hutName[|r|] == ','
  {
    SplitFirstPiece(hutName, {','});
    if Contains(hutName, ",") then Split(hutName, {','})[0]
    else
      assert Free(hutName, {','}) by {
        forall i | 0 <= i < |hutName|
          ensures hutName[i] != ','
        {
          if hutName[i] == ',' {
            ContainsAt(hutName, ",", i);
          }
        }
      }
      assert hutName[..|hutName|] == hutName;
      hutName
  }

  predicate IsKind(r: SearchResult)
  {
    r.kind == "alpine_hut" || r.kind == "restaurant"
  }

  function FirstOfKind(results: seq<SearchResult>): (r: Option<nat>)
    ensures r.Some? ==> r.value < |results| && IsKind(results[r.value]) && forall j :: 0 <= j < r.value ==> !IsKind(results[j])
    ensures r.None? ==> forall j :: 0 <= j < |results| ==> !IsKind(results[j])
    decreases |results|
  {
    if results == [] then None
    else if IsKind(results[0]) then Some(0)
    else
      var rest := FirstOfKind(results[1..]);
      if rest.None? then None else Some(rest.value + 1)
  }

  /** Lines 196-206: with several hits, the first alpine hut or restaurant, else the first hit. */
  function Pick(results: seq<SearchResult>): (r: SearchResult)
    requires |results| > 0
    ensures r in results
    ensures |results| > 1 && (exists j :: 0 <= j < |results| && IsKind(results[j])) ==>
      IsKind(r) && exists i :: 0 <= i < |results| && results[i] == r && forall j :: 0 <= j < i ==> !IsKind(results[j])
    ensures |results| == 1 || (forall j :: 0 <= j < |results| ==> !IsKind(results[j])) ==> r == results[0]
  {
    if |results| > 1 then
      match FirstOfKind(results)
      case None => results[0]
      case Some(i) => results[i]
    else results[0]
  }

  predicate IsTlaLetter(c: char)
  {
    'A' <= c <= 'Z' || c == 'Ö' || c == 'Ä' || c == 'Ü'
  }

  /** The length of the run of capitals at the start of s, at most cap. */
  function CapitalRun(s: string, cap: nat): (n: nat)
    ensures n <= cap && n <= |s|
    ensures forall i :: 0 <= i < n ==> IsTlaLetter(s[i])
    ensures n < cap && n < |s| ==> !IsTlaLetter(s[n])
  {
    if cap == 0 || s == [] || !IsTlaLetter(s[0]) then 0
    else 1 + CapitalRun(s[1..], cap - 1)
  }

  /** A space at i followed by at least two capitals: where " [A-ZÖÄÜ]{2,4}" matches. */
  predicate TlaAt(s: string, i: int)
  {
    0 <= i && i + 2 < |s| && s[i] == ' ' && IsTlaLetter(s[i + 1]) && IsTlaLetter(s[i + 2])
  }

  /** A match of " [A-ZÖÄÜ]{2,4}" somewhere in the name. */
  predicate HasTla(s: string)
  {
    exists i :: 0 <= i < |s| && TlaAt(s, i)
  }

  /** Past a position where no match starts, a match exists exactly when one exists in the tail. */
  lemma HasTlaTail(s: string)
    requires s != [] && !TlaAt(s, 0)
    ensures HasTla(s) <==> HasTla(s[1..])
  {
    if HasTla(s) {
      var i :| 0 <= i < |s| && TlaAt(s, i);
      assert TlaAt(s[1..], i - 1);
    }
    if HasTla(s[1..]) {
      var i :| 0 <= i < |s[1..]| && TlaAt(s[1..], i);
      assert TlaAt(s, i + 1);
    }
  }

  /**
   * Line 225: every match of " [A-ZÖÄÜ]{2,4}", found left to right and as
   * long as possible, is removed.
   */
  function RemoveTla(s: string): (r: string)
    ensures |r| <= |s|
    decreases |s|
  {
    if s == [] then []
    else if s[0] == ' ' && CapitalRun(s[1..], 4) >= 2 then RemoveTla(s[1 + CapitalRun(s[1..], 4)..])
    else [s[0]] + RemoveTla(s[1..])
  }

  /** The rewrite shortens a name exactly when the name has a match, and is the identity otherwise. */
  lemma {:induction false} RemoveTlaShortens(s: string)
    ensures HasTla(s) <==> |RemoveTla(s)| < |s|
    ensures !HasTla(s) ==> RemoveTla(s) == s
    decreases |s|
  {
    if s != [] {
      if s[0] == ' ' && CapitalRun(s[1..], 4) >= 2 {
        assert IsTlaLetter(s[1..][0]) && IsTlaLetter(s[1..][1]);
        assert TlaAt(s, 0);
      } else {
        assert !TlaAt(s, 0) by {
          if s[0] == ' ' && |s| > 2 && IsTlaLetter(s[1]) {
            assert s[1..][0] == s[1] && s[1..][1..][0] == s[2];
          }
        }
        RemoveTlaShortens(s[1..]);
        HasTlaTail(s);
      }
    }
  }

  /**
   * FetchDataFunctions `Helpers.SearchHutCoordinates` (lines 175-249). A hit
   * outside the box is discarded, and then the name is rewritten and searched
   * again: without the capital abbreviations, else with " hütte" joined to
   * the word before, else with "hütte" hyphenated. A failed request or an
   * unparsable coordinate ends the search. `fuel` bounds the retries.
   */
  function SearchHutCoordinates(hutName: string, search: Search, fuel: nat): (r: Option<(real, real)>)
    ensures r.Some? ==> InBox(r.value.0, r.value.1)
    decreases fuel
  {
    var name := NamePart(hutName);
    match search(name)
    case None => None
    case Some(results) =>
      if |results| > 0 && (Pick(results).lat.None? || Pick(results).lon.None?) then None
      else if |results| > 0 && InBox(Pick(results).lat.value, Pick(results).lon.value) then
        Some((Pick(results).lat.value, Pick(results).lon.value))
      else if fuel == 0 then None
      else if HasTla(name) then SearchHutCoordinates(RemoveTla(name), search, fuel - 1)
      else if ContainsIgnoreCase(name, " Hütte") then SearchHutCoordinates(ReplaceIgnoreCase(name, " hütte", "hütte"), search, fuel - 1)
      else if ContainsIgnoreCase(name, "hütte") && !ContainsIgnoreCase(name, "-hütte") then
        SearchHutCoordinates(ReplaceIgnoreCase(name, "hütte", "-hütte"), search, fuel - 1)
      else None
  }

  /** A single hit inside the box for the name before the comma is the answer. */
  lemma SearchFirstHit(hutName: string, search: Search, fuel: nat, hit: SearchResult)
    requires search(NamePart(hutName)) == Some([hit])
    requires hit.lat.Some? && hit.lon.Some? && InBox(hit.lat.value, hit.lon.value)
    ensures SearchHutCoordinates(hutName, search, fuel) == Some((hit.lat.value, hit.lon.value))
  {
  }

  /** A failed request ends the search: no rewritten name is tried. */
  lemma SearchFailureStops(hutName: string, search: Search, fuel: nat)
    requires search(NamePart(hutName)).None?
    ensures SearchHutCoordinates(hutName, search, fuel).None?
  {
  }

  /** With no usable hit, the abbreviation rewrite is tried before either "hütte" rewrite. */
  lemma SearchTlaFirst(hutName: string, search: Search, fuel: nat)
    requires fuel > 0 && search(NamePart(hutName)) == Some([])
    requires HasTla(NamePart(hutName))
    ensures SearchHutCoordinates(hutName, search, fuel) ==
            SearchHutCoordinates(RemoveTla(NamePart(hutName)), search, fuel - 1)
    ensures |RemoveTla(NamePart(hutName))| < |NamePart(hutName)|
  {
    RemoveTlaShortens(NamePart(hutName));
  }

  // ------------------------------------------------------- the hut record

  /** Azure Maps reverse geocoding: country and subdivision, `None` where it has none or fails. */
  type Reverse = (real, real) -> (Option<string>, Option<string>)

  /**
   * FetchDataFunctions `Helpers.ParseHutInformation` (lines 58-127). The
   * coordinate text is read but no longer stored. Only a new hut is
   * geocoded; its country falls back to the name and phone classifier when
   * geocoding gives none.
   */
  function ParseHutInformation(hutId: int, page: HutPage, isNewHut: bool, search: Search, reverse: Reverse,
                               fuel: nat, now: Time): (r: Option<Hut>)
    ensures r.Some? <==> page.info.Some? && page.info.value.name != []
    ensures r.Some? ==>
      r.value.id == hutId && r.value.name == page.info.value.name &&
      r.value.enabled == Some(!Contains(page.text, DisabledPhrase)) &&
      r.value.hutWebsite == WebsiteWithScheme(page.websiteHref) &&
      r.value.lastUpdated == Some(now) && r.value.coordinates.None? && r.value.link.None?
    ensures r.Some? && !isNewHut ==>
      r.value.country.None? && r.value.region.None? && r.value.latitude.None? && r.value.longitude.None?
    ensures r.Some? && isNewHut ==>
      r.value.country.Some? && r.value.country.value != [] &&
      (r.value.latitude.Some? <==> SearchHutCoordinates(page.info.value.name, search, fuel).Some?) &&
      (r.value.latitude.Some? ==> r.value.longitude.Some? && InBox(r.value.latitude.value, r.value.longitude.value))
    ensures r.Some? && isNewHut && SearchHutCoordinates(page.info.value.name, search, fuel).None? ==>
      r.value.country == Some(GetCountry(page.info.value.name, page.info.value.phone, page.text)) && r.value.region.None?
    ensures r.Some? && isNewHut && SearchHutCoordinates(page.info.value.name, search, fuel).Some? ==>
      var p := SearchHutCoordinates(page.info.value.name, search, fuel).value;
      r.value.latitude == Some(p.0) && r.value.longitude == Some(p.1) && r.value.region == reverse(p.0, p.1).1 &&
      r.value.country == (if IsNullOrEmpty(reverse(p.0, p.1).0)
                          then Some(GetCountry(page.info.value.name, page.info.value.phone, page.text))
                          else reverse(p.0, p.1).0)
  {
    if page.info.None? || page.info.value.name == [] then None
    else
      var info := page.info.value;
      var hut := NewHut(hutId, info.name).(hutWebsite := WebsiteWithScheme(page.websiteHref), enabled := Some(HutEnabled(page.text)));
      if !isNewHut then Some(hut.(lastUpdated := Some(now)))
      else
        var position := SearchHutCoordinates(info.name, search, fuel);
        var geocoded: (Option<string>, Option<string>) := if position.Some? then reverse(position.value.0, position.value.1) else (None, None);
        var country := if IsNullOrEmpty(geocoded.0) then Some(GetCountry(info.name, info.phone, page.text)) else geocoded.0;
        var latitude := if position.Some? then Some(position.value.0) else None;
        var longitude := if position.Some? then Some(position.value.1) else None;
        Some(hut.(latitude := latitude, longitude := longitude, country := country, region := geocoded.1, lastUpdated := Some(now)))
  }

  /**
   * AzureFunctions `Helpers.ParseHutInformation` (lines 32-69), repeated in
   * `UpdateHutHelpers` with local time: a hut of exactly name, enabled flag,
   * cleaned coordinate text, English country and timestamp.
   */
  function ParseLegacyHutInformation(page: HutPage, now: Time): (r: Option<Hut>)
    ensures r.Some? <==> page.info.Some?
  {
    if page.info.None? then None
    else
      var info := page.info.value;
      Some(NewHut(0, info.name).(
        enabled := Some(HutEnabled(page.text)),
        coordinates := Some(CleanCoordinates(info.coordinatesText)),
        country := Some(GetCountryEnglish(info.name, info.phone, page.text)),
        lastUpdated := Some(now)))
  }

  /**
   * The older parse sets nothing but those five columns, its country is the
   * newer classifier's answer in English, and, unlike the newer parse, an
   * empty name still gives a hut.
   */
  lemma LegacyParseFields(page: HutPage, now: Time)
    requires page.info.Some?
    ensures var r := ParseLegacyHutInformation(page, now);
      r.Some? && r.value.name == page.info.value.name &&
      r.value.enabled == Some(!Contains(page.text, DisabledPhrase)) &&
      r.value.coordinates == Some(CleanCoordinates(page.info.value.coordinatesText)) &&
      r.value.country == Some(ToEnglish(GetCountry(page.info.value.name, page.info.value.phone, page.text))) &&
      r.value.lastUpdated == Some(now) &&
      r.value.id == 0 && r.value.link.None? && r.value.hutWebsite.None? && r.value.region.None? &&
      r.value.latitude.None? && r.value.longitude.None? && r.value.altitude.None? &&
      r.value.added.None? && r.value.activated.None? && r.value.manuallyEdited.None? && r.value.source.None?
  {
    var info := page.info.value;
    EnglishIsTranslation(info.name, info.phone, page.text);
  }

  /** The anonymous object the AzFunctions parser answers with. */
  datatype HutInfo = HutInfo(hutName: string, hutEnabled: bool, coordinates: string, country: string)

  /** AzFunctions `ParseHutInfoFromHtml.Run` (lines 20-57): bad request without an info container. */
  function ParseHutInfoFromHtml(page: HutPage): (r: Dispatch.Reply<HutInfo>)
    ensures r.BadRequest? <==> page.info.None?
    ensures r.Ok? || r.BadRequest?
  {
    if page.info.None? then Dispatch.BadRequest
    else
      var info := page.info.value;
      Dispatch.Ok(HutInfo(info.name, HutEnabled(page.text), CleanCoordinates(info.coordinatesText),
                          GetCountryEnglish(info.name, info.phone, page.text)))
  }

  /** The HTTP parser and the hut parser of the older app report the same four facts. */
  lemma HutInfoAgreesWithLegacyParse(page: HutPage, now: Time)
    ensures var reply := ParseHutInfoFromHtml(page);
      var hut := ParseLegacyHutInformation(page, now);
      reply.Ok? <==> hut.Some?
    ensures var reply := ParseHutInfoFromHtml(page);
      var hut := ParseLegacyHutInformation(page, now);
      reply.Ok? ==> hut.value.name == reply.body.hutName && hut.value.enabled == Some(reply.body.hutEnabled) &&
                    hut.value.coordinates == Some(reply.body.coordinates) && hut.value.country == Some(reply.body.country)
  {
  }
}
