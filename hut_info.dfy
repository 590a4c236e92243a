/**
 * The computed getters of the provider's hut-info record (`HutInfoV2`) and
 * the short website form the site shows (`Hut.ShortHutWebsite`).
 */
module HutInfo {
  import opened Wrappers
  import opened Strings

  /** `double.TryParse` is not modelled: the getters take it as a parameter. */
  type ParseDouble = string -> Option<real>

  // ----------------------------------------------------------- coordinates

  /** `coordinates.Split([',', '/'], RemoveEmptyEntries)`. */
  function CoordinateParts(coordinates: string): seq<string>
  {
    NonEmpty(Split(coordinates, {',', '/'}))
  }

  /** HutInfoV2.cs:27-35: the first of exactly two pieces, trimmed and parsed. */
  function Latitude(coordinates: string, parse: ParseDouble): Option<real>
  {
    var parts := CoordinateParts(coordinates);
    if |parts| == 2 then parse(Trim(parts[0])) else None
  }

  /** HutInfoV2.cs:37-45: the second of exactly two pieces, trimmed and parsed. */
  function Longitude(coordinates: string, parse: ParseDouble): Option<real>
  {
    var parts := CoordinateParts(coordinates);
    if |parts| == 2 then parse(Trim(parts[1])) else None
  }

  /**
   * "lat,lon" and "lat/lon" give the two parsed halves, whatever white space
   * surrounds them; the two getters read the same split.
   */
  lemma CoordinatesRoundTrip(lat: string, sep: char, lon: string, parse: ParseDouble)
    requires sep == ',' || sep == '/'
    requires lat != [] && lon != [] && Free(lat, {',', '/'}) && Free(lon, {',', '/'})
    ensures Latitude(lat + [sep] + lon, parse) == parse(Trim(lat))
    ensures Longitude(lat + [sep] + lon, parse) == parse(Trim(lon))
  {
    SplitAfterPiece(lat, sep, lon, {',', '/'});
    SplitFree(lon, {',', '/'});
    assert Split(lat + [sep] + lon, {',', '/'}) == [lat, lon];
    assert NonEmpty([lon]) == [lon];
    assert NonEmpty([lat, lon]) == [lat] + NonEmpty([lon]);
  }

  /** With a third non-empty piece both getters are null. */
  lemma ThreePiecesAreNull(a: string, b: string, c: string, parse: ParseDouble)
    requires a != [] && b != [] && c != []
    requires Free(a, {',', '/'}) && Free(b, {',', '/'}) && Free(c, {',', '/'})
    ensures Latitude(a + [','] + b + [','] + c, parse).None?
    ensures Longitude(a + [','] + b + [','] + c, parse).None?
  {
    SplitAfterPiece(b, ',', c, {',', '/'});
    assert a + [','] + b + [','] + c == a + [','] + (b + [','] + c);
    SplitAfterPiece(a, ',', b + [','] + c, {',', '/'});
    SplitFree(c, {',', '/'});
    var pieces := [a, b, c];
    assert Split(a + [','] + b + [','] + c, {',', '/'}) == pieces;
    assert NonEmpty([c]) == [c];
    assert NonEmpty([b, c]) == [b] + NonEmpty([c]);
    assert NonEmpty(pieces) == [a] + NonEmpty([b, c]);
  }

  // -------------------------------------------------------------- altitude

  /** HutInfoV2.cs:47-60: the unit spellings and dots removed in order, then trimmed and parsed. */
  function AltitudeInt(altitude: string): Option<int>
  {
    var trimmed := Trim(Replace(Replace(Replace(Replace(Replace(altitude, "H.ü.M", ""), ".", ""), "m ü M", ""), "m", ""), "M", ""));
    Int32TryParse(trimmed)
  }

  /** The removals after the dot: "m ü M" (absent), "m" and "M" turn digits and " m" into digits and a space. */
  lemma AltitudeUnitSteps(d: string)
    requires AllDigits(d)
    ensures Replace(Replace(Replace(d + " m", "m ü M", ""), "m", ""), "M", "") == d + " "
  {
    var w := d + " ";
    assert d + " m" == w + "m";
    ReplaceSkipsPrefix(w, "m", "m ü M", "");
    ReplaceSkipsPrefix(w, "m", "m", "");
    ReplaceAtMatch("m", "", "");
    assert w + "" == w;
    ReplaceWithoutFirstChar(w, "M", "");
  }

  /** Trimming digits and a trailing space leaves the digits. */
  lemma TrimDigitsSpace(d: string)
    requires AllDigits(d) && d != []
    ensures Trim(d + " ") == d
  {
    TrimStartNoOp(d + " ");
    assert (d + " ")[..|d|] == d;
    TrimEndNoOp(d);
  }

  /** No "H.ü.M" can start among digits, a dot, a space and "m". */
  lemma AltitudeNoLongUnit(a: string, b: string)
    requires AllDigits(a) && AllDigits(b)
    ensures Replace(a + "." + b + " m", "H.ü.M", "") == a + "." + b + " m"
  {
    ReplaceWithoutFirstChar(a + "." + b + " m", "H.ü.M", "");
  }

  /** The dot between two digit runs goes; nothing else changes. */
  lemma AltitudeDotStep(a: string, b: string)
    requires AllDigits(a) && AllDigits(b)
    ensures Replace(a + "." + b + " m", ".", "") == a + b + " m"
  {
    var tail := b + " m";
    assert forall i :: 0 <= i < |tail| ==> tail[i] != '.' by {
      forall i | 0 <= i < |tail|
        ensures tail[i] != '.'
      {
        if i < |b| {
          assert tail[i] == b[i];
        }
      }
    }
    ReplaceSingleMatch(a, ".", tail, "");
    assert a + "." + b + " m" == a + ("." + tail);
    assert a + ("" + tail) == a + b + " m";
  }

  /**
   * A thousands dot and the unit are dropped: "a.b m" for digit runs a and
   * b reads as the number written a followed by b.
   */
  lemma AltitudeOfDottedDigits(a: string, b: string)
    requires AllDigits(a) && AllDigits(b) && a + b != []
    ensures AltitudeInt(a + "." + b + " m") ==
            if DigitsValue(a + b) <= Int32Max then Some(DigitsValue(a + b)) else None
  {
    AltitudeNoLongUnit(a, b);
    AltitudeDotStep(a, b);
    AltitudeUnitSteps(a + b);
    TrimDigitsSpace(a + b);
    DigitsParse(a + b);
  }

  /** The unit is dropped: "d m" for a digit run d reads as d. */
  lemma AltitudeOfDigits(d: string)
    requires AllDigits(d) && d != []
    ensures AltitudeInt(d + " m") == if DigitsValue(d) <= Int32Max then Some(DigitsValue(d)) else None
  {
    ReplaceWithoutFirstChar(d + " m", "H.ü.M", "");
    ReplaceWithoutFirstChar(d + " m", ".", "");
    AltitudeUnitSteps(d);
    TrimDigitsSpace(d);
    DigitsParse(d);
  }

  // --------------------------------------------------------------- website

  /**
   * HutInfoV2.cs:62-75: null for a blank website; otherwise trimmed and
   * lower-cased, with "http://" in front unless it already has a scheme.
   */
  function HutWebsiteNormalized(hutWebsite: Option<string>): (r: Option<string>)
    ensures r.None? <==> IsNullOrWhiteSpace(hutWebsite)
    ensures r.Some? ==> IsLower(r.value) && (StartsWith(r.value, "http://") || StartsWith(r.value, "https://"))
  {
    if IsNullOrWhiteSpace(hutWebsite) then None
    else
      var normalized := ToLower(Trim(hutWebsite.value));
      ToLowerIsLower(Trim(hutWebsite.value));
      if StartsWith(normalized, "http://") || StartsWith(normalized, "https://") then Some(normalized)
      else
        ToLowerConcat("http://", normalized);
        LowerIsFixed(normalized);
        assert ("http://" + normalized)[..7] == "http://";
        Some("http://" + normalized)
  }

  lemma LowerCharKeepsWhiteSpace(c: char)
    ensures IsWhiteSpace(LowerChar(c)) == IsWhiteSpace(c)
  {
  }

  /** Trimming a non-blank string leaves a string that starts with no white space. */
  lemma TrimFirst(s: string)
    requires !IsNullOrWhiteSpace(Some(s))
    ensures var t := Trim(s); |t| > 0 && !IsWhiteSpace(t[0])
  {
    TrimOfNonBlank(s);
    TrimEndKeepsFirst(TrimStart(s));
  }

  /** Trimming a non-blank string leaves no white space at either end. */
  lemma TrimEnds(s: string)
    requires !IsNullOrWhiteSpace(Some(s))
    ensures var t := Trim(s); |t| > 0 && !IsWhiteSpace(t[0]) && !IsWhiteSpace(t[|t| - 1])
  {
    TrimFirst(s);
    var t := TrimEnd(TrimStart(s));
    assert t == Trim(s) && !IsWhiteSpace(t[|t| - 1]);
  }

  /** Lower-casing keeps a string's ends free of white space. */
  lemma LowerEnds(t: string)
    requires |t| > 0 && !IsWhiteSpace(t[0]) && !IsWhiteSpace(t[|t| - 1])
    ensures var n := ToLower(t); |n| > 0 && !IsWhiteSpace(n[0]) && !IsWhiteSpace(n[|n| - 1])
  {
    LowerCharKeepsWhiteSpace(t[0]);
    LowerCharKeepsWhiteSpace(t[|t| - 1]);
  }

  /** A normalised website is the trimmed lower-case text, with or without "http://" in front. */
  lemma NormalizedForm(hutWebsite: Option<string>)
    requires !IsNullOrWhiteSpace(hutWebsite)
    ensures var n := ToLower(Trim(hutWebsite.value));
      HutWebsiteNormalized(hutWebsite) == Some(n) || HutWebsiteNormalized(hutWebsite) == Some("http://" + n)
  {
  }

  /** "http://" in front keeps a string's ends free of white space. */
  lemma SchemeEnds(n: string)
    requires |n| > 0 && !IsWhiteSpace(n[0]) && !IsWhiteSpace(n[|n| - 1])
    ensures var r := "http://" + n; !IsWhiteSpace(r[0]) && !IsWhiteSpace(r[|r| - 1])
  {
    var r := "http://" + n;
    assert r[0] == 'h' && r[|r| - 1] == n[|n| - 1];
  }

  /** A normalised website has no white space at either end. */
  lemma HutWebsiteNormalizedEnds(hutWebsite: Option<string>)
    requires !IsNullOrWhiteSpace(hutWebsite)
    ensures var r := HutWebsiteNormalized(hutWebsite).value;
      |r| > 0 && !IsWhiteSpace(r[0]) && !IsWhiteSpace(r[|r| - 1])
  {
    var n := ToLower(Trim(hutWebsite.value));
    NormalizedForm(hutWebsite);
    TrimEnds(hutWebsite.value);
    LowerEnds(Trim(hutWebsite.value));
    SchemeEnds(n);
  }

  /** Normalising a normalised website changes nothing. */
  lemma HutWebsiteNormalizedIdempotent(hutWebsite: Option<string>)
    ensures HutWebsiteNormalized(HutWebsiteNormalized(hutWebsite)) == HutWebsiteNormalized(hutWebsite)
  {
    if !IsNullOrWhiteSpace(hutWebsite) {
      var r := HutWebsiteNormalized(hutWebsite).value;
      HutWebsiteNormalizedEnds(hutWebsite);
      TrimStartNoOp(r);
      TrimEndNoOp(r);
      assert Trim(r) == r;
      assert !IsNullOrWhiteSpace(Some(r));
      LowerIsFixed(r);
    }
  }

  // --------------------------------------------------------------- country

  lemma CountryCodesNotBlank()
    ensures !IsNullOrWhiteSpace(Some("AT")) && !IsNullOrWhiteSpace(Some("CH"))
    ensures !IsNullOrWhiteSpace(Some("DE")) && !IsNullOrWhiteSpace(Some("IT"))
  {
    assert !IsWhiteSpace("AT"[0]) && !IsWhiteSpace("CH"[0]) && !IsWhiteSpace("DE"[0]) && !IsWhiteSpace("IT"[0]);
  }

  /** HutInfoV2.cs:77-93: the four country codes in German; any other code passes through. */
  function CountryNormalized(tenantCountry: Option<string>): (r: Option<string>)
    ensures r.None? <==> IsNullOrWhiteSpace(tenantCountry)
    ensures r.Some? ==> r.value in {"Österreich", "Schweiz", "Deutschland", "Italien"} || r == tenantCountry
    ensures r.Some? && r != tenantCountry ==> tenantCountry.value in {"AT", "CH", "DE", "IT"}
    ensures tenantCountry == Some("AT") ==> r == Some("Österreich")
    ensures tenantCountry == Some("CH") ==> r == Some("Schweiz")
    ensures tenantCountry == Some("DE") ==> r == Some("Deutschland")
    ensures tenantCountry == Some("IT") ==> r == Some("Italien")
  {
    CountryCodesNotBlank();
    if IsNullOrWhiteSpace(tenantCountry) then None
    else
      match tenantCountry.value
      case "AT" => Some("Österreich")
      case "CH" => Some("Schweiz")
      case "DE" => Some("Deutschland")
      case "IT" => Some("Italien")
      case _ => tenantCountry
  }

  lemma CountryNormalizedIdempotent(tenantCountry: Option<string>)
    ensures CountryNormalized(CountryNormalized(tenantCountry)) == CountryNormalized(tenantCountry)
  {
    var r := CountryNormalized(tenantCountry);
    if r.Some? && r != tenantCountry {
      assert r.value[0] in {'Ö', 'S', 'D', 'I'};
      assert !IsWhiteSpace(r.value[0]);
      assert |r.value| > 2;
    }
  }

  // ---------------------------------------------------- short website form

  function DropWww(s: string): string
  {
    if StartsWith(s, "www") then s[3..] else s
  }

  function DropDots(s: string): (r: string)
    ensures |r| <= |s|
    ensures r == [] || r[0] != '.'
  {
    if s != [] && s[0] == '.' then DropDots(s[1..]) else s
  }

  /**
   * `Regex.Replace(s, @"http[s]{0,1}://(www){0,1}\.*", "")`: every scheme,
   * with a "www" right behind it and the dots after that, is removed,
   * scanning left to right.
   */
  function StripSchemes(s: string): (r: string)
    ensures |r| <= |s|
    decreases |s|
  {
    if StartsWith(s, "https://") then StripSchemes(DropDots(DropWww(s[8..])))
    else if StartsWith(s, "http://") then StripSchemes(DropDots(DropWww(s[7..])))
    else if s == [] then []
    else [s[0]] + StripSchemes(s[1..])
  }

  /** Huts.cs:32-43. */
  function ShortHutWebsite(hutWebsite: Option<string>): (r: Option<string>)
    ensures r.None? <==> IsNullOrEmpty(hutWebsite)
  {
    if IsNullOrEmpty(hutWebsite) then None else Some(StripSchemes(ToLower(hutWebsite.value)))
  }

  lemma {:induction false} StripSchemesKeepsLower(s: string)
    requires IsLower(s)
    ensures IsLower(StripSchemes(s))
    decreases |s|
  {
    if StartsWith(s, "https://") {
      var t := DropDots(DropWww(s[8..]));
      assert t == s[|s| - |t|..] by {
        DropDotsSuffix(DropWww(s[8..]));
      }
      StripSchemesKeepsLower(t);
    } else if StartsWith(s, "http://") {
      var t := DropDots(DropWww(s[7..]));
      assert t == s[|s| - |t|..] by {
        DropDotsSuffix(DropWww(s[7..]));
      }
      StripSchemesKeepsLower(t);
    } else if s != [] {
      StripSchemesKeepsLower(s[1..]);
    }
  }

  lemma {:induction false} DropDotsSuffix(s: string)
    ensures DropDots(s) == s[|s| - |DropDots(s)|..]
    decreases |s|
  {
    if s != [] && s[0] == '.' {
      DropDotsSuffix(s[1..]);
    }
  }

  /** The short form is always lower case. */
  lemma ShortHutWebsiteIsLower(hutWebsite: Option<string>)
    ensures var r := ShortHutWebsite(hutWebsite); r.Some? ==> IsLower(r.value)
  {
    if !IsNullOrEmpty(hutWebsite) {
      ToLowerIsLower(hutWebsite.value);
      StripSchemesKeepsLower(ToLower(hutWebsite.value));
    }
  }

  /** A string with no scheme in it is left as it is. */
  lemma {:induction false} StripSchemesNoScheme(s: string)
    requires !Contains(s, "http://") && !Contains(s, "https://")
    ensures StripSchemes(s) == s
    decreases |s|
  {
    if s != [] {
      StripSchemesNoScheme(s[1..]);
    }
  }

  /** A lower-case prefix in front of a lower-case string keeps it lower case. */
  lemma LowerConcat(p: string, host: string)
    requires IsLower(p) && IsLower(host)
    ensures ToLower(p + host) == p + host
  {
    var w := p + host;
    forall i | 0 <= i < |w|
      ensures LowerChar(w[i]) == w[i]
    {
      if i < |p| {
        assert w[i] == p[i];
      } else {
        assert w[i] == host[i - |p|];
      }
    }
    LowerIsFixed(w);
  }

  lemma HttpsWwwIsLower()
    ensures IsLower("https://www.")
  {
    var p := "https://www.";
    forall i | 0 <= i < |p|
      ensures LowerChar(p[i]) == p[i]
    {
      assert p[i] in {'h', 't', 'p', 's', ':', '/', 'w', '.'};
    }
  }

  /** "https://", "www" and the dot after it are dropped, and the host is left as it is. */
  lemma StripHttpsWww(host: string)
    requires host != [] && host[0] != '.'
    requires !Contains(host, "http://") && !Contains(host, "https://")
    ensures StripSchemes("https://www." + host) == host
  {
    var w := "https://www." + host;
    assert StartsWith(w, "https://") by {
      assert w[..8] == "https://";
    }
    var v := w[8..];
    assert v == "www" + ("." + host);
    assert DropWww(v) == "." + host by {
      assert v[..3] == "www" && v[3..] == "." + host;
    }
    assert DropDots("." + host) == host by {
      assert ("." + host)[1..] == host;
    }
    assert StripSchemes(w) == StripSchemes(host);
    StripSchemesNoScheme(host);
  }

  /** The short form of "https://www." followed by a lower-case host is the host. */
  lemma ShortOfHttpsWww(host: string)
    requires host != [] && host[0] != '.' && IsLower(host)
    requires !Contains(host, "http://") && !Contains(host, "https://")
    ensures ShortHutWebsite(Some("https://www." + host)) == Some(host)
  {
    HttpsWwwIsLower();
    LowerConcat("https://www.", host);
    StripHttpsWww(host);
  }

  lemma NormalizedOfHost(host: string)
    requires host != [] && IsLower(host)
    requires !IsWhiteSpace(host[0]) && !IsWhiteSpace(host[|host| - 1])
    requires !StartsWith(host, "http://") && !StartsWith(host, "https://")
    ensures HutWebsiteNormalized(Some(host)) == Some("http://" + host)
  {
    TrimStartNoOp(host);
    TrimEndNoOp(host);
    LowerIsFixed(host);
    assert !IsNullOrWhiteSpace(Some(host));
  }

  lemma StripSchemeOfHost(host: string)
    requires host != [] && host[0] != '.' && !StartsWith(host, "www")
    requires !Contains(host, "http://") && !Contains(host, "https://")
    ensures StripSchemes("http://" + host) == host
  {
    var w := "http://" + host;
    assert w[..7] == "http://" && w[7..] == host;
    assert !StartsWith(w, "https://") by {
      assert w[4] == ':';
    }
    StripSchemesNoScheme(host);
  }

  /**
   * For a plain lower-case host name the two forms meet: normalising adds
   * "http://", and the short form takes it off again.
   */
  lemma ShortOfNormalized(host: string)
    requires host != [] && IsLower(host)
    requires !IsWhiteSpace(host[0]) && !IsWhiteSpace(host[|host| - 1])
    requires host[0] != '.' && !StartsWith(host, "www")
    requires !Contains(host, "http://") && !Contains(host, "https://")
    ensures HutWebsiteNormalized(Some(host)) == Some("http://" + host)
    ensures ShortHutWebsite(HutWebsiteNormalized(Some(host))) == Some(host)
  {
    assert !StartsWith(host, "http://") && !StartsWith(host, "https://");
    NormalizedOfHost(host);
    HttpPrefixIsLower(host);
    StripSchemeOfHost(host);
  }

  lemma HttpPrefixIsLower(host: string)
    requires IsLower(host)
    ensures ToLower("http://" + host) == "http://" + host
  {
    var p := "http://";
    forall i | 0 <= i < |p|
      ensures LowerChar(p[i]) == p[i]
    {
      assert p[i] in {'h', 't', 'p', ':', '/'};
    }
    LowerConcat(p, host);
  }

}
