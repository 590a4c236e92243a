/**
 * The fallback country classifier, from the hut's name, its phone number and
 * the page locale. The newer importer answers in German; the three older
 * copies answer in English and write the name test inside the `Any` lambda.
 */
module Country {
  import opened Strings

  const SwissNames: seq<string> := ["SAC", "CAS", "AACZ"]
  const SouthTyrolNames: seq<string> := ["AVS"]

  predicate NameHasAny(hutName: string, names: seq<string>)
  {
    exists i :: 0 <= i < |names| && Contains(hutName, names[i])
  }

  /** A Swiss section abbreviation in the name, or a Swiss dialling prefix. */
  predicate SwissMarker(hutName: string, phone: string)
  {
    NameHasAny(hutName, SwissNames) || Contains(phone, "+41") || Contains(phone, "0041")
  }

  predicate SouthTyrolMarker(hutName: string, phone: string)
  {
    NameHasAny(hutName, SouthTyrolNames) || Contains(phone, "+39") || Contains(phone, "0039")
  }

  predicate AustrianPhone(phone: string)
  {
    Contains(phone, "+43") || Contains(phone, "0043")
  }

  predicate GermanPhone(phone: string)
  {
    Contains(phone, "+49") || Contains(phone, "0049")
  }

  /** No name or phone rule applies, so the page locale decides. */
  predicate LocaleDecides(hutName: string, phone: string)
  {
    !SwissMarker(hutName, phone) && !SouthTyrolMarker(hutName, phone) && !AustrianPhone(phone) && !GermanPhone(phone)
  }

  /**
   * FetchDataFunctions `Helpers.GetCountry`: the first matching rule wins,
   * Swiss before South Tyrol before the Austrian and German prefixes before
   * the locale; "de_DE" and no locale both give "unbekannt".
   */
  function GetCountry(hutName: string, phone: string, page: string): (c: string)
    ensures c in {"Schweiz", "Italia", "Österreich", "Deutschland", "unbekannt"}
    ensures c == "Schweiz" <==> SwissMarker(hutName, phone) || (LocaleDecides(hutName, phone) && Contains(page, "de_CH"))
    ensures c == "Italia" <==> !SwissMarker(hutName, phone) && SouthTyrolMarker(hutName, phone)
    ensures c == "Österreich" <==>
      !SwissMarker(hutName, phone) && !SouthTyrolMarker(hutName, phone) &&
      (AustrianPhone(phone) || (!GermanPhone(phone) && !Contains(page, "de_CH") && Contains(page, "de_AT")))
    ensures c == "Deutschland" <==>
      !SwissMarker(hutName, phone) && !SouthTyrolMarker(hutName, phone) && !AustrianPhone(phone) && GermanPhone(phone)
    ensures c == "unbekannt" <==> LocaleDecides(hutName, phone) && !Contains(page, "de_CH") && !Contains(page, "de_AT")
  {
    if SwissMarker(hutName, phone) then "Schweiz"
    else if SouthTyrolMarker(hutName, phone) then "Italia"
    else if AustrianPhone(phone) then "Österreich"
    else if GermanPhone(phone) then "Deutschland"
    else if Contains(page, "de_CH") then "Schweiz"
    else if Contains(page, "de_AT") then "Österreich"
    else if Contains(page, "de_DE") then "unbekannt"
    else "unbekannt"
  }

  /** `names.Any(n => hutName.Contains(n) || extra)`, the shape of the older copies. */
  predicate AnyNameOr(names: seq<string>, hutName: string, extra: bool)
  {
    exists i :: 0 <= i < |names| && (Contains(hutName, names[i]) || extra)
  }

  /** Over a non-empty list, moving the constant disjunct into the lambda changes nothing. */
  lemma AnyNameOrNonEmpty(names: seq<string>, hutName: string, extra: bool)
    requires |names| > 0
    ensures AnyNameOr(names, hutName, extra) <==> NameHasAny(hutName, names) || extra
  {
    if extra {
      assert Contains(hutName, names[0]) || extra;
    }
  }

  /**
   * The English copy (AzureFunctions `Helpers`, `UpdateHutHelpers` and
   * AzFunctions `ParseHutInfoFromHtml`): the same precedence, and
   * "Germany/Austria" when the locale is "de_DE" or missing.
   */
  function GetCountryEnglish(hutName: string, phone: string, page: string): (c: string)
    ensures c in {"Switzerland", "Italy", "Austria", "Germany", "Germany/Austria"}
    ensures c == "Switzerland" <==> SwissMarker(hutName, phone) || (LocaleDecides(hutName, phone) && Contains(page, "de_CH"))
    ensures c == "Germany/Austria" <==> LocaleDecides(hutName, phone) && !Contains(page, "de_CH") && !Contains(page, "de_AT")
  {
    AnyNameOrNonEmpty(SwissNames, hutName, Contains(phone, "+41") || Contains(phone, "0041"));
    AnyNameOrNonEmpty(SouthTyrolNames, hutName, Contains(phone, "+39") || Contains(phone, "0039"));
    if AnyNameOr(SwissNames, hutName, Contains(phone, "+41") || Contains(phone, "0041")) then "Switzerland"
    else if AnyNameOr(SouthTyrolNames, hutName, Contains(phone, "+39") || Contains(phone, "0039")) then "Italy"
    else if Contains(phone, "+43") || Contains(phone, "0043") then "Austria"
    else if Contains(phone, "+49") || Contains(phone, "0049") then "Germany"
    else if Contains(page, "de_CH") then "Switzerland"
    else if Contains(page, "de_AT") then "Austria"
    else if Contains(page, "de_DE") then "Germany/Austria"
    else "Germany/Austria"
  }

  function ToEnglish(german: string): string
  {
    match german
    case "Schweiz" => "Switzerland"
    case "Italia" => "Italy"
    case "Österreich" => "Austria"
    case "Deutschland" => "Germany"
    case _ => "Germany/Austria"
  }

  /** The copies differ only in the language of the answer: "unbekannt" became "Germany/Austria". */
  lemma EnglishIsTranslation(hutName: string, phone: string, page: string)
    ensures GetCountryEnglish(hutName, phone, page) == ToEnglish(GetCountry(hutName, phone, page))
  {
    AnyNameOrNonEmpty(SwissNames, hutName, Contains(phone, "+41") || Contains(phone, "0041"));
    AnyNameOrNonEmpty(SouthTyrolNames, hutName, Contains(phone, "+39") || Contains(phone, "0039"));
  }

  /** A Swiss marker wins over every later rule, whatever the phone and locale also say. */
  lemma SwissFirst(hutName: string, phone: string, page: string)
    requires Contains(hutName, "SAC") || Contains(phone, "0041")
    ensures GetCountry(hutName, phone, page) == "Schweiz"
    ensures GetCountryEnglish(hutName, phone, page) == "Switzerland"
  {
    if Contains(hutName, "SAC") {
      assert Contains(hutName, SwissNames[0]);
    }
  }
}
