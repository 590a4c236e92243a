/**
 * Bed-category naming: the one-hop alias of `BedCategory.CommonName` and the
 * fixed id-to-name switch of the parsing function app.
 */
module BedCategories {
  import opened Wrappers

  /**
   * A bed category with the category it shares its name with, if any. The
   * navigation property is a value here, so an alias chain is finite.
   */
  datatype BedCategory = BedCategory(id: int, name: string, sharesNameWith: Option<BedCategory>)

  /** `CommonName`: the alias's Name when an alias is set, otherwise the own Name. */
  function CommonName(c: BedCategory): string
  {
    if c.sharesNameWith.Some? then c.sharesNameWith.value.name else c.name
  }

  /** With an alias, the common name is the alias's Name; without one, the own Name. */
  lemma CommonNameCases(c: BedCategory)
    ensures c.sharesNameWith.Some? ==> CommonName(c) == c.sharesNameWith.value.name
    ensures c.sharesNameWith.None? ==> CommonName(c) == c.name
  {
  }

  /**
   * Only one hop is followed: for a chain c -> a -> b the common name is a's
   * own Name, whatever b is called.
   */
  lemma CommonNameOneHop(c: BedCategory, a: BedCategory, b: BedCategory)
    requires c.sharesNameWith == Some(a) && a.sharesNameWith == Some(b)
    ensures CommonName(c) == a.name
    ensures a.name != b.name ==> CommonName(c) != CommonName(a)
  {
  }

  /** The result depends only on Name and on the alias's Name, not on ids or deeper aliases. */
  lemma CommonNameDependsOnNames(c: BedCategory, d: BedCategory)
    requires c.name == d.name
    requires c.sharesNameWith.Some? == d.sharesNameWith.Some?
    requires c.sharesNameWith.Some? ==> c.sharesNameWith.value.name == d.sharesNameWith.value.name
    ensures CommonName(c) == CommonName(d)
  {
  }

  /** `RoomAvailability.BedCategory`: the switch from category id to display name. */
  function BedCategoryName(id: Option<int>): Option<string>
  {
    if id == Some(1) then Some("Massenlager")
    else if id == Some(2) then Some("Zimmer")
    else if id == Some(4) || id == Some(7) then Some("Matratzenlager")
    else if id == Some(5) || id == Some(8) then Some("Mehrbettzimmer")
    else if id == Some(9) then Some("Zweierzimmer")
    else None
  }

  /** Exactly the ids 1, 2, 4, 5, 7, 8 and 9 have a name; any other id and null give null. */
  lemma BedCategoryNameDefined(id: Option<int>)
    ensures BedCategoryName(id).Some? <==> id.Some? && id.value in {1, 2, 4, 5, 7, 8, 9}
  {
  }

  /** Two ids share a name only when they are equal, or are 4 and 7, or are 5 and 8. */
  lemma BedCategoryNameShared(a: int, b: int)
    requires BedCategoryName(Some(a)).Some? && BedCategoryName(Some(a)) == BedCategoryName(Some(b))
    ensures a == b || (a in {4, 7} && b in {4, 7}) || (a in {5, 8} && b in {5, 8})
  {
  }
}
