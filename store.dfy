/**
 * The database tables the services share: huts keyed by id, availability
 * rows keyed by (hut, day, bed category), and free-bed subscriptions in
 * table order.
 */
module Store {
  import opened Wrappers

  /** A calendar day, counted from an arbitrary epoch (`DateTime` used as a date). */
  type Day = int

  /** A point in time (`DateTime` used as a timestamp), in an arbitrary unit. */
  type Time = int

  /** `BedCategory.HutClosedBedcatoryId`: the category of the row that marks a whole day as closed. */
  const HutClosedBedCategoryId: int := -1

  /**
   * A row of the Huts table. The function apps use different subsets of these
   * columns; every column any of them reads or writes is here.
   */
  datatype Hut = Hut(
    id: int,
    name: string,
    link: Option<string>,
    hutWebsite: Option<string>,
    coordinates: Option<string>,
    country: Option<string>,
    region: Option<string>,
    latitude: Option<real>,
    longitude: Option<real>,
    altitude: Option<int>,
    enabled: Option<bool>,
    lastUpdated: Option<Time>,
    added: Option<Time>,
    activated: Option<Time>,
    manuallyEdited: Option<bool>,
    source: Option<string>)

  /** A hut with only its id and name set, as `new Hut { Id = id, Name = name }`. */
  function NewHut(id: int, name: string): Hut
  {
    Hut(id, name, None, None, None, None, None, None, None, None, None, None, None, None, None, None)
  }

  datatype AvailabilityKey = AvailabilityKey(hutId: int, date: Day, bedCategoryId: int)

  /** The non-key columns of an Availability row. */
  datatype Availability = Availability(freeRoom: int, totalRoom: int, tenantBedCategoryId: Option<int>, lastUpdated: Time)

  /** A row of FreeBedUpdateSubscriptions; the table key is (HutId, Date, EmailAddress). */
  datatype FreeBedSubscription = FreeBedSubscription(
    emailAddress: string,
    hutId: Option<int>,
    date: Option<Day>,
    notified: Option<bool>)

  /** Every hut is stored under its own id (the table's primary key). */
  predicate KeyedById(huts: map<int, Hut>)
  {
    forall id :: id in huts ==> huts[id].id == id
  }

  /** The database, changed in place by the activities. */
  class Database {
    var huts: map<int, Hut>
    var availability: map<AvailabilityKey, Availability>
    var subscriptions: seq<FreeBedSubscription>

    ghost predicate Valid()
      reads this
    {
      KeyedById(huts)
    }

    constructor ()
      ensures Valid()
      ensures huts == map[] && availability == map[] && subscriptions == []
    {
      huts := map[];
      availability := map[];
      subscriptions := [];
    }
  }
}
