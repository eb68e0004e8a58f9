/**
 * The three tables of the site (profiles, bookings, requests) as values, the profile
 * lookup by primary key, and the single-slot availability update.
 */
module Schema {
  import opened Wrappers

  /** A tutor's weekly availability, the decoded `free` column: weekday tag -> time -> free. */
  type Schedule = map<string, map<string, bool>>

  /** A row of `profiles`. Rating and price are floats in the table; here they are ints. */
  datatype Profile = Profile(
    id: int,
    name: string,
    about: string,
    rating: int,
    picture: string,
    price: int,
    goals: string,
    free: Schedule)

  /** A row of `bookings`; `profileId` is the foreign key into `profiles`. */
  datatype Booking = Booking(profileId: int, weekday: string, time: string, name: string, phone: string)

  /** A row of `requests`: not tied to any tutor. */
  datatype TutorRequest = TutorRequest(goal: string, time: string, name: string, phone: string)

  /** The whole database; `nextId` is the next value of the profiles' id sequence. */
  datatype Db = Db(
    profiles: seq<Profile>,
    bookings: seq<Booking>,
    requests: seq<TutorRequest>,
    nextId: int)

  predicate HasId(rows: seq<Profile>, id: int) {
    exists k :: 0 <= k < |rows| && rows[k].id == id
  }

  /** The primary-key constraint of `profiles`. */
  predicate DistinctIds(rows: seq<Profile>) {
    forall j, k :: 0 <= j < k < |rows| ==> rows[j].id != rows[k].id
  }

  /** What the database guarantees: unique profile ids, ids below the sequence's next
      value, and no booking whose foreign key dangles. */
  predicate Consistent(db: Db) {
    && DistinctIds(db.profiles)
    && (forall k :: 0 <= k < |db.profiles| ==> db.profiles[k].id < db.nextId)
    && (forall b :: 0 <= b < |db.bookings| ==> HasId(db.profiles, db.bookings[b].profileId))
  }

  /** The position of the first profile with the given id. */
  function IndexOf(rows: seq<Profile>, id: int): (r: Option<nat>)
    ensures r.None? <==> !HasId(rows, id)
    ensures r.Some? ==> r.value < |rows| && rows[r.value].id == id
    ensures r.Some? ==> forall j :: 0 <= j < r.value ==> rows[j].id != id
  {
    if |rows| == 0 then None
    else if rows[0].id == id then Some(0)
    else
      match IndexOf(rows[1..], id)
      case None =>
        assert forall k :: 1 <= k < |rows| ==> rows[k] == rows[1..][k - 1];
        None
      case Some(k) => Some(k + 1)
  }

  /** Marks `time` busy on `day`: the dictionary assignment `free[day][time] = False`.
      Every other entry keeps its value; the only key that can appear is `time` itself. */
  function SetBusy(free: Schedule, day: string, time: string): (r: Schedule)
    requires day in free
    ensures r.Keys == free.Keys
    ensures r[day].Keys == free[day].Keys + {time}
    ensures !r[day][time]
    ensures forall d :: d in free && d != day ==> r[d] == free[d]
    ensures forall d, t :: d in free && t in free[d] && (d != day || t != time) ==>
      t in r[d] && r[d][t] == free[d][t]
  {
    free[day := free[day][time := false]]
  }

  /** `bookings.time` is a VARCHAR(5) column: a longer value makes the INSERT fail. */
  const BookingTimeWidth: nat := 5

  predicate FitsTimeColumn(time: string) {
    |time| <= BookingTimeWidth
  }

  /** A record of the seed file, before it has an id. */
  datatype ProfileRecord = ProfileRecord(
    name: string,
    about: string,
    rating: int,
    picture: string,
    price: int,
    goals: string,
    free: Schedule)

  function FromRecord(rec: ProfileRecord, id: int): Profile {
    Profile(id, rec.name, rec.about, rec.rating, rec.picture, rec.price, rec.goals, rec.free)
  }

  /** The rows inserted for `records` when the id sequence stands at `first`: one per
      record, in order, with consecutive ids. */
  function SeedRows(records: seq<ProfileRecord>, first: int): (r: seq<Profile>)
    ensures |r| == |records|
    ensures forall k :: 0 <= k < |r| ==> r[k] == FromRecord(records[k], first + k)
  {
    if records == [] then []
    else [FromRecord(records[0], first)] + SeedRows(records[1..], first + 1)
  }
}
