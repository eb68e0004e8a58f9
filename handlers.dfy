/**
 * The request handlers of the site as functions from the database before the request to
 * the outcome and the database after it. The `Database` class runs them in place.
 */
module Handlers {
  import opened Wrappers
  import opened Schema
  import Catalog
  import opened Forms

  /** What a handler answers: the form page, the form redisplayed with errors, the
      confirmation page, a 404, or an uncaught exception (a 500). */
  datatype Outcome = FormShown | Invalid | Done | NotFound | ServerError

  /** The three checks at the top of the booking handler: the tutor's row, a 404,
      or the KeyError raised when the tutor's schedule has no entry for the weekday. */
  datatype Admission = Admitted(index: nat) | Refused | DayMissing

  predicate SlotFree(free: Schedule, day: string, time: string) {
    day in free && time in free[day] && free[day][time]
  }

  /** The tutor `id` exists and has (`day`, `time`) free. */
  predicate HasFreeSlot(rows: seq<Profile>, id: int, day: string, time: string) {
    exists k :: 0 <= k < |rows| && rows[k].id == id && SlotFree(rows[k].free, day, time)
  }

  /** The tutor `id` exists and its schedule has no entry at all for `day`. */
  predicate LacksDay(rows: seq<Profile>, id: int, day: string) {
    exists k :: 0 <= k < |rows| && rows[k].id == id && day !in rows[k].free
  }

  /** Booking admission: unknown tutor, unknown weekday, unknown time and a time already
      taken are refused; a weekday missing from the schedule raises. */
  function Admit(rows: seq<Profile>, id: int, day: string, time: string): (a: Admission)
    requires DistinctIds(rows)
    ensures a.Admitted? ==> a.index < |rows| && rows[a.index].id == id
    ensures a.Admitted? <==> day in Catalog.Weekdays && HasFreeSlot(rows, id, day, time)
    ensures a.DayMissing? <==> day in Catalog.Weekdays && LacksDay(rows, id, day)
  {
    match IndexOf(rows, id)
    case None => Refused
    case Some(i) =>
      if day !in Catalog.DaysOfWeek then Refused
      else if day !in rows[i].free then DayMissing
      else if time !in rows[i].free[day] || !rows[i].free[day][time] then Refused
      else Admitted(i)
  }

  /** The write-back of a booking: the row at `ti` (the form's teacher) receives the
      schedule read for the row at `i` (the path's tutor) with `time` busy on `day`. */
  function Rebook(rows: seq<Profile>, i: nat, ti: nat, day: string, time: string): seq<Profile>
    requires i < |rows| && ti < |rows| && day in rows[i].free
  {
    rows[ti := rows[ti].(free := SetBusy(rows[i].free, day, time))]
  }

  /** The rows keep their ids and every column but `free`. */
  predicate SameRowsButFree(before: seq<Profile>, after: seq<Profile>) {
    |after| == |before| &&
    forall k :: 0 <= k < |before| ==> after[k] == before[k].(free := after[k].free)
  }

  /** Every stored booking and request satisfies the rules its form checked. */
  predicate WellFormed(db: Db) {
    && Consistent(db)
    && (forall b :: 0 <= b < |db.bookings| ==>
          db.bookings[b].weekday in Catalog.Weekdays && db.bookings[b].time != "" &&
          1 <= |db.bookings[b].name| <= 50 && 5 <= |db.bookings[b].phone| <= 20)
    && (forall q :: 0 <= q < |db.requests| ==>
          db.requests[q].goal in Catalog.Goals && db.requests[q].time in TimeChoices &&
          1 <= |db.requests[q].name| <= 50 && 5 <= |db.requests[q].phone| <= 20)
  }

  /** The database after a validated booking POST: one more booking, one schedule rewritten. */
  function Committed(db: Db, i: nat, ti: nat, day: string, f: BookingPost): Db
    requires i < |db.profiles| && ti < |db.profiles| && day in db.profiles[i].free
    requires f.name.Some? && f.phone.Some? && f.weekday.Some? && f.time.Some?
  {
    var booking := Booking(db.profiles[ti].id, f.weekday.value, f.time.value, f.name.value, f.phone.value);
    db.(bookings := db.bookings + [booking], profiles := Rebook(db.profiles, i, ti, day, f.time.value))
  }

  lemma CommitKeepsInvariants(db: Db, i: nat, ti: nat, day: string, time: string, f: BookingPost)
    requires Consistent(db) && i < |db.profiles| && ti < |db.profiles| && day in db.profiles[i].free
    requires BookingFormValid(f, day, time)
    ensures SameRowsButFree(db.profiles, Committed(db, i, ti, day, f).profiles)
    ensures Consistent(Committed(db, i, ti, day, f))
    ensures WellFormed(db) ==> WellFormed(Committed(db, i, ti, day, f))
  {
    var after := Committed(db, i, ti, day, f);
    var rows := after.profiles;
    assert forall k :: 0 <= k < |rows| ==> rows[k].id == db.profiles[k].id;
    forall b | 0 <= b < |after.bookings| ensures HasId(rows, after.bookings[b].profileId) {
      if b < |db.bookings| {
        assert after.bookings[b] == db.bookings[b];
        var k :| 0 <= k < |db.profiles| && db.profiles[k].id == db.bookings[b].profileId;
        assert rows[k].id == db.profiles[k].id;
      } else {
        assert after.bookings[b].profileId == rows[ti].id;
      }
    }
  }

  /** `/booking/<id>/<day>/<time>/` for a GET (`post` is None) or a POST. */
  function BookingHandler(db: Db, id: int, day: string, time: string, post: Option<BookingPost>): (r: (Outcome, Db))
    requires Consistent(db)
    ensures !HasId(db.profiles, id) || day !in Catalog.Weekdays ==> r == (NotFound, db)
    ensures day in Catalog.Weekdays && LacksDay(db.profiles, id, day) ==> r == (ServerError, db)
    ensures HasId(db.profiles, id) && !LacksDay(db.profiles, id, day) && !HasFreeSlot(db.profiles, id, day, time) ==>
      r == (NotFound, db)
    ensures post.None? && day in Catalog.Weekdays && HasFreeSlot(db.profiles, id, day, time) ==> r == (FormShown, db)
    ensures post.Some? && day in Catalog.Weekdays && HasFreeSlot(db.profiles, id, day, time) ==>
      var f := post.value;
      && (!HasId(db.profiles, f.teacher.GetOr(id)) ==> r == (NotFound, db))
      && (HasId(db.profiles, f.teacher.GetOr(id)) && !BookingFormValid(f, day, time) ==> r == (Invalid, db))
      && (HasId(db.profiles, f.teacher.GetOr(id)) && BookingFormValid(f, day, time) ==>
            r.0 == (if FitsTimeColumn(f.time.value) then Done else ServerError))
    ensures post.Some? && !BookingFormValid(post.value, day, time) ==> r.1 == db
    ensures r.0 != Done ==> r.1 == db
    ensures r.0 == Done ==>
      && post.Some? && BookingFormValid(post.value, day, time) && FitsTimeColumn(post.value.time.value)
      && day in Catalog.Weekdays && HasFreeSlot(db.profiles, id, day, time)
      && HasId(db.profiles, post.value.teacher.value)
      && r.1.bookings == db.bookings + [Booking(post.value.teacher.value, post.value.weekday.value,
                                               post.value.time.value, post.value.name.value, post.value.phone.value)]
      && var i := IndexOf(db.profiles, id).value;
         var ti := IndexOf(db.profiles, post.value.teacher.value).value;
         day in db.profiles[i].free &&
         r.1.profiles == db.profiles[ti := db.profiles[ti].(free := SetBusy(db.profiles[i].free, day, post.value.time.value))]
    ensures SameRowsButFree(db.profiles, r.1.profiles)
    ensures r.1.requests == db.requests && r.1.nextId == db.nextId
    ensures Consistent(r.1)
    ensures WellFormed(db) ==> WellFormed(r.1)
  {
    match Admit(db.profiles, id, day, time)
    case Refused => (NotFound, db)
    case DayMissing => (ServerError, db)
    case Admitted(i) =>
      if post.None? then (FormShown, db)
      else
        var f := post.value;
        var teacher := f.teacher.GetOr(id);
        match IndexOf(db.profiles, teacher)
        case None => (NotFound, db)
        case Some(ti) =>
          if !BookingFormValid(f, day, time) then (Invalid, db)
          else if !FitsTimeColumn(f.time.value) then (ServerError, db)
          else
            CommitKeepsInvariants(db, i, ti, day, time, f);
            (Done, Committed(db, i, ti, day, f))
  }

  /** `/request/` for a GET (`post` is None) or a POST. */
  function RequestHandler(db: Db, post: Option<RequestPost>): (r: (Outcome, Db))
    ensures post.None? ==> r == (FormShown, db)
    ensures post.Some? && !RequestFormValid(post.value) ==> r == (Invalid, db)
    ensures r.0 != Done ==> r.1 == db
    ensures r.0 == Done <==> post.Some? && RequestFormValid(post.value)
    ensures r.0 == Done ==>
      && r.1 == db.(requests := db.requests + [TutorRequest(ChosenGoal(post.value), ChosenTime(post.value),
                                                            post.value.name.value, post.value.phone.value)])
      && ChosenGoal(post.value) in Catalog.Goals && ChosenTime(post.value) in TimeChoices
    ensures WellFormed(db) ==> WellFormed(r.1)
  {
    if post.None? then (FormShown, db)
    else if !RequestFormValid(post.value) then (Invalid, db)
    else
      var f := post.value;
      var request := TutorRequest(ChosenGoal(f), ChosenTime(f), f.name.value, f.phone.value);
      (Done, db.(requests := db.requests + [request]))
  }

  /** The startup seeding: when `profiles` is empty every record is inserted, once and in
      order, with the next ids of the sequence; otherwise nothing happens. */
  function SeedIfEmpty(db: Db, records: seq<ProfileRecord>): (r: Db)
    ensures |db.profiles| > 0 ==> r == db
    ensures |db.profiles| == 0 ==>
      && |r.profiles| == |records|
      && (forall k :: 0 <= k < |records| ==> r.profiles[k] == FromRecord(records[k], db.nextId + k))
      && r.nextId == db.nextId + |records|
    ensures r.bookings == db.bookings && r.requests == db.requests
    ensures Consistent(db) ==> Consistent(r)
    ensures WellFormed(db) ==> WellFormed(r)
  {
    if |db.profiles| == 0 then
      db.(profiles := SeedRows(records, db.nextId), nextId := db.nextId + |records|)
    else db
  }

  /** `/profiles/<id>/`: the tutor's row, or None for a 404. */
  function ProfileById(rows: seq<Profile>, id: int): (r: Option<Profile>)
    ensures r.Some? <==> HasId(rows, id)
    ensures r.Some? ==> r.value in rows && r.value.id == id
  {
    match IndexOf(rows, id)
    case None => None
    case Some(k) => Some(rows[k])
  }
}
