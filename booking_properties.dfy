/**
 * What a booking does to the availability grid, over sequences of requests.
 *
 * The booking handler re-reads the weekday, time and teacher from the POST's hidden
 * fields. The booking page fills those fields with the path's values; a POST that
 * keeps them is `Honest`. For honest POSTs exactly one slot flips and a repeat is
 * refused; a POST whose hidden fields were altered flips some other entry instead.
 */
module BookingProperties {
  import opened Wrappers
  import opened Schema
  import Catalog
  import opened Forms
  import opened Handlers

  /** The hidden fields carry the values the booking page pre-filled. */
  predicate Honest(f: BookingPost, id: int, day: string, time: string) {
    f.teacher == Some(id) && f.weekday == Some(day) && f.time == Some(time)
  }

  /** Under the primary key, the row `k` carrying `id` is the one IndexOf finds. */
  lemma IndexOfUnique(rows: seq<Profile>, id: int, k: nat)
    requires DistinctIds(rows) && k < |rows| && rows[k].id == id
    ensures IndexOf(rows, id) == Some(k)
  {
  }

  /** An honest booking POST that succeeds turns exactly `free[day][time]` of that tutor
      from true to false: no key appears or disappears, no other entry and no other
      profile changes, and one booking with the path's slot is appended. */
  lemma {:induction false} HonestBookingFlipsOneSlot(db: Db, id: int, day: string, time: string, f: BookingPost, k: nat)
    requires Consistent(db)
    requires k < |db.profiles| && db.profiles[k].id == id
    requires Honest(f, id, day, time)
    requires BookingHandler(db, id, day, time, Some(f)).0 == Done
    ensures
      var after := BookingHandler(db, id, day, time, Some(f)).1;
      var before := db.profiles[k].free;
      var now := after.profiles[k].free;
      && SlotFree(before, day, time)
      && now.Keys == before.Keys
      && (forall d :: d in before ==> now[d].Keys == before[d].Keys)
      && !now[day][time]
      && (forall d, t :: d in before && t in before[d] && (d != day || t != time) ==> now[d][t] == before[d][t])
      && after.profiles[k] == db.profiles[k].(free := now)
      && (forall j :: 0 <= j < |db.profiles| && j != k ==> after.profiles[j] == db.profiles[j])
      && after.bookings == db.bookings + [Booking(id, day, time, f.name.value, f.phone.value)]
  {
    var rows := db.profiles;
    IndexOfUnique(rows, id, k);
    assert Admit(rows, id, day, time) == Admitted(k);
    assert BookingHandler(db, id, day, time, Some(f)).1 == Committed(db, k, k, day, f);
  }

  /** Once an honest booking of (id, day, time) succeeded, every later request for that
      slot, GET or POST, is answered 404 and changes nothing. */
  lemma {:induction false} RepeatBookingRefused(db: Db, id: int, day: string, time: string, f: BookingPost, again: Option<BookingPost>)
    requires Consistent(db)
    requires Honest(f, id, day, time)
    requires BookingHandler(db, id, day, time, Some(f)).0 == Done
    ensures
      var after := BookingHandler(db, id, day, time, Some(f)).1;
      BookingHandler(after, id, day, time, again) == (NotFound, after)
  {
    var after := BookingHandler(db, id, day, time, Some(f)).1;
    var k :| 0 <= k < |db.profiles| && db.profiles[k].id == id && SlotFree(db.profiles[k].free, day, time);
    HonestBookingFlipsOneSlot(db, id, day, time, f, k);
    assert after.profiles[k].id == id;
    assert !LacksDay(after.profiles, id, day);
    assert !HasFreeSlot(after.profiles, id, day, time);
  }

  /** A successful POST whose hidden teacher or time differs from the path leaves the
      path's slot free, so the same slot can be booked again. */
  lemma {:induction false} ForgedFieldsLeaveSlotFree(db: Db, id: int, day: string, time: string, f: BookingPost, k: nat)
    requires Consistent(db)
    requires k < |db.profiles| && db.profiles[k].id == id
    requires f.teacher != Some(id) || f.time != Some(time)
    requires BookingHandler(db, id, day, time, Some(f)).0 == Done
    ensures
      var after := BookingHandler(db, id, day, time, Some(f)).1;
      && SlotFree(after.profiles[k].free, day, time)
      && BookingHandler(after, id, day, time, None) == (FormShown, after)
  {
    var rows := db.profiles;
    var after := BookingHandler(db, id, day, time, Some(f)).1;
    IndexOfUnique(rows, id, k);
    assert Admit(rows, id, day, time) == Admitted(k);
    var ti := IndexOf(rows, f.teacher.value).value;
    assert after == Committed(db, k, ti, day, f);
    assert SlotFree(after.profiles[k].free, day, time);
    assert after.profiles[k].id == id;
    assert HasFreeSlot(after.profiles, id, day, time);
  }

  /** A successful POST naming another tutor `t` in its hidden teacher field replaces
      t's whole schedule by the path tutor's, with one slot busy. */
  lemma {:induction false} ForgedTeacherGetsCopiedSchedule(db: Db, id: int, day: string, time: string, f: BookingPost, k: nat, m: nat)
    requires Consistent(db)
    requires k < |db.profiles| && db.profiles[k].id == id
    requires m < |db.profiles| && f.teacher == Some(db.profiles[m].id) && m != k
    requires BookingHandler(db, id, day, time, Some(f)).0 == Done
    ensures
      var after := BookingHandler(db, id, day, time, Some(f)).1;
      && after.profiles[m].free == SetBusy(db.profiles[k].free, day, f.time.value)
      && after.profiles[k] == db.profiles[k]
  {
    var rows := db.profiles;
    IndexOfUnique(rows, id, k);
    IndexOfUnique(rows, rows[m].id, m);
    assert Admit(rows, id, day, time) == Admitted(k);
    assert BookingHandler(db, id, day, time, Some(f)).1 == Committed(db, k, m, day, f);
  }

  /** Seeding is idempotent: a second run, with the same records, changes nothing more. */
  lemma {:induction false} SeedTwiceIsSeedOnce(db: Db, records: seq<ProfileRecord>)
    ensures SeedIfEmpty(SeedIfEmpty(db, records), records) == SeedIfEmpty(db, records)
  {
    var once := SeedIfEmpty(db, records);
    if |db.profiles| == 0 && records == [] {
      assert once.profiles == [];
    }
  }
}
