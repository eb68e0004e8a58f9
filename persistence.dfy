/**
 * The database the site works on, as one object whose tables the handlers update in
 * place. Each method runs one request and is proved to do what its handler function in
 * `Handlers` says, so the lemmas about those functions hold of these methods too.
 */
module Persistence {
  import opened Wrappers
  import opened Schema
  import Catalog
  import opened Forms
  import opened Handlers
  import BookingProperties

  class Database {
    var profiles: seq<Profile>
    var bookings: seq<Booking>
    var requests: seq<TutorRequest>
    var nextId: int

    function Current(): Db
      reads this
    {
      Db(profiles, bookings, requests, nextId)
    }

    ghost predicate Valid()
      reads this
    {
      WellFormed(Current())
    }

    /** A freshly migrated database: three empty tables, ids starting at 1. */
    constructor ()
      ensures Valid()
      ensures Current() == Db([], [], [], 1)
    {
      profiles, bookings, requests, nextId := [], [], [], 1;
    }

    /** The scan `int(id) in [row.id for every profile]`, giving the row's position. */
    method LocateProfile(id: int) returns (k: Option<nat>)
      ensures k.None? <==> !HasId(profiles, id)
      ensures k.Some? ==> k.value < |profiles| && profiles[k.value].id == id
      ensures k == IndexOf(profiles, id)
    {
      var n := 0;
      while n < |profiles|
        invariant 0 <= n <= |profiles|
        invariant forall j :: 0 <= j < n ==> profiles[j].id != id
      {
        if profiles[n].id == id {
          return Some(n);
        }
        n := n + 1;
      }
      return None;
    }

    /** The loop of fill_data: one new row per record, ids from the sequence. */
    method FillData(records: seq<ProfileRecord>)
      requires Valid()
      modifies this
      ensures Valid()
      ensures profiles == old(profiles) + SeedRows(records, old(nextId))
      ensures nextId == old(nextId) + |records|
      ensures bookings == old(bookings) && requests == old(requests)
    {
      ghost var start := profiles;
      ghost var first := nextId;
      var i := 0;
      while i < |records|
        invariant 0 <= i <= |records|
        invariant nextId == first + i
        invariant |profiles| == |start| + i && profiles[..|start|] == start
        invariant forall k :: 0 <= k < i ==> profiles[|start| + k] == FromRecord(records[k], first + k)
        invariant bookings == old(bookings) && requests == old(requests)
        invariant Valid()
      {
        profiles := profiles + [FromRecord(records[i], nextId)];
        nextId := nextId + 1;
        assert forall b :: 0 <= b < |bookings| ==> HasId(profiles, bookings[b].profileId) by {
          forall b | 0 <= b < |bookings| ensures HasId(profiles, bookings[b].profileId) {
            assert HasId(profiles[..|profiles| - 1], bookings[b].profileId);
            var k :| 0 <= k < |profiles| - 1 && profiles[k].id == bookings[b].profileId;
            assert profiles[k].id == bookings[b].profileId;
          }
        }
        i := i + 1;
      }
      assert profiles == start + SeedRows(records, first);
    }

    /** Startup: seed the profiles table only when it is empty. */
    method Seed(records: seq<ProfileRecord>)
      requires Valid()
      modifies this
      ensures Valid()
      ensures Current() == SeedIfEmpty(old(Current()), records)
    {
      if |profiles| == 0 {
        FillData(records);
      }
    }

    /** render_request: on a valid POST store one request. */
    method RenderRequest(post: Option<RequestPost>) returns (out: Outcome)
      requires Valid()
      modifies this
      ensures Valid()
      ensures (out, Current()) == RequestHandler(old(Current()), post)
    {
      if post.None? {
        return FormShown;
      }
      var f := post.value;
      if !RequestFormValid(f) {
        return Invalid;
      }
      requests := requests + [TutorRequest(ChosenGoal(f), ChosenTime(f), f.name.value, f.phone.value)];
      return Done;
    }

    /** render_booking: the admission checks, then on a valid POST one booking row and
        the write-back of the decoded schedule with one entry set to false. */
    method RenderBooking(id: int, day: string, time: string, post: Option<BookingPost>) returns (out: Outcome)
      requires Valid()
      modifies this
      ensures Valid()
      ensures (out, Current()) == BookingHandler(old(Current()), id, day, time, post)
    {
      ghost var db := Current();
      var found := LocateProfile(id);
      if found.None? {
        assert Admit(db.profiles, id, day, time) == Refused;
        return NotFound;
      }
      var i := found.value;
      if day !in Catalog.DaysOfWeek {
        assert Admit(db.profiles, id, day, time) == Refused;
        return NotFound;
      }
      var free := profiles[i].free;
      if day !in free {
        assert Admit(db.profiles, id, day, time) == DayMissing;
        return ServerError;
      }
      if time !in free[day] || !free[day][time] {
        assert Admit(db.profiles, id, day, time) == Refused;
        return NotFound;
      }
      assert Admit(db.profiles, id, day, time) == Admitted(i);
      if post.None? {
        return FormShown;
      }
      var f := post.value;
      var teacher := f.teacher.GetOr(id);
      var owner := LocateProfile(teacher);
      if owner.None? {
        return NotFound;
      }
      if !BookingFormValid(f, day, time) {
        return Invalid;
      }
      if !FitsTimeColumn(f.time.value) {
        return ServerError;
      }
      var ti := owner.value;
      bookings := bookings + [Booking(teacher, f.weekday.value, f.time.value, f.name.value, f.phone.value)];
      var dayFree := free[day];
      dayFree := dayFree[f.time.value := false];
      free := free[day := dayFree];
      profiles := profiles[ti := profiles[ti].(free := free)];
      assert Current() == Committed(db, i, ti, day, f);
      CommitKeepsInvariants(db, i, ti, day, time, f);
      return Done;
    }
  }

  /** One tutor free on Monday at 09:00 is seeded; a booking of that slot succeeds and
      takes it, the same POST again is refused, and a request with a one-digit phone is
      turned back without being stored. */
  method Scenario() {
    var db := new Database();
    var free: Schedule := map["mon" := map["09:00" := true]];
    db.Seed([ProfileRecord("Tutor", "About", 48, "tutor.png", 900, "[\"travel\"]", free)]);
    assert db.profiles == [Profile(1, "Tutor", "About", 48, "tutor.png", 900, "[\"travel\"]", free)];
    var post := BookingPost(Some("Client"), Some("5551234"), Some("mon"), Some("09:00"), Some(1));
    assert "mon" in Catalog.Weekdays && HasFreeSlot(db.profiles, 1, "mon", "09:00");
    assert BookingFormValid(post, "mon", "09:00");
    ghost var seeded := db.Current();
    var first := db.RenderBooking(1, "mon", "09:00", Some(post));
    assert first == Done;
    BookingProperties.HonestBookingFlipsOneSlot(seeded, 1, "mon", "09:00", post, 0);
    assert !db.profiles[0].free["mon"]["09:00"];
    assert db.bookings == [Booking(1, "mon", "09:00", "Client", "5551234")];
    BookingProperties.RepeatBookingRefused(seeded, 1, "mon", "09:00", post, Some(post));
    var second := db.RenderBooking(1, "mon", "09:00", Some(post));
    assert second == NotFound;
    var asked := db.RenderRequest(Some(RequestPost(Some("Client"), Some("1"), None, None)));
    assert asked == Invalid && db.requests == [];
  }
}
