# Tutor booking: a verified model of the booking and availability logic

The site lists tutor profiles, filters them by learning goal, and takes two kinds of
submission: a booking of one free weekly slot of one tutor, and a general "find me a
tutor" request. This project models the part of `app.py` that decides things:

- the tables `profiles`, `bookings` and `requests`, with each profile's decoded weekly
  schedule `free` (weekday tag → time → free);
- the booking handler: its admission checks (unknown tutor, unknown weekday, unknown or
  taken time), the form validation, the new booking row and the write-back of the schedule
  with one entry set to `False`;
- the request handler, the two forms' validation rules, the goal listing (ILIKE filter,
  ordered by rating), the profile lookup, and the seeding of an empty profiles table.

Layout: `catalog.dfy` (the goal and weekday tables), `forms.dfy` (WTForms validators and the
two forms), `schema.dfy` (rows, primary-key lookup, the one-slot update, seed rows),
`goal_filter.dfy` (the listing query), `handlers.dfy` (each handler as a function from the
database before to the outcome and database after), `booking_properties.dfy` (lemmas over
several requests), `persistence.dfy` (the `Database` class whose methods run the handlers
in place and are proved equal to those functions).

What the booking handler does, as the code has it:

- On a POST it re-reads weekday, time and teacher from the hidden form fields
  (app.py:166-168). The admission checks use the path's values; the booking row records the
  form's weekday and time; the schedule written back is the path tutor's schedule with
  `free[path day][form time]` set to false, stored on the form teacher's row. The model
  keeps this. `HonestBookingFlipsOneSlot` proves that a POST whose hidden fields carry what
  the page pre-filled flips exactly the path's slot. `ForgedFieldsLeaveSlotFree` and
  `ForgedTeacherGetsCopiedSchedule` state what an altered POST does: the path slot stays
  bookable, a new time key can be added, and another tutor's schedule can be overwritten.
- The code indexes `free[day]` without checking that the weekday is a key (app.py:159). A
  schedule without that weekday raises KeyError, an HTTP 500, modelled as `ServerError`
  with no change.
- The form teacher is looked up before the form is validated (app.py:169), so an unknown
  teacher gives 404 even when the form is invalid.
- `bookings.time` is a five-character column (app.py:45) while the form only requires the
  hidden time to be non-empty (app.py:90). A longer time makes the INSERT fail at commit
  (app.py:176): the request ends in a 500 and the whole transaction, slot flip included, is
  rolled back. The model answers `ServerError` and changes nothing. The other booking and
  request columns are wide enough for every value their forms accept.
- The goal filter uses `ilike` (app.py:112-113), so it is case-insensitive.

## Model

| member | source | states |
|---|---|---|
| `Forms.Validates` | app.py:87-91 | a field's validator chain passes exactly when every validator in it accepts the field |
| `Forms.BookingFormValid` | app.py:86-91 | BookingForm passes iff name is present with length 1..50, phone present with length 5..20, weekday present and one of the seven tags, time present and non-empty, teacher present |
| `Forms.RequestFormValid` | app.py:94-101 | RequestForm passes iff name length 1..50, phone length 5..20, and each radio value (submitted or default) among its choices; the goal choices are exactly the goal table's tags |
| `Schema.IndexOf` | app.py:149-150 | the tutor id is found iff some profile has it; the position returned holds that id and is the first such |
| `Schema.SetBusy` | app.py:174 | `free[day][time] = False` keeps the weekday keys, adds at most `time` under `day`, makes that entry false, keeps every other entry under `day`, and leaves every other weekday's map as it was |
| `Schema.SeedRows` | app.py:63-69 | one row per record, in order, each carrying the record's columns and consecutive ids |
| `GoalFilter.Contains` | app.py:112 | LIKE `%pat%` holds iff `pat` occurs as a contiguous substring of the text |
| `GoalFilter.WithGoal` | app.py:113 | the filter keeps exactly the rows whose goals text contains the goal case-insensitively, each as often as it occurs |
| `GoalFilter.SortByRating` | app.py:113 | ORDER BY rating yields a permutation of its input in non-decreasing rating order |
| `GoalFilter.GoalListing` | app.py:110-114 | the goal listing holds only and all matching profiles, with multiplicity, in non-decreasing rating order |
| `Handlers.Admit` | app.py:149-160 | a booking is admitted iff the weekday is a tag and the tutor has that slot free; a weekday absent from the schedule raises; everything else is refused |
| `Handlers.BookingHandler` | app.py:146-187 | unknown tutor or weekday, unknown or taken time give 404 and no change; a missing weekday key gives 500; on an admitted slot, GET shows the form, a POST with an unknown teacher is 404, an invalid form is redisplayed, a time too wide for its column is 500, and otherwise the POST is booked; every outcome but success persists nothing; success appends exactly one booking for an existing teacher and writes the path tutor's schedule with that entry false onto the teacher's row, leaving requests, ids and other columns alone and the database consistent |
| `Handlers.CommitKeepsInvariants` | app.py:171-176 | the booking commit keeps every row's id and every column but `free`, keeps primary and foreign keys valid, and stores only bookings that passed validation |
| `Handlers.RequestHandler` | app.py:126-143 | a request is stored iff the POST validates; exactly one row is appended carrying the submitted (or default) goal and time, which are a known goal tag and a listed time, and the submitted name and phone; otherwise nothing changes |
| `Handlers.SeedIfEmpty` | app.py:72-77 | an empty profiles table receives every record once, in order, with fresh ids; a non-empty one is left alone; the other tables are untouched |
| `Handlers.ProfileById` | app.py:117-123 | the profile page finds a profile iff one has the id, and it is that profile |
| `BookingProperties.HonestBookingFlipsOneSlot` | app.py:171-176 | a successful honest booking turns exactly that tutor's `free[day][time]` from true to false, with no key added or removed, no other entry or profile changed, and one booking appended |
| `BookingProperties.RepeatBookingRefused` | app.py:158-160 | after a successful honest booking, any request for the same tutor, weekday and time is a 404 that changes nothing |
| `BookingProperties.ForgedFieldsLeaveSlotFree` | app.py:162-175 | a successful POST whose hidden teacher or time differs from the path leaves the path slot free and bookable again |
| `BookingProperties.ForgedTeacherGetsCopiedSchedule` | app.py:167-175 | a successful POST naming another tutor as teacher overwrites that tutor's schedule with the path tutor's, and leaves the path tutor's row unchanged |
| `BookingProperties.SeedTwiceIsSeedOnce` | app.py:72-74 | seeding twice with the same records equals seeding once |
| `Persistence.Database.LocateProfile` | app.py:149-150 | the scan over profile ids finds the tutor iff it exists, at the position `IndexOf` gives |
| `Persistence.Database.FillData` | app.py:59-69 | the insert loop appends exactly the seed rows and advances the id sequence by the number of records, keeping the database well formed |
| `Persistence.Database.Seed` | app.py:72-77 | the startup step changes the tables exactly as `SeedIfEmpty` says |
| `Persistence.Database.RenderRequest` | app.py:126-143 | the handler updates the tables in place exactly as `RequestHandler` says and keeps them well formed |
| `Persistence.Database.RenderBooking` | app.py:146-187 | the handler, updating the schedule dictionary in place, answers and changes the tables exactly as `BookingHandler` says |

## Left out

- The home page (app.py:104-107) samples six profiles at random; randomness is not modelled. It fails when fewer than six profiles exist.
- JSON: `json.dumps`/`json.loads` of `goals` and `free` belong to the json library. The schedule is kept decoded, and the goals column is kept as the text the seed record carries.
- Ratings and prices are floats in the table and ints here, so the ordering is exact.
- ILIKE: `%` and `_` inside the goal parameter are treated as plain characters. Case folding covers ASCII letters only. The stored goals text is ASCII-escaped JSON, but the goal parameter may hold any character, and the database's Unicode lowering (for instance of U+212A KELVIN SIGN to `k`) is not modelled.
- `int(id)` and `int(teacher)` raise ValueError (a 500) on non-numeric text. The model receives both ids as integers, so that path is not modelled.
- The CSRF check that `validate_on_submit` adds, and the field-level error messages of a redisplayed form, are not modelled; only the pass/fail verdict is.
- Flask routing, template rendering and `abort` become the `Outcome` values.
- SQLAlchemy sessions, commits and the ProgrammingError raised before migration are not modelled. The tables are in-memory sequences, and a not-yet-created schema has no state to change.
- Primary keys of bookings and requests are not modelled; their rows are identified by position.
- SQL leaves the order of equal ratings unspecified. The model's insertion sort keeps equal ratings in storage order; its contracts claim only sortedness and permutation.
- database.py repeats `fill_data` with file I/O; database.py is not part of this model.
- Two concurrent bookings of one slot can both pass the check before either writes. The model runs one request at a time, so this race is not modelled.
