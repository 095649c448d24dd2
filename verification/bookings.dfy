/** The bookings table and its conflict detection (bookingController):
    creating a booking only when no booking of the same space overlaps it,
    cancelling bookings, and the read queries over the table. Times are
    integers; a booking occupies the half-open interval [start, end). */
module Bookings {
  import opened Wrappers
  import opened Queries

  /** One row of the `bookings` table. The id is chosen by the table. */
  datatype Booking = Booking(id: nat, spaceId: string, userId: string, start: int, end: int)

  /** The body of a booking request. An id that is absent, null or empty is "";
      a time that is absent, null or empty is None. */
  datatype BookingRequest = BookingRequest(spaceId: string, userId: string, startTime: Option<int>, endTime: Option<int>)

  /** What `createBooking` answers. */
  datatype CreateOutcome = Created(booking: Booking) | MissingFields | InvalidRange | SlotTaken
  {
    function Status(): int {
      match this
      case Created(_) => 200
      case MissingFields => 400
      case InvalidRange => 400
      case SlotTaken => 409
    }

    /** The `error` text of a refusal. */
    function Error(): string
      requires !Created?
    {
      match this
      case MissingFields => MissingFieldsError
      case InvalidRange => InvalidRangeError
      case SlotTaken => SlotTakenError
    }
  }

  const MissingFieldsError := "Missing required fields"
  const InvalidRangeError := "End time must be after start time"
  const SlotTakenError := "Time slot already booked!"
  const SpaceRequiredError := "Space ID required"
  const WindowRequiredError := "Start and End time required"
  const CancelledMessage := "Booking cancelled"

  /** The half-open overlap test of the conflict and availability queries:
      the booking starts before the window ends and ends after it starts. */
  predicate OverlapsWindow(b: Booking, start: int, end: int) {
    b.start < end && b.end > start
  }

  /** The conflict query's row condition: same space, and overlapping. */
  predicate Overlaps(existing: Booking, spaceId: string, start: int, end: int) {
    existing.spaceId == spaceId && OverlapsWindow(existing, start, end)
  }

  /** Two bookings conflict: `b`, requested anew, would find `a` in the conflict query. */
  predicate Clash(a: Booking, b: Booking) {
    Overlaps(a, b.spaceId, b.start, b.end)
  }

  /** The table invariant: no two rows (rows with different ids) of one space overlap. */
  predicate NoDoubleBooking(rows: seq<Booking>) {
    forall a, b :: a in rows && b in rows && a.id != b.id ==> !Clash(a, b)
  }

  predicate WellFormed(b: Booking) {
    b.start < b.end
  }

  /** The conflict query: the rows of `spaceId` overlapping [start, end). */
  function Conflicts(rows: seq<Booking>, spaceId: string, start: int, end: int): (r: seq<Booking>)
    ensures forall b :: b in r <==> b in rows && b.spaceId == spaceId && b.start < end && b.end > start
  {
    Filter(rows, b => Overlaps(b, spaceId, start, end))
  }

  predicate Complete(req: BookingRequest) {
    req.spaceId != "" && req.userId != "" && req.startTime.Some? && req.endTime.Some?
  }

  /** The decision `createBooking` takes on table `rows`, for a new row that
      would get the id `id`. */
  function Decide(rows: seq<Booking>, id: nat, req: BookingRequest): (o: CreateOutcome)
    ensures o.MissingFields? <==> !Complete(req)
    ensures o.InvalidRange? <==> Complete(req) && req.startTime.value >= req.endTime.value
    ensures o.SlotTaken? <==>
              Complete(req) && req.startTime.value < req.endTime.value &&
              exists b :: b in rows && Overlaps(b, req.spaceId, req.startTime.value, req.endTime.value)
    ensures o.MissingFields? ==> o.Status() == 400 && o.Error() == "Missing required fields"
    ensures o.InvalidRange? ==> o.Status() == 400 && o.Error() == "End time must be after start time"
    ensures o.SlotTaken? ==> o.Status() == 409 && o.Error() == "Time slot already booked!"
    ensures o.Created? ==> o.Status() == 200
    ensures o.Created? ==>
              o.booking == Booking(id, req.spaceId, req.userId, req.startTime.value, req.endTime.value) &&
              WellFormed(o.booking) &&
              forall b :: b in rows ==> !Clash(b, o.booking)
  {
    if !Complete(req) then MissingFields
    else
      var start, end := req.startTime.value, req.endTime.value;
      if start >= end then InvalidRange
      else if |Conflicts(rows, req.spaceId, start, end)| > 0 then
        assert Conflicts(rows, req.spaceId, start, end)[0] in Conflicts(rows, req.spaceId, start, end);
        SlotTaken
      else Created(Booking(id, req.spaceId, req.userId, start, end))
  }

  /** The table after an outcome: one appended row on success, else unchanged. */
  function After(rows: seq<Booking>, o: CreateOutcome): seq<Booking> {
    if o.Created? then rows + [o.booking] else rows
  }

  /** Both directions of "conflict" are the same test. */
  lemma ClashSymmetric(a: Booking, b: Booking)
    ensures Clash(a, b) <==> Clash(b, a)
  {
  }

  /** Back-to-back bookings of one space do not conflict: [s, m) and [m, e). */
  lemma BackToBackNoClash(a: Booking, b: Booking)
    requires a.spaceId == b.spaceId && a.end == b.start
    ensures !Clash(a, b) && !Clash(b, a)
  {
  }

  /** Every `createBooking`, successful or not, keeps the table free of double bookings. */
  lemma {:induction false} CreateKeepsNoDoubleBooking(rows: seq<Booking>, id: nat, req: BookingRequest)
    requires NoDoubleBooking(rows)
    ensures NoDoubleBooking(After(rows, Decide(rows, id, req)))
  {
    var o := Decide(rows, id, req);
    if o.Created? {
      forall a, b | a in rows + [o.booking] && b in rows + [o.booking] && a.id != b.id
        ensures !Clash(a, b)
      {
        if b == o.booking {
          assert a in rows;
        } else if a == o.booking {
          assert b in rows && !Clash(b, a);
        }
      }
    }
  }

  /** Whichever of two overlapping requests for one space comes second is refused with 409. */
  lemma SecondOverlappingRequestRefused(rows: seq<Booking>, id1: nat, first: BookingRequest, id2: nat, second: BookingRequest)
    requires Decide(rows, id1, first).Created?
    requires Complete(second) && second.startTime.value < second.endTime.value
    requires second.spaceId == first.spaceId
    requires first.startTime.value < second.endTime.value && first.endTime.value > second.startTime.value
    ensures Decide(After(rows, Decide(rows, id1, first)), id2, second) == SlotTaken
  {
    var b := Decide(rows, id1, first).booking;
    assert b in After(rows, Decide(rows, id1, first));
  }

  /** Space S holds [600, 660): [630, 690) is refused, [660, 720) and [540, 600) are booked. */
  lemma TouchingBookingsScenario()
    ensures var rows := [Booking(0, "S", "u", 600, 660)];
            Decide(rows, 1, BookingRequest("S", "u", Some(630), Some(690))) == SlotTaken &&
            Decide(rows, 1, BookingRequest("S", "u", Some(660), Some(720))).Created? &&
            Decide(rows, 1, BookingRequest("S", "u", Some(540), Some(600))).Created?
  {
    var rows := [Booking(0, "S", "u", 600, 660)];
    assert rows[0] in rows;
  }

  /** Each row occurs once and has an id no other row has. */
  predicate UniqueIds(rows: seq<Booking>) {
    (forall b :: b in rows ==> multiset(rows)[b] == 1) &&
    forall a, b :: a in rows && b in rows && a.id == b.id ==> a == b
  }

  /** The rows `deleteBooking(id)` leaves behind. */
  function WithoutId(rows: seq<Booking>, id: nat): (r: seq<Booking>)
    ensures forall b :: multiset(r)[b] == if b.id == id then 0 else multiset(rows)[b]
    ensures forall b :: b in r <==> b in rows && b.id != id
  {
    FilterCount(rows, (b: Booking) => b.id != id);
    Filter(rows, (b: Booking) => b.id != id)
  }

  /** `checkAvailability`: the ids of the spaces with at least one booking
      overlapping [startTime, endTime), each once. The floor filter is accepted
      and ignored. */
  function OccupiedSpaces(rows: seq<Booking>, startTime: Option<int>, endTime: Option<int>, floorId: Option<string>): (r: Result<seq<string>>)
    ensures r.Err? <==> startTime.None? || endTime.None?
    ensures r.Err? ==> r.status == 400 && r.error == WindowRequiredError
    ensures r.Ok? ==> Distinct(r.value)
    ensures r.Ok? ==> forall s :: s in r.value <==>
              exists b :: b in rows && b.spaceId == s && OverlapsWindow(b, startTime.value, endTime.value)
  {
    if startTime.None? || endTime.None? then Err(400, WindowRequiredError)
    else
      var hits := Filter(rows, b => OverlapsWindow(b, startTime.value, endTime.value));
      var ids := SpaceIds(hits);
      assert forall s :: s in ids <==> exists b :: b in hits && b.spaceId == s by {
        SpaceIdsMembers(hits);
      }
      Ok(Dedup(ids))
  }

  /** `data.map(b => b.space_id)`. */
  function SpaceIds(rows: seq<Booking>): (r: seq<string>)
    ensures |r| == |rows|
    ensures forall i :: 0 <= i < |rows| ==> r[i] == rows[i].spaceId
  {
    seq(|rows|, i requires 0 <= i < |rows| => rows[i].spaceId)
  }

  lemma SpaceIdsMembers(rows: seq<Booking>)
    ensures forall s :: s in SpaceIds(rows) <==> exists b :: b in rows && b.spaceId == s
  {
    var ids := SpaceIds(rows);
    forall s | s in ids ensures exists b :: b in rows && b.spaceId == s {
      var i :| 0 <= i < |ids| && ids[i] == s;
      assert rows[i] in rows;
    }
    forall s | exists b :: b in rows && b.spaceId == s ensures s in ids {
      var b :| b in rows && b.spaceId == s;
      var i :| 0 <= i < |rows| && rows[i] == b;
      assert ids[i] == s;
    }
  }

  /** The floor filter has no effect on the availability answer. */
  lemma OccupiedSpacesIgnoresFloor(rows: seq<Booking>, startTime: Option<int>, endTime: Option<int>, f1: Option<string>, f2: Option<string>)
    ensures OccupiedSpaces(rows, startTime, endTime, f1) == OccupiedSpaces(rows, startTime, endTime, f2)
  {
  }

  /** `getBookingsBySpace`: the rows of one space, earliest start first. */
  function BookingsBySpace(rows: seq<Booking>, spaceId: string): (r: Result<seq<Booking>>)
    ensures r.Err? <==> spaceId == ""
    ensures r.Err? ==> r.status == 400 && r.error == SpaceRequiredError
    ensures r.Ok? ==> SortedBy(r.value, (b: Booking) => b.start)
    ensures r.Ok? ==> forall b :: multiset(r.value)[b] == if b.spaceId == spaceId then multiset(rows)[b] else 0
  {
    if spaceId == "" then Err(400, SpaceRequiredError)
    else
      FilterCount(rows, (b: Booking) => b.spaceId == spaceId);
      Ok(SortBy(Filter(rows, (b: Booking) => b.spaceId == spaceId), (b: Booking) => b.start))
  }

  /** `getBookingsByUser`: the rows of one user, earliest start first. */
  function BookingsByUser(rows: seq<Booking>, userId: string): (r: seq<Booking>)
    ensures SortedBy(r, (b: Booking) => b.start)
    ensures forall b :: multiset(r)[b] == if b.userId == userId then multiset(rows)[b] else 0
  {
    FilterCount(rows, (b: Booking) => b.userId == userId);
    SortBy(Filter(rows, (b: Booking) => b.userId == userId), (b: Booking) => b.start)
  }

  /** What the bookings table always satisfies: no double booking, unique
      ids, every booking well formed, and every id below the next one handed out. */
  ghost predicate TableInvariant(rows: seq<Booking>, nextId: nat) {
    NoDoubleBooking(rows) && UniqueIds(rows) &&
    forall i :: 0 <= i < |rows| ==> WellFormed(rows[i]) && rows[i].id < nextId
  }

  /** `createBooking` keeps the table invariant, with the counter advanced on success. */
  lemma CreateKeepsInvariant(rows: seq<Booking>, nextId: nat, req: BookingRequest)
    requires TableInvariant(rows, nextId)
    ensures var o := Decide(rows, nextId, req);
            TableInvariant(After(rows, o), if o.Created? then nextId + 1 else nextId)
  {
    var o := Decide(rows, nextId, req);
    if o.Created? {
      CreateKeepsNoDoubleBooking(rows, nextId, req);
      var b := o.booking;
      var r := rows + [b];
      assert b !in rows;
      assert UniqueIds(r) by {
        assert multiset(r) == multiset(rows) + multiset{b};
        forall a, c | a in r && c in r && a.id == c.id ensures a == c {
          if a != b && c != b {
            assert a in rows && c in rows;
          }
        }
      }
      assert forall i :: 0 <= i < |r| ==> WellFormed(r[i]) && r[i].id < nextId + 1 by {
        forall i | 0 <= i < |r| ensures WellFormed(r[i]) && r[i].id < nextId + 1 {
          if i < |rows| {
            assert r[i] == rows[i];
          }
        }
      }
    }
  }

  /** `deleteBooking` keeps the table invariant. */
  lemma DeleteKeepsInvariant(rows: seq<Booking>, nextId: nat, id: nat)
    requires TableInvariant(rows, nextId)
    ensures TableInvariant(WithoutId(rows, id), nextId)
  {
    var r := WithoutId(rows, id);
    forall i | 0 <= i < |r| ensures WellFormed(r[i]) && r[i].id < nextId {
      assert r[i] in r;
      var k :| 0 <= k < |rows| && rows[k] == r[i];
    }
  }

  /** The bookings table, changed in place by `createBooking` and `deleteBooking`. */
  class BookingTable {
    var rows: seq<Booking>
    var nextId: nat

    ghost predicate Valid()
      reads this
    {
      TableInvariant(rows, nextId)
    }

    constructor ()
      ensures Valid() && rows == []
    {
      rows := [];
      nextId := 0;
    }

    /** `createBooking`: validate, run the conflict query, then insert one row. */
    method CreateBooking(req: BookingRequest) returns (o: CreateOutcome)
      requires Valid()
      modifies this
      ensures Valid()
      ensures o == Decide(old(rows), old(nextId), req)
      ensures rows == After(old(rows), o)
      ensures o.Created? ==> |rows| == |old(rows)| + 1 && rows[..|old(rows)|] == old(rows)
      ensures o.Created? ==> rows[|rows| - 1] == o.booking
      ensures nextId == if o.Created? then old(nextId) + 1 else old(nextId)
    {
      if req.spaceId == "" || req.userId == "" || req.startTime.None? || req.endTime.None? {
        return MissingFields;
      }
      var start, end := req.startTime.value, req.endTime.value;
      if start >= end {
        return InvalidRange;
      }
      var conflicts := Conflicts(rows, req.spaceId, start, end);
      if |conflicts| > 0 {
        return SlotTaken;
      }
      var b := Booking(nextId, req.spaceId, req.userId, start, end);
      CreateKeepsInvariant(rows, nextId, req);
      rows := rows + [b];
      nextId := nextId + 1;
      o := Created(b);
    }

    /** `deleteBooking`: removes every row with the given id and answers
        "Booking cancelled" whether or not one existed. */
    method DeleteBooking(id: nat) returns (message: string)
      requires Valid()
      modifies this
      ensures Valid()
      ensures rows == WithoutId(old(rows), id) && nextId == old(nextId)
      ensures message == CancelledMessage
    {
      DeleteKeepsInvariant(rows, nextId, id);
      rows := WithoutId(rows, id);
      message := CancelledMessage;
    }
  }
}
