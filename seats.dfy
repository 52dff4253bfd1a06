/**
 * The seat inventory behind `/api/seats` (Backend/routes/seats.js): the seat
 * listing with its `is_assigned` flag computed from the student table, the
 * parsing of a comma-separated seat list, the all-or-nothing batch insert and
 * delete.
 */
module Seats {
  import opened Common
  import opened Sorting
  import Students

  type Id = Students.Id

  /** A row of the `seats` table. */
  datatype Seat = Seat(id: Id, seatNumber: string)

  /** One row of the GET `/` response. */
  datatype SeatRow = SeatRow(id: Id, seatNumber: string, isAssigned: bool)

  datatype SeatError =
    | NotACommaSeparatedString
    | NoSeatNumbers
    | DuplicateInInput
    | AlreadyExist(numbers: seq<string>)
    | SeatNotFound

  function HttpStatus(e: SeatError): int {
    if e == SeatNotFound then 404 else 400
  }

  // ---------------------------------------------------------------------------
  // `split`, `join` and the seat-list parse.

  /** JavaScript `s.split(sep)` for a one-character separator: every separator
      ends a piece, so "a,,b" has an empty middle piece and "" is one empty piece. */
  function Split(s: string, sep: char): (r: seq<string>)
    ensures |r| >= 1
    ensures forall i :: 0 <= i < |r| ==> sep !in r[i]
  {
    if s == [] then [""]
    else
      var rest := Split(s[1..], sep);
      if s[0] == sep then [""] + rest else [[s[0]] + rest[0]] + rest[1..]
  }

  /** `parts.join(sep)`. */
  function Join(parts: seq<string>, sep: string): string {
    if parts == [] then ""
    else if |parts| == 1 then parts[0]
    else parts[0] + sep + Join(parts[1..], sep)
  }

  /** Splitting and joining again gives the input back. */
  lemma {:induction false} JoinSplit(s: string, sep: char)
    ensures Join(Split(s, sep), [sep]) == s
  {
    if s != [] {
      var rest := Split(s[1..], sep);
      JoinSplit(s[1..], sep);
      if s[0] == sep {
        assert Split(s, sep) == [""] + rest;
        assert s == [sep] + s[1..];
      } else if |rest| == 1 {
        assert s == [s[0]] + s[1..];
      } else {
        var first := [s[0]] + rest[0];
        assert Split(s, sep) == [first] + rest[1..];
        assert ([first] + rest[1..])[1..] == rest[1..];
        assert Join(Split(s, sep), [sep]) == first + [sep] + Join(rest[1..], [sep]);
        assert Join(rest, [sep]) == rest[0] + [sep] + Join(rest[1..], [sep]);
        assert s == [s[0]] + s[1..];
      }
    }
  }

  /** Joining pieces free of the separator and splitting again gives the pieces
      back. */
  lemma {:induction false} SplitJoin(parts: seq<string>, sep: char)
    requires |parts| >= 1
    requires forall i :: 0 <= i < |parts| ==> sep !in parts[i]
    ensures Split(Join(parts, [sep]), sep) == parts
  {
    if |parts| == 1 {
      SplitPiece(parts[0], [], sep);
      assert parts[0] + [] == parts[0];
    } else {
      SplitJoin(parts[1..], sep);
      var tail := [sep] + Join(parts[1..], [sep]);
      assert Join(parts, [sep]) == parts[0] + tail;
      assert tail[0] == sep && tail[1..] == Join(parts[1..], [sep]);
      assert Split(tail, sep) == [""] + parts[1..];
      SplitPiece(parts[0], tail, sep);
      assert ([""] + parts[1..])[1..] == parts[1..];
      assert parts[0] + "" == parts[0];
      assert parts == [parts[0]] + parts[1..];
    }
  }

  /** A separator-free prefix becomes part of the first piece. */
  lemma {:induction false} SplitPiece(p: string, t: string, sep: char)
    requires sep !in p
    ensures Split(p + t, sep) == [p + Split(t, sep)[0]] + Split(t, sep)[1..]
  {
    var pieces := Split(t, sep);
    if p == [] {
      assert p + t == t && p + pieces[0] == pieces[0];
      assert [pieces[0]] + pieces[1..] == pieces;
    } else {
      SplitPiece(p[1..], t, sep);
      var rest := Split(p[1..] + t, sep);
      assert (p + t)[1..] == p[1..] + t;
      assert (p + t)[0] == p[0] && p[0] != sep;
      assert Split(p + t, sep) == [[p[0]] + rest[0]] + rest[1..];
      assert rest[0] == p[1..] + pieces[0] && rest[1..] == pieces[1..];
      assert [p[0]] + (p[1..] + pieces[0]) == p + pieces[0];
    }
  }

  /** `s` has no white space at either end. */
  predicate Trimmed(s: string) {
    s == [] || (!IsSpace(s[0]) && !IsSpace(s[|s| - 1]))
  }

  lemma TrimOfTrimmed(s: string)
    requires Trimmed(s)
    ensures Trim(s) == s
  {
  }

  /** `trim` leaves a trimmed infix of its input. */
  lemma TrimIsTrimmedInfix(s: string)
    ensures Trimmed(Trim(s))
    ensures forall c :: c in Trim(s) ==> c in s
  {
    var t := TrimStart(s);
    assert t != [] ==> t[0] == Trim(s)[0] || Trim(s) == [];
    forall c | c in Trim(s) ensures c in s {
      var i :| 0 <= i < |Trim(s)| && Trim(s)[i] == c;
      assert t[i] == c;
      assert s[|s| - |t| + i] == c;
    }
  }

  function TrimAll(pieces: seq<string>): (r: seq<string>)
    ensures |r| == |pieces| && forall i :: 0 <= i < |r| ==> r[i] == Trim(pieces[i])
    ensures forall i :: 0 <= i < |r| ==> Trimmed(r[i]) && (',' !in pieces[i] ==> ',' !in r[i])
  {
    var r := seq(|pieces|, i requires 0 <= i < |pieces| => Trim(pieces[i]));
    assert forall i :: 0 <= i < |r| ==> Trimmed(r[i]) && (',' !in pieces[i] ==> ',' !in r[i]) by {
      forall i | 0 <= i < |r| ensures Trimmed(r[i]) && (',' !in pieces[i] ==> ',' !in r[i]) {
        TrimPiece(pieces[i]);
      }
    }
    r
  }

  /** One trimmed piece is trimmed and has no comma its piece did not have. */
  lemma TrimPiece(p: string)
    ensures Trimmed(Trim(p)) && (',' !in p ==> ',' !in Trim(p))
  {
    TrimIsTrimmedInfix(p);
  }

  /** `seat_numbers.split(',').map(s => s.trim()).filter(s => s)`. */
  function ParseSeatNumbers(input: string): (r: seq<string>)
    ensures forall i :: 0 <= i < |r| ==> r[i] != "" && ',' !in r[i] && Trimmed(r[i])
  {
    var trimmed := TrimAll(Split(input, ','));
    FilterKeeps(trimmed, (p: string) => p != "", (p: string) => ',' !in p && Trimmed(p));
    Filter(trimmed, (p: string) => p != "")
  }

  /** Parsing a list written as its pieces joined by commas gives the pieces
      back, in their order. */
  lemma ParseJoined(numbers: seq<string>)
    requires |numbers| >= 1
    requires forall i :: 0 <= i < |numbers| ==> numbers[i] != "" && ',' !in numbers[i] && Trimmed(numbers[i])
    ensures ParseSeatNumbers(Join(numbers, ",")) == numbers
  {
    SplitJoin(numbers, ',');
    var trimmed := TrimAll(numbers);
    forall i | 0 <= i < |numbers| ensures trimmed[i] == numbers[i] {
      TrimOfTrimmed(numbers[i]);
    }
    assert trimmed == numbers;
    FilterKeepsAll(numbers, (p: string) => p != "");
  }

  lemma {:induction false} FilterKeepsAll<T>(s: seq<T>, p: T -> bool)
    requires forall i :: 0 <= i < |s| ==> p(s[i])
    ensures Filter(s, p) == s
  {
    if s != [] {
      FilterKeepsAll(s[1..], p);
      assert s == [s[0]] + s[1..];
    }
  }

  /** No piece that is non-blank after trimming is dropped. */
  lemma ParseKeepsNonBlankPieces(input: string, k: nat)
    requires k < |Split(input, ',')| && Trim(Split(input, ',')[k]) != ""
    ensures Trim(Split(input, ',')[k]) in ParseSeatNumbers(input)
  {
    var trimmed := TrimAll(Split(input, ','));
    assert trimmed[k] == Trim(Split(input, ',')[k]);
  }

  // ---------------------------------------------------------------------------
  // POST `/`

  function SeatNumbers(seats: seq<Seat>): (r: seq<string>)
    ensures |r| == |seats| && forall i :: 0 <= i < |r| ==> r[i] == seats[i].seatNumber
  {
    seq(|seats|, i requires 0 <= i < |seats| => seats[i].seatNumber)
  }

  /** `SELECT seat_number FROM seats WHERE seat_number = ANY($1)`, in table order. */
  function ExistingNumbers(seats: seq<Seat>, numbers: seq<string>): (r: seq<string>)
    ensures forall x :: x in r <==> x in numbers && x in SeatNumbers(seats)
  {
    var found := Filter(seats, (s: Seat) => s.seatNumber in numbers);
    assert forall x :: x in SeatNumbers(seats) ==> exists i :: 0 <= i < |seats| && seats[i].seatNumber == x;
    SeatNumbers(found)
  }

  /** The outcome of POST `/` with body field `seat_numbers`; None stands for a
      missing or non-string value. On success, the numbers to insert. */
  function AddSeatsOutcome(input: Option<string>, seats: seq<Seat>): (r: Result<seq<string>, SeatError>)
    ensures r.Success? ==> |r.value| >= 1 && Distinct(r.value)
    ensures r.Success? ==> forall x :: x in r.value ==> x !in SeatNumbers(seats)
    ensures r.Failure? ==> r.error != SeatNotFound
    ensures !Truthy(input) ==> r == Failure(NotACommaSeparatedString)
    ensures Truthy(input) ==>
      var numbers := ParseSeatNumbers(input.value);
      numbers != [] && Distinct(numbers) && (forall x :: x in numbers ==> x !in SeatNumbers(seats))
      <==> r == Success(numbers)
  {
    if !Truthy(input) then Failure(NotACommaSeparatedString)
    else
      var numbers := ParseSeatNumbers(input.value);
      ElemSetSize(numbers);
      if |numbers| == 0 then Failure(NoSeatNumbers)
      else if |ElemSet(numbers)| < |numbers| then Failure(DuplicateInInput)
      else
        var existing := ExistingNumbers(seats, numbers);
        if |existing| > 0 then
          assert existing[0] in numbers && existing[0] in SeatNumbers(seats);
          Failure(AlreadyExist(existing))
        else Success(numbers)
  }

  /** The 400 message that lists the seat numbers that already exist. */
  function AlreadyExistMessage(numbers: seq<string>): string {
    "Seat numbers already exist: " + Join(numbers, ", ")
  }

  /** A missing, empty or non-string value is refused first; then a list with
      no pieces; then one where a piece repeats; then one where a piece already
      exists, and then every listed number is one of the request's pieces that
      the table holds. Otherwise every piece is added, in the order given. */
  lemma AddSeatsRejections(input: Option<string>, seats: seq<Seat>)
    ensures !Truthy(input) ==> AddSeatsOutcome(input, seats) == Failure(NotACommaSeparatedString)
    ensures Truthy(input) ==>
      var numbers := ParseSeatNumbers(input.value);
      var r := AddSeatsOutcome(input, seats);
      && (numbers == [] ==> r == Failure(NoSeatNumbers))
      && (numbers != [] && !Distinct(numbers) ==> r == Failure(DuplicateInInput))
      && (numbers != [] && Distinct(numbers) && (exists x :: x in numbers && x in SeatNumbers(seats)) ==>
            r.Failure? && r.error.AlreadyExist? && r.error.numbers != []
            && forall x :: x in r.error.numbers <==> x in numbers && x in SeatNumbers(seats))
      && (numbers != [] && Distinct(numbers) && (forall x :: x in numbers ==> x !in SeatNumbers(seats)) ==>
            r == Success(numbers))
      && (r.Success? ==> r.value == numbers)
  {
    if Truthy(input) {
      var numbers := ParseSeatNumbers(input.value);
      ElemSetSize(numbers);
      var existing := ExistingNumbers(seats, numbers);
      if x :| x in numbers && x in SeatNumbers(seats) {
        assert x in existing;
      }
      if existing != [] {
        assert existing[0] in numbers && existing[0] in SeatNumbers(seats);
      }
    }
  }

  /** Rows for freshly inserted seat numbers, with consecutive serial ids. */
  function NewSeats(numbers: seq<string>, firstId: Id): (r: seq<Seat>)
    ensures |r| == |numbers|
    ensures forall i :: 0 <= i < |r| ==> r[i] == Seat(firstId + i, numbers[i])
  {
    seq(|numbers|, i requires 0 <= i < |numbers| => Seat(firstId + i, numbers[i]))
  }

  /** Seat ids and seat numbers are unique. */
  predicate SeatInvariant(seats: seq<Seat>) {
    && (forall i, j :: 0 <= i < j < |seats| ==> seats[i].id != seats[j].id)
    && (forall i, j :: 0 <= i < j < |seats| ==> seats[i].seatNumber != seats[j].seatNumber)
  }

  /** A successful batch insert keeps ids and seat numbers unique. */
  lemma AddSeatsPreservesInvariant(input: Option<string>, seats: seq<Seat>, nextId: Id)
    requires SeatInvariant(seats) && forall k :: 0 <= k < |seats| ==> seats[k].id < nextId
    requires AddSeatsOutcome(input, seats).Success?
    ensures SeatInvariant(seats + NewSeats(AddSeatsOutcome(input, seats).value, nextId))
  {
    var numbers := AddSeatsOutcome(input, seats).value;
    var added := NewSeats(numbers, nextId);
    var t := seats + added;
    forall i, j | 0 <= i < j < |t| ensures t[i].seatNumber != t[j].seatNumber {
      if i >= |seats| {
        assert t[i] == added[i - |seats|] && t[j] == added[j - |seats|];
      } else if j >= |seats| {
        assert t[i].seatNumber in SeatNumbers(seats);
        assert t[j].seatNumber == numbers[j - |seats|];
      }
    }
  }

  // ---------------------------------------------------------------------------
  // DELETE `/:id`

  function IndexOfSeat(seats: seq<Seat>, id: int): (r: Option<nat>)
    ensures r.Some? ==> r.value < |seats| && seats[r.value].id == id
    ensures r.None? ==> forall k :: 0 <= k < |seats| ==> seats[k].id != id
  {
    if seats == [] then None
    else if seats[0].id == id then Some(0)
    else
      var r := IndexOfSeat(seats[1..], id);
      if r.None? then None else Some(r.value + 1)
  }

  /** With unique ids, deleting removes the seat with that id and nothing else. */
  lemma DeleteRemovesExactlyOne(seats: seq<Seat>, k: nat, bound: int)
    requires SeatInvariant(seats) && k < |seats|
    requires forall i :: 0 <= i < |seats| ==> seats[i].id < bound
    ensures var t := seats[..k] + seats[k + 1..];
      && SeatInvariant(t)
      && (forall s :: s in t <==> s in seats && s.id != seats[k].id)
      && (forall i :: 0 <= i < |t| ==> t[i].id < bound)
  {
    var t := seats[..k] + seats[k + 1..];
    RemoveAtIndex(seats, k, t);
    RemovedUnique(seats, k, t);
    RemovedMembers(seats, k, t);
  }

  /** Where each element of `s` lands once the one at `k` is removed. */
  lemma RemoveAtIndex(s: seq<Seat>, k: nat, t: seq<Seat>)
    requires k < |s| && t == s[..k] + s[k + 1..]
    ensures |t| == |s| - 1
    ensures forall i :: 0 <= i < k ==> t[i] == s[i]
    ensures forall i :: k < i < |s| ==> t[i - 1] == s[i]
  {
  }

  lemma RemovedUnique(seats: seq<Seat>, k: nat, t: seq<Seat>)
    requires SeatInvariant(seats) && k < |seats| && |t| == |seats| - 1
    requires forall i :: 0 <= i < k ==> t[i] == seats[i]
    requires forall i :: k < i < |seats| ==> t[i - 1] == seats[i]
    ensures SeatInvariant(t)
  {
    forall i, j | 0 <= i < j < |t|
      ensures t[i].id != t[j].id && t[i].seatNumber != t[j].seatNumber
    {
      var i', j' := if i < k then i else i + 1, if j < k then j else j + 1;
      assert t[i] == seats[i'] && t[j] == seats[j'] && i' < j';
    }
  }

  lemma RemovedMembers(seats: seq<Seat>, k: nat, t: seq<Seat>)
    requires SeatInvariant(seats) && k < |seats| && |t| == |seats| - 1
    requires forall i :: 0 <= i < k ==> t[i] == seats[i]
    requires forall i :: k < i < |seats| ==> t[i - 1] == seats[i]
    ensures forall s :: s in t <==> s in seats && s.id != seats[k].id
  {
    forall s | s in t ensures s in seats && s.id != seats[k].id {
      var i :| 0 <= i < |t| && t[i] == s;
      var i' := if i < k then i else i + 1;
      assert s == seats[i'] && i' != k;
    }
    forall s | s in seats && s.id != seats[k].id ensures s in t {
      var i :| 0 <= i < |seats| && seats[i] == s;
      assert i != k;
      assert t[if i < k then i else i - 1] == s;
    }
  }

  class SeatTable {
    var seats: seq<Seat>
    /** The next value of the `seats` id sequence. */
    var nextId: Id

    ghost predicate Valid()
      reads this
    {
      SeatInvariant(seats) && forall k :: 0 <= k < |seats| ==> seats[k].id < nextId
    }

    constructor ()
      ensures Valid() && seats == [] && nextId == 1
    {
      seats := [];
      nextId := 1;
    }

    /** POST `/`: either every number is inserted or the table is unchanged. */
    method AddSeats(input: Option<string>) returns (r: Result<seq<string>, SeatError>)
      requires Valid()
      modifies this
      ensures Valid()
      ensures r == AddSeatsOutcome(input, old(seats))
      ensures r.Success? ==> seats == old(seats) + NewSeats(r.value, old(nextId)) && nextId == old(nextId) + |r.value|
      ensures r.Failure? ==> seats == old(seats) && nextId == old(nextId)
    {
      r := AddSeatsOutcome(input, seats);
      if r.Success? {
        AddSeatsPreservesInvariant(input, seats, nextId);
        seats := seats + NewSeats(r.value, nextId);
        nextId := nextId + |r.value|;
      }
    }

    /** DELETE `/:id`. */
    method DeleteSeat(id: int) returns (r: Result<Seat, SeatError>)
      requires Valid()
      modifies this
      ensures Valid() && nextId == old(nextId)
      ensures r.Success? <==> exists k :: 0 <= k < |old(seats)| && old(seats)[k].id == id
      ensures r.Success? ==>
        r.value in old(seats) && r.value.id == id && forall s :: s in seats <==> s in old(seats) && s.id != id
      ensures r.Failure? ==> r.error == SeatNotFound && seats == old(seats)
    {
      var k := IndexOfSeat(seats, id);
      if k.None? {
        return Failure(SeatNotFound);
      }
      DeleteRemovesExactlyOne(seats, k.value, nextId);
      r := Success(seats[k.value]);
      seats := seats[..k.value] + seats[k.value + 1..];
    }
  }

  // ---------------------------------------------------------------------------
  // GET `/`

  function BySeatNumber(): (Seat, Seat) -> bool {
    (a: Seat, b: Seat) => LexLe(a.seatNumber, b.seatNumber)
  }

  /** The students the LEFT JOIN pairs with a seat: those holding it, in the
      given shift when a shift filter is present. */
  function Holders(seat: Seat, students: seq<Students.Student>, shiftId: Option<int>)
    : (r: seq<Students.Student>)
    ensures forall i :: 0 <= i < |r| ==> r[i] in students && r[i].seatId == Some(seat.id)
    ensures forall st :: st in students && st.seatId == Some(seat.id)
              && (shiftId.None? || st.shiftId == Some(shiftId.value))
              ==> st in r
    ensures shiftId.Some? ==> forall i :: 0 <= i < |r| ==> r[i].shiftId == Some(shiftId.value)
  {
    Filter(students, (st: Students.Student) =>
      st.seatId == Some(seat.id) && (shiftId.None? || st.shiftId == Some(shiftId.value)))
  }

  /** The response rows of one seat: one per holder, or a single unassigned row. */
  function SeatRows(seat: Seat, students: seq<Students.Student>, shiftId: Option<int>): (r: seq<SeatRow>)
    ensures |r| >= 1
    ensures forall i :: 0 <= i < |r| ==> r[i].id == seat.id && r[i].seatNumber == seat.seatNumber
  {
    var holders := Holders(seat, students, shiftId);
    if holders == [] then [SeatRow(seat.id, seat.seatNumber, false)]
    else seq(|holders|, _ => SeatRow(seat.id, seat.seatNumber, true))
  }

  function RowsInOrder(sorted: seq<Seat>, students: seq<Students.Student>, shiftId: Option<int>)
    : (r: seq<SeatRow>)
    ensures |r| >= |sorted|
  {
    if sorted == [] then []
    else SeatRows(sorted[0], students, shiftId) + RowsInOrder(sorted[1..], students, shiftId)
  }

  /** `row` shows one of `seats`. */
  predicate FromSeat(row: SeatRow, seats: seq<Seat>) {
    exists k :: 0 <= k < |seats| && row.id == seats[k].id && row.seatNumber == seats[k].seatNumber
  }

  /** Every row of the listing belongs to one of the seats listed. */
  lemma {:induction false} RowsFromSeats(sorted: seq<Seat>, students: seq<Students.Student>, shiftId: Option<int>)
    ensures forall i :: 0 <= i < |RowsInOrder(sorted, students, shiftId)| ==>
              FromSeat(RowsInOrder(sorted, students, shiftId)[i], sorted)
  {
    if sorted != [] {
      var head := SeatRows(sorted[0], students, shiftId);
      var rest := RowsInOrder(sorted[1..], students, shiftId);
      RowsFromSeats(sorted[1..], students, shiftId);
      var r := head + rest;
      assert r == RowsInOrder(sorted, students, shiftId);
      forall i | 0 <= i < |r| ensures FromSeat(r[i], sorted) {
        if i < |head| {
          assert r[i] == head[i];
          assert r[i].id == sorted[0].id && r[i].seatNumber == sorted[0].seatNumber;
        } else {
          assert r[i] == rest[i - |head|];
          assert FromSeat(rest[i - |head|], sorted[1..]);
          var k :| 0 <= k < |sorted[1..]| && rest[i - |head|].id == sorted[1..][k].id
                   && rest[i - |head|].seatNumber == sorted[1..][k].seatNumber;
          assert sorted[1..][k] == sorted[k + 1];
        }
      }
    }
  }

  /** GET `/` with an optional `shiftId` filter, ordered by seat number. */
  function ListSeats(seats: seq<Seat>, students: seq<Students.Student>, shiftId: Option<int>): (r: seq<SeatRow>)
    ensures |r| >= |seats|
  {
    RowsInOrder(SortBy(seats, BySeatNumber()), students, shiftId)
  }

  /** The listing is ordered by seat number. */
  lemma ListSeatsSorted(seats: seq<Seat>, students: seq<Students.Student>, shiftId: Option<int>)
    ensures RowsSorted(ListSeats(seats, students, shiftId))
  {
    var sorted := SortBy(seats, BySeatNumber());
    LexKeyIsTotalPreorder((s: Seat) => s.seatNumber, BySeatNumber());
    SortBySorted(seats, BySeatNumber());
    RowsInOrderSorted(sorted, students, shiftId);
    assert ListSeats(seats, students, shiftId) == RowsInOrder(sorted, students, shiftId);
  }

  predicate RowsSorted(rows: seq<SeatRow>) {
    forall i, j :: 0 <= i < j < |rows| ==> LexLe(rows[i].seatNumber, rows[j].seatNumber)
  }

  lemma {:induction false} RowsInOrderSorted(sorted: seq<Seat>, students: seq<Students.Student>, shiftId: Option<int>)
    requires SortedBy(sorted, BySeatNumber())
    ensures RowsSorted(RowsInOrder(sorted, students, shiftId))
  {
    if sorted != [] {
      var head := SeatRows(sorted[0], students, shiftId);
      var rest := RowsInOrder(sorted[1..], students, shiftId);
      assert SortedBy(sorted[1..], BySeatNumber());
      RowsInOrderSorted(sorted[1..], students, shiftId);
      RowsFromSeats(sorted[1..], students, shiftId);
      var r := head + rest;
      forall i, j | 0 <= i < j < |r| ensures LexLe(r[i].seatNumber, r[j].seatNumber) {
        if j < |head| {
          assert r[i] == head[i] && r[j] == head[j];
          LexLeReflexive(sorted[0].seatNumber);
          assert LexLe(r[i].seatNumber, r[j].seatNumber);
        } else if i < |head| {
          assert r[i] == head[i] && r[j] == rest[j - |head|];
          assert FromSeat(rest[j - |head|], sorted[1..]);
          var k :| 0 <= k < |sorted[1..]| && rest[j - |head|].seatNumber == sorted[1..][k].seatNumber;
          assert sorted[1..][k] == sorted[k + 1];
          assert BySeatNumber()(sorted[0], sorted[k + 1]);
          assert LexLe(r[i].seatNumber, r[j].seatNumber);
        } else {
          assert r[i] == rest[i - |head|] && r[j] == rest[j - |head|];
          assert RowsSorted(rest);
          assert LexLe(rest[i - |head|].seatNumber, rest[j - |head|].seatNumber);
        }
      }
    }
  }

  lemma {:induction false} LexLeReflexive(a: string)
    ensures LexLe(a, a)
  {
    if a != [] {
      LexLeReflexive(a[1..]);
    }
  }

  /** Under the `unique_seat_per_shift` invariant a seat has at most one holder
      in a given shift. */
  lemma {:induction false} AtMostOneHolder(seat: Seat, students: seq<Students.Student>, shiftId: int)
    requires Students.UniqueSeatPerShift(students)
    ensures |Holders(seat, students, Some(shiftId))| <= 1
  {
    if students != [] {
      var rest := students[1..];
      assert Students.UniqueSeatPerShift(rest) by {
        forall i, j | 0 <= i < j < |rest| ensures !Students.SameSlot(rest[i], rest[j]) {
          assert rest[i] == students[i + 1] && rest[j] == students[j + 1];
        }
      }
      AtMostOneHolder(seat, rest, shiftId);
      var h := Holders(seat, rest, Some(shiftId));
      if h != [] {
        var k :| 0 <= k < |rest| && rest[k] == h[0];
        assert !Students.SameSlot(students[0], students[k + 1]);
      }
    }
  }

  /** Some student holds the seat, in the given shift when there is one. */
  predicate HeldIn(seatId: Id, students: seq<Students.Student>, shiftId: Option<int>) {
    exists k | 0 <= k < |students| ::
      students[k].seatId == Some(seatId) && (shiftId.None? || students[k].shiftId == Some(shiftId.value))
  }

  /** Every row of a seat carries `is_assigned` exactly when the seat is held;
      an unheld seat has a single row, a held one a row per holder. */
  lemma SeatRowsAssigned(seat: Seat, students: seq<Students.Student>, shiftId: Option<int>)
    ensures var r := SeatRows(seat, students, shiftId);
      && (forall i :: 0 <= i < |r| ==> r[i].isAssigned == HeldIn(seat.id, students, shiftId))
      && (!HeldIn(seat.id, students, shiftId) ==> |r| == 1)
      && (HeldIn(seat.id, students, shiftId) ==> |r| == |Holders(seat, students, shiftId)|)
  {
    var h := Holders(seat, students, shiftId);
    if h != [] {
      var k :| 0 <= k < |students| && students[k] == h[0];
    }
    if HeldIn(seat.id, students, shiftId) {
      var k :| 0 <= k < |students| && students[k].seatId == Some(seat.id)
        && (shiftId.None? || students[k].shiftId == Some(shiftId.value));
      assert students[k] in h;
    }
  }

  /** Row `i` describes seat `i`, flagged as held or not. */
  predicate OneRowPerSeat(rows: seq<SeatRow>, sorted: seq<Seat>, students: seq<Students.Student>, shiftId: Option<int>) {
    |rows| == |sorted|
    && forall i :: 0 <= i < |rows| ==>
         rows[i] == SeatRow(sorted[i].id, sorted[i].seatNumber, HeldIn(sorted[i].id, students, shiftId))
  }

  /** With a shift filter and the table invariant, the listing has exactly one
      row per seat, and `is_assigned` holds iff some student holds that seat in
      that shift. */
  lemma {:induction false} RowsWithShift(sorted: seq<Seat>, students: seq<Students.Student>, shiftId: int)
    requires Students.UniqueSeatPerShift(students)
    ensures OneRowPerSeat(RowsInOrder(sorted, students, Some(shiftId)), sorted, students, Some(shiftId))
  {
    if sorted != [] {
      var rest := RowsInOrder(sorted[1..], students, Some(shiftId));
      RowsWithShift(sorted[1..], students, shiftId);
      AtMostOneHolder(sorted[0], students, shiftId);
      SeatRowsAssigned(sorted[0], students, Some(shiftId));
      var head := SeatRows(sorted[0], students, Some(shiftId));
      assert head == [SeatRow(sorted[0].id, sorted[0].seatNumber, HeldIn(sorted[0].id, students, Some(shiftId)))];
      var r := head + rest;
      forall i | 1 <= i < |r|
        ensures r[i] == SeatRow(sorted[i].id, sorted[i].seatNumber, HeldIn(sorted[i].id, students, Some(shiftId)))
      {
        assert r[i] == rest[i - 1] && sorted[1..][i - 1] == sorted[i];
      }
    }
  }

  /** GET `/?shiftId=..`: one row per seat in seat-number order, assigned iff
      held in that shift. */
  lemma ListSeatsWithShift(seats: seq<Seat>, students: seq<Students.Student>, shiftId: int)
    requires Students.UniqueSeatPerShift(students)
    ensures OneRowPerSeat(ListSeats(seats, students, Some(shiftId)), SortBy(seats, BySeatNumber()), students, Some(shiftId))
    ensures |ListSeats(seats, students, Some(shiftId))| == |seats|
  {
    RowsWithShift(SortBy(seats, BySeatNumber()), students, shiftId);
  }

  /** Without a shift filter, an unheld seat gives one unassigned row and a held
      seat gives one assigned row per student holding it, in any shift. */
  lemma SeatRowsWithoutShift(seat: Seat, students: seq<Students.Student>)
    ensures var r := SeatRows(seat, students, None);
      && (!HeldIn(seat.id, students, None) <==> r == [SeatRow(seat.id, seat.seatNumber, false)])
      && (HeldIn(seat.id, students, None) ==>
            |r| == |Holders(seat, students, None)| && forall i :: 0 <= i < |r| ==> r[i].isAssigned)
  {
    SeatRowsAssigned(seat, students, None);
    var r := SeatRows(seat, students, None);
    if HeldIn(seat.id, students, None) {
      assert r[0].isAssigned;
    }
  }
}
