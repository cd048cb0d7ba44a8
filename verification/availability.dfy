/** The availability resolver: the seats already booked for one showing,
    read back from the seat columns of that showing's ticket rows. */
module Availability {
  import opened Wrappers
  import opened SeatText
  import opened Tickets

  /** Booked seat numbers per class, in row order (Python lists, so a seat
      may appear twice if two rows hold it). */
  datatype Booked = Booked(gold: seq<nat>, standard: seq<nat>)

  /** `int(x)` raised on this column text. */
  datatype ResolveError = MalformedColumn(text: string)

  const NothingBooked := Booked([], [])

  /** The rows of a showing: `WHERE movie_id = .. AND show_date = .. AND
      show_time = ..`. */
  function RowsFor(table: seq<TicketRow>, sh: Showing): (rows: seq<TicketRow>)
    ensures forall r :: r in rows <==> r in table && r.showing == sh
    decreases |table|
  {
    if table == [] then []
    else (if table[0].showing == sh then [table[0]] else []) + RowsFor(table[1..], sh)
  }

  /** A row appended to the table is appended to the rows of its own
      showing and to no other. */
  lemma {:induction false} RowsForAppend(table: seq<TicketRow>, t: TicketRow, sh: Showing)
    ensures RowsFor(table + [t], sh) == RowsFor(table, sh) + (if t.showing == sh then [t] else [])
    decreases |table|
  {
    if table == [] {
      assert table + [t] == [t];
      assert [t][1..] == [];
    } else {
      assert (table + [t])[0] == table[0];
      assert (table + [t])[1..] == table[1..] + [t];
      RowsForAppend(table[1..], t, sh);
    }
  }

  /** One seat column: NULL and the empty string contribute nothing;
      anything else is split on commas and every piece parsed. */
  function ParseColumn(column: Option<string>): (r: Result<seq<nat>, ResolveError>)
    ensures column.None? || column == Some([]) ==> r == Success([])
    ensures column.Some? && column.value != [] && r.Success? ==>
              |r.value| == |Split(column.value, Comma)|
    ensures column.Some? && column.value != [] ==>
              (r.Success? <==> ParseSeatList(column.value).Some?)
    ensures column.Some? && column.value != [] && r.Success? ==>
              ParseSeatList(column.value) == Some(r.value)
  {
    match column
    case None => Success([])
    case Some(text) =>
      if text == [] then Success([])
      else
        match ParseSeatList(text)
        case None => Failure(MalformedColumn(text))
        case Some(seats) => Success(seats)
  }

  /** Both seat columns of a row parse. */
  predicate ColumnsReadable(row: TicketRow) {
    ParseColumn(row.goldSeats).Success? && ParseColumn(row.standardSeats).Success?
  }

  /** The booked seats of `rows`: every row's Gold column extends the Gold
      list and its Standard column the Standard list, row by row; the first
      unreadable column (Gold before Standard within a row) is the error. */
  function ResolveRows(rows: seq<TicketRow>): (r: Result<Booked, ResolveError>)
    ensures r.Success? <==> forall i :: 0 <= i < |rows| ==> ColumnsReadable(rows[i])
    ensures rows == [] ==> r == Success(NothingBooked)
    decreases |rows|
  {
    if rows == [] then Success(NothingBooked)
    else
      var last := rows[|rows| - 1];
      match ResolveRows(rows[..|rows| - 1])
      case Failure(e) => Failure(e)
      case Success(b) =>
        match ParseColumn(last.goldSeats)
        case Failure(e) => Failure(e)
        case Success(g) =>
          match ParseColumn(last.standardSeats)
          case Failure(e) => Failure(e)
          case Success(s) => Success(Booked(b.gold + g, b.standard + s))
  }

  /** Once a prefix of the rows fails, the whole scan fails with that error. */
  lemma {:induction false} ResolvePrefixFailure(rows: seq<TicketRow>, i: nat)
    requires i <= |rows|
    requires ResolveRows(rows[..i]).Failure?
    ensures ResolveRows(rows) == ResolveRows(rows[..i])
    decreases |rows| - i
  {
    if i < |rows| {
      assert rows[..i + 1][..i] == rows[..i];
      ResolvePrefixFailure(rows, i + 1);
    } else {
      assert rows[..i] == rows;
    }
  }

  /** The resolver loop: for each ticket row, extend the booked lists with
      the parsed seat columns. */
  method ResolveBooked(rows: seq<TicketRow>) returns (r: Result<Booked, ResolveError>)
    ensures r == ResolveRows(rows)
  {
    var gold: seq<nat> := [];
    var standard: seq<nat> := [];
    var i := 0;
    while i < |rows|
      invariant 0 <= i <= |rows|
      invariant ResolveRows(rows[..i]) == Success(Booked(gold, standard))
    {
      assert rows[..i + 1][..i] == rows[..i];
      var g := ParseColumn(rows[i].goldSeats);
      if g.Failure? {
        ResolvePrefixFailure(rows, i + 1);
        return Failure(g.error);
      }
      var s := ParseColumn(rows[i].standardSeats);
      if s.Failure? {
        ResolvePrefixFailure(rows, i + 1);
        return Failure(s.error);
      }
      gold := gold + g.value;
      standard := standard + s.value;
      i := i + 1;
    }
    assert rows[..i] == rows;
    r := Success(Booked(gold, standard));
  }

  /** A showing with no ticket rows has nothing booked. */
  lemma NoRowsNothingBooked(table: seq<TicketRow>, sh: Showing)
    requires forall r :: r in table ==> r.showing != sh
    ensures ResolveRows(RowsFor(table, sh)) == Success(NothingBooked)
  {
    RowsForNone(table, sh);
  }

  lemma {:induction false} RowsForNone(table: seq<TicketRow>, sh: Showing)
    requires forall r :: r in table ==> r.showing != sh
    ensures RowsFor(table, sh) == []
    decreases |table|
  {
    if table != [] {
      assert table[0] in table;
      assert forall r :: r in table[1..] ==> r in table;
      RowsForNone(table[1..], sh);
    }
  }

  /** Appending a readable row appends its seats to the booked lists. */
  lemma ResolveAppend(rows: seq<TicketRow>, row: TicketRow, b: Booked, g: seq<nat>, s: seq<nat>)
    requires ResolveRows(rows) == Success(b)
    requires ParseColumn(row.goldSeats) == Success(g)
    requires ParseColumn(row.standardSeats) == Success(s)
    ensures ResolveRows(rows + [row]) == Success(Booked(b.gold + g, b.standard + s))
  {
    assert (rows + [row])[..|rows|] == rows;
  }

  /** Rows whose columns are NULL or empty add no booked seats. */
  lemma {:induction false} BlankRowsBookNothing(rows: seq<TicketRow>)
    requires forall r :: r in rows ==>
               (r.goldSeats.None? || r.goldSeats == Some([])) &&
               (r.standardSeats.None? || r.standardSeats == Some([]))
    ensures ResolveRows(rows) == Success(NothingBooked)
    decreases |rows|
  {
    if rows != [] {
      var init := rows[..|rows| - 1];
      assert forall r :: r in init ==> r in rows;
      BlankRowsBookNothing(init);
      var last := rows[|rows| - 1];
      assert last in rows;
      assert ParseColumn(last.goldSeats) == Success([]);
      assert ParseColumn(last.standardSeats) == Success([]);
      assert ResolveRows(rows) == Success(Booked(NothingBooked.gold + [], NothingBooked.standard + []));
      assert NothingBooked.gold + [] == NothingBooked.gold;
      assert NothingBooked.standard + [] == NothingBooked.standard;
    }
  }
}
