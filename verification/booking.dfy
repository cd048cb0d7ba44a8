/** The booking step: the payment gate, the ticket identifier, the stored
    form of the picks, and the ticket row inserted on payment. */
module Booking {
  import opened Wrappers
  import opened Seqs
  import opened SeatText
  import opened Inventory
  import Pricing
  import opened Tickets
  import opened Availability
  import opened Selection

  /** What the page shows under the price breakdown. */
  datatype Gate =
    | SelectSeats            // nothing picked: an info message
    | SelectExactly(n: nat)  // picks differ from the count wanted: a warning
    | PaymentOffered         // the payment form and its button

  /** Payment is offered only for a non-empty selection of exactly the
      number of seats wanted. */
  function PaymentGate(s: Selection): (g: Gate)
    ensures g.PaymentOffered? <==> Total(s) > 0 && Total(s) == s.desired
    ensures g.SelectSeats? <==> Total(s) == 0
    ensures g.SelectExactly? ==> g.n == s.desired && Total(s) != s.desired
  {
    if Total(s) > 0 then
      if Total(s) == s.desired then PaymentOffered else SelectExactly(s.desired)
    else SelectSeats
  }

  /** Within the invariant, the gate opens exactly when the selection is full. */
  lemma GateOpensWhenFull(s: Selection)
    requires WithinCount(s)
    ensures PaymentGate(s).PaymentOffered? <==> Total(s) == s.desired
  {
  }

  const TicketPrefix: string := "TKT-"

  /** `f"TKT-{movie_id}-{n}"` with `n` the random draw in 1000..9999. */
  function TicketId(movieId: nat, draw: nat): (id: string)
    requires 1000 <= draw <= 9999
    ensures |id| == |TicketPrefix| + |Numeral(movieId)| + 5
    ensures id[..|TicketPrefix|] == TicketPrefix
    ensures id[|TicketPrefix|..|TicketPrefix| + |Numeral(movieId)|] == Numeral(movieId)
    ensures id[|id| - 5] == '-' && AllDigits(id[|id| - 4..])
  {
    NumeralOfFourDigits(draw);
    var id := TicketPrefix + Numeral(movieId) + "-" + Numeral(draw);
    assert id[|id| - 4..] == Numeral(draw);
    id
  }

  /** Reads a ticket identifier back into its movie and draw. */
  function ParseTicketId(id: string): Option<(nat, nat)>
  {
    if |id| < |TicketPrefix| || id[..|TicketPrefix|] != TicketPrefix then None
    else
      var parts := Split(id[|TicketPrefix|..], '-');
      if |parts| != 2 then None
      else
        match (ParseNat(parts[0]), ParseNat(parts[1]))
        case (Some(m), Some(n)) => Some((m, n))
        case _ => None
  }

  /** A ticket identifier determines the movie and the draw it was made from. */
  lemma TicketIdRoundTrip(movieId: nat, draw: nat)
    requires 1000 <= draw <= 9999
    ensures ParseTicketId(TicketId(movieId, draw)) == Some((movieId, draw))
  {
    var a := Numeral(movieId);
    var d := Numeral(draw);
    TicketIdBody(movieId, draw);
    assert '-' !in a && '-' !in d by {
      assert AllDigits(a) && AllDigits(d);
    }
    SplitJoin([a, d], '-');
    ParseNumeral(movieId);
    ParseNumeral(draw);
  }

  /** After the prefix, an identifier is the movie numeral and the draw
      joined by a dash. */
  lemma TicketIdBody(movieId: nat, draw: nat)
    requires 1000 <= draw <= 9999
    ensures TicketId(movieId, draw)[|TicketPrefix|..] == Join([Numeral(movieId), Numeral(draw)], '-')
  {
    var a := Numeral(movieId);
    var d := Numeral(draw);
    JoinPair(a, d, '-');
    assert TicketId(movieId, draw)[|TicketPrefix|..] == a + "-" + d;
  }

  /** Two bookings get the same identifier only for the same movie and the
      same draw: the draw is the only thing that tells a movie's tickets apart. */
  lemma TicketIdInjective(m1: nat, n1: nat, m2: nat, n2: nat)
    requires 1000 <= n1 <= 9999 && 1000 <= n2 <= 9999
    requires TicketId(m1, n1) == TicketId(m2, n2)
    ensures m1 == m2 && n1 == n2
  {
    TicketIdRoundTrip(m1, n1);
    TicketIdRoundTrip(m2, n2);
  }

  /** The stored seat column of a pick list: its comma-joined numerals, or
      NULL when the join is empty. */
  function StoredColumn(picks: seq<nat>): (c: Option<string>)
    ensures c.None? <==> picks == []
  {
    var text := SeatListText(picks);
    if text == [] then None else Some(text)
  }

  /** The resolver reads a stored column back as the pick list, in order. */
  lemma StoredColumnRoundTrip(picks: seq<nat>)
    ensures ParseColumn(StoredColumn(picks)) == Success(picks)
  {
    if picks != [] {
      SeatListRoundTrip(picks);
    }
  }

  /** What became of a click on the payment button. */
  datatype Outcome =
    | NotOffered(gate: Gate)        // no payment form: nothing is inserted
    | PaymentFailed                 // the insert affected no row
    | Confirmed(ticket: TicketRow)  // the inserted row

  /** The outcome together with the tickets table afterwards. */
  datatype Booking = Booking(outcome: Outcome, tickets: seq<TicketRow>)

  /** The row a paid selection is stored as: a `TKT-` identifier, the
      quoted total for the seat counts, and a seat column that is NULL
      exactly when its class has no picks. */
  function TicketFor(s: Selection, sh: Showing, screenId: nat, title: string,
                     customerId: nat, payment: PaymentMethod, draw: nat): (t: TicketRow)
    requires 1000 <= draw <= 9999
    ensures |t.id| > |TicketPrefix| && t.id[..|TicketPrefix|] == TicketPrefix
    ensures t.showing == sh && t.screenId == screenId && t.movieTitle == title
    ensures t.customerId == customerId && t.payment == payment
    ensures t.price == Pricing.Quote(|s.gold|, |s.standard|)
    ensures t.price.total == 187 * |s.gold| + 128 * |s.standard|
    ensures t.goldSeats.None? <==> s.gold == []
    ensures t.standardSeats.None? <==> s.standard == []
  {
    TicketRow(TicketId(sh.movieId, draw), sh, screenId,
              Pricing.Quote(|s.gold|, |s.standard|), payment,
              StoredColumn(s.gold), StoredColumn(s.standard), title, customerId)
  }

  /** The stored row reads back as the selection: its seat columns parse to
      the picks, its identifier to the movie and draw, and its price is the
      quote for the seat counts. */
  lemma TicketReadsBack(s: Selection, sh: Showing, screenId: nat, title: string,
                        customerId: nat, payment: PaymentMethod, draw: nat)
    requires 1000 <= draw <= 9999
    ensures var t := TicketFor(s, sh, screenId, title, customerId, payment, draw);
            && t.showing == sh
            && t.price == Pricing.Quote(|s.gold|, |s.standard|)
            && t.price.total == 187 * |s.gold| + 128 * |s.standard|
            && ParseColumn(t.goldSeats) == Success(s.gold)
            && ParseColumn(t.standardSeats) == Success(s.standard)
            && ParseTicketId(t.id) == Some((sh.movieId, draw))
  {
    StoredColumnRoundTrip(s.gold);
    StoredColumnRoundTrip(s.standard);
    TicketIdRoundTrip(sh.movieId, draw);
  }

  /** Paying for a selection. `draw` is the random ticket number and
      `inserted` whether the insert affected a row. Nothing is inserted
      unless the gate is open and the insert succeeds. */
  function Book(table: seq<TicketRow>, s: Selection, sh: Showing, screenId: nat, title: string,
                customerId: nat, payment: PaymentMethod, draw: nat, inserted: bool): (r: Booking)
    requires 1000 <= draw <= 9999
    ensures !PaymentGate(s).PaymentOffered? ==> r == Booking(NotOffered(PaymentGate(s)), table)
    ensures r.outcome.Confirmed? <==> PaymentGate(s).PaymentOffered? && inserted
    ensures PaymentGate(s).PaymentOffered? && !inserted ==> r.outcome == PaymentFailed
    ensures r.outcome.Confirmed? ==> r.tickets == table + [r.outcome.ticket]
    ensures !r.outcome.Confirmed? ==> r.tickets == table
    ensures r.outcome.Confirmed? ==> r.outcome.ticket == TicketFor(s, sh, screenId, title, customerId, payment, draw)
  {
    var gate := PaymentGate(s);
    if !gate.PaymentOffered? then Booking(NotOffered(gate), table)
    else if !inserted then Booking(PaymentFailed, table)
    else
      var t := TicketFor(s, sh, screenId, title, customerId, payment, draw);
      Booking(Confirmed(t), table + [t])
  }

  /** After a confirmed booking the resolver reports the showing's earlier
      bookings followed by the new picks, class by class; other showings
      are untouched. */
  lemma BookingRecordsPicks(table: seq<TicketRow>, s: Selection, sh: Showing, screenId: nat, title: string,
                            customerId: nat, payment: PaymentMethod, draw: nat, prev: Booked, other: Showing)
    requires 1000 <= draw <= 9999
    requires ResolveRows(RowsFor(table, sh)) == Success(prev)
    requires PaymentGate(s).PaymentOffered?
    ensures var after := Book(table, s, sh, screenId, title, customerId, payment, draw, true).tickets;
            ResolveRows(RowsFor(after, sh)) == Success(Booked(prev.gold + s.gold, prev.standard + s.standard))
    ensures other != sh ==>
              RowsFor(Book(table, s, sh, screenId, title, customerId, payment, draw, true).tickets, other)
              == RowsFor(table, other)
  {
    var t := TicketFor(s, sh, screenId, title, customerId, payment, draw);
    TicketReadsBack(s, sh, screenId, title, customerId, payment, draw);
    RowsForAppend(table, t, sh);
    ResolveAppend(RowsFor(table, sh), t, prev, s.gold, s.standard);
    RowsForAppend(table, t, other);
  }

  /** Adding a selection made against the current bookings to those
      bookings books no seat twice, provided none was booked twice before. */
  lemma NoDoubleBooking(prev: Booked, s: Selection, l: Layout)
    requires NoDup(prev.gold) && NoDup(prev.standard)
    requires Valid(s, l, prev)
    ensures NoDup(prev.gold + s.gold) && NoDup(prev.standard + s.standard)
  {
    assert ClassValid(s, l, prev, Gold) && ClassValid(s, l, prev, Standard);
    NoDupConcat(prev.gold, s.gold);
    NoDupConcat(prev.standard, s.standard);
  }

  /** A click on the payment button together with the selection the page
      holds on its next run. */
  datatype Payment = Payment(booking: Booking, next: Selection)

  /** Paying as the page does it: the picks are never cleared. The button
      that would clear them is drawn only inside the branch of the payment
      click itself, so a click on it starts a run in which that branch, and
      the button, are not reached. The gate therefore stays open after a
      confirmed booking. */
  function PayAsWritten(table: seq<TicketRow>, s: Selection, sh: Showing, screenId: nat, title: string,
                        customerId: nat, payment: PaymentMethod, draw: nat, inserted: bool): (p: Payment)
    requires 1000 <= draw <= 9999
    ensures p.booking == Book(table, s, sh, screenId, title, customerId, payment, draw, inserted)
    ensures p.next == s
    ensures p.booking.outcome.Confirmed? ==> PaymentGate(p.next).PaymentOffered?
  {
    Payment(Book(table, s, sh, screenId, title, customerId, payment, draw, inserted), s)
  }

  /** Paying as intended: a confirmed booking starts the next run from a
      fresh selection, so the gate is closed until new seats are picked; a
      refused or failed payment keeps the picks for another try. */
  function Pay(table: seq<TicketRow>, s: Selection, sh: Showing, screenId: nat, title: string,
               customerId: nat, payment: PaymentMethod, draw: nat, inserted: bool): (p: Payment)
    requires 1000 <= draw <= 9999
    ensures p.booking == Book(table, s, sh, screenId, title, customerId, payment, draw, inserted)
    ensures p.booking.outcome.Confirmed? ==> p.next == Fresh() && PaymentGate(p.next) == SelectSeats
    ensures !p.booking.outcome.Confirmed? ==> p.next == s
  {
    var b := Book(table, s, sh, screenId, title, customerId, payment, draw, inserted);
    Payment(b, if b.outcome.Confirmed? then Fresh() else s)
  }

  /** As written, a second click on the payment button after a confirmed
      booking books the same seats again: the showing's Gold list holds the
      picks twice, so any picked Gold seat is booked twice. */
  lemma RepeatPaymentAsWrittenBooksTwice(table: seq<TicketRow>, s: Selection, sh: Showing, screenId: nat,
                                         title: string, customerId: nat, payment: PaymentMethod,
                                         draw1: nat, draw2: nat, prev: Booked)
    requires 1000 <= draw1 <= 9999 && 1000 <= draw2 <= 9999
    requires ResolveRows(RowsFor(table, sh)) == Success(prev)
    requires PaymentGate(s).PaymentOffered?
    ensures var p1 := PayAsWritten(table, s, sh, screenId, title, customerId, payment, draw1, true);
            var p2 := PayAsWritten(p1.booking.tickets, p1.next, sh, screenId, title, customerId, payment, draw2, true);
            && p2.booking.outcome.Confirmed?
            && ResolveRows(RowsFor(p2.booking.tickets, sh))
               == Success(Booked(prev.gold + s.gold + s.gold, prev.standard + s.standard + s.standard))
    ensures s.gold != [] ==> !NoDup(prev.gold + s.gold + s.gold)
  {
    var p1 := PayAsWritten(table, s, sh, screenId, title, customerId, payment, draw1, true);
    BookingRecordsPicks(table, s, sh, screenId, title, customerId, payment, draw1, prev, sh);
    var mid := Booked(prev.gold + s.gold, prev.standard + s.standard);
    BookingRecordsPicks(p1.booking.tickets, s, sh, screenId, title, customerId, payment, draw2, mid, sh);
    if s.gold != [] {
      RepeatedBlockHasDup(prev.gold, s.gold);
    }
  }

  /** With the selection reset, a second click after a confirmed booking
      finds the gate closed and inserts nothing. */
  lemma RepeatPaymentRefused(table: seq<TicketRow>, s: Selection, sh: Showing, screenId: nat,
                             title: string, customerId: nat, payment: PaymentMethod,
                             draw1: nat, draw2: nat, inserted: bool)
    requires 1000 <= draw1 <= 9999 && 1000 <= draw2 <= 9999
    ensures var p1 := Pay(table, s, sh, screenId, title, customerId, payment, draw1, true);
            var p2 := Pay(p1.booking.tickets, p1.next, sh, screenId, title, customerId, payment, draw2, inserted);
            p1.booking.outcome.Confirmed? ==>
              p2.booking == Booking(NotOffered(SelectSeats), p1.booking.tickets)
  {
  }

  /** The showing the page will book together with the picks made for it. */
  datatype Session = Session(showing: Showing, picks: Selection)

  /** The date picker as the page runs it: the new date replaces the
      showing's date, while the chosen show time and the picks are kept. */
  function ChangeDateAsWritten(v: Session, date: int): (r: Session)
    ensures r.showing == Showing(v.showing.movieId, date, v.showing.time)
    ensures r.picks == v.picks
  {
    Session(v.showing.(date := date), v.picks)
  }

  /** Picks made against one date's bookings stay payable after the date
      changes; a Gold pick already booked on the new date then gets booked
      a second time. */
  lemma DateChangeAsWrittenKeepsStalePicks(v: Session, date: int, l: Layout, before: Booked, after: Booked)
    requires Valid(v.picks, l, before) && PaymentGate(v.picks).PaymentOffered?
    requires v.picks.gold != [] && v.picks.gold[0] in after.gold
    ensures var r := ChangeDateAsWritten(v, date);
            PaymentGate(r.picks).PaymentOffered? && !NoDup(after.gold + r.picks.gold)
  {
    var r := ChangeDateAsWritten(v, date);
    var k :| 0 <= k < |after.gold| && after.gold[k] == v.picks.gold[0];
    assert (after.gold + r.picks.gold)[k] == (after.gold + r.picks.gold)[|after.gold|];
  }

  /** The date picker as intended: a different date drops the picks, as
      choosing a movie or a show time does, so the gate closes until seats
      are picked against the new date's bookings. */
  function ChangeDate(v: Session, date: int): (r: Session)
    ensures r.showing == Showing(v.showing.movieId, date, v.showing.time)
    ensures date == v.showing.date ==> r.picks == v.picks
    ensures date != v.showing.date ==> r.picks == Fresh() && PaymentGate(r.picks) == SelectSeats
  {
    Session(v.showing.(date := date), if date == v.showing.date then v.picks else Fresh())
  }
}
