# MTBS seat selection and booking, in Dafny

This project models the seat-selection and booking flow of the MTBS movie-ticket
booking application (`pages/user.py`). It covers the following pieces:

- the **seat inventory** of a screen. Its capacity is split into Gold seats (30 %,
  rounded down) and Standard seats, and each class is numbered from 1.
- the **availability resolver**. It reads the comma-joined seat columns of a
  showing's ticket rows back into lists of booked seat numbers.
- the **selection state machine**. Its state is the Gold picks, the Standard picks
  and the number of seats wanted, and each seat click toggles one seat.
- **pricing**: the base fare, an 18 % GST on the base fare, a convenience fee
  per ticket, and the total.
- the **booking step**. Payment is offered only for a complete selection. The
  ticket identifier is `TKT-<movie>-<n>`, the picks are stored as comma-joined
  columns (NULL when empty), and the ticket row is inserted.
- the **date and show-time filters** that decide which movies, dates and show
  times the page offers.

The Streamlit page keeps its state in a session map and re-runs on every click.
Here that state is an explicit `Selection` value, and every click is a pure
function from state to state. The tickets table is a sequence of `TicketRow`
values, and a booking appends one row to it. The random ticket number, the
outcome of the database insert, today's date and the current time are all
parameters.

Modules, one per file:

| file | module | what it holds |
|---|---|---|
| `wrappers.dfy` | `Wrappers` | `Option` (None/NULL) and `Result` (value or raised error) |
| `seqs.dfy` | `Seqs` | `NoDup`, `Disjoint`, `Filter` and their lemmas |
| `seat_text.dfy` | `SeatText` | `str(n)`, `int(x)`, `split(',')`, `','.join(...)` and their round trips |
| `inventory.dfy` | `Inventory` | fare classes, the capacity split, the seat grids |
| `pricing.dfy` | `Pricing` | the price breakdown |
| `tickets.dfy` | `Tickets` | showings, payment methods, the ticket row |
| `availability.dfy` | `Availability` | the booked-seat resolver |
| `selection.dfy` | `Selection` | the selection state machine and its invariant |
| `booking.dfy` | `Booking` | the payment gate, ticket identifiers, stored columns, the insert |
| `schedule.dfy` | `Schedule` | movie, date and show-time availability |

The model follows the code:

- A click on a seat outside its grid is a no-op, because no button is drawn for
  it. A click on a booked seat is also a no-op, because its button is disabled.
- Booked seats are Python lists, not sets. Two rows holding the same seat would
  list it twice. `BookingRecordsPicks` and `NoDoubleBooking` together show that
  one booking made against the showing's current bookings adds no seat twice.
  The page itself can still book a seat twice within one session, in two ways
  listed under "## Findings": a second click on the payment button after a
  confirmed booking, and a change of date after seats were picked.
- The code does not check availability again before the insert. An insert that
  affects no row is reported as `PaymentFailed` and leaves the table and the
  selection unchanged.
- Changing the number of seats wanted keeps all existing picks. The gate then
  blocks payment until the picks and the count agree again.

## Model

| member | source | states |
|---|---|---|
| Inventory.GoldShare | pages/user.py:217 | the Gold count is the floor of 30 % of the capacity (10·g ≤ 3·capacity < 10·g + 10) and never exceeds it |
| Inventory.SplitCapacity | pages/user.py:216-218 | Gold plus Standard equals the capacity, and the Gold count is floor(0.3·capacity) |
| Inventory.SeatNumbers | pages/user.py:263 | the grid of a class lists count seats, the i-th being seat i + 1 |
| Inventory.SeatNumbersExactly | pages/user.py:285 | a seat is in a class's grid iff 1 ≤ seat ≤ that class's count |
| Inventory.HundredSeatScreen | pages/user.py:217-218 | a 100-seat screen has 30 Gold and 70 Standard seats |
| SeatText.Numeral | pages/user.py:375 | `str(n)` is a non-empty digit string with no leading zero unless n is 0 |
| SeatText.ParseNat | pages/user.py:242 | `int(x)` succeeds exactly on non-empty ASCII digit strings |
| SeatText.ParseNumeral | pages/user.py:242 | `int(str(n)) == n` for every seat number |
| SeatText.NumeralOfFourDigits | pages/user.py:372 | every draw in 1000..9999 prints as exactly four digits |
| SeatText.Split | pages/user.py:242 | `split` yields at least one piece and no piece contains the separator |
| SeatText.JoinSplit | pages/user.py:375 | joining the pieces of a split with the separator gives back the string |
| SeatText.SplitJoin | pages/user.py:242 | splitting a join of separator-free pieces gives back the pieces |
| SeatText.SplitPrefix | pages/user.py:242 | a separator-free prefix is glued onto the first piece of the rest's split |
| SeatText.ParseAll | pages/user.py:242 | `[int(x) for x in pieces]` succeeds iff every piece parses, and then yields one number per piece, in order |
| SeatText.Join | pages/user.py:375 | every character of a join is a separator or comes from a piece, and separator-free pieces get exactly one separator per neighbouring pair |
| SeatText.SeatListText | pages/user.py:375 | the comma-joined text of a pick list is empty iff the list is empty |
| SeatText.ParseSeatList | pages/user.py:242 | a column parses iff every comma piece is a numeral, giving one seat per piece, the i-th being the i-th piece's value |
| SeatText.SeatListRoundTrip | pages/user.py:375-376 | parsing the stored text of a non-empty pick list gives back the list |
| Pricing.Quote | pages/user.py:312-327 | GST is exactly 18 % of the base fare in whole rupees; the total is 187 per Gold seat plus 128 per Standard seat |
| Pricing.GstExact | pages/user.py:324 | 18 % of every base fare is the whole number 9·(3·gold + 2·standard), so GST needs no rounding |
| Pricing.QuoteLinear | pages/user.py:315-327 | every amount is additive in the two seat counts |
| Pricing.QuoteDoubles | pages/user.py:316-324 | doubling both counts doubles base, GST, fee and total |
| Pricing.QuoteMonotone | pages/user.py:327 | more seats of either class never cost less |
| Pricing.TwoGoldOneStandard | pages/user.py:312-327 | 2 Gold + 1 Standard costs 400 base, 72 GST, 30 fee, 502 in all |
| Availability.RowsFor | pages/user.py:226-236 | a row is read iff it is in the table and belongs to the showing (movie, date and time) |
| Availability.RowsForAppend | pages/user.py:226-230 | a row appended to the table joins the end of its own showing's rows and no other showing's rows |
| Availability.ParseColumn | pages/user.py:241-244 | a NULL or empty column contributes no seats; any other column parses iff its comma pieces all parse, giving one seat per piece |
| Availability.ResolveRows | pages/user.py:239-244 | the scan succeeds iff every row's two seat columns parse; no rows means nothing booked |
| Availability.ResolvePrefixFailure | pages/user.py:240-244 | once a row's column fails to parse, the whole scan fails with that error |
| Availability.ResolveBooked | pages/user.py:239-244 | the resolver loop computes, row by row, the concatenation of every row's parsed Gold and Standard columns, or the first parse error |
| Availability.NoRowsNothingBooked | pages/user.py:221-222 | a showing with no ticket rows has no booked seats |
| Availability.ResolveAppend | pages/user.py:240-244 | a readable row appended to the rows appends its seats to the booked lists |
| Availability.BlankRowsBookNothing | pages/user.py:241-243 | rows whose columns are all NULL or empty book nothing |
| Selection.Fresh | pages/user.py:115-120 | choosing a movie or a show time starts with no picks and one seat wanted (choosing a movie leaves the previous show time in place; see "## Left out") |
| Selection.SetDesired | pages/user.py:247-254 | changing the count keeps every pick of both classes |
| Selection.RemoveFirst | pages/user.py:279 | `list.remove` takes exactly one occurrence of the seat out of the picks |
| Selection.FirstIndex | pages/user.py:279 | the position `list.remove` acts on holds the seat, and no earlier position does |
| Selection.RemoveFirstKeepsOrder | pages/user.py:279 | `list.remove` cuts out the first occurrence of the seat and keeps every other pick in order |
| Selection.RemoveFirstAppended | pages/user.py:278-281 | removing a seat just appended to a list that lacked it restores the list |
| Selection.RemoveFirstNoDup | pages/user.py:301 | removing a seat from distinct picks leaves distinct picks holding every other seat |
| Selection.ToggleDropsPicked | pages/user.py:278-279 | clicking a picked seat takes exactly one occurrence of it out of its class's picks |
| Selection.Toggle | pages/user.py:266-282 | a click leaves the count and the other class alone; it is a no-op on a booked or out-of-grid seat; it drops a picked seat; it appends an unpicked seat iff fewer seats are picked than wanted |
| Selection.Clickable | pages/user.py:263-274 | a seat button can be clicked iff the seat is among its class's drawn numbers and not booked |
| Selection.TogglePreservesValid | pages/user.py:288-304 | after any click the picks are still distinct, in their grid and not booked |
| Selection.ToggleBound | pages/user.py:280-281 | a click never takes the total above the count wanted, nor above the previous total |
| Selection.ToggleTwiceUnpicked | pages/user.py:278-281 | clicking an unpicked seat twice, when the first click adds it, restores the state exactly |
| Selection.ToggleTwicePicked | pages/user.py:300-303 | clicking a picked seat twice restores the picks as a multiset, with that seat moved to the end |
| Selection.Run | pages/user.py:263-304 | a run of clicks never changes the count wanted and, started within the count, stays within it |
| Selection.RunPreservesInvariant | pages/user.py:263-304 | every sequence of clicks from a valid state keeps the picks valid and within the count |
| Selection.FreshValid | pages/user.py:118-120 | the fresh state satisfies the invariant |
| Selection.ValidAvoidsBooked | pages/user.py:269-274 | valid picks share no seat with the booked seats of their class |
| Booking.PaymentGate | pages/user.py:337-339 | payment is offered iff the total is non-zero and equals the count; an empty selection gets the info message, any other mismatch the warning |
| Booking.GateOpensWhenFull | pages/user.py:431-432 | within the invariant, payment is offered iff the selection is full |
| Booking.TicketId | pages/user.py:372 | the identifier is `TKT-`, then the movie numeral, then a dash and four digits, five characters longer than prefix and numeral together |
| Booking.TicketIdRoundTrip | pages/user.py:372 | an identifier reads back as its movie and draw |
| Booking.TicketIdInjective | pages/user.py:372 | two identifiers coincide only for the same movie and the same draw |
| Booking.StoredColumn | pages/user.py:397-398 | a pick list is stored as NULL iff it is empty |
| Booking.StoredColumnRoundTrip | pages/user.py:375-376 | the resolver reads every stored column back as the original pick list, in order |
| Booking.TicketFor | pages/user.py:385-403 | the row carries a `TKT-` identifier, the showing, screen, movie title, customer and payment choice, the base fare, GST, fee and total of the quote for the seat counts (a total of 187 per Gold plus 128 per Standard seat), and a NULL seat column exactly for a class with no picks |
| Booking.TicketReadsBack | pages/user.py:372-403 | the inserted row belongs to the showing and stores the quote for its seat counts, 187 per Gold plus 128 per Standard seat in all; its seat columns read back as the picks and its identifier as the movie and draw |
| Booking.Book | pages/user.py:365-430 | a row is inserted iff the gate is open and the insert succeeds; a closed gate reports the gate, an open gate with a failed insert reports `PaymentFailed`, and either way the table is unchanged |
| Booking.BookingRecordsPicks | pages/user.py:385-403 | after a booking the resolver reports the showing's earlier bookings followed by the new picks, in table order; other showings are untouched |
| Booking.NoDoubleBooking | pages/user.py:269-296 | appending picks that are valid against the booked lists to those lists leaves no seat of either class listed twice |
| Booking.PayAsWritten | pages/user.py:365-430 | a payment click books as `Book` does and keeps the picks, so after a confirmed booking the gate is still open |
| Booking.Pay | pages/user.py:365-430 | a payment click books as `Book` does; a confirmed booking resets the selection, which closes the gate, and any other outcome keeps the picks |
| Booking.RepeatPaymentAsWrittenBooksTwice | pages/user.py:365-430 | as written, two payment clicks book the picks twice: the resolver reports earlier bookings, the picks, and the picks again, which lists every picked Gold seat twice |
| Booking.RepeatPaymentRefused | pages/user.py:424-428 | with the reset, a second payment click after a confirmed booking is refused at the gate and inserts nothing |
| Booking.ChangeDateAsWritten | pages/user.py:136-144 | the date picker changes only the showing's date and keeps the show time and the picks |
| Booking.DateChangeAsWrittenKeepsStalePicks | pages/user.py:136-144 | as written, picks that were valid for the old date stay payable, and a Gold pick already booked on the new date is then listed twice |
| Booking.ChangeDate | pages/user.py:136-144 | a new date keeps the show time; a different date drops the picks and closes the gate, the same date keeps them |
| Schedule.StillShowing | pages/user.py:100 | a movie is listed iff it has a last show date and the date picker's last date is not before today |
| Schedule.AvailableMovies | pages/user.py:100 | a movie is listed iff it has a last show date no earlier than today |
| Schedule.DateWindow | pages/user.py:133-134 | the first pickable date is today or the first show date, whichever is later; the last is the last show date |
| Schedule.ListedWindowNonEmpty | pages/user.py:133-141 | for a listed movie with a consistent span, today ≤ first date ≤ last date |
| Schedule.ShownClock | pages/user.py:166-167 | the compared show time is the scheduled time with the seconds dropped |
| Schedule.Offered | pages/user.py:171 | a show is offered iff its start instant (date and minute-truncated time) is after now |
| Schedule.OfferedShows | pages/user.py:165-173 | a show time is listed iff it is scheduled and offered |
| Schedule.OfferedShowsByDate | pages/user.py:169-171 | on a later date every show is listed; on an earlier date none is |

## Left out

- Rendering, layout, CSS, buttons and `st.rerun` are not modelled. The session map becomes the `Selection` value, and a button press becomes a call of `Toggle`, `SetDesired`, `ChangeDate` or `Pay`.
- The SQL layer and `db_utils.py` are left out. A failed query returns `None`, and the page treats that like no rows. The outcome of the insert is the `inserted` parameter of `Book`.
- `pages/admin.py`, `Login.py` and `pages/register.py` are left out. They hold only inserts, updates, deletes and form checks, with no seat logic.
- The payment form's card and UPI fields are left out. They are collected but never used. So is the five-second `time.sleep`.
- `random.randint(1000, 9999)` is not modelled as randomness. It becomes the parameter `draw`, required to lie in 1000..9999.
- Booking.TicketIdInjective: the source does not make ticket identifiers unique. Two bookings of one movie that draw the same number get the same identifier. The model states only when identifiers coincide.
- The model assumes a show time was chosen for the current movie and date: `Book` takes the showing as a parameter and `Session` always holds one. The page does not guarantee this. Choosing a movie (pages/user.py:115-120) and Go Back (pages/user.py:463-469) set or drop `selected_show` but never clear `actual_show_time`, and the seat grid appears whenever the key `selected_show` exists (pages/user.py:197), even when it holds None. The booked-seat lookup (pages/user.py:224-236) and the insert (pages/user.py:389) then use the new movie and date with the previous show's time; with no earlier show in the session, the lookup is skipped, every seat looks free, and the insert fails on the missing key.
- Concurrent users booking the same seat are not modelled. The source reads the bookings and later inserts without a lock or re-check, so a seat can also be booked twice across sessions. `NoDoubleBooking` holds only when no other booking for the showing lands in between, and within one session only with the resets of `Pay` and `ChangeDate` (see "## Findings").
- Schedule.AvailableMovies: the comment at pages/user.py:99 speaks of `start_date <= today <= stop_date`, but the code at pages/user.py:100 tests only the stop date. The model follows the code, so a movie whose first show date is still ahead is listed.
- Availability.RowsFor: the model returns a showing's rows in table (insertion) order. The SQL query has no `ORDER BY`, so the database promises no order. Only which rows are read matters for availability; the order of the booked lists is never used except for membership.
- Inventory.GoldShare: `int(total_seats * 0.3)` is a floating-point product. The model uses the exact floor of 3·capacity/10 and does not model floating-point rounding.
- Pricing.Quote: the source computes GST and the total as floats and shows them to two decimals. The model uses the exact values in whole rupees, which the integer base fares allow. Float representation and display rounding are left out.
- SeatText.ParseNat: Python's `int` also accepts surrounding whitespace, a sign, underscores and non-ASCII digits. The model accepts only non-empty ASCII digit strings, which is all the booking step ever stores. Any other text is a parse failure. The source does not catch that failure; the model returns it as `MalformedColumn`.
- The "My Tickets" list and the Go Back and Logout buttons are left out. They only display or clear session data.
- Screen lookup is left out. The first screen the movie plays on is fetched (`LIMIT 1`), and a missing screen only shows an error. The model takes the `Layout` as given.
- Schedule.ShownClock: MySQL `TIME` values of 24 hours or more are not modelled. Times of day lie in 0..86399 seconds, and `now` is whole seconds. The page compares a whole-second show time against `now`, so truncating `now` to seconds does not change the outcome.

## Findings

| source | as written | input that shows it | evidently intended | confidence | as-written member | corrected member |
|---|---|---|---|---|---|---|
| pages/user.py:424-428 | the "Book Another Ticket" button that clears the picks is drawn inside the branch of the payment click, so the run its click starts never reaches it; the picks survive a confirmed booking and the gate (337-339) stays open | pick Gold seat 1 for a one-seat booking, click "Make Payment", then click it again: the showing's Gold list becomes `[1, 1]` | a confirmed booking resets the selection, so a second click finds no picks and inserts nothing | high; not executed | Booking.PayAsWritten, Booking.RepeatPaymentAsWrittenBooksTwice | Booking.Pay, Booking.RepeatPaymentRefused |
| pages/user.py:136-144 | changing the date keeps `selected_show`, `actual_show_time` and the picks, so seats picked against one date's bookings are booked for another date | pick Gold seat 1 on a date where it is free, switch to a date where it is booked, pay: that date's Gold list holds seat 1 twice | a different date drops the picks, as choosing a show time (182-187) does; choosing a movie (115-120) clears the picks too, though not the previous show time | medium; not executed | Booking.ChangeDateAsWritten, Booking.DateChangeAsWrittenKeepsStalePicks | Booking.ChangeDate |
