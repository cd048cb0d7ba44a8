/** A screen's seat inventory: its capacity split into the Gold and Standard
    fare classes, each numbered from 1. */
module Inventory {

  datatype SeatClass = Gold | Standard

  /** Seat counts per fare class of one screen. */
  datatype Layout = Layout(gold: nat, standard: nat)

  /** Thirty per cent of a screen's capacity, rounded down, are Gold seats
      (`int(total_seats * 0.3)`). */
  function GoldShare(capacity: nat): (g: nat)
    ensures g <= capacity
    ensures 10 * g <= 3 * capacity < 10 * g + 10
  {
    capacity * 3 / 10
  }

  /** The screen's layout: Gold share first, every other seat Standard. */
  function SplitCapacity(capacity: nat): (l: Layout)
    ensures l.gold + l.standard == capacity
    ensures 10 * l.gold <= 3 * capacity < 10 * l.gold + 10
  {
    var g := GoldShare(capacity);
    Layout(g, capacity - g)
  }

  function Count(l: Layout, c: SeatClass): nat {
    match c
    case Gold => l.gold
    case Standard => l.standard
  }

  /** `list(range(1, count + 1))`: the seat buttons drawn for one class. */
  function SeatNumbers(count: nat): (seats: seq<nat>)
    ensures |seats| == count
    ensures forall i :: 0 <= i < count ==> seats[i] == i + 1
  {
    if count == 0 then [] else SeatNumbers(count - 1) + [count]
  }

  /** A seat has a button in its class's grid. */
  predicate InRange(l: Layout, c: SeatClass, seat: nat) {
    1 <= seat <= Count(l, c)
  }

  /** The grid of a class holds exactly the seats 1..count, each once. */
  lemma SeatNumbersExactly(l: Layout, c: SeatClass, seat: nat)
    ensures seat in SeatNumbers(Count(l, c)) <==> InRange(l, c, seat)
  {
    var seats := SeatNumbers(Count(l, c));
    if InRange(l, c, seat) {
      assert seats[seat - 1] == seat;
    }
  }

  /** A 100-seat screen has 30 Gold and 70 Standard seats. */
  lemma HundredSeatScreen()
    ensures SplitCapacity(100) == Layout(30, 70)
  {
  }
}
