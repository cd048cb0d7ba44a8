/** The in-progress seat selection of one user session: the Gold picks, the
    Standard picks and the number of seats wanted, changed by seat clicks. */
module Selection {
  import opened Seqs
  import opened Inventory
  import opened Availability

  /** The seat-count input accepts 1 to 10. */
  type DesiredCount = n: nat | 1 <= n <= 10 witness 1

  /** Picks are Python lists: kept in click order. */
  datatype Selection = Selection(gold: seq<nat>, standard: seq<nat>, desired: DesiredCount)

  /** One click on a seat button. */
  datatype Click = Click(cls: SeatClass, seat: nat)

  function Picks(s: Selection, c: SeatClass): seq<nat> {
    match c
    case Gold => s.gold
    case Standard => s.standard
  }

  function BookedIn(b: Booked, c: SeatClass): seq<nat> {
    match c
    case Gold => b.gold
    case Standard => b.standard
  }

  function Total(s: Selection): nat {
    |s.gold| + |s.standard|
  }

  /** The state a new movie or showing starts from: no picks, one seat wanted. */
  function Fresh(): (s: Selection)
    ensures Total(s) == 0 && s.desired == 1
  {
    Selection([], [], 1)
  }

  /** Changing the seat count keeps every pick, even if there are now more
      picks than seats wanted. */
  function SetDesired(s: Selection, n: DesiredCount): (r: Selection)
    ensures r.desired == n
    ensures forall c :: Picks(r, c) == Picks(s, c)
  {
    s.(desired := n)
  }

  /** Python's `list.remove(x)`: drops the first occurrence of `x`. */
  function RemoveFirst(xs: seq<nat>, x: nat): (r: seq<nat>)
    requires x in xs
    ensures |r| == |xs| - 1
    ensures multiset(r) == multiset(xs) - multiset{x}
  {
    assert xs == [xs[0]] + xs[1..];
    if xs[0] == x then xs[1..]
    else [xs[0]] + RemoveFirst(xs[1..], x)
  }

  /** The position of the first occurrence of `x`. */
  function FirstIndex(xs: seq<nat>, x: nat): (k: nat)
    requires x in xs
    ensures k < |xs| && xs[k] == x && x !in xs[..k]
  {
    if xs[0] == x then 0
    else
      var j := FirstIndex(xs[1..], x);
      assert xs[..j + 1] == [xs[0]] + xs[1..][..j];
      j + 1
  }

  /** `list.remove` cuts out exactly the first occurrence: the elements
      before and after it keep their order. */
  lemma {:induction false} RemoveFirstKeepsOrder(xs: seq<nat>, x: nat)
    requires x in xs
    ensures RemoveFirst(xs, x) == xs[..FirstIndex(xs, x)] + xs[FirstIndex(xs, x) + 1..]
  {
    var k := FirstIndex(xs, x);
    if xs[0] == x {
      assert k == 0;
      assert RemoveFirst(xs, x) == xs[1..];
      assert xs[..k] + xs[k + 1..] == xs[1..];
    } else {
      var j := FirstIndex(xs[1..], x);
      assert k == j + 1;
      RemoveFirstKeepsOrder(xs[1..], x);
      assert RemoveFirst(xs, x) == [xs[0]] + (xs[1..][..j] + xs[1..][j + 1..]);
      SpliceAfterHead(xs, j);
    }
  }

  /** Cutting position `j` out of the tail and putting the head back cuts
      position `j + 1` out of the whole list. */
  lemma SpliceAfterHead(xs: seq<nat>, j: nat)
    requires j + 1 < |xs|
    ensures [xs[0]] + (xs[1..][..j] + xs[1..][j + 1..]) == xs[..j + 1] + xs[j + 2..]
  {
    assert xs[..j + 1] == [xs[0]] + xs[1..][..j];
    assert xs[j + 2..] == xs[1..][j + 1..];
  }

  /** Removing an element appended to a list that lacked it restores the list. */
  lemma {:induction false} RemoveFirstAppended(xs: seq<nat>, x: nat)
    requires x !in xs
    ensures RemoveFirst(xs + [x], x) == xs
  {
    if xs != [] {
      assert (xs + [x])[0] == xs[0];
      assert (xs + [x])[1..] == xs[1..] + [x];
      RemoveFirstAppended(xs[1..], x);
      assert xs == [xs[0]] + xs[1..];
    }
  }

  /** The button of `seat` is drawn and enabled: it is one of the class's
      drawn seat numbers and not already booked. */
  function Clickable(l: Layout, b: Booked, c: SeatClass, seat: nat): (ok: bool)
    ensures ok <==> seat in SeatNumbers(Count(l, c)) && seat !in BookedIn(b, c)
  {
    SeatNumbersExactly(l, c, seat);
    InRange(l, c, seat) && seat !in BookedIn(b, c)
  }

  function WithPicks(s: Selection, c: SeatClass, picks: seq<nat>): Selection {
    match c
    case Gold => s.(gold := picks)
    case Standard => s.(standard := picks)
  }

  /** A click on a seat. A picked seat is dropped; an unpicked one is added
      only while fewer seats are picked than wanted; a booked seat's button
      is disabled and a seat outside the grid has none, so both are no-ops. */
  function Toggle(s: Selection, l: Layout, b: Booked, c: SeatClass, seat: nat): (r: Selection)
    ensures r.desired == s.desired
    ensures forall o :: o != c ==> Picks(r, o) == Picks(s, o)
    ensures !Clickable(l, b, c, seat) ==> r == s
    ensures Clickable(l, b, c, seat) && seat in Picks(s, c) ==>
              |Picks(r, c)| == |Picks(s, c)| - 1
    ensures Clickable(l, b, c, seat) && seat !in Picks(s, c) && Total(s) < s.desired ==>
              Picks(r, c) == Picks(s, c) + [seat]
    ensures seat !in Picks(s, c) && Total(s) >= s.desired ==> r == s
  {
    if !Clickable(l, b, c, seat) then s
    else if seat in Picks(s, c) then WithPicks(s, c, RemoveFirst(Picks(s, c), seat))
    else if Total(s) < s.desired then WithPicks(s, c, Picks(s, c) + [seat])
    else s
  }

  /** Clicking a picked seat takes exactly one occurrence of it out of its
      class's picks. */
  lemma ToggleDropsPicked(s: Selection, l: Layout, b: Booked, c: SeatClass, seat: nat)
    requires Clickable(l, b, c, seat) && seat in Picks(s, c)
    ensures multiset(Picks(Toggle(s, l, b, c, seat), c)) == multiset(Picks(s, c)) - multiset{seat}
  {
    assert Picks(Toggle(s, l, b, c, seat), c) == RemoveFirst(Picks(s, c), seat);
  }

  /** The picks of one class are distinct, drawn from its grid, and not booked. */
  predicate ClassValid(s: Selection, l: Layout, b: Booked, c: SeatClass) {
    && NoDup(Picks(s, c))
    && forall seat :: seat in Picks(s, c) ==> Clickable(l, b, c, seat)
  }

  /** Every pick is a distinct, bookable seat of its class. */
  predicate Valid(s: Selection, l: Layout, b: Booked) {
    ClassValid(s, l, b, Gold) && ClassValid(s, l, b, Standard)
  }

  /** No more seats picked than wanted. */
  predicate WithinCount(s: Selection) {
    Total(s) <= s.desired
  }

  /** Dropping an element of a duplicate-free list keeps it duplicate-free
      and removes exactly that element. */
  lemma RemoveFirstNoDup(xs: seq<nat>, x: nat)
    requires x in xs && NoDup(xs)
    ensures NoDup(RemoveFirst(xs, x))
    ensures forall y :: y in RemoveFirst(xs, x) <==> y in xs && y != x
  {
    var r := RemoveFirst(xs, x);
    assert multiset(xs)[x] == 1 by {
      NoDupCountsOnce(xs, x);
    }
    forall y
      ensures y in r <==> y in xs && y != x
    {
      assert y in r <==> multiset(r)[y] > 0;
      assert y in xs <==> multiset(xs)[y] > 0;
    }
    forall y | y in r
      ensures multiset(r)[y] == 1
    {
      NoDupCountsOnce(xs, y);
    }
    CountsOnceNoDup(r);
  }

  lemma {:induction false} NoDupCountsOnce(xs: seq<nat>, x: nat)
    requires NoDup(xs) && x in xs
    ensures multiset(xs)[x] == 1
  {
    assert xs == [xs[0]] + xs[1..];
    if xs[0] == x {
      assert x !in xs[1..];
    } else {
      NoDupCountsOnce(xs[1..], x);
    }
  }

  lemma {:induction false} CountsOnceNoDup(xs: seq<nat>)
    requires forall y :: y in xs ==> multiset(xs)[y] == 1
    ensures NoDup(xs)
  {
    if xs != [] {
      assert xs == [xs[0]] + xs[1..];
      forall y | y in xs[1..]
        ensures multiset(xs[1..])[y] == 1
      {
        assert y in xs;
      }
      CountsOnceNoDup(xs[1..]);
      assert xs[0] !in xs[1..] by {
        assert multiset(xs)[xs[0]] == 1;
      }
    }
  }

  /** A click keeps every pick a distinct, bookable seat of its class. */
  lemma TogglePreservesValid(s: Selection, l: Layout, b: Booked, c: SeatClass, seat: nat)
    requires Valid(s, l, b)
    ensures Valid(Toggle(s, l, b, c, seat), l, b)
  {
    var r := Toggle(s, l, b, c, seat);
    var xs := Picks(s, c);
    if Clickable(l, b, c, seat) {
      if seat in xs {
        RemoveFirstNoDup(xs, seat);
      } else if Total(s) < s.desired {
        assert Picks(r, c) == xs + [seat];
        assert NoDup(Picks(r, c));
      }
    }
    assert ClassValid(r, l, b, c);
  }

  /** A click never takes the total past the seats wanted: it either drops a
      pick, adds one while below the count, or changes nothing. */
  lemma ToggleBound(s: Selection, l: Layout, b: Booked, c: SeatClass, seat: nat)
    ensures Total(Toggle(s, l, b, c, seat)) <= if Total(s) < s.desired then s.desired else Total(s)
    ensures WithinCount(s) ==> WithinCount(Toggle(s, l, b, c, seat))
  {
    var r := Toggle(s, l, b, c, seat);
    if Clickable(l, b, c, seat) && seat in Picks(s, c) {
      assert |Picks(r, c)| == |Picks(s, c)| - 1;
    }
  }

  /** Clicking an unpicked, bookable seat twice, when the first click may
      add it, gives back exactly the state before. */
  lemma ToggleTwiceUnpicked(s: Selection, l: Layout, b: Booked, c: SeatClass, seat: nat)
    requires Clickable(l, b, c, seat) && seat !in Picks(s, c)
    requires Total(s) < s.desired
    ensures Toggle(Toggle(s, l, b, c, seat), l, b, c, seat) == s
  {
    var xs := Picks(s, c);
    var mid := Toggle(s, l, b, c, seat);
    assert Picks(mid, c) == xs + [seat];
    RemoveFirstAppended(xs, seat);
  }

  /** Clicking a picked seat twice gives back the same picks, with that seat
      moved to the end of its list (Python's remove then append). */
  lemma ToggleTwicePicked(s: Selection, l: Layout, b: Booked, c: SeatClass, seat: nat)
    requires Clickable(l, b, c, seat) && seat in Picks(s, c)
    requires NoDup(Picks(s, c)) && WithinCount(s)
    ensures var r := Toggle(Toggle(s, l, b, c, seat), l, b, c, seat);
            && multiset(Picks(r, c)) == multiset(Picks(s, c))
            && Picks(r, c)[|Picks(r, c)| - 1] == seat
            && r.desired == s.desired
            && forall o :: o != c ==> Picks(r, o) == Picks(s, o)
  {
    var xs := Picks(s, c);
    var mid := Toggle(s, l, b, c, seat);
    RemoveFirstNoDup(xs, seat);
    assert Picks(mid, c) == RemoveFirst(xs, seat);
    assert seat !in Picks(mid, c);
    assert Total(mid) < mid.desired;
    var r := Toggle(mid, l, b, c, seat);
    assert Picks(r, c) == Picks(mid, c) + [seat];
  }

  /** A session's clicks, applied in order: the seat count never changes
      and a run that starts within the count stays within it. */
  function Run(s: Selection, l: Layout, b: Booked, clicks: seq<Click>): (r: Selection)
    ensures r.desired == s.desired
    ensures WithinCount(s) ==> WithinCount(r)
    decreases |clicks|
  {
    if clicks == [] then s
    else
      ToggleBound(s, l, b, clicks[0].cls, clicks[0].seat);
      Run(Toggle(s, l, b, clicks[0].cls, clicks[0].seat), l, b, clicks[1..])
  }

  /** From a fresh or valid state, any run of clicks keeps every pick a
      distinct bookable seat and never picks more seats than wanted. */
  lemma {:induction false} RunPreservesInvariant(s: Selection, l: Layout, b: Booked, clicks: seq<Click>)
    requires Valid(s, l, b) && WithinCount(s)
    ensures var r := Run(s, l, b, clicks);
            Valid(r, l, b) && WithinCount(r) && r.desired == s.desired
    decreases |clicks|
  {
    if clicks != [] {
      var next := Toggle(s, l, b, clicks[0].cls, clicks[0].seat);
      TogglePreservesValid(s, l, b, clicks[0].cls, clicks[0].seat);
      ToggleBound(s, l, b, clicks[0].cls, clicks[0].seat);
      RunPreservesInvariant(next, l, b, clicks[1..]);
    }
  }

  /** A fresh selection satisfies the invariant for any layout and bookings. */
  lemma FreshValid(l: Layout, b: Booked)
    ensures Valid(Fresh(), l, b) && WithinCount(Fresh())
  {
  }

  /** Picks never name a booked seat of their class. */
  lemma ValidAvoidsBooked(s: Selection, l: Layout, b: Booked, c: SeatClass)
    requires Valid(s, l, b)
    ensures Disjoint(Picks(s, c), BookedIn(b, c))
  {
    assert ClassValid(s, l, b, c);
  }
}
