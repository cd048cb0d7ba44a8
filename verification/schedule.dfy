/** Which movies, dates and show times the booking page offers, relative to
    the current date and time (passed in as `today` and `now`). */
module Schedule {
  import opened Wrappers
  import opened Seqs

  const SecondsPerDay: int := 86400

  /** A time of day in seconds since midnight. */
  type Clock = t: int | 0 <= t < SecondsPerDay

  /** A movie's schedule span: first and last show date, NULL without shows. */
  datatype Listing = Listing(movieId: nat, start: Option<int>, stop: Option<int>)

  /** A movie is listed while it has a last show date that is not past,
      that is, exactly when its date picker's upper bound is not before today. */
  function StillShowing(m: Listing, today: int): (ok: bool)
    ensures ok <==> m.stop.Some? && today <= DateWindow(m, today).1
  {
    m.stop.Some? && m.stop.value >= today
  }

  /** The movies offered on the front page, in query order. */
  function AvailableMovies(movies: seq<Listing>, today: int): (r: seq<Listing>)
    ensures forall m :: m in r <==> m in movies && StillShowing(m, today)
  {
    Filter(movies, (m: Listing) => StillShowing(m, today))
  }

  /** The dates the date picker allows: from the later of the first show
      date and today, up to the last show date (today when there is none). */
  function DateWindow(m: Listing, today: int): (w: (int, int))
    ensures w.0 >= today
    ensures m.start.Some? ==> w.0 >= m.start.value
    ensures w.0 == today || (m.start.Some? && w.0 == m.start.value)
    ensures m.stop.Some? ==> w.1 == m.stop.value
  {
    var lo := if m.start.Some? then (if m.start.value > today then m.start.value else today) else today;
    var hi := if m.stop.Some? then m.stop.value else today;
    (lo, hi)
  }

  /** For a listed movie with a consistent span the window is non-empty and
      never reaches into the past. */
  lemma ListedWindowNonEmpty(m: Listing, today: int)
    requires StillShowing(m, today)
    requires m.start.Some? ==> m.start.value <= m.stop.value
    ensures today <= DateWindow(m, today).0 <= DateWindow(m, today).1
  {
  }

  /** The show time as the page compares it: formatted as hours and
      minutes and parsed back, so the seconds are dropped. */
  function ShownClock(t: Clock): (c: Clock)
    ensures c <= t < c + 60
    ensures c % 60 == 0
  {
    t / 60 * 60
  }

  /** A show is offered on a later date, or today if its (minute-truncated)
      time is still ahead of the clock: exactly when the show's start, as an
      instant, is after now. */
  function Offered(date: int, show: Clock, today: int, now: Clock): (ok: bool)
    ensures ok <==> date * SecondsPerDay + ShownClock(show) > today * SecondsPerDay + now
  {
    if date > today then
      assert date * SecondsPerDay >= today * SecondsPerDay + SecondsPerDay;
      true
    else if date < today then
      assert date * SecondsPerDay + SecondsPerDay <= today * SecondsPerDay;
      false
    else ShownClock(show) > now
  }

  /** The show times listed for a date, in schedule order. */
  function OfferedShows(shows: seq<Clock>, date: int, today: int, now: Clock): (r: seq<Clock>)
    ensures forall t :: t in r <==> t in shows && Offered(date, t, today, now)
  {
    Filter(shows, (t: Clock) => Offered(date, t, today, now))
  }

  /** On a later date every show is listed; on an earlier one none is. */
  lemma {:induction false} OfferedShowsByDate(shows: seq<Clock>, date: int, today: int, now: Clock)
    ensures date > today ==> OfferedShows(shows, date, today, now) == shows
    ensures date < today ==> OfferedShows(shows, date, today, now) == []
    decreases |shows|
  {
    if shows != [] {
      OfferedShowsByDate(shows[1..], date, today, now);
      assert shows == [shows[0]] + shows[1..];
    }
  }
}
