/** The text form of seat lists: Python's `str(n)` and `int(x)` on seat
    numbers, `str.split(',')` and `','.join(...)`.  Stored ticket rows keep
    each fare class's seats as one comma-joined column, and the availability
    resolver reads them back through `int(x) for x in column.split(',')`. */
module SeatText {
  import opened Wrappers

  /** The separator of stored seat lists. */
  const Comma: char := ','

  predicate IsDigit(c: char) {
    '0' <= c <= '9'
  }

  predicate AllDigits(s: string) {
    forall i :: 0 <= i < |s| ==> IsDigit(s[i])
  }

  function DigitValue(c: char): (d: nat)
    requires IsDigit(c)
    ensures d < 10
  {
    c as int - '0' as int
  }

  function DigitChar(d: nat): (c: char)
    requires d < 10
    ensures IsDigit(c) && DigitValue(c) == d
  {
    ('0' as int + d) as char
  }

  /** Python's `str(n)` for a non-negative integer: decimal digits with no
      leading zero. */
  function Numeral(n: nat): (s: string)
    ensures |s| >= 1 && AllDigits(s)
    ensures s[0] == '0' ==> n == 0
    decreases n
  {
    if n < 10 then [DigitChar(n)] else Numeral(n / 10) + [DigitChar(n % 10)]
  }

  /** The number a string of decimal digits denotes. */
  function DigitsValue(s: string): nat
    requires AllDigits(s)
    decreases |s|
  {
    if s == [] then 0 else DigitsValue(s[..|s| - 1]) * 10 + DigitValue(s[|s| - 1])
  }

  /** Python's `int(x)` on seat text: a non-empty run of ASCII digits is a
      number; anything else raises, modelled as `None`. */
  function ParseNat(s: string): (r: Option<nat>)
    ensures r.Some? <==> |s| >= 1 && AllDigits(s)
  {
    if |s| >= 1 && AllDigits(s) then Some(DigitsValue(s)) else None
  }

  /** `int(str(n)) == n`. */
  lemma {:induction false} ParseNumeral(n: nat)
    ensures ParseNat(Numeral(n)) == Some(n)
    decreases n
  {
    var s := Numeral(n);
    if n < 10 {
      assert s[..|s| - 1] == [];
    } else {
      var prefix := Numeral(n / 10);
      assert s == prefix + [DigitChar(n % 10)];
      assert s[..|s| - 1] == prefix;
      ParseNumeral(n / 10);
      assert DigitsValue(s) == DigitsValue(prefix) * 10 + n % 10;
    }
  }

  /** The numerals of 1000..9999, the range of a ticket draw, are exactly
      four characters long. */
  lemma NumeralOfFourDigits(n: nat)
    requires 1000 <= n <= 9999
    ensures |Numeral(n)| == 4
  {
    assert Numeral(n) == Numeral(n / 10) + [DigitChar(n % 10)];
    assert Numeral(n / 10) == Numeral(n / 100) + [DigitChar(n / 10 % 10)];
    assert Numeral(n / 100) == Numeral(n / 1000) + [DigitChar(n / 100 % 10)];
  }

  /** Python's `s.split(sep)`: the maximal separator-free pieces of `s`, in
      order; the empty string splits into one empty piece. */
  function Split(s: string, sep: char): (parts: seq<string>)
    ensures |parts| >= 1
    ensures forall i :: 0 <= i < |parts| ==> sep !in parts[i]
    decreases |s|
  {
    if s == [] then [[]]
    else
      var rest := Split(s[1..], sep);
      if s[0] == sep then [[]] + rest
      else [[s[0]] + rest[0]] + rest[1..]
  }

  /** Python's `sep.join(parts)`: every character comes from a piece or is
      a separator, and separator-free pieces get exactly one separator
      between each neighbouring pair. */
  function Join(parts: seq<string>, sep: char): (s: string)
    ensures forall c :: c in s ==> c == sep || exists i :: 0 <= i < |parts| && c in parts[i]
    ensures |parts| >= 1 && (forall i :: 0 <= i < |parts| ==> sep !in parts[i]) ==>
              multiset(s)[sep] == |parts| - 1
    decreases |parts|
  {
    if |parts| == 0 then []
    else if |parts| == 1 then parts[0]
    else parts[0] + [sep] + Join(parts[1..], sep)
  }

  /** Joining the pieces of a split gives the original string back. */
  lemma {:induction false} JoinSplit(s: string, sep: char)
    ensures Join(Split(s, sep), sep) == s
    decreases |s|
  {
    if s != [] {
      var rest := Split(s[1..], sep);
      JoinSplit(s[1..], sep);
      if s[0] == sep {
        assert Split(s, sep) == [[]] + rest;
        JoinEmptyHead(rest, sep);
      } else {
        assert Split(s, sep) == [[s[0]] + rest[0]] + rest[1..];
        JoinGlueHead(s[0], rest, sep);
      }
      assert s == [s[0]] + s[1..];
    }
  }

  /** An empty first piece contributes only its separator. */
  lemma JoinEmptyHead(rest: seq<string>, sep: char)
    requires |rest| >= 1
    ensures Join([[]] + rest, sep) == [sep] + Join(rest, sep)
  {
    var parts := [[]] + rest;
    assert parts[0] == [] && parts[1..] == rest;
    assert Join(parts, sep) == [] + [sep] + Join(rest, sep);
  }

  /** A character glued onto the first piece comes first in the join. */
  lemma JoinGlueHead(c: char, rest: seq<string>, sep: char)
    requires |rest| >= 1
    ensures Join([[c] + rest[0]] + rest[1..], sep) == [c] + Join(rest, sep)
  {
    var parts := [[c] + rest[0]] + rest[1..];
    assert parts[0] == [c] + rest[0] && parts[1..] == rest[1..];
    if |rest| > 1 {
      var tail := Join(rest[1..], sep);
      assert Join(parts, sep) == ([c] + rest[0]) + [sep] + tail;
      assert Join(rest, sep) == rest[0] + [sep] + tail;
      assert ([c] + rest[0]) + [sep] + tail == [c] + (rest[0] + [sep] + tail);
    }
  }

  /** Two pieces join around a single separator. */
  lemma JoinPair(a: string, b: string, sep: char)
    ensures Join([a, b], sep) == a + [sep] + b
  {
    assert [a, b][1..] == [b];
  }

  /** Splitting a string whose first piece `a` is separator-free puts `a`
      in front of the first piece of the rest. */
  lemma {:induction false} SplitPrefix(a: string, t: string, sep: char)
    requires sep !in a
    ensures Split(a + t, sep) == [a + Split(t, sep)[0]] + Split(t, sep)[1..]
    decreases |a|
  {
    if a != [] {
      assert (a + t)[0] == a[0];
      assert (a + t)[1..] == a[1..] + t;
      SplitPrefix(a[1..], t, sep);
      assert [a[0]] + (a[1..] + Split(t, sep)[0]) == a + Split(t, sep)[0];
    } else {
      var parts := Split(t, sep);
      assert a + t == t;
      assert a + parts[0] == parts[0];
      assert parts == [parts[0]] + parts[1..];
    }
  }

  /** Splitting a join of separator-free pieces gives the pieces back. */
  lemma {:induction false} SplitJoin(parts: seq<string>, sep: char)
    requires |parts| >= 1
    requires forall i :: 0 <= i < |parts| ==> sep !in parts[i]
    ensures Split(Join(parts, sep), sep) == parts
    decreases |parts|
  {
    if |parts| == 1 {
      SplitPrefix(parts[0], [], sep);
      assert Split([], sep) == [[]];
      assert parts[0] + [] == parts[0];
    } else {
      var tail := Join(parts[1..], sep);
      SplitJoin(parts[1..], sep);
      SplitPrefix(parts[0], [sep] + tail, sep);
      assert parts[0] + [sep] + tail == parts[0] + ([sep] + tail);
      assert ([sep] + tail)[0] == sep;
      assert ([sep] + tail)[1..] == tail;
      assert Split([sep] + tail, sep) == [[]] + parts[1..];
      assert parts[0] + [] == parts[0];
      assert parts == [parts[0]] + parts[1..];
    }
  }

  /** `[str(seat) for seat in seats]`. */
  function Numerals(seats: seq<nat>): seq<string>
  {
    seq(|seats|, i requires 0 <= i < |seats| => Numeral(seats[i]))
  }

  /** `[int(x) for x in pieces]`: fails as soon as one piece is not a number. */
  function ParseAll(pieces: seq<string>): (r: Option<seq<nat>>)
    ensures r.Some? <==> forall i :: 0 <= i < |pieces| ==> ParseNat(pieces[i]).Some?
    ensures r.Some? ==> |r.value| == |pieces|
    ensures r.Some? ==> forall i :: 0 <= i < |pieces| ==> ParseNat(pieces[i]) == Some(r.value[i])
    decreases |pieces|
  {
    if pieces == [] then Some([])
    else
      match ParseNat(pieces[0])
      case None => None
      case Some(x) =>
        match ParseAll(pieces[1..])
        case None => None
        case Some(xs) => Some([x] + xs)
  }

  /** `','.join(str(seat) for seat in seats)`: the stored form of a pick
      list, empty exactly when the list is. */
  function SeatListText(seats: seq<nat>): (text: string)
    ensures text == [] <==> seats == []
  {
    var pieces := Numerals(seats);
    assert |seats| >= 2 ==> |Join(pieces, Comma)| >= 1;
    Join(pieces, Comma)
  }

  /** `[int(x) for x in text.split(',')]`: the resolver's reading of a stored
      column, one number per comma-separated piece, in order. */
  function ParseSeatList(text: string): (r: Option<seq<nat>>)
    ensures r.Some? ==> forall i :: 0 <= i < |Split(text, Comma)| ==> ParseNat(Split(text, Comma)[i]).Some?
    ensures (forall i :: 0 <= i < |Split(text, Comma)| ==> ParseNat(Split(text, Comma)[i]).Some?) ==> r.Some?
    ensures r.Some? ==> |r.value| == |Split(text, Comma)|
    ensures r.Some? ==> forall i :: 0 <= i < |Split(text, Comma)| ==> ParseNat(Split(text, Comma)[i]) == Some(r.value[i])
  {
    ParseAll(Split(text, Comma))
  }

  /** A non-empty pick list survives being stored and read back. */
  lemma SeatListRoundTrip(seats: seq<nat>)
    requires seats != []
    ensures ParseSeatList(SeatListText(seats)) == Some(seats)
  {
    var pieces := Numerals(seats);
    forall i | 0 <= i < |pieces|
      ensures Comma !in pieces[i]
    {
      assert AllDigits(pieces[i]);
    }
    SplitJoin(pieces, Comma);
    forall i | 0 <= i < |pieces|
      ensures ParseNat(pieces[i]) == Some(seats[i])
    {
      ParseNumeral(seats[i]);
    }
    var r := ParseAll(pieces);
    assert r.Some?;
    assert r.value == seats;
  }
}
