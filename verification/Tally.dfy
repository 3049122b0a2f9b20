/** Aggregates over the reservation table: every count and every sum of minutes the broker takes is
    a total of one weight per row, so that all of them share the same few lemmas. */
module Tally {
  import opened Clock
  import opened Domain

  function Total(rs: seq<Reservation>, weight: Reservation -> int): int {
    if |rs| == 0 then 0 else Total(rs[..|rs| - 1], weight) + weight(rs[|rs| - 1])
  }

  /** SELECT ... WHERE: the rows that satisfy `p`, in table order. */
  function Select(rs: seq<Reservation>, p: Reservation -> bool): (rows: seq<Reservation>)
    ensures forall r :: r in rows <==> r in rs && p(r)
  {
    if |rs| == 0 then []
    else
      var rest := Select(rs[..|rs| - 1], p);
      assert rs == rs[..|rs| - 1] + [rs[|rs| - 1]];
      if p(rs[|rs| - 1]) then rest + [rs[|rs| - 1]] else rest
  }

  /** Counts the active reservations of a user that are not over at `now`. */
  function Open(user: int, now: int): Reservation -> int {
    (r: Reservation) => if r.user == user && Active(r) && r.end > now then 1 else 0
  }

  /** Counts the active reservations of a user that cover the instant `t`. */
  function Covering(user: int, t: int): Reservation -> int {
    (r: Reservation) => if r.user == user && Active(r) && Covers(r, t) then 1 else 0
  }

  /** Whole minutes of `r` inside the day that begins at `day`. */
  function Clipped(r: Reservation, day: int): (m: int)
    ensures 0 <= m && (r.start <= r.end ==> m <= WholeMinutes(r.end - r.start))
    ensures !Meets(r.start, r.end, day, day + DAY) ==> m == 0
    ensures Meets(r.start, r.end, day, day + DAY) ==>
      m * MINUTE <= Min(r.end, day + DAY) - Max(r.start, day) < (m + 1) * MINUTE
  {
    var lower := Max(r.start, day);
    var upper := Min(r.end, day + DAY);
    if upper > lower then WholeMinutes(upper - lower) else 0
  }

  /** The rows the daily quota reads. */
  function OfUserInDay(user: int, day: int): Reservation -> bool {
    (r: Reservation) => r.user == user && Active(r) && Meets(r.start, r.end, day, day + DAY)
  }

  /** Minutes a user holds inside a day, whichever request booked them. */
  function Held(user: int, day: int): Reservation -> int {
    (r: Reservation) => if r.user == user && Active(r) then Clipped(r, day) else 0
  }

  /** Minutes inside a day of the reservations whose own request counted them to that day. */
  function Own(user: int, offset: int, day: int): Reservation -> int {
    (r: Reservation) =>
      if r.user == user && Active(r) && r.offset == offset && DayStart(r.start, offset) == day
      then Clipped(r, day) else 0
  }

  /** Equal weights on the rows, equal totals. */
  lemma TotalSame(rs: seq<Reservation>, a: Reservation -> int, b: Reservation -> int)
    requires forall r :: r in rs ==> a(r) == b(r)
    ensures Total(rs, a) == Total(rs, b)
  {
    TotalMono(rs, a, b);
    TotalMono(rs, b, a);
  }

  lemma {:induction false} TotalMono(rs: seq<Reservation>, a: Reservation -> int, b: Reservation -> int)
    requires forall r :: r in rs ==> a(r) <= b(r)
    ensures Total(rs, a) <= Total(rs, b)
  {
    if |rs| > 0 {
      TotalMono(rs[..|rs| - 1], a, b);
    }
  }

  lemma TotalAppend(rs: seq<Reservation>, r: Reservation, weight: Reservation -> int)
    ensures Total(rs + [r], weight) == Total(rs, weight) + weight(r)
  {
    assert (rs + [r])[..|rs|] == rs;
  }

  lemma {:induction false} TotalUpdate(rs: seq<Reservation>, i: nat, r: Reservation, weight: Reservation -> int)
    requires i < |rs|
    ensures Total(rs[i := r], weight) == Total(rs, weight) - weight(rs[i]) + weight(r)
  {
    var n := |rs| - 1;
    if i == n {
      assert rs[i := r][..n] == rs[..n];
    } else {
      assert rs[i := r][..n] == rs[..n][i := r];
      TotalUpdate(rs[..n], i, r, weight);
    }
  }

  /** A total whose weights are bounded by `unit` wherever `hits` is one is at most `unit` per hit. */
  lemma {:induction false} TotalScaled(
    rs: seq<Reservation>, weight: Reservation -> int, hits: Reservation -> int, unit: int)
    requires forall r :: r in rs ==> weight(r) <= hits(r) * unit
    ensures Total(rs, weight) <= Total(rs, hits) * unit
  {
    if |rs| > 0 {
      var n := |rs| - 1;
      TotalScaled(rs[..n], weight, hits, unit);
      assert Total(rs, hits) * unit == Total(rs[..n], hits) * unit + hits(rs[n]) * unit;
    }
  }

  /** Splitting a weight splits its total. */
  lemma {:induction false} TotalSplit(
    rs: seq<Reservation>, w: Reservation -> int, a: Reservation -> int, b: Reservation -> int)
    requires forall r :: r in rs ==> w(r) <= a(r) + b(r)
    ensures Total(rs, w) <= Total(rs, a) + Total(rs, b)
  {
    if |rs| > 0 {
      TotalSplit(rs[..|rs| - 1], w, a, b);
    }
  }

  /** Summing over the selected rows is summing over the table, when the others weigh nothing. */
  lemma {:induction false} TotalSelected(rs: seq<Reservation>, p: Reservation -> bool, weight: Reservation -> int)
    requires forall r :: r in rs && !p(r) ==> weight(r) == 0
    ensures Total(Select(rs, p), weight) == Total(rs, weight)
  {
    if |rs| > 0 {
      var n := |rs| - 1;
      TotalSelected(rs[..n], p, weight);
      if p(rs[n]) {
        TotalAppend(Select(rs[..n], p), rs[n], weight);
      }
    }
  }
}
