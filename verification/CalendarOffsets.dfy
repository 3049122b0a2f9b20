/** When the calendar answers one thing, whatever order the database returns the rows in. Two offsets
    matter: the one the bookings are stamped with, and the one the calendar request itself carries. */
module CalendarOffsets {
  import opened Clock
  import opened Domain
  import opened Machine
  import opened Grid
  import opened Calendar

  /** A query returns each row once. */
  ghost predicate Once(rows: seq<nat>) {
    forall a, b :: 0 <= a < b < |rows| ==> rows[a] != rows[b]
  }

  ghost predicate IsAnswer(s: State, rows: seq<nat>, filter: Option<int>, from: int, until: int) {
    QueryResult(s.reservations, rows, filter, from, until) && Once(rows)
  }

  /** Every request for the window has one answer, for all hosts or for one. */
  ghost predicate OrderFree(s: State, from: int, until: int)
    requires from < until
  {
    forall rows, rows', filter, viewer
      {:trigger Requested(s, rows, filter, viewer, from, until), IsAnswer(s, rows', filter, from, until)} ::
      IsAnswer(s, rows, filter, from, until) && IsAnswer(s, rows', filter, from, until) ==>
        Requested(s, rows, filter, viewer, from, until) == Requested(s, rows', filter, viewer, from, until)
  }

  /** The matching ids among the first `n`, ascending, without `skip`. */
  function IdsBut(rs: seq<Reservation>, filter: Option<int>, from: int, until: int, n: nat, skip: nat): (ids: seq<nat>)
    requires n <= |rs|
    ensures forall k :: 0 <= k < |ids| ==> ids[k] < n && ids[k] != skip && Matches(rs[ids[k]], filter, from, until)
    ensures forall id: nat :: id < n && id != skip && Matches(rs[id], filter, from, until) ==> id in ids
    ensures Once(ids)
  {
    if n == 0 then []
    else
      var ids := IdsBut(rs, filter, from, until, n - 1, skip);
      if n - 1 != skip && Matches(rs[n - 1], filter, from, until) then ids + [n - 1] else ids
  }

  /** An answer of the query that ends with a given one of its rows. */
  function EndingWith(rs: seq<Reservation>, filter: Option<int>, from: int, until: int, last: nat): (rows: seq<nat>)
    requires last < |rs| && Matches(rs[last], filter, from, until)
    ensures QueryResult(rs, rows, filter, from, until) && Once(rows)
    ensures |rows| > 0 && rows[|rows| - 1] == last
  {
    IdsBut(rs, filter, from, until, |rs|, last) + [last]
  }

  lemma OneHost(rs: seq<Reservation>, rows: seq<nat>, viewer: User, host: int, from: int, until: int)
    requires from < until && RowsOf(rs, rows)
    ensures Matrix(rs, rows, viewer, [host], from, until) ==
      Row(rs, rows, viewer, host, from, until, Cells(from, until))
  {
    var hosts := [host];
    assert hosts[..0] == [] && Matrix(rs, rows, viewer, hosts[..0], from, until) == [];
    assert Matrix(rs, rows, viewer, hosts, from, until) ==
      Matrix(rs, rows, viewer, hosts[..|hosts| - 1], from, until) +
      Row(rs, rows, viewer, hosts[|hosts| - 1], from, until, Cells(from, until));
  }

  lemma CellMatches(r: Reservation, host: int, from: int, until: int, k: nat)
    requires from < until && k < Cells(from, until)
    requires MeetsCell(r, host, Span(from, until, k).0, Span(from, until, k).1)
    ensures Matches(r, Some(host), from, until)
  {
    InStepCells(from, until, k);
  }

  /** Some answer makes the matrix name the row in its cell `k`. */
  ghost predicate CanName(s: State, host: int, viewer: User, from: int, until: int, k: nat, id: nat)
    requires from < until
  {
    exists rows :: IsAnswer(s, rows, Some(host), from, until)
      && |Requested(s, rows, Some(host), viewer, from, until)| > k
      && Requested(s, rows, Some(host), viewer, from, until)[k].reservation == Some(id)
  }

  /** Of the rows that meet a cell, any can be the last, and the last is the one the matrix names. */
  lemma LastIsNamed(s: State, host: int, viewer: User, from: int, until: int, k: nat, last: nat)
    requires from < until && k < Cells(from, until) && last < |s.reservations|
    requires MeetsCell(s.reservations[last], host, Span(from, until, k).0, Span(from, until, k).1)
    ensures CanName(s, host, viewer, from, until, k, last)
  {
    CellMatches(s.reservations[last], host, from, until, k);
    var rows := EndingWith(s.reservations, Some(host), from, until, last);
    LastOccupies(s.reservations, rows, host, Span(from, until, k).0, Span(from, until, k).1, last);
    OneHost(s.reservations, rows, viewer, host, from, until);
    var row := Row(s.reservations, rows, viewer, host, from, until, Cells(from, until));
    assert row[k] == SlotAt(s.reservations, rows, viewer, host, from + k * SLOT, until);
    assert IsAnswer(s, rows, Some(host), from, until);
  }

  lemma LastOccupies(rs: seq<Reservation>, rows: seq<nat>, host: int, a: int, b: int, last: nat)
    requires RowsOf(rs, rows) && |rows| > 0 && rows[|rows| - 1] == last && MeetsCell(rs[last], host, a, b)
    ensures Occupant(rs, rows, host, a, b) == Some(last)
  {
  }

  lemma TwoNamesDepend(s: State, host: int, viewer: User, from: int, until: int, k: nat, i: nat, j: nat)
    requires from < until && i < j
    requires CanName(s, host, viewer, from, until, k, i) && CanName(s, host, viewer, from, until, k, j)
    ensures !OrderFree(s, from, until)
  {
    var rows :| IsAnswer(s, rows, Some(host), from, until)
      && |Requested(s, rows, Some(host), viewer, from, until)| > k
      && Requested(s, rows, Some(host), viewer, from, until)[k].reservation == Some(i);
    var rows' :| IsAnswer(s, rows', Some(host), from, until)
      && |Requested(s, rows', Some(host), viewer, from, until)| > k
      && Requested(s, rows', Some(host), viewer, from, until)[k].reservation == Some(j);
    assert Requested(s, rows, Some(host), viewer, from, until) != Requested(s, rows', Some(host), viewer, from, until);
  }

  lemma SharedCellDepends(s: State, host: int, from: int, until: int, k: nat, i: nat, j: nat)
    requires from < until && k < Cells(from, until) && i < j < |s.reservations|
    requires MeetsCell(s.reservations[i], host, Span(from, until, k).0, Span(from, until, k).1)
    requires MeetsCell(s.reservations[j], host, Span(from, until, k).0, Span(from, until, k).1)
    ensures !OrderFree(s, from, until)
  {
    LastIsNamed(s, host, User(0, true), from, until, k, i);
    LastIsNamed(s, host, User(0, true), from, until, k, j);
    TwoNamesDepend(s, host, User(0, true), from, until, k, i, j);
  }

  /** In any state whatsoever: every request for the window has one answer if and only if no cell of the
      window meets two active rows of one host. */
  lemma OrderFreeIffNoneShared(s: State, from: int, until: int)
    requires from < until
    ensures OrderFree(s, from, until) <==> NoneShared(s.reservations, from, until)
  {
    if NoneShared(s.reservations, from, until) {
      forall rows, rows', filter, viewer |
        IsAnswer(s, rows, filter, from, until) && IsAnswer(s, rows', filter, from, until)
        ensures Requested(s, rows, filter, viewer, from, until) == Requested(s, rows', filter, viewer, from, until)
      {
        var hosts := if filter.Some? then [filter.value] else AllHosts(s);
        RowOrderIrrelevant(s.reservations, rows, rows', filter, viewer, hosts, from, until);
      }
    } else {
      var host, k: nat :| k < Cells(from, until) &&
        !AtMostOne(s.reservations, host, Span(from, until, k).0, Span(from, until, k).1);
      var i, j :| 0 <= i < j < |s.reservations| &&
        MeetsCell(s.reservations[i], host, Span(from, until, k).0, Span(from, until, k).1) &&
        MeetsCell(s.reservations[j], host, Span(from, until, k).0, Span(from, until, k).1);
      SharedCellDepends(s, host, from, until, k, i, j);
    }
  }

  lemma InStepIsOrderFree(s: State, from: int, until: int)
    requires Unambiguous(s.reservations) && from < until && InStep(from, until)
    ensures OrderFree(s, from, until)
  {
    forall host, k: nat | k < Cells(from, until)
      ensures AtMostOne(s.reservations, host, Span(from, until, k).0, Span(from, until, k).1)
    {
      InStepHasOne(s.reservations, host, from, until, k);
    }
    OrderFreeIffNoneShared(s, from, until);
  }

  /** The slot boundary inside the first cell of a request that is out of step. */
  function FirstBoundary(from: int): (g: int)
    ensures OnGrid(g) && from < g <= from + SLOT
  {
    GridSteps(FloorSlot(from), 1);
    FloorSlot(from) + SLOT
  }

  /** Out of step: half hours booked in UTC on either side of the boundary both meet the first cell. */
  lemma OutOfStepDepends(from: int, until: int)
    requires from < until && !InStep(from, until)
    ensures var t := FirstBoundary(from) - SLOT;
      RegularRun(BackToBack(t, 0)) && !OrderFree(Run(DEFAULTS, t, BackToBack(t, 0)), from, until)
  {
    var t := FirstBoundary(from) - SLOT;
    var s := Run(DEFAULTS, t, BackToBack(t, 0));
    GridSteps(FirstBoundary(from), -1);
    BackToBackReached(t, t, 0);
    BackToBackMeet(t, 0, from, until);
    SharedCellDepends(s, 0, from, until, 0, 0, 1);
  }

  /** Both half hours meet the first cell of a window that holds their common bound in its first slot. */
  lemma BackToBackMeet(t: int, offset: int, from: int, until: int)
    requires from < t + SLOT < until && t + SLOT < from + SLOT
    ensures Cells(from, until) > 0
    ensures MeetsCell(BackToBackRows(t, offset)[0], 0, Span(from, until, 0).0, Span(from, until, 0).1)
    ensures MeetsCell(BackToBackRows(t, offset)[1], 0, Span(from, until, 0).0, Span(from, until, 0).1)
  {
  }

  lemma BackToBackReached(start: int, t: int, offset: int)
    requires start <= t < start + SLOT && IsGridAligned(Aware(t, offset))
    ensures Run(DEFAULTS, start, BackToBack(t, offset)).reservations == BackToBackRows(t, offset)
  {
    BackToBackRuns(start, t, offset, 2);
    BackToBackComplete(t, offset);
  }

  lemma BackToBackComplete(t: int, offset: int)
    ensures BackToBack(t, offset)[..3] == BackToBack(t, offset)
    ensures BackToBackRows(t, offset)[..2] == BackToBackRows(t, offset)
  {
  }

  /** Every run of regular requests leaves the window one answer. */
  ghost predicate AlwaysOrderFree(from: int, until: int)
    requires from < until
  {
    forall cfg, start, run :: RegularRun(run) ==> OrderFree(Run(cfg, start, run), from, until)
  }

  /** The condition on the calendar request is exact. Of the requests the calendar accepts, those that
      have one answer in every state a regular run reaches are those whose `from` is stamped with a
      multiple of 30 minutes, and those that end before the next slot begins. */
  lemma CalendarOffsetIsExact(from: Stamp, until: Stamp)
    requires CheckBounds(from, until).None?
    ensures AlwaysOrderFree(from.utc, until.utc) <==>
      from.offset % SLOT_MINUTES == 0 || until.utc <= FirstBoundary(from.utc)
  {
    AlignmentIsUtcAlignment(from);
    if InStep(from.utc, until.utc) {
      forall cfg, start, run | RegularRun(run)
        ensures OrderFree(Run(cfg, start, run), from.utc, until.utc)
      {
        RunsUnambiguous(cfg, start, run);
        InStepIsOrderFree(Run(cfg, start, run), from.utc, until.utc);
      }
    } else {
      OutOfStepDepends(from.utc, until.utc);
    }
  }

  /** One such request: a quarter past, stamped +00:15, over two hours. The calendar accepts it, and two
      bookings in UTC make its answer depend on the order of the rows. */
  lemma QuarterPastDepends()
    ensures var from, until := Aware(15 * MINUTE, 15), Aware(15 * MINUTE + 4 * SLOT, 15);
      && CheckBounds(from, until).None?
      && RegularRun(BackToBack(0, 0)) && !OrderFree(Run(DEFAULTS, 0, BackToBack(0, 0)), from.utc, until.utc)
  {
    QuarterPastAligned();
    OutOfStepDepends(15 * MINUTE, 15 * MINUTE + 4 * SLOT);
    QuarterPastBoundary();
  }

  lemma QuarterPastAligned()
    ensures CheckBounds(Aware(15 * MINUTE, 15), Aware(15 * MINUTE + 4 * SLOT, 15)).None?
    ensures !InStep(15 * MINUTE, 15 * MINUTE + 4 * SLOT)
  {
  }

  lemma QuarterPastBoundary()
    ensures FirstBoundary(15 * MINUTE) == SLOT
  {
  }

  /** The condition on the bookings is exact as well: on the slot around their common bound, half hours
      stamped with any offset leave one answer exactly when it is a multiple of 30 minutes. */
  lemma BookingOffsetIsExact(start: int, t: int, offset: int)
    requires start <= t < start + SLOT && IsGridAligned(Aware(t, offset))
    ensures var c := FloorSlot(t + SLOT);
      OrderFree(Run(DEFAULTS, start, BackToBack(t, offset)), c, c + SLOT) <==> offset % SLOT_MINUTES == 0
  {
    var s, c := Run(DEFAULTS, start, BackToBack(t, offset)), FloorSlot(t + SLOT);
    OffsetConditionIsExact(start, t, offset);
    if offset % SLOT_MINUTES == 0 {
      InStepIsOrderFree(s, c, c + SLOT);
    } else {
      AlignmentIsUtcAlignment(Aware(t, offset));
      OffGridFloor(t);
      BackToBackReached(start, t, offset);
      BackToBackMeet(t, offset, c, c + SLOT);
      SharedCellDepends(s, 0, c, c + SLOT, 0, 0, 1);
    }
  }

  lemma OffGridFloor(t: int)
    requires !OnGrid(t)
    ensures FloorSlot(t + SLOT) < t + SLOT < FloorSlot(t + SLOT) + SLOT
  {
    GridSteps(t, 1);
  }
}
