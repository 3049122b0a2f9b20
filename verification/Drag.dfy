/** The calendar's drag selection in the browser, and its agreement with the booking that follows. */
module Drag {
  import opened Clock
  import opened Domain
  import opened Booking
  import opened Calendar

  const MAX_SPAN_CELLS := 8

  /** Columns a drag may extend over. */
  predicate Selectable(slots: seq<Slot>, minCol: int, c: int) {
    minCol <= c && 0 <= c < |slots| && slots[c].status == OPEN
  }

  /** `[lo, hi]` is the longest selection from the anchor towards `endCol`: selectable all the way
      beyond the anchor, at most eight cells, and stopped only by the pointer, by the eighth cell or
      by a column that cannot be selected. */
  predicate IsSpan(slots: seq<Slot>, startCol: int, endCol: int, minCol: int, lo: int, hi: int) {
    && lo <= startCol <= hi < lo + MAX_SPAN_CELLS
    && (forall c :: lo <= c <= hi && c != startCol ==> Selectable(slots, minCol, c))
    && (if startCol <= endCol then
          lo == startCol && hi <= endCol
          && (hi == endCol || hi == lo + MAX_SPAN_CELLS - 1 || !Selectable(slots, minCol, hi + 1))
        else
          hi == startCol && endCol <= lo
          && (lo == endCol || hi == lo + MAX_SPAN_CELLS - 1 || !Selectable(slots, minCol, lo - 1)))
  }

  method EffectiveDragSpan(slots: seq<Slot>, startCol: int, endCol: int, minCol: int) returns (lo: int, hi: int)
    ensures IsSpan(slots, startCol, endCol, minCol, lo, hi)
  {
    var dir := if endCol >= startCol then 1 else -1;
    var last := startCol;
    var count := 1;
    var c := startCol + dir;
    while if dir > 0 then c <= endCol else c >= endCol
      invariant c == last + dir && last == startCol + dir * (count - 1)
      invariant 1 <= count <= MAX_SPAN_CELLS
      invariant if dir > 0 then startCol <= last <= endCol else endCol <= last <= startCol
      invariant forall k :: Min(startCol, last) <= k <= Max(startCol, last) && k != startCol ==>
        Selectable(slots, minCol, k)
      decreases if dir > 0 then endCol - c else c - endCol
    {
      if count >= MAX_SPAN_CELLS {
        break;
      }
      if c < minCol {
        break;
      }
      if !(0 <= c < |slots|) || slots[c].status != OPEN {
        break;
      }
      last := c;
      count := count + 1;
      c := c + dir;
    }
    lo := Min(startCol, last);
    hi := Max(startCol, last);
  }

  /** The specification leaves no choice: there is one span. */
  lemma SpanUnique(slots: seq<Slot>, startCol: int, endCol: int, minCol: int, lo: int, hi: int, lo': int, hi': int)
    requires IsSpan(slots, startCol, endCol, minCol, lo, hi) && IsSpan(slots, startCol, endCol, minCol, lo', hi')
    ensures lo == lo' && hi == hi'
  {
    assert startCol <= endCol && hi < hi' ==> Selectable(slots, minCol, hi + 1);
    assert startCol <= endCol && hi' < hi ==> Selectable(slots, minCol, hi' + 1);
    assert startCol > endCol && lo' < lo ==> Selectable(slots, minCol, lo - 1);
    assert startCol > endCol && lo < lo' ==> Selectable(slots, minCol, lo' - 1);
  }

  /** First column that may be booked: the one after the column of the present, when that is shown. */
  function MinReservable(nowCol: Option<nat>): int {
    if nowCol.Some? then nowCol.value + 1 else 0
  }

  /** What a mouse-down does: nothing, a message with its reason, or the start of a drag. */
  datatype Press = Ignored | HostUnreservable | HostWithoutAddress | Past | Started

  /** Why a host takes no bookings; its status comes first. */
  function HostBlockedReason(host: HostStatus, hasAddress: bool): Option<Press> {
    if host == Degraded || host == Offline then Some(HostUnreservable)
    else if !hasAddress then Some(HostWithoutAddress)
    else None
  }

  /** The mouse-down handler. A drag starts exactly on an open cell after the column of the present, of an
      idle or used host with an address; the user is told of the host before being told of the past, and of
      neither on a cell that is taken. */
  function MouseDown(slots: seq<Slot>, host: HostStatus, hasAddress: bool, nowCol: Option<nat>, col: nat): (p: Press)
    requires col < |slots|
    ensures p == Started <==>
      && slots[col].status == OPEN && (host == Idle || host == InUse) && hasAddress
      && (nowCol.Some? ==> nowCol.value < col)
    ensures p == Ignored <==> slots[col].status != OPEN
    ensures p == Past ==> (host == Idle || host == InUse) && hasAddress && nowCol.Some? && col <= nowCol.value
    ensures p == HostWithoutAddress ==> !hasAddress && (host == Idle || host == InUse)
    ensures p == HostUnreservable ==> host == Degraded || host == Offline
  {
    if slots[col].status != OPEN then Ignored
    else if HostBlockedReason(host, hasAddress).Some? then HostBlockedReason(host, hasAddress).value
    else if col < MinReservable(nowCol) then Past
    else Started
  }

  /** The dialog's length: rounded to the grid, half up, and clamped between 30 and 240 minutes. */
  function ModalMinutes(minutes: int): int {
    var grid := (2 * minutes + SLOT_MINUTES) / (2 * SLOT_MINUTES) * SLOT_MINUTES;
    Min(Max(grid, SLOT_MINUTES), 240)
  }

  function SpanMinutes(lo: int, hi: int): int {
    (hi - lo + 1) * SLOT_MINUTES
  }

  /** A span stays inside the row. */
  lemma SpanInRow(slots: seq<Slot>, startCol: int, endCol: int, minCol: int, lo: int, hi: int)
    requires 0 <= startCol < |slots| && IsSpan(slots, startCol, endCol, minCol, lo, hi)
    ensures 0 <= lo <= startCol <= hi < |slots|
    ensures startCol >= minCol ==> lo >= minCol
  {
    assert lo != startCol ==> Selectable(slots, minCol, lo);
    assert hi != startCol ==> Selectable(slots, minCol, hi);
  }

  /** Every cell of a span is open as soon as the one it began on is. */
  lemma SpanIsOpen(slots: seq<Slot>, startCol: int, endCol: int, minCol: int, lo: int, hi: int)
    requires 0 <= startCol < |slots| && slots[startCol].status == OPEN
    requires IsSpan(slots, startCol, endCol, minCol, lo, hi)
    ensures 0 <= lo <= hi < |slots| && forall c :: lo <= c <= hi ==> slots[c].status == OPEN
  {
    SpanInRow(slots, startCol, endCol, minCol, lo, hi);
    forall c | lo <= c <= hi
      ensures slots[c].status == OPEN
    {
      assert c != startCol ==> Selectable(slots, minCol, c);
    }
  }

  /** The dialog leaves the length of a span as it is. */
  lemma ModalKeepsSpan(lo: int, hi: int)
    requires lo <= hi < lo + MAX_SPAN_CELLS
    ensures ModalMinutes(SpanMinutes(lo, hi)) == SpanMinutes(lo, hi)
    ensures SLOT_MINUTES <= SpanMinutes(lo, hi) <= 240
  {
    var n := hi - lo + 1;
    assert (2 * (n * SLOT_MINUTES) + SLOT_MINUTES) / (2 * SLOT_MINUTES) == n;
  }

  /** A window whose cells `lo..hi` are all open is free from the first start to the last end. */
  lemma OpenCellsAreFree(
    rs: seq<Reservation>, rows: seq<nat>, filter: Option<int>, viewer: User, host: int, from: int, until: int,
    lo: int, hi: int)
    requires from < until && OnGrid(from) && OnGrid(until)
    requires QueryResult(rs, rows, filter, from, until) && (filter.Some? ==> host == filter.value)
    requires 0 <= lo <= hi < Cells(from, until)
    requires forall c :: lo <= c <= hi ==>
      Row(rs, rows, viewer, host, from, until, Cells(from, until))[c].status == OPEN
    ensures Free(rs, host, from + lo * SLOT, from + (hi + 1) * SLOT)
  {
    var row := Row(rs, rows, viewer, host, from, until, Cells(from, until));
    forall c | lo <= c <= hi
      ensures Free(rs, host, from + c * SLOT, from + c * SLOT + SLOT)
    {
      WholeCells(from, until, c);
      assert row[c] == SlotAt(rs, rows, viewer, host, from + c * SLOT, until);
      OpenIsFree(rs, rows, filter, from, until, host, from + c * SLOT);
    }
    FreeCellsAreFree(rs, host, from, lo, hi);
  }

  /** The first of the cells `lo..hi` that a row meets. */
  function SharedCell(r: Reservation, from: int, lo: int, hi: int): (c: int)
    requires Meets(r.start, r.end, from + lo * SLOT, from + (hi + 1) * SLOT)
    ensures lo <= c <= hi && Meets(r.start, r.end, from + c * SLOT, from + c * SLOT + SLOT)
  {
    (Max(r.start, from + lo * SLOT) - from) / SLOT
  }

  lemma FreeCellsAreFree(rs: seq<Reservation>, host: int, from: int, lo: int, hi: int)
    ensures (forall c :: lo <= c <= hi ==> Free(rs, host, from + c * SLOT, from + c * SLOT + SLOT)) ==>
      Free(rs, host, from + lo * SLOT, from + (hi + 1) * SLOT)
  {
    if !Free(rs, host, from + lo * SLOT, from + (hi + 1) * SLOT) {
      var i :| 0 <= i < |rs| && Active(rs[i]) && rs[i].host == host &&
        Meets(rs[i].start, rs[i].end, from + lo * SLOT, from + (hi + 1) * SLOT);
      var c := SharedCell(rs[i], from, lo, hi);
      assert !Free(rs, host, from + c * SLOT, from + c * SLOT + SLOT);
    }
  }

  lemma WholeCells(from: int, until: int, c: int)
    requires from < until && OnGrid(from) && OnGrid(until) && 0 <= c < Cells(from, until)
    ensures from + c * SLOT + SLOT <= until && CellEnd(from + c * SLOT, until) == from + c * SLOT + SLOT
  {
    GridSteps(from, c);
  }

  /** The request that the dialog sends for a committed span. */
  function SpanStart(row: seq<Slot>, lo: int): int
    requires 0 <= lo < |row|
  {
    row[lo].start
  }

  function SpanEnd(row: seq<Slot>, lo: int, hi: int): int
    requires 0 <= lo < |row|
  {
    row[lo].start + ModalMinutes(SpanMinutes(lo, hi)) * MINUTE
  }

  /** The bounds of the request are the bounds of the selected cells. */
  lemma SpanBounds(
    rs: seq<Reservation>, rows: seq<nat>, viewer: User, host: int, from: int, until: int, lo: int, hi: int)
    requires from < until && RowsOf(rs, rows) && OnGrid(from)
    requires 0 <= lo <= hi < Cells(from, until) && hi < lo + MAX_SPAN_CELLS
    ensures var row := Row(rs, rows, viewer, host, from, until, Cells(from, until));
      && SpanStart(row, lo) == from + lo * SLOT && OnGrid(SpanStart(row, lo))
      && SpanEnd(row, lo, hi) == from + (hi + 1) * SLOT == row[hi].end && OnGrid(SpanEnd(row, lo, hi))
  {
    ModalKeepsSpan(lo, hi);
    GridSteps(from, lo);
    GridSteps(from, hi + 1);
    assert SpanMinutes(lo, hi) * MINUTE == (hi - lo + 1) * SLOT;
  }

  lemma GridStampAligned(t: int, offset: int)
    requires OnGrid(t) && offset % SLOT_MINUTES == 0
    ensures IsGridAligned(Aware(t, offset))
  {
    assert offset * MINUTE == offset / SLOT_MINUTES * SLOT;
    GridSteps(t, offset / SLOT_MINUTES);
  }

  /** Of the booking checks only those the browser does not make can refuse the window: the
      operator's length limit below four hours, the past, the lookahead and the quotas. */
  ghost predicate OnlyPolicyRefuses(cfg: Settings, s: State, user: User, host: int, start: int, end: int, offset: int) {
    var refused := CheckWindow(cfg, s.now, Aware(start, offset), Aware(end, offset));
    && (refused.None? || refused == Some(InPast) || refused == Some(TooFarAhead)
        || (refused == Some(TooLong) && cfg.maxDurationMinutes < 240))
    && (refused.None? && CheckQuota(cfg, s, user.id, start, offset, end).None? ==>
          Create(cfg, s, user, host, Aware(start, offset), Aware(end, offset)).1.Success?)
  }

  lemma FreeWindowBooks(cfg: Settings, s: State, user: User, host: int, start: int, end: int, offset: int)
    requires OnGrid(start) && OnGrid(end) && offset % SLOT_MINUTES == 0
    requires SLOT <= end - start <= 240 * MINUTE && HostExists(s, host) && Free(s.reservations, host, start, end)
    ensures OnlyPolicyRefuses(cfg, s, user, host, start, end, offset)
  {
    GridStampAligned(start, offset);
    GridStampAligned(end, offset);
  }

  lemma SpanBooks(cfg: Settings, s: State, user: User, host: int, from: int, lo: int, hi: int, offset: int)
    requires lo <= hi < lo + MAX_SPAN_CELLS && OnGrid(from) && offset % SLOT_MINUTES == 0
    requires HostExists(s, host) && Free(s.reservations, host, from + lo * SLOT, from + (hi + 1) * SLOT)
    ensures OnlyPolicyRefuses(cfg, s, user, host, from + lo * SLOT, from + (hi + 1) * SLOT, offset)
  {
    GridSteps(from, lo);
    GridSteps(from, hi + 1);
    FreeWindowBooks(cfg, s, user, host, from + lo * SLOT, from + (hi + 1) * SLOT, offset);
  }

  /** A committed drag: the gate let it begin, on the row as it was at mouse-down, and the span is taken
      from the row as it is at mouse-up, whose anchor is not looked at again. */
  ghost predicate Commits(
    gateRow: seq<Slot>, gateStatus: HostStatus, hasAddress: bool, gateCol: Option<nat>,
    row: seq<Slot>, nowCol: Option<nat>, startCol: int, endCol: int, lo: int, hi: int)
  {
    && |gateRow| == |row|
    && 0 <= startCol < |gateRow| && MouseDown(gateRow, gateStatus, hasAddress, gateCol, startCol) == Started
    && IsSpan(row, startCol, endCol, MinReservable(nowCol), lo, hi)
  }

  /** A cell of the window that is taken takes the window. */
  lemma TakenCellBlocks(
    rs: seq<Reservation>, rows: seq<nat>, filter: Option<int>, viewer: User, host: int, from: int, until: int,
    lo: int, hi: int, c: int)
    requires from < until && OnGrid(from) && OnGrid(until)
    requires QueryResult(rs, rows, filter, from, until) && (filter.Some? ==> host == filter.value)
    requires 0 <= lo <= c <= hi < Cells(from, until)
    requires Row(rs, rows, viewer, host, from, until, Cells(from, until))[c].status != OPEN
    ensures !Free(rs, host, from + lo * SLOT, from + (hi + 1) * SLOT)
  {
    WholeCells(from, until, c);
    OpenIsFree(rs, rows, filter, from, until, host, from + c * SLOT);
    CellInWindow(from, lo, hi, c);
    var i :| 0 <= i < |rs| && Active(rs[i]) && rs[i].host == host &&
      Meets(rs[i].start, rs[i].end, from + c * SLOT, from + c * SLOT + SLOT);
    assert Meets(rs[i].start, rs[i].end, from + lo * SLOT, from + (hi + 1) * SLOT);
  }

  lemma CellInWindow(from: int, lo: int, hi: int, c: int)
    requires lo <= c <= hi
    ensures from + lo * SLOT <= from + c * SLOT && from + c * SLOT + SLOT <= from + (hi + 1) * SLOT
  {
  }

  /** A committed drag's request is exactly the selected cells: on the grid, between 30 and 240 minutes,
      and, with an anchor after the column of the present, after that column. Its window meets no active
      reservation of the state whose matrix is on the screen at mouse-up exactly when the anchor is
      still open then; the rest of the span always is. */
  lemma CommittedDragIsFree(
    s: State, rows: seq<nat>, filter: Option<int>, viewer: User, host: int, from: int, until: int,
    gateRow: seq<Slot>, gateStatus: HostStatus, hasAddress: bool, gateCol: Option<nat>,
    nowCol: Option<nat>, startCol: int, endCol: int, lo: int, hi: int)
    requires from < until && OnGrid(from) && OnGrid(until)
    requires QueryResult(s.reservations, rows, filter, from, until) && (filter.Some? ==> host == filter.value)
    requires Commits(gateRow, gateStatus, hasAddress, gateCol,
      Row(s.reservations, rows, viewer, host, from, until, Cells(from, until)), nowCol, startCol, endCol, lo, hi)
    ensures 0 <= lo <= startCol <= hi < Cells(from, until) && hi < lo + MAX_SPAN_CELLS
    ensures MinReservable(nowCol) <= startCol ==> MinReservable(nowCol) <= lo
    ensures var row := Row(s.reservations, rows, viewer, host, from, until, Cells(from, until));
      && SpanStart(row, lo) == row[lo].start == from + lo * SLOT && OnGrid(from + lo * SLOT)
      && SpanEnd(row, lo, hi) == row[hi].end == from + (hi + 1) * SLOT && OnGrid(from + (hi + 1) * SLOT)
      && (Free(s.reservations, host, from + lo * SLOT, from + (hi + 1) * SLOT) <==> row[startCol].status == OPEN)
  {
    var row := Row(s.reservations, rows, viewer, host, from, until, Cells(from, until));
    SpanInRow(row, startCol, endCol, MinReservable(nowCol), lo, hi);
    SpanBounds(s.reservations, rows, viewer, host, from, until, lo, hi);
    if row[startCol].status == OPEN {
      SpanIsOpen(row, startCol, endCol, MinReservable(nowCol), lo, hi);
      OpenCellsAreFree(s.reservations, rows, filter, viewer, host, from, until, lo, hi);
    } else {
      TakenCellBlocks(s.reservations, rows, filter, viewer, host, from, until, lo, hi, startCol);
    }
  }

  /** What becomes of the request: refused when the window is taken, refusable by policy only when not. */
  ghost predicate Decided(
    cfg: Settings, s: State, user: User, host: int, start: int, end: int, offset: int, open: bool) {
    if open then OnlyPolicyRefuses(cfg, s, user, host, start, end, offset)
    else Create(cfg, s, user, host, Aware(start, offset), Aware(end, offset)).1.Failure?
  }

  lemma SpanDecided(
    cfg: Settings, s: State, user: User, host: int, from: int, lo: int, hi: int, offset: int, open: bool)
    requires lo <= hi < lo + MAX_SPAN_CELLS && OnGrid(from) && offset % SLOT_MINUTES == 0 && HostExists(s, host)
    requires open <==> Free(s.reservations, host, from + lo * SLOT, from + (hi + 1) * SLOT)
    ensures Decided(cfg, s, user, host, from + lo * SLOT, from + (hi + 1) * SLOT, offset, open)
  {
    if open {
      SpanBooks(cfg, s, user, host, from, lo, hi, offset);
    }
  }

  /** End to end: a drag that passed the gate, committed on the matrix of the current state, is refused
      when its anchor has been taken meanwhile; otherwise by policy only, and not for being in the past,
      when the anchor lies after the column of the present and that column still contains the clock. */
  lemma CommittedDragBooks(
    cfg: Settings, s: State, rows: seq<nat>, filter: Option<int>, viewer: User, host: int, from: int, until: int,
    gateRow: seq<Slot>, gateStatus: HostStatus, hasAddress: bool, gateCol: Option<nat>,
    nowCol: Option<nat>, startCol: int, endCol: int, lo: int, hi: int, offset: int)
    requires from < until && OnGrid(from) && OnGrid(until) && offset % SLOT_MINUTES == 0 && HostExists(s, host)
    requires QueryResult(s.reservations, rows, filter, from, until) && (filter.Some? ==> host == filter.value)
    requires Commits(gateRow, gateStatus, hasAddress, gateCol,
      Row(s.reservations, rows, viewer, host, from, until, Cells(from, until)), nowCol, startCol, endCol, lo, hi)
    ensures 0 <= startCol < Cells(from, until)
    ensures var row := Row(s.reservations, rows, viewer, host, from, until, Cells(from, until));
      Decided(cfg, s, viewer, host, from + lo * SLOT, from + (hi + 1) * SLOT, offset, row[startCol].status == OPEN)
    ensures nowCol.Some? && nowCol.value < startCol && s.now < from + nowCol.value * SLOT + SLOT ==>
      s.now < from + lo * SLOT
  {
    var row := Row(s.reservations, rows, viewer, host, from, until, Cells(from, until));
    CommittedDragIsFree(s, rows, filter, viewer, host, from, until, gateRow, gateStatus, hasAddress, gateCol,
      nowCol, startCol, endCol, lo, hi);
    SpanDecided(cfg, s, viewer, host, from, lo, hi, offset, row[startCol].status == OPEN);
    if nowCol.Some? && nowCol.value < startCol {
      ColumnsAscend(from, nowCol.value, lo);
    }
  }

  lemma ColumnsAscend(from: int, a: int, b: int)
    requires a < b
    ensures from + a * SLOT + SLOT <= from + b * SLOT
  {
  }
}
