/** The calendar matrix: an index from cells to reservations, built by flooring each reservation to
    the first cell it meets and walking forward slot by slot. */
module Calendar {
  import opened Clock
  import opened Domain
  import opened Booking
  import opened Machine
  import opened Grid

  datatype SlotStatus = OPEN | OCCUPIED

  /** One cell as it is returned; the user is masked unless the viewer may see it. */
  datatype Slot = Slot(start: int, end: int, host: int, reservation: Option<nat>, user: Option<int>, status: SlotStatus)

  /** The reservation is active, on the host, and meets `[a, b)`. */
  predicate MeetsCell(r: Reservation, host: int, a: int, b: int) {
    Active(r) && r.host == host && Meets(r.start, r.end, a, b)
  }

  predicate Matches(r: Reservation, filter: Option<int>, from: int, until: int) {
    Active(r) && Meets(r.start, r.end, from, until) && (filter.Some? ==> r.host == filter.value)
  }

  /** The ids the matrix query returns, in whatever order the database chose. */
  ghost predicate QueryResult(rs: seq<Reservation>, rows: seq<nat>, filter: Option<int>, from: int, until: int) {
    && RowsOf(rs, rows)
    && (forall k :: 0 <= k < |rows| ==> Matches(rs[rows[k]], filter, from, until))
    && (forall id: nat :: id < |rs| && Matches(rs[id], filter, from, until) ==> id in rows)
  }

  predicate RowsOf(rs: seq<Reservation>, rows: seq<nat>) {
    forall k :: 0 <= k < |rows| ==> rows[k] < |rs|
  }

  /** The last of the rows that meets the cell: later rows overwrite earlier ones in the index. */
  function Occupant(rs: seq<Reservation>, rows: seq<nat>, host: int, a: int, b: int): (id: Option<nat>)
    requires RowsOf(rs, rows)
    ensures id.None? <==> forall k :: 0 <= k < |rows| ==> !MeetsCell(rs[rows[k]], host, a, b)
    ensures id.Some? ==> id.value in rows && id.value < |rs| && MeetsCell(rs[id.value], host, a, b)
  {
    if |rows| == 0 then None
    else
      var last := rows[|rows| - 1];
      if MeetsCell(rs[last], host, a, b) then Some(last) else Occupant(rs, rows[..|rows| - 1], host, a, b)
  }

  function CellEnd(c: int, until: int): int {
    Min(c + SLOT, until)
  }

  function SlotAt(rs: seq<Reservation>, rows: seq<nat>, viewer: User, host: int, c: int, until: int): Slot
    requires RowsOf(rs, rows)
  {
    var id := Occupant(rs, rows, host, c, CellEnd(c, until));
    if id.None? then Slot(c, c + SLOT, host, None, None, OPEN)
    else
      var owner := rs[id.value].user;
      Slot(c, c + SLOT, host, id, if viewer.admin || owner == viewer.id then Some(owner) else None, OCCUPIED)
  }

  /** Number of cells that begin before `to`. */
  function Cells(from: int, until: int): (n: nat)
    requires from < until
    ensures from + (n - 1) * SLOT < until <= from + n * SLOT
  {
    (until - from + SLOT - 1) / SLOT
  }

  /** The cells of one host from `from` on. */
  function Row(
    rs: seq<Reservation>, rows: seq<nat>, viewer: User, host: int, from: int, until: int, n: nat): (row: seq<Slot>)
    requires RowsOf(rs, rows)
    ensures |row| == n
    ensures forall k :: 0 <= k < n ==> row[k] == SlotAt(rs, rows, viewer, host, from + k * SLOT, until)
  {
    seq(n, k requires 0 <= k < n => SlotAt(rs, rows, viewer, host, from + k * SLOT, until))
  }

  function Matrix(rs: seq<Reservation>, rows: seq<nat>, viewer: User, hosts: seq<int>, from: int, until: int): seq<Slot>
    requires from < until && RowsOf(rs, rows)
  {
    if |hosts| == 0 then []
    else
      Matrix(rs, rows, viewer, hosts[..|hosts| - 1], from, until) +
      Row(rs, rows, viewer, hosts[|hosts| - 1], from, until, Cells(from, until))
  }

  function AllHosts(s: State): seq<int> {
    seq(|s.hosts|, i => i)
  }

  function CheckBounds(from: Stamp, until: Stamp): (e: Option<Error>)
    ensures e.None? <==> IsGridAligned(from) && IsGridAligned(until) && from.utc < until.utc
    ensures e == Some(NaiveTime) <==> from.Naive? || until.Naive?
    ensures e == Some(EmptyWindow) <==> IsGridAligned(from) && IsGridAligned(until) && from.utc >= until.utc
  {
    if from.Naive? || until.Naive? then Some(NaiveTime)
    else if !IsGridAligned(from) || !IsGridAligned(until) then Some(Misaligned)
    else if from.utc >= until.utc then Some(EmptyWindow)
    else None
  }

  function Lookup(index: map<(int, int), nat>, host: int, c: int): Option<nat> {
    if (host, c) in index then Some(index[(host, c)]) else None
  }

  /** The index agrees with the rows read so far on every cell of the window. */
  ghost predicate Indexes(index: map<(int, int), nat>, rs: seq<Reservation>, rows: seq<nat>, from: int, until: int)
    requires RowsOf(rs, rows)
  {
    forall host, c {:trigger Lookup(index, host, c)} :: from <= c < until && (c - from) % SLOT == 0 ==>
      Lookup(index, host, c) == Occupant(rs, rows, host, c, CellEnd(c, until))
  }

  /** From the first cell on, flooring the start meets exactly the cells before the end. */
  lemma FirstCell(r: Reservation, from: int, until: int, first: int, c: int)
    requires Meets(r.start, r.end, from, until) && from <= c < until && (c - from) % SLOT == 0
    requires first == Max(r.start, from) - (Max(r.start, from) - from) % SLOT
    ensures Meets(r.start, r.end, c, CellEnd(c, until)) <==> first <= c < Min(r.end, until)
  {
    assert (first - from) % SLOT == 0;
  }

  /** Writes one reservation into every cell it meets and into no other. */
  method IndexReservation(
    index: map<(int, int), nat>, rs: seq<Reservation>, rows: seq<nat>, id: nat, from: int, until: int)
    returns (index': map<(int, int), nat>)
    requires from < until && RowsOf(rs, rows) && id < |rs|
    requires Active(rs[id]) && Meets(rs[id].start, rs[id].end, from, until)
    requires Indexes(index, rs, rows, from, until)
    ensures Indexes(index', rs, rows + [id], from, until)
  {
    var r := rs[id];
    var cursor := Max(r.start, from);
    var offset := (cursor - from) % SLOT;
    cursor := cursor - offset;
    ghost var first := cursor;
    index' := index;
    while cursor < Min(r.end, until)
      invariant (cursor - from) % SLOT == 0 && from <= first <= cursor
      invariant forall host, c {:trigger Lookup(index', host, c)} :: (c - from) % SLOT == 0 ==>
        Lookup(index', host, c) ==
        if host == r.host && first <= c < cursor && c < Min(r.end, until) then Some(id) else Lookup(index, host, c)
      decreases Min(r.end, until) - cursor
    {
      ghost var before := index';
      index' := index'[(r.host, cursor) := id];
      forall host, c | (c - from) % SLOT == 0
        ensures Lookup(index', host, c) == if host == r.host && c == cursor then Some(id) else Lookup(before, host, c)
        ensures c < cursor + SLOT <==> c <= cursor
      {
      }
      cursor := cursor + SLOT;
    }
    assert (rows + [id])[..|rows|] == rows;
    forall host, c | from <= c < until && (c - from) % SLOT == 0
      ensures Lookup(index', host, c) == Occupant(rs, rows + [id], host, c, CellEnd(c, until))
    {
      FirstCell(r, from, until, first, c);
    }
  }

  /** One pass over the query's rows. */
  method BuildIndex(rs: seq<Reservation>, rows: seq<nat>, filter: Option<int>, from: int, until: int)
    returns (index: map<(int, int), nat>)
    requires from < until && QueryResult(rs, rows, filter, from, until)
    ensures Indexes(index, rs, rows, from, until)
  {
    index := map[];
    var i := 0;
    while i < |rows|
      invariant i <= |rows| && Indexes(index, rs, rows[..i], from, until)
    {
      assert rows[..i + 1] == rows[..i] + [rows[i]];
      index := IndexReservation(index, rs, rows[..i], rows[i], from, until);
      i := i + 1;
    }
    assert rows[..|rows|] == rows;
  }

  /** One pass over the cells of a host. */
  method FillRow(
    index: map<(int, int), nat>, rs: seq<Reservation>, rows: seq<nat>, viewer: User, host: int, from: int, until: int)
    returns (slots: seq<Slot>)
    requires from < until && RowsOf(rs, rows) && Indexes(index, rs, rows, from, until)
    ensures slots == Row(rs, rows, viewer, host, from, until, Cells(from, until))
  {
    slots := [];
    var cursor := from;
    while cursor < until
      invariant cursor == from + |slots| * SLOT && |slots| <= Cells(from, until)
      invariant slots == Row(rs, rows, viewer, host, from, until, |slots|)
      decreases until - cursor
    {
      var cellEnd := cursor + SLOT;
      var id := Lookup(index, host, cursor);
      assert id == Occupant(rs, rows, host, cursor, CellEnd(cursor, until));
      ghost var next := SlotAt(rs, rows, viewer, host, cursor, until);
      if id.None? {
        slots := slots + [Slot(cursor, cellEnd, host, None, None, OPEN)];
      } else {
        var owner := rs[id.value].user;
        var shown := if viewer.admin || owner == viewer.id then Some(owner) else None;
        slots := slots + [Slot(cursor, cellEnd, host, id, shown, OCCUPIED)];
      }
      assert slots[|slots| - 1] == next;
      cursor := cellEnd;
    }
  }

  /** The calendar request: bounds, index, then one pass over hosts and cells. */
  method BuildMatrix(s: State, rows: seq<nat>, filter: Option<int>, from: Stamp, until: Stamp, viewer: User)
    returns (r: Result<seq<Slot>>)
    requires from.Aware? && until.Aware? ==> QueryResult(s.reservations, rows, filter, from.utc, until.utc)
    ensures CheckBounds(from, until).Some? ==> r == Failure(CheckBounds(from, until).value)
    ensures CheckBounds(from, until).None? ==>
      r.Success? && HostByHost(s, rows, filter, viewer, from.utc, until.utc, r.value)
    ensures CheckBounds(from, until).None? ==>
      r == Success(Requested(s, rows, filter, viewer, from.utc, until.utc))
  {
    var bounds := CheckBounds(from, until);
    if bounds.Some? {
      return Failure(bounds.value);
    }
    var rs := s.reservations;
    var hosts := if filter.Some? then [filter.value] else AllHosts(s);
    var index := BuildIndex(rs, rows, filter, from.utc, until.utc);
    var slots: seq<Slot> := [];
    var h := 0;
    while h < |hosts|
      invariant h <= |hosts| && slots == Matrix(rs, rows, viewer, hosts[..h], from.utc, until.utc)
    {
      var row := FillRow(index, rs, rows, viewer, hosts[h], from.utc, until.utc);
      slots := slots + row;
      assert hosts[..h + 1][..h] == hosts[..h];
      h := h + 1;
    }
    assert hosts[..|hosts|] == hosts;
    RequestedHostByHost(s, rows, filter, viewer, from.utc, until.utc);
    return Success(slots);
  }

  /** The slots are, block by block, the rows of the host asked for, or of every host of the state. */
  ghost predicate HostByHost(
    s: State, rows: seq<nat>, filter: Option<int>, viewer: User, from: int, until: int, slots: seq<Slot>)
    requires from < until && RowsOf(s.reservations, rows)
  {
    var n := Cells(from, until);
    var count := if filter.Some? then 1 else |s.hosts|;
    && |slots| == count * n
    && forall h :: 0 <= h < count ==>
         && 0 <= h * n <= h * n + n <= |slots|
         && slots[h * n..h * n + n] ==
              Row(s.reservations, rows, viewer, if filter.Some? then filter.value else h, from, until, n)
  }

  lemma RequestedHostByHost(
    s: State, rows: seq<nat>, filter: Option<int>, viewer: User, from: int, until: int)
    requires from < until && RowsOf(s.reservations, rows)
    ensures HostByHost(s, rows, filter, viewer, from, until, Requested(s, rows, filter, viewer, from, until))
  {
    var hosts := if filter.Some? then [filter.value] else AllHosts(s);
    var n := Cells(from, until);
    MatrixLength(s.reservations, rows, viewer, hosts, from, until);
    forall h | 0 <= h < |hosts|
      ensures 0 <= h * n <= h * n + n <= |hosts| * n
      ensures Requested(s, rows, filter, viewer, from, until)[h * n..h * n + n] ==
        Row(s.reservations, rows, viewer, hosts[h], from, until, n)
    {
      MatrixBlocks(s.reservations, rows, viewer, hosts, from, until, h);
    }
  }

  lemma {:induction false} MatrixLength(
    rs: seq<Reservation>, rows: seq<nat>, viewer: User, hosts: seq<int>, from: int, until: int)
    requires from < until && RowsOf(rs, rows)
    ensures |Matrix(rs, rows, viewer, hosts, from, until)| == |hosts| * Cells(from, until)
  {
    if |hosts| > 0 {
      MatrixLength(rs, rows, viewer, hosts[..|hosts| - 1], from, until);
    }
  }

  /** The matrix holds every host's cells once, host after host. */
  lemma {:induction false} MatrixBlocks(
    rs: seq<Reservation>, rows: seq<nat>, viewer: User, hosts: seq<int>, from: int, until: int, h: nat)
    requires from < until && RowsOf(rs, rows) && h < |hosts|
    ensures var n := Cells(from, until);
      var m := Matrix(rs, rows, viewer, hosts, from, until);
      && |m| == |hosts| * n
      && 0 <= h * n <= h * n + n <= |m|
      && m[h * n..h * n + n] == Row(rs, rows, viewer, hosts[h], from, until, n)
  {
    var n := Cells(from, until);
    var last := |hosts| - 1;
    var before := Matrix(rs, rows, viewer, hosts[..last], from, until);
    var row := Row(rs, rows, viewer, hosts[last], from, until, n);
    var m := Matrix(rs, rows, viewer, hosts, from, until);
    MatrixLength(rs, rows, viewer, hosts, from, until);
    MatrixLength(rs, rows, viewer, hosts[..last], from, until);
    var at := h * n;
    assert m == before + row && |row| == n;
    if h < last {
      MatrixBlocks(rs, rows, viewer, hosts[..last], from, until, h);
      assert m[at..at + n] == before[at..at + n];
    } else {
      assert m[at..at + n] == row;
    }
  }

  /** The cells of a host follow each other without gap or overlap, from `from` up to the first slot
      end at or after `until`. */
  lemma RowTiles(rs: seq<Reservation>, rows: seq<nat>, viewer: User, host: int, from: int, until: int, k: nat)
    requires from < until && RowsOf(rs, rows) && k < Cells(from, until)
    ensures var row := Row(rs, rows, viewer, host, from, until, Cells(from, until));
      && row[k].host == host
      && row[k].end == row[k].start + SLOT
      && row[k].start == (if k == 0 then from else row[k - 1].end)
      && (k == |row| - 1 ==> until <= row[k].end < until + SLOT)
  {
  }

  /** At most one active row of the host meets the interval. */
  ghost predicate AtMostOne(rs: seq<Reservation>, host: int, a: int, b: int) {
    forall i, j :: 0 <= i < j < |rs| ==> !(MeetsCell(rs[i], host, a, b) && MeetsCell(rs[j], host, a, b))
  }

  /** The interval lies in one slot of the UTC grid. */
  predicate InOneSlot(a: int, b: int) {
    b <= FloorSlot(a) + SLOT
  }

  lemma OneRowInOneSlot(rs: seq<Reservation>, host: int, a: int, b: int)
    requires Unambiguous(rs) && a < b && InOneSlot(a, b)
    ensures AtMostOne(rs, host, a, b)
  {
    var c := FloorSlot(a);
    forall i, j | 0 <= i < j < |rs|
      ensures !(MeetsCell(rs[i], host, a, b) && MeetsCell(rs[j], host, a, b))
    {
      assert Active(rs[i]) && Active(rs[j]) && rs[i].host == rs[j].host ==>
        !(Meets(rs[i].start, rs[i].end, c, c + SLOT) && Meets(rs[j].start, rs[j].end, c, c + SLOT));
    }
  }

  /** When only one row can claim the cell, any two orders of the same rows agree on it. */
  lemma OccupantUnique(
    rs: seq<Reservation>, rows: seq<nat>, filter: Option<int>, from: int, until: int, host: int, c: int, id: nat)
    requires AtMostOne(rs, host, c, CellEnd(c, until)) && QueryResult(rs, rows, filter, from, until)
    requires from <= c < until && (filter.Some? ==> host == filter.value)
    ensures Occupant(rs, rows, host, c, CellEnd(c, until)) == Some(id) <==>
      id < |rs| && MeetsCell(rs[id], host, c, CellEnd(c, until))
  {
    if id < |rs| && MeetsCell(rs[id], host, c, CellEnd(c, until)) {
      assert Matches(rs[id], filter, from, until);
    }
  }

  /** What a cell shows whatever the table: it is open exactly when nothing active on the host meets it,
      what it names does meet it, and it names the owner only to those who may see it. */
  ghost predicate Shows(rs: seq<Reservation>, viewer: User, host: int, c: int, end: int, cell: Slot) {
    && cell.start == c && cell.host == host
    && (cell.status == OPEN <==> Free(rs, host, c, end))
    && (cell.status == OPEN <==> cell.reservation.None?)
    && (cell.reservation.Some? ==>
          var id := cell.reservation.value;
          && id < |rs| && MeetsCell(rs[id], host, c, end)
          && cell.user == if viewer.admin || rs[id].user == viewer.id then Some(rs[id].user) else None)
  }

  /** And it names every reservation that is active on the host and meets it. */
  ghost predicate Truthful(rs: seq<Reservation>, host: int, c: int, end: int, cell: Slot) {
    forall id: nat :: cell.reservation == Some(id) <==> id < |rs| && MeetsCell(rs[id], host, c, end)
  }

  /** The cell shows what it must, and names all that meets it exactly when at most one row does. */
  ghost predicate Faithful(rs: seq<Reservation>, viewer: User, host: int, c: int, end: int, cell: Slot) {
    && Shows(rs, viewer, host, c, end, cell)
    && (Truthful(rs, host, c, end, cell) <==> AtMostOne(rs, host, c, end))
  }

  lemma CellTruthful(
    rs: seq<Reservation>, rows: seq<nat>, filter: Option<int>,
    viewer: User, from: int, until: int, host: int, c: int, cell: Slot)
    requires QueryResult(rs, rows, filter, from, until)
    requires from <= c < until && (filter.Some? ==> host == filter.value)
    requires cell == SlotAt(rs, rows, viewer, host, c, until)
    ensures Faithful(rs, viewer, host, c, CellEnd(c, until), cell)
  {
    var end := CellEnd(c, until);
    OpenIsFree(rs, rows, filter, from, until, host, c);
    if AtMostOne(rs, host, c, end) {
      forall id: nat
        ensures cell.reservation == Some(id) <==> id < |rs| && MeetsCell(rs[id], host, c, end)
      {
        OccupantUnique(rs, rows, filter, from, until, host, c, id);
      }
    } else {
      var i, j :| 0 <= i < j < |rs| && MeetsCell(rs[i], host, c, end) && MeetsCell(rs[j], host, c, end);
      assert cell.reservation != Some(i) || cell.reservation != Some(j);
    }
  }

  /** The interval the matrix looks at for its cell `k`. */
  function Span(from: int, until: int, k: nat): (int, int) {
    (from + k * SLOT, CellEnd(from + k * SLOT, until))
  }

  /** Every cell of the request lies in one slot: it begins on the grid, or ends within its first slot. */
  predicate InStep(from: int, until: int) {
    OnGrid(from) || InOneSlot(from, until)
  }

  lemma InStepCells(from: int, until: int, k: nat)
    requires from < until && k < Cells(from, until)
    ensures Span(from, until, k).0 < Span(from, until, k).1
    ensures InStep(from, until) ==> InOneSlot(Span(from, until, k).0, Span(from, until, k).1)
  {
    GridSteps(from, k);
    if k > 0 {
      assert from + SLOT <= from + k * SLOT;
    }
  }

  /** Calendar refinement, for every request the calendar accepts. In every reachable state each cell is
      open exactly when nothing active meets it, and otherwise names a reservation that does, also one
      that begins mid-slot or outside the window. It names all of them exactly when there is at most
      one; and after a run of regular requests there is, whenever the cells keep step with the grid. */
  lemma CellsAreTruthful(
    cfg: Settings, start: int, run: seq<Request>, rows: seq<nat>, filter: Option<int>,
    viewer: User, from: int, until: int, host: int, k: nat)
    requires from < until && k < Cells(from, until)
    requires QueryResult(Run(cfg, start, run).reservations, rows, filter, from, until)
    requires filter.Some? ==> host == filter.value
    ensures var rs := Run(cfg, start, run).reservations;
      var c, end := from + k * SLOT, CellEnd(from + k * SLOT, until);
      var cell := Row(rs, rows, viewer, host, from, until, Cells(from, until))[k];
      && Faithful(rs, viewer, host, c, end, cell)
      && (RegularRun(run) && InStep(from, until) ==> AtMostOne(rs, host, c, end))
  {
    RowTruthful(Run(cfg, start, run).reservations, rows, filter, viewer, from, until, host, k);
    if RegularRun(run) && InStep(from, until) {
      RunsUnambiguous(cfg, start, run);
      InStepHasOne(Run(cfg, start, run).reservations, host, from, until, k);
    }
  }

  lemma InStepHasOne(rs: seq<Reservation>, host: int, from: int, until: int, k: nat)
    requires Unambiguous(rs) && from < until && InStep(from, until) && k < Cells(from, until)
    ensures AtMostOne(rs, host, from + k * SLOT, CellEnd(from + k * SLOT, until))
  {
    InStepCells(from, until, k);
    OneRowInOneSlot(rs, host, from + k * SLOT, CellEnd(from + k * SLOT, until));
  }

  lemma RowTruthful(
    rs: seq<Reservation>, rows: seq<nat>, filter: Option<int>,
    viewer: User, from: int, until: int, host: int, k: nat)
    requires from < until && k < Cells(from, until)
    requires QueryResult(rs, rows, filter, from, until) && (filter.Some? ==> host == filter.value)
    ensures var c := from + k * SLOT;
      Faithful(rs, viewer, host, c, CellEnd(c, until), Row(rs, rows, viewer, host, from, until, Cells(from, until))[k])
  {
    RowCell(rs, rows, viewer, host, from, until, k);
    CellTruthful(rs, rows, filter, viewer, from, until, host, from + k * SLOT,
      Row(rs, rows, viewer, host, from, until, Cells(from, until))[k]);
  }

  lemma RowCell(rs: seq<Reservation>, rows: seq<nat>, viewer: User, host: int, from: int, until: int, k: nat)
    requires from < until && k < Cells(from, until) && RowsOf(rs, rows)
    ensures from <= from + k * SLOT < until
    ensures Row(rs, rows, viewer, host, from, until, Cells(from, until))[k] ==
      SlotAt(rs, rows, viewer, host, from + k * SLOT, until)
  {
    InStepCells(from, until, k);
  }

  /** A cell without occupant is one that nothing active on the host meets. */
  lemma OpenIsFree(rs: seq<Reservation>, rows: seq<nat>, filter: Option<int>, from: int, until: int, host: int, c: int)
    requires QueryResult(rs, rows, filter, from, until)
    requires from <= c < until && (filter.Some? ==> host == filter.value)
    ensures Occupant(rs, rows, host, c, CellEnd(c, until)).None? <==> Free(rs, host, c, CellEnd(c, until))
  {
    if Occupant(rs, rows, host, c, CellEnd(c, until)).None? {
      forall i | 0 <= i < |rs| && Active(rs[i]) && rs[i].host == host
        ensures !Meets(rs[i].start, rs[i].end, c, CellEnd(c, until))
      {
        if MeetsCell(rs[i], host, c, CellEnd(c, until)) {
          assert Matches(rs[i], filter, from, until);
        }
      }
    }
  }

  /** The matrix a calendar request gets, from the rows its query returned. */
  function Requested(s: State, rows: seq<nat>, filter: Option<int>, viewer: User, from: int, until: int): seq<Slot>
    requires from < until && RowsOf(s.reservations, rows)
  {
    Matrix(s.reservations, rows, viewer, if filter.Some? then [filter.value] else AllHosts(s), from, until)
  }

  /** No cell of the request is claimed twice, on any host. */
  ghost predicate NoneShared(rs: seq<Reservation>, from: int, until: int)
    requires from < until
  {
    forall host, k: nat :: k < Cells(from, until) ==>
      AtMostOne(rs, host, Span(from, until, k).0, Span(from, until, k).1)
  }

  /** Where no cell is claimed twice the matrix does not depend on the order of the rows. */
  lemma {:induction false} RowOrderIrrelevant(
    rs: seq<Reservation>, rows: seq<nat>, rows': seq<nat>, filter: Option<int>,
    viewer: User, hosts: seq<int>, from: int, until: int)
    requires from < until && NoneShared(rs, from, until)
    requires QueryResult(rs, rows, filter, from, until) && QueryResult(rs, rows', filter, from, until)
    requires filter.Some? ==> forall h :: 0 <= h < |hosts| ==> hosts[h] == filter.value
    ensures Matrix(rs, rows, viewer, hosts, from, until) == Matrix(rs, rows', viewer, hosts, from, until)
  {
    if |hosts| > 0 {
      var host := hosts[|hosts| - 1];
      var n := Cells(from, until);
      RowOrderIrrelevant(rs, rows, rows', filter, viewer, hosts[..|hosts| - 1], from, until);
      forall k | 0 <= k < n
        ensures SlotAt(rs, rows, viewer, host, from + k * SLOT, until) ==
          SlotAt(rs, rows', viewer, host, from + k * SLOT, until)
      {
        InStepCells(from, until, k);
        assert AtMostOne(rs, host, Span(from, until, k).0, Span(from, until, k).1);
        SlotOrderIrrelevant(rs, rows, rows', filter, viewer, host, from, until, from + k * SLOT);
      }
      assert Row(rs, rows, viewer, host, from, until, n) == Row(rs, rows', viewer, host, from, until, n);
    }
  }

  lemma SlotOrderIrrelevant(
    rs: seq<Reservation>, rows: seq<nat>, rows': seq<nat>, filter: Option<int>,
    viewer: User, host: int, from: int, until: int, c: int)
    requires AtMostOne(rs, host, c, CellEnd(c, until)) && from <= c < until
    requires QueryResult(rs, rows, filter, from, until) && QueryResult(rs, rows', filter, from, until)
    requires filter.Some? ==> host == filter.value
    ensures SlotAt(rs, rows, viewer, host, c, until) == SlotAt(rs, rows', viewer, host, c, until)
  {
    var a := Occupant(rs, rows, host, c, CellEnd(c, until));
    var b := Occupant(rs, rows', host, c, CellEnd(c, until));
    OccupantUnique(rs, rows, filter, from, until, host, c, if b.Some? then b.value else 0);
    OccupantUnique(rs, rows', filter, from, until, host, c, if a.Some? then a.value else 0);
  }
}
