/** Time as the broker sees it: microseconds since the epoch in UTC, request timestamps that carry
    their own UTC offset, the 30-minute grid, and the window an instant booking gets. */
module Clock {

  const SECOND := 1_000_000
  const MINUTE := 60 * SECOND
  const SLOT := 30 * MINUTE
  const DAY := 48 * SLOT
  const SLOT_MINUTES := 30

  /** How far an instant booking reaches before it is rounded up to the grid: two and a half hours. */
  const INSTANT_USE := 5 * SLOT

  datatype Option<+T> = None | Some(value: T)

  /** A request timestamp. `Aware` keeps the instant and the offset in minutes it was written with
      (ISO 8601 offsets have no seconds); `Naive` has no offset and is refused everywhere. */
  datatype Stamp = Naive(wall: int) | Aware(utc: int, offset: int)

  /** The instants at which a slot of the UTC calendar begins. */
  predicate OnGrid(t: int) {
    t % SLOT == 0
  }

  /** The grid test of the request path: the wall clock of the stamp reads :00 or :30 exactly. */
  predicate IsGridAligned(t: Stamp) {
    t.Aware? && (t.utc + t.offset * MINUTE) % SLOT == 0
  }

  function FloorSecond(t: int): (f: int)
    ensures f % SECOND == 0 && f <= t < f + SECOND
  {
    t - t % SECOND
  }

  function FloorSlot(t: int): (f: int)
    ensures OnGrid(f) && f <= t < f + SLOT
  {
    t - t % SLOT
  }

  /** Local midnight before `t`, on the wall clock that runs `offset` minutes ahead of UTC. */
  function DayStart(t: int, offset: int): (d: int)
    ensures (d + offset * MINUTE) % DAY == 0 && d <= t < d + DAY
  {
    t - (t + offset * MINUTE) % DAY
  }

  function WholeMinutes(length: int): int {
    length / MINUTE
  }

  function Max(a: int, b: int): int {
    if a < b then b else a
  }

  function Min(a: int, b: int): int {
    if a < b then a else b
  }

  /** The window of an instant booking: from the current second to the end of the slot two and a
      half hours ahead, cut where the next booking of the host begins. Whatever the clock reads, it
      covers `now`; uncut it lasts more than two and a half and at most three hours. */
  function InstantWindow(now: int, next: Option<int>): (w: (int, int))
    ensures w.0 % SECOND == 0 && w.0 <= now < w.0 + SECOND
    ensures next.None? || now < next.value ==> now < w.1
    ensures next.Some? ==> w.1 <= next.value
    ensures w.1 - w.0 <= 6 * SLOT
    ensures next.None? || next.value >= now + 6 * SLOT ==> OnGrid(w.1) && w.1 > now + INSTANT_USE
    ensures OnGrid(w.1) || (next.Some? && w.1 == next.value)
  {
    var starts := FloorSecond(now);
    var ends := FloorSlot(now + INSTANT_USE) + SLOT;
    (starts, if next.Some? && next.value < ends then next.value else ends)
  }

  /** Where exactly the window ends: with the half hour `[g - 30 min, g)` in which two and a half hours are
      over, or at the next booking when that begins earlier. */
  lemma InstantWindowExact(now: int, next: Option<int>, g: int)
    requires g % (30 * MINUTE) == 0 && g - 30 * MINUTE <= now + 150 * MINUTE < g
    ensures InstantWindow(now, next).1 == if next.Some? && next.value < g then next.value else g
  {
    SlotEndUnique(now + INSTANT_USE, g);
  }

  lemma SlotEndUnique(t: int, g: int)
    requires g % SLOT == 0 && g - SLOT <= t < g
    ensures FloorSlot(t) + SLOT == g
  {
  }

  /** The wall-clock test sees the UTC grid exactly for offsets that are multiples of 30 minutes. */
  lemma AlignmentIsUtcAlignment(t: Stamp)
    requires IsGridAligned(t)
    ensures OnGrid(t.utc) <==> t.offset % SLOT_MINUTES == 0
  {
    if t.offset % SLOT_MINUTES == 0 {
      assert t.offset * MINUTE == t.offset / SLOT_MINUTES * SLOT;
    }
  }

  lemma GridIsWholeSecond(t: int)
    requires OnGrid(t)
    ensures t % SECOND == 0
  {
  }

  /** Offsets have no seconds, so an aligned stamp is a whole second whatever its offset. */
  lemma AlignedIsWholeSecond(t: Stamp)
    requires IsGridAligned(t)
    ensures t.utc % SECOND == 0
  {
  }

  /** Two local midnights of one wall clock are whole days apart. */
  lemma DayStartUnique(t: int, offset: int, day: int)
    requires (day + offset * MINUTE) % DAY == 0 && day <= t < day + DAY
    ensures DayStart(t, offset) == day
  {
  }

  lemma GridSteps(t: int, k: int)
    ensures OnGrid(t + k * SLOT) <==> OnGrid(t)
  {
    assert (t + k * SLOT) / SLOT == t / SLOT + k;
  }

  /** An instant on a whole second has passed exactly when the current second has begun after it. */
  lemma WholeSecondPast(t: int, second: int, now: int)
    requires t % SECOND == 0 && second % SECOND == 0 && second <= now < second + SECOND
    ensures t <= now <==> t <= second
  {
  }

  lemma AlignmentSteps(t: int, offset: int)
    requires IsGridAligned(Aware(t, offset))
    ensures IsGridAligned(Aware(t + SLOT, offset))
  {
  }
}
