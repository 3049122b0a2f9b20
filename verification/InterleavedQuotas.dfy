/** The quotas when validation and insert are separate steps. They hold exactly as long as every insert
    still finds the room its validation saw, and they do when each user books one thing at a time,
    whatever else runs in between. */
module InterleavedQuotas {
  import opened Clock
  import opened Domain
  import opened Tally
  import opened Booking
  import opened BookingRuns
  import opened Quotas
  import opened Interleaving
  import Tokens
  import M = Machine

  function OwnDay(r: Reservation): int {
    DayStart(r.start, r.offset)
  }

  ghost predicate WithinLimits(cfg: Settings, rs: seq<Reservation>) {
    CoverBounded(cfg, rs) && OwnBounded(cfg, rs)
  }

  /** No instant of the window has all the bookings the user may have. */
  ghost predicate CoverRoom(cfg: Settings, rs: seq<Reservation>, r: Reservation) {
    forall t :: Covers(r, t) ==> Total(rs, Covering(r.user, t)) < cfg.maxConcurrent
  }

  /** The minutes charged to the day of the row leave room for the row's share of it. */
  ghost predicate OwnRoom(cfg: Settings, rs: seq<Reservation>, r: Reservation) {
    Total(rs, Own(r.user, r.offset, OwnDay(r))) + Clipped(r, OwnDay(r)) <= cfg.maxHoursPerDay * 60
  }

  ghost predicate RoomFor(cfg: Settings, rs: seq<Reservation>, r: Reservation) {
    CoverRoom(cfg, rs, r) && OwnRoom(cfg, rs, r)
  }

  /** The concurrency limit survives one more row exactly when there is room at each of its instants. */
  lemma CoverKeptIff(cfg: Settings, rs: seq<Reservation>, r: Reservation)
    requires CoverBounded(cfg, rs) && Active(r)
    ensures CoverBounded(cfg, rs + [r]) <==> CoverRoom(cfg, rs, r)
  {
    forall user, t
      ensures Total(rs + [r], Covering(user, t)) ==
        Total(rs, Covering(user, t)) + if user == r.user && Covers(r, t) then 1 else 0
    {
      TotalAppend(rs, r, Covering(user, t));
    }
    if CoverBounded(cfg, rs + [r]) {
      forall t | Covers(r, t)
        ensures Total(rs, Covering(r.user, t)) < cfg.maxConcurrent
      {
        assert Total(rs + [r], Covering(r.user, t)) <= cfg.maxConcurrent;
      }
    }
  }

  /** The daily limit survives it exactly when its own day has room. */
  lemma OwnKeptIff(cfg: Settings, rs: seq<Reservation>, r: Reservation)
    requires OwnBounded(cfg, rs) && Active(r)
    ensures OwnBounded(cfg, rs + [r]) <==> OwnRoom(cfg, rs, r)
  {
    forall user, offset, day
      ensures Total(rs + [r], Own(user, offset, day)) == Total(rs, Own(user, offset, day)) +
        if user == r.user && offset == r.offset && day == OwnDay(r) then Clipped(r, day) else 0
    {
      TotalAppend(rs, r, Own(user, offset, day));
    }
    if OwnBounded(cfg, rs + [r]) {
      assert Total(rs + [r], Own(r.user, r.offset, OwnDay(r))) <= cfg.maxHoursPerDay * 60;
    }
  }

  ghost predicate Inserts(s: Shared, a: Action) {
    a.InsertStep? && InsertAnswer(s, a.request).1.Success?
  }

  /** What any action may do to the table. */
  lemma ActOnTable(cfg: Settings, s: Shared, a: Action)
    ensures var rs, rs' := s.db.reservations, Act(cfg, s, a).db.reservations;
      if Inserts(s, a) then a.request in s.drafts && rs' == rs + [s.drafts[a.request]]
      else rs' == rs || exists i :: 0 <= i < |rs| && rs' == rs[i := CanceledAt(rs[i], s.db.now)]
  {
    if a.Other? && BooksNothing(a.q) {
      OthersLeaveTable(cfg, s.db, a.q);
    }
  }

  /** A cancellation lowers every total. */
  lemma CancelLowers(rs: seq<Reservation>, i: nat, at: int, user: int, offset: int, day: int, t: int)
    requires i < |rs|
    ensures var rs' := rs[i := CanceledAt(rs[i], at)];
      && Total(rs', Covering(user, t)) <= Total(rs, Covering(user, t))
      && Total(rs', Own(user, offset, day)) <= Total(rs, Own(user, offset, day))
      && Total(rs', Held(user, day)) <= Total(rs, Held(user, day))
  {
    TotalUpdate(rs, i, CanceledAt(rs[i], at), Covering(user, t));
    TotalUpdate(rs, i, CanceledAt(rs[i], at), Own(user, offset, day));
    TotalUpdate(rs, i, CanceledAt(rs[i], at), Held(user, day));
  }

  lemma CancelKeepsLimits(cfg: Settings, rs: seq<Reservation>, i: nat, at: int)
    requires WithinLimits(cfg, rs) && i < |rs|
    ensures WithinLimits(cfg, rs[i := CanceledAt(rs[i], at)])
  {
    forall user, t
      ensures Total(rs[i := CanceledAt(rs[i], at)], Covering(user, t)) <= cfg.maxConcurrent
    {
      CancelLowers(rs, i, at, user, 0, 0, t);
      assert Total(rs, Covering(user, t)) <= cfg.maxConcurrent;
    }
    forall user, offset, day
      ensures Total(rs[i := CanceledAt(rs[i], at)], Own(user, offset, day)) <= cfg.maxHoursPerDay * 60
    {
      CancelLowers(rs, i, at, user, offset, day, 0);
      assert Total(rs, Own(user, offset, day)) <= cfg.maxHoursPerDay * 60;
    }
  }

  /** One action keeps the limits exactly when it is no insert, or an insert that has room. */
  lemma ActKeepsLimitsIff(cfg: Settings, s: Shared, a: Action)
    requires WellDrafted(s) && WithinLimits(cfg, s.db.reservations)
    ensures WithinLimits(cfg, Act(cfg, s, a).db.reservations) <==>
      (Inserts(s, a) ==> RoomFor(cfg, s.db.reservations, s.drafts[a.request]))
  {
    var rs, rs' := s.db.reservations, Act(cfg, s, a).db.reservations;
    ActOnTable(cfg, s, a);
    if Inserts(s, a) {
      CoverKeptIff(cfg, rs, s.drafts[a.request]);
      OwnKeptIff(cfg, rs, s.drafts[a.request]);
    } else if rs' != rs {
      var i :| 0 <= i < |rs| && rs' == rs[i := CanceledAt(rs[i], s.db.now)];
      CancelKeepsLimits(cfg, rs, i, s.db.now);
    }
  }

  /** Action `k` inserts nothing, or what it inserts has room. */
  ghost predicate HasRoom(cfg: Settings, start: int, actions: seq<Action>, k: nat)
    requires k < |actions|
  {
    var s := Interleave(cfg, start, actions[..k]);
    Inserts(s, actions[k]) ==>
      actions[k].request in s.drafts && RoomFor(cfg, s.db.reservations, s.drafts[actions[k].request])
  }

  ghost predicate WithinAt(cfg: Settings, start: int, actions: seq<Action>, k: nat)
    requires k <= |actions|
  {
    WithinLimits(cfg, Interleave(cfg, start, actions[..k]).db.reservations)
  }

  /** The exact condition, over every interleaving: both limits hold throughout if and only if every
      insert finds room, at every instant of its window and in its own day, at the moment it is made. */
  lemma {:induction false} QuotasHoldIff(cfg: Settings, start: int, actions: seq<Action>, n: nat)
    requires n <= |actions|
    ensures (forall k :: 0 <= k <= n ==> WithinAt(cfg, start, actions, k)) <==>
      (forall k :: 0 <= k < n ==> HasRoom(cfg, start, actions, k))
  {
    if n == 0 {
      EmptyWithin(cfg, start);
    } else {
      QuotasHoldIff(cfg, start, actions, n - 1);
      if WithinAt(cfg, start, actions, n - 1) {
        WithinNextIff(cfg, start, actions, n - 1);
      }
    }
  }

  lemma EmptyWithin(cfg: Settings, start: int)
    ensures WithinLimits(cfg, Interleave(cfg, start, []).db.reservations)
  {
  }

  lemma WithinNextIff(cfg: Settings, start: int, actions: seq<Action>, k: nat)
    requires k < |actions| && WithinAt(cfg, start, actions, k)
    ensures WithinAt(cfg, start, actions, k + 1) <==> HasRoom(cfg, start, actions, k)
  {
    var s := Interleave(cfg, start, actions[..k]);
    RunsWellDrafted(cfg, start, actions[..k]);
    InterleaveNext(cfg, start, actions, k);
    ActKeepsLimitsIff(cfg, s, actions[k]);
  }

  /** A user whose validation runs while none of the user's own bookings waits for its insert. */
  predicate Alone(s: Shared, a: Action) {
    a.Validate? || a.ValidateInstant? ==> forall p :: p in s.drafts ==> s.drafts[p].user != a.user.id
  }

  ghost predicate OneAtATime(cfg: Settings, start: int, actions: seq<Action>) {
    forall k :: 0 <= k < |actions| ==> Alone(Interleave(cfg, start, actions[..k]), actions[k])
  }

  /** Room by the stricter measure of the check: everything the user holds in the day of the row. */
  ghost predicate Fits(cfg: Settings, rs: seq<Reservation>, r: Reservation) {
    CoverRoom(cfg, rs, r) && Total(rs, Held(r.user, OwnDay(r))) + Clipped(r, OwnDay(r)) <= cfg.maxHoursPerDay * 60
  }

  lemma CheckedFits(cfg: Settings, s: State, r: Reservation)
    requires WholeSeconds(s.reservations) && Checked(cfg, s, r)
    ensures Fits(cfg, s.reservations, r)
  {
    forall t | Covers(r, t)
      ensures Total(s.reservations, Covering(r.user, t)) < cfg.maxConcurrent
    {
      CoveringWasOpen(cfg, s, r, t);
    }
  }

  lemma FitsHasRoom(cfg: Settings, rs: seq<Reservation>, r: Reservation)
    requires Fits(cfg, rs, r)
    ensures RoomFor(cfg, rs, r)
  {
    OwnWithinHeld(rs, r.user, r.offset, OwnDay(r));
  }

  lemma FitsBesideOthers(cfg: Settings, rs: seq<Reservation>, r: Reservation, other: Reservation)
    requires Fits(cfg, rs, r) && other.user != r.user
    ensures Fits(cfg, rs + [other], r)
  {
    forall t | Covers(r, t)
      ensures Total(rs + [other], Covering(r.user, t)) < cfg.maxConcurrent
    {
      TotalAppend(rs, other, Covering(r.user, t));
    }
    TotalAppend(rs, other, Held(r.user, OwnDay(r)));
  }

  lemma FitsAfterCancel(cfg: Settings, rs: seq<Reservation>, r: Reservation, i: nat, at: int)
    requires Fits(cfg, rs, r) && i < |rs|
    ensures Fits(cfg, rs[i := CanceledAt(rs[i], at)], r)
  {
    forall t | Covers(r, t)
      ensures Total(rs[i := CanceledAt(rs[i], at)], Covering(r.user, t)) < cfg.maxConcurrent
    {
      CancelLowers(rs, i, at, r.user, 0, 0, t);
    }
    CancelLowers(rs, i, at, r.user, 0, OwnDay(r), 0);
  }

  /** Each user has at most one draft, and it still fits. */
  ghost predicate DraftsFit(cfg: Settings, s: Shared) {
    && (forall p, p' :: p in s.drafts && p' in s.drafts && p != p' ==> s.drafts[p].user != s.drafts[p'].user)
    && (forall p :: p in s.drafts ==> Fits(cfg, s.db.reservations, s.drafts[p]))
  }

  /** Which drafts an action leaves: those there were, and the one it validated. */
  lemma ActOnDrafts(cfg: Settings, s: Shared, a: Action, p: int)
    requires WellDrafted(s) && p in Act(cfg, s, a).drafts
    ensures var d := Act(cfg, s, a).drafts[p];
      || (p in s.drafts && d == s.drafts[p] && (a.InsertStep? ==> p != a.request))
      || ((a.Validate? || a.ValidateInstant?) && p == a.request && d.user == a.user.id && Checked(cfg, s.db, d)
          && Act(cfg, s, a).db == s.db)
  {
    if a.Validate? && BookingDraft(cfg, s.db, a.user, a.host, a.starts, a.ends).Success? {
      BookingChecked(cfg, s.db, a.user, a.host, a.starts, a.ends);
    } else if a.ValidateInstant? && InstantDraft(cfg, s.db, a.user, a.host).Success? {
      InstantChecked(cfg, s.db, a.user, a.host);
    }
  }

  lemma DraftStillFits(cfg: Settings, s: Shared, a: Action, d: Reservation)
    requires Fits(cfg, s.db.reservations, d)
    requires Inserts(s, a) && a.request in s.drafts ==> s.drafts[a.request].user != d.user
    ensures Fits(cfg, Act(cfg, s, a).db.reservations, d)
  {
    var rs, rs' := s.db.reservations, Act(cfg, s, a).db.reservations;
    ActOnTable(cfg, s, a);
    if Inserts(s, a) {
      FitsBesideOthers(cfg, rs, d, s.drafts[a.request]);
    } else if rs' != rs {
      var i :| 0 <= i < |rs| && rs' == rs[i := CanceledAt(rs[i], s.db.now)];
      FitsAfterCancel(cfg, rs, d, i, s.db.now);
    }
  }

  lemma DraftsFitAct(cfg: Settings, s: Shared, a: Action)
    requires WellDrafted(s) && DraftsFit(cfg, s) && Alone(s, a)
    ensures DraftsFit(cfg, Act(cfg, s, a))
  {
    var s' := Act(cfg, s, a);
    forall p | p in s'.drafts
      ensures Fits(cfg, s'.db.reservations, s'.drafts[p])
    {
      ActOnDrafts(cfg, s, a, p);
      if p in s.drafts && s'.drafts[p] == s.drafts[p] {
        DraftStillFits(cfg, s, a, s.drafts[p]);
      } else {
        CheckedFits(cfg, s.db, s'.drafts[p]);
      }
    }
    forall p, p' | p in s'.drafts && p' in s'.drafts && p != p'
      ensures s'.drafts[p].user != s'.drafts[p'].user
    {
      ActOnDrafts(cfg, s, a, p);
      ActOnDrafts(cfg, s, a, p');
    }
  }

  lemma {:induction false} DraftsFitRuns(cfg: Settings, start: int, actions: seq<Action>)
    requires OneAtATime(cfg, start, actions)
    ensures DraftsFit(cfg, Interleave(cfg, start, actions))
  {
    if |actions| > 0 {
      var n := |actions| - 1;
      Earlier(cfg, start, actions, n);
      DraftsFitRuns(cfg, start, actions[..n]);
      RunsWellDrafted(cfg, start, actions[..n]);
      DraftsFitAct(cfg, Interleave(cfg, start, actions[..n]), actions[n]);
    }
  }

  lemma Earlier(cfg: Settings, start: int, actions: seq<Action>, n: nat)
    requires OneAtATime(cfg, start, actions) && n <= |actions|
    ensures OneAtATime(cfg, start, actions[..n])
  {
    forall k | 0 <= k < n
      ensures Alone(Interleave(cfg, start, actions[..n][..k]), actions[..n][k])
    {
      assert actions[..n][..k] == actions[..k];
    }
  }

  /** One booking at a time per user is enough: with validations and inserts of different users, and
      all the other calls, interleaved in any way, both limits hold throughout, and right after each
      insert all that its user holds in the day of the row is within the daily limit. */
  lemma OneAtATimeKeepsQuotas(cfg: Settings, start: int, actions: seq<Action>)
    requires OneAtATime(cfg, start, actions)
    ensures WithinLimits(cfg, Interleave(cfg, start, actions).db.reservations)
    ensures forall request :: request in Interleave(cfg, start, actions).drafts ==>
      OwnDayWithinAfter(cfg, Interleave(cfg, start, actions), request)
  {
    var s := Interleave(cfg, start, actions);
    forall k | 0 <= k < |actions|
      ensures HasRoom(cfg, start, actions, k)
    {
      EveryInsertFits(cfg, start, actions, k);
    }
    QuotasHoldIff(cfg, start, actions, |actions|);
    assert actions[..|actions|] == actions && WithinAt(cfg, start, actions, |actions|);
    DraftsFitRuns(cfg, start, actions);
    forall request | request in s.drafts
      ensures OwnDayWithinAfter(cfg, s, request)
    {
      var r := s.drafts[request];
      TotalAppend(s.db.reservations, r, Held(r.user, OwnDay(r)));
    }
  }

  /** If the draft goes in now, its user holds no more than the limit in its day. */
  ghost predicate OwnDayWithinAfter(cfg: Settings, s: Shared, request: int)
    requires request in s.drafts
  {
    var (s', answer) := InsertAnswer(s, request);
    var r := s.drafts[request];
    answer.Success? ==> Total(s'.db.reservations, Held(r.user, OwnDay(r))) <= cfg.maxHoursPerDay * 60
  }

  lemma EveryInsertFits(cfg: Settings, start: int, actions: seq<Action>, k: nat)
    requires OneAtATime(cfg, start, actions) && k < |actions|
    ensures HasRoom(cfg, start, actions, k)
  {
    var s := Interleave(cfg, start, actions[..k]);
    Earlier(cfg, start, actions, k);
    DraftsFitRuns(cfg, start, actions[..k]);
    if Inserts(s, actions[k]) {
      FitsHasRoom(cfg, s.db.reservations, s.drafts[actions[k].request]);
    }
  }

  /** One insert, exactly: from tables within the limits, in any state an interleaving reaches, a
      successful insert keeps the concurrency limit iff no instant of its window already has all its
      user may have, and the daily limit iff its own day has room. */
  lemma InsertKeepsQuotasIff(cfg: Settings, start: int, actions: seq<Action>, request: int)
    requires request in Interleave(cfg, start, actions).drafts
    ensures var s := Interleave(cfg, start, actions);
      var r := s.drafts[request];
      var (s', answer) := InsertAnswer(s, request);
      answer.Success? ==>
        && (CoverBounded(cfg, s.db.reservations) ==>
              (CoverBounded(cfg, s'.db.reservations) <==> CoverRoom(cfg, s.db.reservations, r)))
        && (OwnBounded(cfg, s.db.reservations) ==>
              (OwnBounded(cfg, s'.db.reservations) <==> OwnRoom(cfg, s.db.reservations, r)))
        && Total(s'.db.reservations, Held(r.user, OwnDay(r))) ==
             Total(s.db.reservations, Held(r.user, OwnDay(r))) + Clipped(r, OwnDay(r))
  {
    var s := Interleave(cfg, start, actions);
    var r := s.drafts[request];
    RunsWellDrafted(cfg, start, actions);
    if CoverBounded(cfg, s.db.reservations) {
      CoverKeptIff(cfg, s.db.reservations, r);
    }
    if OwnBounded(cfg, s.db.reservations) {
      OwnKeptIff(cfg, s.db.reservations, r);
    }
    TotalAppend(s.db.reservations, r, Held(r.user, OwnDay(r)));
  }

  /** A limit of one booking and one hour a day, two hosts, and two validations of one user before the
      first insert. */
  const TIGHT := DEFAULTS.(maxConcurrent := 1, maxHoursPerDay := 1)

  function TwoAtOnce(): seq<Action> {
    [ Other(M.FIRST_HOST),
      Other(M.RegisterHost(User(1, true), "b")),
      Validate(1, User(2, false), 0, Aware(0, 0), Aware(2 * SLOT, 0)),
      Validate(2, User(2, false), 1, Aware(0, 0), Aware(2 * SLOT, 0)),
      InsertStep(1),
      InsertStep(2) ]
  }

  function HourOn(host: int): Reservation {
    Reservation(2, host, 0, 2 * SLOT, 0, Confirmed, None)
  }

  lemma TwoHostsRegistered()
    ensures var s := Interleave(TIGHT, 0, TwoAtOnce()[..2]);
      s.db.reservations == [] && |s.db.hosts| == 2 && s.db.now == 0 && s.drafts == map[]
  {
    InterleaveNext(TIGHT, 0, TwoAtOnce(), 0);
    InterleaveNext(TIGHT, 0, TwoAtOnce(), 1);
    var s := Interleave(TIGHT, 0, TwoAtOnce()[..1]);
    assert s.db.tokens == [Tokens.NewToken("a", 1, 0, None, Agent, 0, 3650 * DAY)];
  }

  lemma HourValid(s: State, host: int)
    requires s.reservations == [] && s.now == 0 && HostExists(s, host)
    ensures BookingDraft(TIGHT, s, User(2, false), host, Aware(0, 0), Aware(2 * SLOT, 0)) == Success(HourOn(host))
  {
    assert WindowOk(TIGHT, 0, Aware(0, 0), Aware(2 * SLOT, 0));
    assert CheckQuota(TIGHT, s, 2, 0, 0, 2 * SLOT).None?;
  }

  lemma BothValidated()
    ensures var s := Interleave(TIGHT, 0, TwoAtOnce()[..4]);
      s.db.reservations == [] && s.drafts == map[1 := HourOn(0), 2 := HourOn(1)]
  {
    TwoHostsRegistered();
    var s := Interleave(TIGHT, 0, TwoAtOnce()[..2]);
    HourValid(s.db, 0);
    HourValid(s.db, 1);
    InterleaveNext(TIGHT, 0, TwoAtOnce(), 2);
    InterleaveNext(TIGHT, 0, TwoAtOnce(), 3);
  }

  lemma BothInserted()
    ensures Interleave(TIGHT, 0, TwoAtOnce()).db.reservations == [HourOn(0)] + [HourOn(1)]
  {
    BothValidated();
    InterleaveNext(TIGHT, 0, TwoAtOnce(), 4);
    InterleaveNext(TIGHT, 0, TwoAtOnce(), 5);
    assert TwoAtOnce()[..6] == TwoAtOnce();
  }

  lemma TwoRows(a: Reservation, b: Reservation, weight: Reservation -> int)
    ensures Total([a] + [b], weight) == weight(a) + weight(b)
  {
    assert [] + [a] == [a];
    TotalAppend([], a, weight);
    TotalAppend([a], b, weight);
  }

  lemma HourLoad(host: int)
    ensures Covering(2, 0)(HourOn(host)) == 1
    ensures Own(2, 0, 0)(HourOn(host)) == 60
  {
  }

  /** Two bookings of one user at a time can exceed both limits: both inserts succeed. */
  lemma TwoAtOnceExceed()
    ensures var rs := Interleave(TIGHT, 0, TwoAtOnce()).db.reservations;
      Total(rs, Covering(2, 0)) == 2 > TIGHT.maxConcurrent && Total(rs, Own(2, 0, 0)) == 120 > TIGHT.maxHoursPerDay * 60
  {
    BothInserted();
    HourLoad(0);
    HourLoad(1);
    TwoRows(HourOn(0), HourOn(1), Covering(2, 0));
    TwoRows(HourOn(0), HourOn(1), Own(2, 0, 0));
  }
}
