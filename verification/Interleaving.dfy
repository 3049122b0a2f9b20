/** Bookings whose validation and insert are separate steps, so that other requests run in between.
    The exclusion constraint keeps the table disjoint all the same. What the quotas need is in
    InterleavedQuotas. */
module Interleaving {
  import opened Clock
  import opened Domain
  import opened Booking
  import opened BookingRuns
  import opened Grid
  import M = Machine

  /** The tables, and the validated bookings that have not been inserted yet. */
  datatype Shared = Shared(db: State, drafts: map<int, Reservation>)

  datatype Action =
    | Advance(duration: nat)
    | Validate(request: int, user: User, host: int, starts: Stamp, ends: Stamp)
    | ValidateInstant(request: int, user: User, host: int)
    | InsertStep(request: int)
    | Abandon(request: int)
    | CancelStep(user: User, id: int)
    | Other(q: M.Request)

  function Drafted(s: Shared, request: int, draft: Result<Reservation>): Shared {
    if draft.Success? then s.(drafts := s.drafts[request := draft.value]) else s
  }

  /** The insert of a validated booking, with its answer. */
  function InsertAnswer(s: Shared, request: int): (Shared, Result<nat>) {
    if request !in s.drafts then (s, Failure(NoSuchRequest))
    else
      var (db, answer) := Insert(s.db, s.drafts[request]);
      (Shared(db, s.drafts - {request}), answer)
  }

  /** Any other call of the broker that books nothing runs in between as well. */
  predicate BooksNothing(q: M.Request) {
    !q.Book? && !q.Instant? && !q.Cancel? && !q.Advance?
  }

  function Act(cfg: Settings, s: Shared, a: Action): Shared {
    match a
    case Advance(d) => s.(db := s.db.(now := s.db.now + d))
    case Validate(request, user, host, starts, ends) =>
      Drafted(s, request, BookingDraft(cfg, s.db, user, host, starts, ends))
    case ValidateInstant(request, user, host) => Drafted(s, request, InstantDraft(cfg, s.db, user, host))
    case InsertStep(request) => InsertAnswer(s, request).0
    case Abandon(request) => s.(drafts := s.drafts - {request})
    case CancelStep(user, id) => s.(db := Cancel(s.db, user, id).0)
    case Other(q) => if BooksNothing(q) then s.(db := M.Step(cfg, s.db, q)) else s
  }

  function Interleave(cfg: Settings, start: int, actions: seq<Action>): Shared {
    if |actions| == 0 then Shared(Initial(start), map[])
    else Act(cfg, Interleave(cfg, start, actions[..|actions| - 1]), actions[|actions| - 1])
  }

  /** Split and whole: validation followed at once by its insert is the booking, and the instant one. */
  lemma SplitIsWhole(
    cfg: Settings, s: Shared, request: int, user: User, host: int, starts: Stamp, ends: Stamp)
    requires request !in s.drafts
    ensures Act(cfg, Act(cfg, s, Validate(request, user, host, starts, ends)), InsertStep(request)) ==
      Shared(Create(cfg, s.db, user, host, starts, ends).0, s.drafts)
    ensures Act(cfg, Act(cfg, s, ValidateInstant(request, user, host)), InsertStep(request)) ==
      Shared(CreateInstant(cfg, s.db, user, host).0, s.drafts)
  {
    DraftThenInsert(s, request, BookingDraft(cfg, s.db, user, host, starts, ends));
    DraftThenInsert(s, request, InstantDraft(cfg, s.db, user, host));
  }

  lemma DraftThenInsert(s: Shared, request: int, draft: Result<Reservation>)
    requires request !in s.drafts
    ensures InsertAnswer(Drafted(s, request, draft), request).0 == Shared(InsertDraft(s.db, draft).0, s.drafts)
  {
    if draft.Success? {
      assert s.drafts[request := draft.value] - {request} == s.drafts;
    }
  }

  lemma CancelKeepsDisjoint(rs: seq<Reservation>, i: nat, at: int)
    requires Disjoint(rs) && i < |rs|
    ensures Disjoint(rs[i := CanceledAt(rs[i], at)])
  {
  }

  /** For any interleaving of validations, inserts, cancellations and the rest of the broker's calls,
      the active reservations of a host stay pairwise disjoint. */
  lemma {:induction false} InterleavingsDisjoint(cfg: Settings, start: int, actions: seq<Action>)
    ensures Disjoint(Interleave(cfg, start, actions).db.reservations)
  {
    if |actions| > 0 {
      var s, a := Interleave(cfg, start, actions[..|actions| - 1]), actions[|actions| - 1];
      InterleavingsDisjoint(cfg, start, actions[..|actions| - 1]);
      match a
      case CancelStep(user, id) =>
        if 0 <= id < |s.db.reservations| {
          CancelKeepsDisjoint(s.db.reservations, id, s.db.now);
        }
      case Other(q) =>
        if BooksNothing(q) {
          OthersLeaveTable(cfg, s.db, q);
        }
      case _ =>
    }
  }

  /** An insert whose validation passed, however long ago, succeeds exactly when no active reservation
      of the host meets the window at that moment; it then adds that row and nothing else, and on
      failure the table is untouched. Touching and cancelled windows are no obstacle. */
  lemma InsertSucceedsIffFree(cfg: Settings, start: int, actions: seq<Action>, request: int)
    requires request in Interleave(cfg, start, actions).drafts
    ensures var s := Interleave(cfg, start, actions);
      var r := s.drafts[request];
      var (s', answer) := InsertAnswer(s, request);
      && (answer.Success? <==>
            forall i ::
              0 <= i < |s.db.reservations| && Active(s.db.reservations[i]) && s.db.reservations[i].host == r.host ==>
              s.db.reservations[i].end <= r.start || r.end <= s.db.reservations[i].start)
      && (answer.Success? ==> s'.db.reservations == s.db.reservations + [r])
      && (answer.Failure? ==> s'.db.reservations == s.db.reservations && answer.error == Overlap)
  {
    RunsWellDrafted(cfg, start, actions);
    var s := Interleave(cfg, start, actions);
    assert forall i :: 0 <= i < |s.db.reservations| ==> s.db.reservations[i] in s.db.reservations;
  }

  /** Rows and drafts are non-empty windows on whole seconds, and drafts are confirmed. */
  ghost predicate WellDrafted(s: Shared) {
    && WholeSeconds(s.db.reservations)
    && (forall r :: r in s.db.reservations ==> r.start < r.end)
    && (forall p :: p in s.drafts ==> WholeDraft(s.drafts[p]))
  }

  predicate WholeDraft(r: Reservation) {
    r.status == Confirmed && r.start < r.end && r.start % SECOND == 0 && r.end % SECOND == 0
  }

  lemma {:induction false} RunsWellDrafted(cfg: Settings, start: int, actions: seq<Action>)
    ensures WellDrafted(Interleave(cfg, start, actions))
  {
    if |actions| > 0 {
      var s, a := Interleave(cfg, start, actions[..|actions| - 1]), actions[|actions| - 1];
      RunsWellDrafted(cfg, start, actions[..|actions| - 1]);
      WellDraftedAct(cfg, s, a);
    }
  }

  lemma WellDraftedAct(cfg: Settings, s: Shared, a: Action)
    requires WellDrafted(s)
    ensures WellDrafted(Act(cfg, s, a))
  {
    match a
    case Validate(request, user, host, starts, ends) =>
      if BookingDraft(cfg, s.db, user, host, starts, ends).Success? {
        BookingChecked(cfg, s.db, user, host, starts, ends);
      }
    case ValidateInstant(request, user, host) =>
      if InstantDraft(cfg, s.db, user, host).Success? {
        InstantChecked(cfg, s.db, user, host);
      }
    case CancelStep(user, id) =>
      if 0 <= id < |s.db.reservations| {
        assert s.db.reservations[id] in s.db.reservations;
      }
    case Other(q) =>
      if BooksNothing(q) {
        OthersLeaveTable(cfg, s.db, q);
      }
    case _ =>
  }

  predicate RegularAction(a: Action) {
    a.Validate? ==>
      && (a.starts.Aware? ==> a.starts.offset % SLOT_MINUTES == 0)
      && (a.ends.Aware? ==> a.ends.offset % SLOT_MINUTES == 0)
  }

  ghost predicate DraftsGridded(s: Shared) {
    forall p :: p in s.drafts ==>
      OnGrid(s.drafts[p].end) && (s.drafts[p].start > s.db.now ==> OnGrid(s.drafts[p].start))
  }

  lemma GriddedAct(cfg: Settings, s: Shared, a: Action)
    requires Gridded(s.db) && DraftsGridded(s) && RegularAction(a)
    ensures Gridded(Act(cfg, s, a).db) && DraftsGridded(Act(cfg, s, a))
  {
    match a
    case Validate(request, user, host, starts, ends) =>
      if BookingDraft(cfg, s.db, user, host, starts, ends).Success? {
        RegularBookingOnGrid(starts, ends);
      }
    case ValidateInstant(request, user, host) =>
      InstantEndsOnGrid(s.db, host);
    case CancelStep(user, id) =>
      if 0 <= id < |s.db.reservations| {
        assert s.db.reservations[id] in s.db.reservations;
      }
    case Other(q) =>
      if BooksNothing(q) {
        OthersLeaveTable(cfg, s.db, q);
      }
    case _ =>
  }

  /** The calendar needs no atomic bookings: interleavings of regular requests share no cell either. */
  lemma {:induction false} InterleavingsUnambiguous(cfg: Settings, start: int, actions: seq<Action>)
    requires forall i :: 0 <= i < |actions| ==> RegularAction(actions[i])
    ensures Gridded(Interleave(cfg, start, actions).db) && DraftsGridded(Interleave(cfg, start, actions))
    ensures Unambiguous(Interleave(cfg, start, actions).db.reservations)
  {
    if |actions| > 0 {
      InterleavingsUnambiguous(cfg, start, actions[..|actions| - 1]);
      GriddedAct(cfg, Interleave(cfg, start, actions[..|actions| - 1]), actions[|actions| - 1]);
    }
    InterleavingsDisjoint(cfg, start, actions);
    RunsWellDrafted(cfg, start, actions);
    DisjointIsUnambiguous(Interleave(cfg, start, actions).db.reservations);
  }

  /** One more action of an interleaving is one more step. */
  lemma InterleaveNext(cfg: Settings, start: int, actions: seq<Action>, k: nat)
    requires k < |actions|
    ensures Interleave(cfg, start, actions[..k + 1]) == Act(cfg, Interleave(cfg, start, actions[..k]), actions[k])
  {
    assert actions[..k + 1][..k] == actions[..k];
  }
}
