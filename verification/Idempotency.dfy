/**
 The idempotency layer of one merchant's key: any number of requests interleave
 their claims, reads and writes over one row
 (packages/backend/src/lib/idempotency.ts over
 packages/backend/src/db/idempotency/idempotencyKeyRepository.ts).
 */
module Idempotency {
  import opened Results

  /** What a key is bound to. */
  datatype Request = Request(verb: string, path: string, hash: string)

  /** A handler's answer; `body` is `None` for `res.json(undefined)`. */
  datatype Answer = Answer(status: int, body: Option<string>)
  {
    /** A 5xx, or no body, is not stored: the key is given back. */
    predicate IsStored() {
      status < 500 && body.Some?
    }
  }

  /** The row of the key: `leaseOver` and `expired` are the database clock's judgement. */
  datatype Row = Row(id: nat, request: Request, answer: Option<Answer>, leaseOver: bool, expired: bool)

  type Store = Option<Row>

  // -------------------------------------------------------------- the repository

  /** Whether `claimIdempotencyKey` wins: the row is new, expired, or a dead lease of the same request. */
  predicate ClaimWins(store: Store, request: Request) {
    store.None? || store.value.expired
    || (store.value.answer.None? && store.value.leaseOver && store.value.request == request)
  }

  /** `findIdempotencyKey`: an expired row answers nobody. */
  function Find(store: Store): Option<Row> {
    if store.None? || store.value.expired then None else store
  }

  /** Whether a write that names `claim` reaches the row: it is still in progress under that claim. */
  predicate Owns(store: Store, claim: nat) {
    store.Some? && store.value.id == claim && store.value.answer.None?
  }

  function Complete(store: Store, claim: nat, answer: Answer): Store {
    if Owns(store, claim) then Some(store.value.(answer := Some(answer), leaseOver := false)) else store
  }

  function Release(store: Store, claim: nat): Store {
    if Owns(store, claim) then None else store
  }

  // ---------------------------------------------------------------- the requests

  const CLAIM_ATTEMPTS := 3

  datatype Outcome = Ran | Replayed(answer: Answer) | Mismatched | InProgress

  /** Where one `claimAndRun` stands between two atomic steps. */
  datatype Phase =
    | Claiming(attempt: nat)
    | Finding(attempt: nat)
    | Running(claim: nat)
    | Recording(claim: nat, answer: Answer)
    | Done(outcome: Outcome)

  datatype Process = Process(request: Request, phase: Phase)
  {
    /** A handler is running under `claim`, or its answer is being recorded. */
    predicate Holds(claim: nat) {
      (phase.Running? && phase.claim == claim) || (phase.Recording? && phase.claim == claim)
    }

    predicate IsActive() {
      phase.Running? || phase.Recording?
    }
  }

  /** What happened to the key, in order. `Stored` is a write to a live row. */
  datatype Event =
    | Opened(claim: nat, request: Request)
    | Stored(request: Request, answer: Answer)
    | Released
    | Served(request: Request, answer: Answer)
    | LeaseRanOut
    | Expired

  datatype State = State(store: Store, processes: map<nat, Process>, nextClaim: nat, log: seq<Event>)

  const INITIAL := State(None, map[], 0, [])

  datatype Step =
    | Arrive(i: nat, request: Request)
    | Claim(i: nat)
    | Read(i: nat)
    | Reply(i: nat, answer: Answer)
    | Finish(i: nat, succeeds: bool)
    | Record(i: nat, succeeds: bool)
    | EndLease
    | Expire
    | Sweep

  function Move(s: State, i: nat, phase: Phase): State
    requires i in s.processes
  {
    s.(processes := s.processes[i := s.processes[i].(phase := phase)])
  }

  function DoClaim(s: State, i: nat, attempt: nat): State
    requires i in s.processes
  {
    var request := s.processes[i].request;
    if !ClaimWins(s.store, request) then Move(s, i, Finding(attempt)) else
      Move(s, i, Running(s.nextClaim)).(
        store := Some(Row(s.nextClaim, request, None, false, false)),
        nextClaim := s.nextClaim + 1,
        log := s.log + [Opened(s.nextClaim, request)])
  }

  function DoRead(s: State, i: nat, attempt: nat): State
    requires i in s.processes
  {
    var request := s.processes[i].request;
    match Find(s.store)
    case None => Move(s, i, if attempt + 1 < CLAIM_ATTEMPTS then Claiming(attempt + 1) else Done(InProgress))
    case Some(row) =>
      if row.request != request then Move(s, i, Done(Mismatched))
      else if row.answer.Some? then
        Move(s, i, Done(Replayed(row.answer.value))).(log := s.log + [Served(request, row.answer.value)])
      else Move(s, i, Done(InProgress))
  }

  /** The claim is given back; a failed write changes nothing. */
  function DoRelease(s: State, i: nat, claim: nat, succeeds: bool): State
    requires i in s.processes
  {
    var moved := Move(s, i, Done(Ran));
    if succeeds && Owns(s.store, claim) then moved.(store := Release(s.store, claim), log := s.log + [Released])
        else moved
  }

  /** The answer is stored; a failed write, or one whose claim was taken over, changes nothing. */
  function DoComplete(s: State, i: nat, claim: nat, answer: Answer, succeeds: bool): State
    requires i in s.processes
  {
    var moved := Move(s, i, Done(Ran));
    if !succeeds || !Owns(s.store, claim) then moved
    else if s.store.value.expired then moved.(store := Complete(s.store, claim, answer))
    else moved.(store := Complete(s.store, claim, answer), log := s.log + [Stored(s.store.value.request, answer)])
  }

  /** One step; a step that is not enabled changes nothing. */
  function Apply(s: State, step: Step): State {
    match step
    case Arrive(i, request) =>
      if i in s.processes then s else s.(processes := s.processes[i := Process(request, Claiming(0))])
    case Claim(i) =>
      if i in s.processes && s.processes[i].phase.Claiming? then DoClaim(s, i, s.processes[i].phase.attempt) else s
    case Read(i) =>
      if i in s.processes && s.processes[i].phase.Finding? then DoRead(s, i, s.processes[i].phase.attempt) else s
    case Reply(i, answer) =>
      if i in s.processes && s.processes[i].phase.Running?
          then Move(s, i, Recording(s.processes[i].phase.claim, answer)) else s
    case Finish(i, succeeds) =>
      if i in s.processes && s.processes[i].phase.Running? then DoRelease(s, i, s.processes[i].phase.claim, succeeds)
          else s
    case Record(i, succeeds) =>
      if i in s.processes && s.processes[i].phase.Recording? then
        var Recording(claim, answer) := s.processes[i].phase;
        if answer.IsStored() then DoComplete(s, i, claim, answer, succeeds) else DoRelease(s, i, claim, succeeds)
      else s
    case EndLease =>
      if s.store.Some? && s.store.value.answer.None? then
        s.(store := Some(s.store.value.(leaseOver := true)), log := s.log + [LeaseRanOut])
      else s
    case Expire =>
      if s.store.Some? then s.(store := Some(s.store.value.(expired := true)), log := s.log + [Expired]) else s
    case Sweep =>
      if s.store.Some? && s.store.value.expired then s.(store := None) else s
  }

  /** A run: any interleaving of steps. */
  function Run(s: State, steps: seq<Step>): State
    decreases |steps|
  {
    if steps == [] then s else Run(Apply(s, steps[0]), steps[1..])
  }

  // ------------------------------------------------------------------- invariants

  function After(answers: seq<(Request, Answer)>, event: Event): seq<(Request, Answer)> {
    match event
    case Stored(request, answer) => answers + [(request, answer)]
    case Expired => []
    case _ => answers
  }

  /** The answers stored since the key last expired. */
  function Answers(log: seq<Event>): seq<(Request, Answer)> {
    if log == [] then [] else After(Answers(log[..|log| - 1]), log[|log| - 1])
  }

  /** At every point at most one answer is stored, and what is served is that answer to that request. */
  ghost predicate HistoryIsConsistent(log: seq<Event>) {
    && (forall k :: 0 <= k <= |log| ==> |Answers(log[..k])| <= 1)
    && (forall k :: 0 <= k < |log| && log[k].Served? ==> Answers(log[..k]) == [(log[k].request, log[k].answer)])
  }

  /** The answer the live row holds. */
  function LiveAnswers(store: Store): (answers: seq<(Request, Answer)>)
    ensures |answers| <= 1
  {
    if store.Some? && !store.value.expired && store.value.answer.Some?
    then [(store.value.request, store.value.answer.value)] else []
  }

  /** The live row's answer is the one answer of the history, and there is none without it. */
  ghost predicate StoreMatchesHistory(s: State) {
    Answers(s.log) == LiveAnswers(s.store)
  }

  /** A claim id is given once, so two handlers never hold the same claim. */
  ghost predicate ClaimsAreUnique(s: State) {
    && (s.store.Some? ==> s.store.value.id < s.nextClaim)
    && (forall i :: i in s.processes && s.processes[i].IsActive() ==> s.processes[i].phase.claim < s.nextClaim)
    && (forall i, j ::
          i in s.processes && j in s.processes && i != j && s.processes[i].IsActive() && s.processes[j].IsActive() ==>
            s.processes[i].phase.claim != s.processes[j].phase.claim)
  }

  /** Who holds the row's claim is bound to the row's request. */
  ghost predicate HolderMatchesRow(s: State) {
    s.store.Some? ==>
      forall i :: i in s.processes && s.processes[i].Holds(s.store.value.id)
          ==> s.processes[i].request == s.store.value.request
  }

  /** A request has always an attempt left while it claims or reads. */
  ghost predicate AttemptsAreBounded(s: State) {
    forall i :: i in s.processes ==>
      && (s.processes[i].phase.Claiming? ==> s.processes[i].phase.attempt < CLAIM_ATTEMPTS)
      && (s.processes[i].phase.Finding? ==> s.processes[i].phase.attempt < CLAIM_ATTEMPTS)
  }

  ghost predicate LogInv(s: State) {
    HistoryIsConsistent(s.log) && StoreMatchesHistory(s)
  }

  ghost predicate ProcessInv(s: State) {
    ClaimsAreUnique(s) && HolderMatchesRow(s) && AttemptsAreBounded(s)
  }

  ghost predicate Inv(s: State) {
    LogInv(s) && ProcessInv(s)
  }

  lemma {:induction false} Extended(log: seq<Event>, event: Event)
    requires HistoryIsConsistent(log) && |Answers(log + [event])| <= 1
    requires event.Served? ==> Answers(log) == [(event.request, event.answer)]
    ensures HistoryIsConsistent(log + [event])
  {
    var longer := log + [event];
    forall k | 0 <= k <= |longer| ensures |Answers(longer[..k])| <= 1 {
      if k <= |log| {
        assert longer[..k] == log[..k];
      } else {
        assert longer[..k] == longer;
      }
    }
    forall k | 0 <= k < |longer| && longer[k].Served?
      ensures Answers(longer[..k]) == [(longer[k].request, longer[k].answer)]
    {
      assert longer[..k] == log[..k];
      assert log[..|log|] == log;
    }
  }

  lemma {:induction false} AnswersExtended(log: seq<Event>, event: Event)
    ensures Answers(log + [event]) == After(Answers(log), event)
  {
    assert (log + [event])[..|log|] == log;
  }

  /** A step that logs an event which makes of the answers what the store now holds. */
  lemma {:induction false} Logged(s: State, after: State, event: Event)
    requires LogInv(s) && after.log == s.log + [event]
    requires After(LiveAnswers(s.store), event) == LiveAnswers(after.store)
    requires event.Served? ==> LiveAnswers(s.store) == [(event.request, event.answer)]
    ensures LogInv(after)
  {
    AnswersExtended(s.log, event);
    Extended(s.log, event);
  }

  /** A process that neither runs nor records holds no claim. */
  lemma {:induction false} MoveIdle(s: State, i: nat, phase: Phase)
    requires ProcessInv(s) && i in s.processes
    requires phase.Done? || ((phase.Claiming? || phase.Finding?) && phase.attempt < CLAIM_ATTEMPTS)
    ensures ProcessInv(Move(s, i, phase))
  {
  }

  /** The store may lose its row, or keep its identity, under the processes. */
  lemma {:induction false} StoreChanges(s: State, store: Store, log: seq<Event>)
    requires ProcessInv(s)
    requires store.Some? ==>
      s.store.Some? && store.value.id == s.store.value.id
      && store.value.request == s.store.value.request
    ensures ProcessInv(s.(store := store, log := log))
  {
  }

  lemma {:induction false} ClaimProcesses(s: State, i: nat)
    requires ProcessInv(s) && i in s.processes && ClaimWins(s.store, s.processes[i].request)
    ensures ProcessInv(DoClaim(s, i, 0))
  {
    var after := DoClaim(s, i, 0);
    assert forall j :: j in after.processes && j != i ==> after.processes[j] == s.processes[j];
  }

  lemma {:induction false} ClaimKeeps(s: State, i: nat, attempt: nat)
    requires Inv(s) && i in s.processes && s.processes[i].phase == Claiming(attempt)
    ensures Inv(DoClaim(s, i, attempt))
  {
    if ClaimWins(s.store, s.processes[i].request) {
      ClaimProcesses(s, i);
      Logged(s, DoClaim(s, i, attempt), Opened(s.nextClaim, s.processes[i].request));
    } else {
      MoveIdle(s, i, Finding(attempt));
    }
  }

  lemma {:induction false} ReadKeeps(s: State, i: nat, attempt: nat)
    requires Inv(s) && i in s.processes && s.processes[i].phase == Finding(attempt)
    ensures Inv(DoRead(s, i, attempt))
  {
    var after := DoRead(s, i, attempt);
    MoveIdle(s, i, after.processes[i].phase);
    var row := Find(s.store);
    if row.Some? && row.value.request == s.processes[i].request && row.value.answer.Some? {
      Logged(s, after, Served(row.value.request, row.value.answer.value));
      StoreChanges(Move(s, i, after.processes[i].phase), s.store, after.log);
    }
  }

  lemma {:induction false} ReleaseKeeps(s: State, i: nat, claim: nat, succeeds: bool)
    requires Inv(s) && i in s.processes
    ensures Inv(DoRelease(s, i, claim, succeeds))
  {
    MoveIdle(s, i, Done(Ran));
    if succeeds && Owns(s.store, claim) {
      Logged(s, DoRelease(s, i, claim, succeeds), Released);
      StoreChanges(Move(s, i, Done(Ran)), None, s.log + [Released]);
    }
  }

  lemma {:induction false} CompleteKeeps(s: State, i: nat, claim: nat, answer: Answer, succeeds: bool)
    requires Inv(s) && i in s.processes
    ensures Inv(DoComplete(s, i, claim, answer, succeeds))
  {
    MoveIdle(s, i, Done(Ran));
    if succeeds && Owns(s.store, claim) {
      var after := DoComplete(s, i, claim, answer, succeeds);
      StoreChanges(Move(s, i, Done(Ran)), after.store, after.log);
      if !s.store.value.expired {
        Logged(s, after, Stored(s.store.value.request, answer));
      }
    }
  }

  lemma {:induction false} RecordKeeps(s: State, i: nat, succeeds: bool)
    requires Inv(s) && i in s.processes && s.processes[i].phase.Recording?
    ensures Inv(Apply(s, Record(i, succeeds)))
  {
    var Recording(claim, answer) := s.processes[i].phase;
    if answer.IsStored() {
      CompleteKeeps(s, i, claim, answer, succeeds);
    } else {
      ReleaseKeeps(s, i, claim, succeeds);
    }
  }

  /** A lease that ends changes the row's clock alone. */
  lemma {:induction false} EndLeaseKeeps(s: State)
    requires Inv(s) && s.store.Some? && s.store.value.answer.None?
    ensures Inv(Apply(s, EndLease))
  {
    var after := Apply(s, EndLease);
    StoreChanges(s, after.store, after.log);
    Logged(s, after, LeaseRanOut);
  }

  lemma {:induction false} ExpireKeeps(s: State)
    requires Inv(s) && s.store.Some?
    ensures Inv(Apply(s, Expire))
  {
    var after := Apply(s, Expire);
    StoreChanges(s, after.store, after.log);
    Logged(s, after, Expired);
  }

  lemma {:induction false} SweepKeeps(s: State)
    requires Inv(s) && s.store.Some? && s.store.value.expired
    ensures Inv(Apply(s, Sweep))
  {
    StoreChanges(s, None, s.log);
  }

  lemma {:induction false} ReplyKeeps(s: State, i: nat, answer: Answer)
    requires Inv(s) && i in s.processes && s.processes[i].phase.Running?
    ensures Inv(Move(s, i, Recording(s.processes[i].phase.claim, answer)))
  {
  }

  lemma {:induction false} ArriveKeeps(s: State, i: nat, request: Request)
    requires Inv(s) && i !in s.processes
    ensures Inv(s.(processes := s.processes[i := Process(request, Claiming(0))]))
  {
  }

  lemma {:induction false} StepKeeps(s: State, step: Step)
    requires Inv(s)
    ensures Inv(Apply(s, step))
  {
    match step
    case Arrive(i, request) =>
      if i !in s.processes {
        ArriveKeeps(s, i, request);
      }
    case Claim(i) =>
      if i in s.processes && s.processes[i].phase.Claiming? {
        ClaimKeeps(s, i, s.processes[i].phase.attempt);
      }
    case Read(i) =>
      if i in s.processes && s.processes[i].phase.Finding? {
        ReadKeeps(s, i, s.processes[i].phase.attempt);
      }
    case Reply(i, answer) =>
      if i in s.processes && s.processes[i].phase.Running? {
        ReplyKeeps(s, i, answer);
      }
    case Finish(i, succeeds) =>
      if i in s.processes && s.processes[i].phase.Running? {
        ReleaseKeeps(s, i, s.processes[i].phase.claim, succeeds);
      }
    case Record(i, succeeds) =>
      if i in s.processes && s.processes[i].phase.Recording? {
        RecordKeeps(s, i, succeeds);
      }
    case EndLease =>
      if s.store.Some? && s.store.value.answer.None? {
        EndLeaseKeeps(s);
      }
    case Expire =>
      if s.store.Some? {
        ExpireKeeps(s);
      }
    case Sweep =>
      if s.store.Some? && s.store.value.expired {
        SweepKeeps(s);
      }
  }

  lemma {:induction false} RunKeeps(s: State, steps: seq<Step>)
    requires Inv(s)
    ensures Inv(Run(s, steps))
    decreases |steps|
  {
    if steps != [] {
      StepKeeps(s, steps[0]);
      RunKeeps(Apply(s, steps[0]), steps[1..]);
    }
  }

  // ------------------------------------------------- one answer, served as it was

  lemma {:induction false} AnswersSurvive(log: seq<Event>, j: nat, k: nat)
    requires j < k <= |log| && log[j].Stored?
    requires forall m :: j < m < k ==> !log[m].Expired?
    ensures |Answers(log[..k])| >= 1
    decreases k
  {
    var before := log[..k];
    assert before[..k - 1] == log[..k - 1];
    if j < k - 1 {
      AnswersSurvive(log, j, k - 1);
    }
  }

  lemma {:induction false} TwoAnswers(log: seq<Event>, j: nat, k: nat)
    requires j < k < |log| && log[j].Stored? && log[k].Stored?
    requires forall m :: j < m < k ==> !log[m].Expired?
    ensures |Answers(log[..k + 1])| >= 2
  {
    AnswersSurvive(log, j, k);
    assert log[..k + 1][..k] == log[..k];
  }

  /** Between two stored answers the key has expired. */
  lemma {:induction false} StoredOncePerWindow(steps: seq<Step>, j: nat, k: nat)
    requires j < k < |Run(INITIAL, steps).log|
    requires Run(INITIAL, steps).log[j].Stored? && Run(INITIAL, steps).log[k].Stored?
    ensures exists m :: j < m < k && Run(INITIAL, steps).log[m].Expired?
  {
    var log := Run(INITIAL, steps).log;
    RunKeeps(INITIAL, steps);
    if forall m :: j < m < k ==> !log[m].Expired? {
      TwoAnswers(log, j, k);
    }
  }

  /** An answer of the current window was stored, and the key has not expired since. */
  lemma {:induction false} AnswerWasStored(log: seq<Event>, request: Request, answer: Answer) returns (j: nat)
    requires (request, answer) in Answers(log)
    ensures j < |log| && log[j] == Stored(request, answer)
    ensures forall m :: j < m < |log| ==> !log[m].Expired?
  {
    var before := log[..|log| - 1];
    if log[|log| - 1] == Stored(request, answer) {
      j := |log| - 1;
    } else {
      j := AnswerWasStored(before, request, answer);
      forall m | j < m < |log| ensures !log[m].Expired? {
        if m < |log| - 1 {
          assert log[m] == before[m];
        }
      }
    }
  }

  /** What a request is served is exactly the answer stored for the same request, in the same window. */
  lemma {:induction false} ServedWasStored(steps: seq<Step>, k: nat)
    requires k < |Run(INITIAL, steps).log| && Run(INITIAL, steps).log[k].Served?
    ensures
      var log := Run(INITIAL, steps).log;
      exists j :: 0 <= j < k && log[j] == Stored(log[k].request, log[k].answer)
                  && forall m :: j < m < k ==> !log[m].Expired?
  {
    var log := Run(INITIAL, steps).log;
    RunKeeps(INITIAL, steps);
    var j := AnswerWasStored(log[..k], log[k].request, log[k].answer);
    assert log[j] == log[..k][j];
    forall m | j < m < k ensures !log[m].Expired? {
      assert log[m] == log[..k][m];
    }
  }

  // --------------------------------------------------------- while a record exists

  predicate IsLive(store: Store) {
    store.Some? && !store.value.expired
  }

  /** A live row exists at every point of the run. */
  ghost predicate Held(s: State, steps: seq<Step>)
    decreases |steps|
  {
    IsLive(s.store) && (steps == [] || Held(Apply(s, steps[0]), steps[1..]))
  }

  /** Where a request that came after `row` can stand: another request ends in 400, the same one in the row's answer. */
  predicate FollowsRow(p: Process, row: Row) {
    if p.request != row.request then p.phase in {Claiming(0), Finding(0), Done(Mismatched)}
    else if row.answer.Some? then p.phase in {Claiming(0), Finding(0), Done(Replayed(row.answer.value))}
    else true
  }

  /** `row` still stands: its request is bound, and its answer, once stored, is the row. */
  predicate Stands(row: Row, store: Store) {
    && IsLive(store)
    && store.value.request == row.request
    && (row.answer.Some? ==> store.value == row)
  }

  lemma {:induction false} HeldStep(s: State, step: Step, i: nat, row: Row)
    requires Stands(row, s.store) && IsLive(Apply(s, step).store)
    requires i in s.processes ==> FollowsRow(s.processes[i], row)
    ensures Stands(row, Apply(s, step).store)
    ensures i in Apply(s, step).processes ==> FollowsRow(Apply(s, step).processes[i], row)
  {
  }

  lemma {:induction false} HeldRun(s: State, steps: seq<Step>, i: nat, row: Row)
    requires Stands(row, s.store) && Held(s, steps)
    requires i in s.processes ==> FollowsRow(s.processes[i], row)
    ensures Stands(row, Run(s, steps).store)
    ensures i in Run(s, steps).processes ==> FollowsRow(Run(s, steps).processes[i], row)
    decreases |steps|
  {
    if steps != [] {
      HeldStep(s, steps[0], i, row);
      HeldRun(Apply(s, steps[0]), steps[1..], i, row);
    }
  }

  /**
   While the key is held, its row keeps its request and, once stored, its answer.
   A request that arrives then never runs when it differs or when the answer is
   stored: it ends in 400, or in exactly that answer.
   */
  lemma {:induction false} LaterRequests(before: seq<Step>, steps: seq<Step>, i: nat)
    requires Held(Run(INITIAL, before), steps) && i !in Run(INITIAL, before).processes
    ensures
      var row := Run(INITIAL, before).store.value;
      var t := Run(Run(INITIAL, before), steps);
      && Stands(row, t.store)
      && (i in t.processes ==> FollowsRow(t.processes[i], row))
  {
    HeldRun(Run(INITIAL, before), steps, i, Run(INITIAL, before).store.value);
  }

  // ------------------------------------------------------------ one handler at a time

  predicate IsTimely(step: Step) {
    !step.EndLease? && !step.Expire?
  }

  /** Without a timeout, a row is live and leased, and whoever runs holds it. */
  ghost predicate Exclusive(s: State) {
    && (s.store.Some? ==> !s.store.value.expired && !s.store.value.leaseOver)
    && (forall i :: i in s.processes && s.processes[i].IsActive() ==>
          Owns(s.store, s.processes[i].phase.claim) && s.store.value.request == s.processes[i].request)
  }

  lemma {:induction false} TimelyStep(s: State, step: Step)
    requires Inv(s) && Exclusive(s) && IsTimely(step)
    ensures Exclusive(Apply(s, step))
  {
  }

  lemma {:induction false} TimelyRun(s: State, steps: seq<Step>)
    requires Inv(s) && Exclusive(s) && forall k :: 0 <= k < |steps| ==> IsTimely(steps[k])
    ensures Inv(Run(s, steps)) && Exclusive(Run(s, steps))
    decreases |steps|
  {
    if steps != [] {
      StepKeeps(s, steps[0]);
      TimelyStep(s, steps[0]);
      TimelyRun(Apply(s, steps[0]), steps[1..]);
    }
  }

  /**
   As long as no lease runs out and the key does not expire, two handlers never run at once, and who
   runs owns the row.
   */
  lemma {:induction false} OneHandlerAtATime(steps: seq<Step>, i: nat, j: nat)
    requires forall k :: 0 <= k < |steps| ==> IsTimely(steps[k])
    requires
      var processes := Run(INITIAL, steps).processes;
      i in processes && j in processes && processes[i].IsActive() && processes[j].IsActive()
    ensures i == j && Owns(Run(INITIAL, steps).store, Run(INITIAL, steps).processes[i].phase.claim)
  {
    TimelyRun(INITIAL, steps);
  }

  /** And what it answers decides the key: a stored answer completes the row, any other gives the key back. */
  lemma {:induction false} RecordDecides(steps: seq<Step>, i: nat)
    requires forall k :: 0 <= k < |steps| ==> IsTimely(steps[k])
    requires i in Run(INITIAL, steps).processes && Run(INITIAL, steps).processes[i].phase.Recording?
    ensures
      var s := Run(INITIAL, steps);
      var t := Apply(s, Record(i, true));
      var answer := s.processes[i].phase.answer;
      && t.processes[i].phase == Done(Ran)
      && if answer.IsStored() then Find(t.store).Some? && t.store.value.request == s.processes[i].request
        && t.store.value.answer == Some(answer)
         else t.store == None
  {
    TimelyRun(INITIAL, steps);
  }

  // --------------------------------------------------------------- every request ends

  /** How many own steps a request has left before it runs or answers. */
  function Remaining(phase: Phase): int {
    match phase
    case Claiming(attempt) => 2 * (CLAIM_ATTEMPTS - attempt)
    case Finding(attempt) => 2 * (CLAIM_ATTEMPTS - attempt) - 1
    case _ => 0
  }

  /** Whatever the others do between, each own step brings a request nearer to its one outcome, in at most six. */
  lemma {:induction false} OwnStepsEnd(steps: seq<Step>, i: nat)
    requires i in Run(INITIAL, steps).processes
    ensures
      var s := Run(INITIAL, steps);
      var phase := s.processes[i].phase;
      && 0 <= Remaining(phase) <= 6 && (Remaining(phase) == 0 <==> !phase.Claiming? && !phase.Finding?)
      && (phase.Claiming? ==> 0 <= Remaining(Apply(s, Claim(i)).processes[i].phase) < Remaining(phase))
      && (phase.Finding? ==> 0 <= Remaining(Apply(s, Read(i)).processes[i].phase) < Remaining(phase))
  {
    RunKeeps(INITIAL, steps);
  }

  /** Nobody else moves a request. */
  lemma {:induction false} OthersDoNotMove(s: State, step: Step, i: nat)
    requires i in s.processes
    requires step.Arrive? || step.EndLease? || step.Expire? || step.Sweep? || step.i != i
    ensures i in Apply(s, step).processes && Apply(s, step).processes[i] == s.processes[i]
  {
  }
}
