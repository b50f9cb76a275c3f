/**
 One live tail stream (packages/backend/src/lib/liveStream.ts): tasks run one at
 a time in arrival order, over a cursor and a bounded memory of the rows sent.
 */
module LiveStream {
  import opened Results
  import opened Sequences

  /** `matches` is the stream's filter on the row; ids are the table's, in commit order. */
  datatype Row = Row(id: nat, matches: bool)

  const SENT_MEMORY := 1000
  const RESUME_LIMIT := 100

  /** A live signal of a row, or a catch-up from the cursor. */
  datatype Task = Live(id: nat) | Replay

  /** What the awaited read of the running task gives. */
  datatype Outcome = Loaded(row: Option<Row>) | Rows(rows: seq<Row>) | Failed

  datatype Input = Enqueue(task: Task) | TaskEnds(outcome: Outcome) | Close

  /**
   `sent` is the set in insertion order. `log` records every row the stream
   passed to `write`, `wire` those that left before the response closed.
   */
  datatype State = State(cursor: Option<nat>, sent: seq<nat>, closed: bool, queue: seq<Task>, log: seq<nat>,
      wire: seq<nat>)

  function Send(s: State, row: Row): State {
    var moved := s.(cursor := Some(row.id));
    if row.id in s.sent || !row.matches then moved else
      var sent := s.sent + [row.id];
      moved.(sent := if |sent| > SENT_MEMORY then sent[1..] else sent,
             log := s.log + [row.id],
             wire := if s.closed then s.wire else s.wire + [row.id])
  }

  function SendAll(s: State, rows: seq<Row>): State
    decreases |rows|
  {
    if rows == [] then s else SendAll(Send(s, rows[0]), rows[1..])
  }

  /** A replay without a cursor reads nothing; a failed read is logged and the queue goes on. */
  function RunTask(s: State, task: Task, outcome: Outcome): State {
    match outcome
    case Loaded(Some(row)) => if task.Live? then Send(s, row) else s
    case Rows(rows) => if task.Replay? && s.cursor.Some? then SendAll(s, rows) else s
    case _ => s
  }

  function Step(s: State, input: Input): State {
    match input
    case Enqueue(task) => s.(queue := s.queue + [task])
    case TaskEnds(outcome) => if s.queue == [] then s else RunTask(s.(queue := s.queue[1..]), s.queue[0], outcome)
    case Close => s.(closed := true)
  }

  function Run(s: State, inputs: seq<Input>): State
    decreases |inputs|
  {
    if inputs == [] then s else Run(Step(s, inputs[0]), inputs[1..])
  }

  function Start(cursor: Option<nat>): State {
    State(cursor, [], false, [], [], [])
  }

  /** The variables `serveLiveStream` closes over. */
  class Stream {
    var cursor: Option<nat>
    var sent: seq<nat>
    var closed: bool
    var queue: seq<Task>
    var wire: seq<nat>
    ghost var log: seq<nat>

    ghost function Value(): State
      reads this
    {
      State(cursor, sent, closed, queue, log, wire)
    }

    constructor (resumeFrom: Option<nat>)
      ensures Value() == Start(resumeFrom)
    {
      cursor, sent, closed, queue, wire := resumeFrom, [], false, [], [];
      log := [];
    }

    method SendRow(row: Row)
      modifies this
      ensures Value() == Send(old(Value()), row)
    {
      cursor := Some(row.id);
      if row.id in sent || !row.matches {
        return;
      }
      sent := sent + [row.id];
      if |sent| > SENT_MEMORY {
        sent := sent[1..];
      }
      log := log + [row.id];
      if !closed {
        wire := wire + [row.id];
      }
    }

    method EnqueueTask(task: Task)
      modifies this
      ensures Value() == Step(old(Value()), Enqueue(task))
    {
      queue := queue + [task];
    }

    /** The head task's read has settled: the rest of the task runs. */
    method EndTask(outcome: Outcome)
      requires queue != []
      modifies this
      ensures Value() == Step(old(Value()), TaskEnds(outcome))
    {
      var task := queue[0];
      queue := queue[1..];
      if task.Live? && outcome.Loaded? && outcome.row.Some? {
        SendRow(outcome.row.value);
      } else if task.Replay? && outcome.Rows? && cursor.Some? {
        ghost var goal := SendAll(Value(), outcome.rows);
        var rows := outcome.rows;
        while rows != []
          invariant SendAll(Value(), rows) == goal
          decreases |rows|
        {
          SendRow(rows[0]);
          rows := rows[1..];
        }
      }
    }

    method CloseStream()
      modifies this
      ensures Value() == Step(old(Value()), Close)
    {
      closed := true;
    }
  }

  // --------------------------------------------------------- the memory of sent rows

  function Last(log: seq<nat>, n: nat): seq<nat> {
    if |log| <= n then log else log[|log| - n..]
  }

  /** Equal rows in the log stand more than a memory apart. */
  ghost predicate RepeatsAreFar(log: seq<nat>) {
    forall i, j :: 0 <= i < j < |log| && log[i] == log[j] ==> j - i > SENT_MEMORY
  }

  ghost predicate Inv(s: State) {
    && s.sent == Last(s.log, SENT_MEMORY)
    && RepeatsAreFar(s.log)
    && s.wire <= s.log
    && (!s.closed ==> s.wire == s.log)
  }

  lemma {:induction false} InLast(log: seq<nat>, n: nat, i: nat)
    requires i < |log|
    ensures |log| - i <= n ==> log[i] in Last(log, n)
  {
    if |log| - i <= n && |log| > n {
      assert log[|log| - n..][i - (|log| - n)] == log[i];
    }
  }

  lemma {:induction false} SendKeeps(s: State, row: Row)
    requires Inv(s)
    ensures Inv(Send(s, row)) && s.log <= Send(s, row).log
  {
    if row.id !in s.sent && row.matches {
      var log := s.log + [row.id];
      forall i | 0 <= i < |s.log| && s.log[i] == row.id ensures |s.log| - i > SENT_MEMORY {
        InLast(s.log, SENT_MEMORY, i);
      }
      assert RepeatsAreFar(log);
    }
  }

  lemma {:induction false} SendAllKeeps(s: State, rows: seq<Row>)
    requires Inv(s)
    ensures Inv(SendAll(s, rows)) && s.log <= SendAll(s, rows).log
    decreases |rows|
  {
    if rows != [] {
      SendKeeps(s, rows[0]);
      SendAllKeeps(Send(s, rows[0]), rows[1..]);
    }
  }

  lemma {:induction false} StepKeeps(s: State, input: Input)
    requires Inv(s)
    ensures Inv(Step(s, input)) && s.log <= Step(s, input).log
  {
    if input.TaskEnds? && s.queue != [] {
      var t := s.(queue := s.queue[1..]);
      match input.outcome
      case Loaded(Some(row)) => SendKeeps(t, row);
      case Rows(rows) => SendAllKeeps(t, rows);
      case _ =>
    }
  }

  /**
   In every run the memory is exactly the last thousand rows written, so two
   writes of one row have at least a thousand others between them.
   */
  lemma {:induction false} RunKeeps(s: State, inputs: seq<Input>)
    requires Inv(s)
    ensures Inv(Run(s, inputs)) && s.log <= Run(s, inputs).log
    decreases |inputs|
  {
    if inputs != [] {
      StepKeeps(s, inputs[0]);
      RunKeeps(Step(s, inputs[0]), inputs[1..]);
    }
  }

  // ---------------------------------------------------------------------- the close

  lemma {:induction false} ClosedSendAll(s: State, rows: seq<Row>)
    requires s.closed
    ensures SendAll(s, rows).closed && SendAll(s, rows).wire == s.wire
    decreases |rows|
  {
    if rows != [] {
      ClosedSendAll(Send(s, rows[0]), rows[1..]);
    }
  }

  /** After the close nothing reaches the response, whatever is still queued or signalled. */
  lemma {:induction false} ClosedStaysSilent(s: State, inputs: seq<Input>)
    requires s.closed
    ensures Run(s, inputs).closed && Run(s, inputs).wire == s.wire
    decreases |inputs|
  {
    if inputs != [] {
      var input := inputs[0];
      if input.TaskEnds? && input.outcome.Rows? && s.queue != [] {
        ClosedSendAll(s.(queue := s.queue[1..]), input.outcome.rows);
      }
      ClosedStaysSilent(Step(s, input), inputs[1..]);
    }
  }

  // -------------------------------------------------------------------- the replay

  /** The ids of the rows the stream's filter lets through. */
  function Matching(rows: seq<Row>): (ids: seq<nat>)
    ensures |ids| <= |rows|
  {
    if rows == [] then [] else (if rows[0].matches then [rows[0].id] else []) + Matching(rows[1..])
  }

  ghost predicate DistinctRows(rows: seq<Row>) {
    forall i, j :: 0 <= i < j < |rows| ==> rows[i].id != rows[j].id
  }

  /** `t` is `s` after the new rows `ids` went out. */
  predicate Sent(s: State, t: State, ids: seq<nat>) {
    && t.log == s.log + ids && t.sent == s.sent + ids && t.closed == s.closed
    && t.wire == (if s.closed then s.wire else s.wire + ids)
  }

  lemma {:induction false} SentTwice(s: State, t: State, u: State, a: seq<nat>, b: seq<nat>)
    requires Sent(s, t, a) && Sent(t, u, b)
    ensures Sent(s, u, a + b)
  {
    Regroup(s.log, a, b);
    Regroup(s.sent, a, b);
    Regroup(s.wire, a, b);
  }

  lemma {:induction false} SendAllNew(s: State, rows: seq<Row>)
    requires DistinctRows(rows) && |s.sent| + |rows| <= SENT_MEMORY
    requires forall i :: 0 <= i < |rows| ==> rows[i].id !in s.sent
    ensures Sent(s, SendAll(s, rows), Matching(rows))
    decreases |rows|
  {
    if rows != [] {
      var row, rest := rows[0], rows[1..];
      var t := Send(s, row);
      assert Sent(s, t, if row.matches then [row.id] else []);
      forall i | 0 <= i < |rest| ensures rest[i].id !in t.sent {
        assert rest[i] == rows[i + 1];
      }
      SendAllNew(t, rest);
      SentTwice(s, t, SendAll(t, rest), if row.matches then [row.id] else [], Matching(rest));
    } else {
      assert s.log + [] == s.log && s.sent + [] == s.sent && s.wire + [] == s.wire;
    }
  }

  function Tasks(queued: seq<Input>): seq<Task>
    requires forall i :: 0 <= i < |queued| ==> queued[i].Enqueue?
  {
    if queued == [] then [] else [queued[0].task] + Tasks(queued[1..])
  }

  lemma {:induction false} OnlyEnqueued(s: State, queued: seq<Input>)
    requires forall i :: 0 <= i < |queued| ==> queued[i].Enqueue?
    ensures Run(s, queued) == s.(queue := s.queue + Tasks(queued))
    decreases |queued|
  {
    if queued != [] {
      OnlyEnqueued(Step(s, queued[0]), queued[1..]);
      assert s.queue + [queued[0].task] + Tasks(queued[1..]) == s.queue + Tasks(queued);
    }
  }

  // ------------------------------------------------ what a late replay does not write

  /** `source.after(id, limit)` of a table in commit order. */
  function After(table: seq<Row>, id: nat): seq<Row> {
    if table == [] then [] else (if table[0].id > id then [table[0]] else []) + After(table[1..], id)
  }

  /** The cursor the live signals that ran first leave behind. */
  function CursorAfter(cursor: nat, live: seq<Row>): nat {
    if live == [] then cursor else live[|live| - 1].id
  }

  /** A stream resumed after `cursor` whose live signals of `live` ran before its replay of `table`. */
  function ResumeBehind(cursor: nat, live: seq<Row>, table: seq<Row>): State {
    SendAll(SendAll(Start(Some(cursor)), live), Take(After(table, CursorAfter(cursor, live)), RESUME_LIMIT))
  }

  lemma {:induction false} SendAllCursor(s: State, rows: seq<Row>)
    ensures SendAll(s, rows).cursor == if rows == [] then s.cursor else Some(rows[|rows| - 1].id)
    decreases |rows|
  {
    if rows != [] {
      SendAllCursor(Send(s, rows[0]), rows[1..]);
    }
  }

  lemma {:induction false} SendAllMembers(s: State, rows: seq<Row>, id: nat)
    requires Inv(s)
    ensures id in SendAll(s, rows).log <==> id in s.log || id in Matching(rows)
    decreases |rows|
  {
    if rows != [] {
      SendKeeps(s, rows[0]);
      SendAllMembers(Send(s, rows[0]), rows[1..], id);
    }
  }

  /** How many rows of a table are at or before `id`. */
  function UpTo(table: seq<Row>, id: nat): (p: nat)
    ensures p <= |table|
  {
    if table == [] || table[0].id > id then 0 else 1 + UpTo(table[1..], id)
  }

  ghost predicate IsTable(table: seq<Row>) {
    forall i, j :: 0 <= i < j < |table| ==> table[i].id < table[j].id
  }

  lemma {:induction false} AfterIsSuffix(table: seq<Row>, id: nat)
    requires IsTable(table)
    ensures After(table, id) == table[UpTo(table, id)..]
  {
    if table != [] {
      AfterIsSuffix(table[1..], id);
      if table[0].id > id && |table| > 1 {
        assert table[1].id > id && UpTo(table[1..], id) == 0;
      }
    }
  }

  lemma {:induction false} MatchingMembers(rows: seq<Row>, i: nat)
    requires IsTable(rows) && i < |rows| && rows[i].matches
    ensures rows[i].id in Matching(rows)
  {
    if i > 0 {
      MatchingMembers(rows[1..], i - 1);
    }
  }

  lemma {:induction false} MatchingIndex(rows: seq<Row>, id: nat)
    requires id in Matching(rows)
    ensures exists i :: 0 <= i < |rows| && rows[i].id == id
  {
    if !rows[0].matches || rows[0].id != id {
      MatchingIndex(rows[1..], id);
      var i :| 0 <= i < |rows[1..]| && rows[1..][i].id == id;
      assert rows[i + 1].id == id;
    } else {
      assert rows[0].id == id;
    }
  }

  lemma {:induction false} TakenAt(table: seq<Row>, p: nat, rows: seq<Row>)
    requires p <= |table| && rows == Take(table[p..], RESUME_LIMIT)
    ensures |rows| == if |table| - p <= RESUME_LIMIT then |table| - p else RESUME_LIMIT
    ensures forall k :: 0 <= k < |rows| ==> rows[k] == table[p + k]
  {
  }

  lemma {:induction false} MatchingIffIn(rows: seq<Row>, table: seq<Row>, p: nat, i: nat)
    requires IsTable(table) && i < |table| && table[i].matches && p + |rows| <= |table|
    requires forall k :: 0 <= k < |rows| ==> rows[k] == table[p + k]
    ensures table[i].id in Matching(rows) <==> p <= i < p + |rows|
  {
    if p <= i < p + |rows| {
      assert rows[i - p] == table[i];
      MatchingMembers(rows, i - p);
    }
    if table[i].id in Matching(rows) {
      MatchingIndex(rows, table[i].id);
      var k :| 0 <= k < |rows| && rows[k].id == table[i].id;
      assert table[p + k].id == table[i].id;
    }
  }

  /** Exactly the hundred rows behind the moved cursor are replayed. */
  lemma {:induction false} ReplayedIff(table: seq<Row>, cursor: nat, i: nat)
    requires IsTable(table) && i < |table| && table[i].matches
    ensures table[i].id in Matching(Take(After(table, cursor), RESUME_LIMIT)) <==>
      UpTo(table, cursor) <= i < UpTo(table, cursor) + RESUME_LIMIT
  {
    var p := UpTo(table, cursor);
    var rows := Take(After(table, cursor), RESUME_LIMIT);
    AfterIsSuffix(table, cursor);
    TakenAt(table, p, rows);
    MatchingIffIn(rows, table, p, i);
  }

  lemma {:induction false} ReplayedAreDistinct(table: seq<Row>, cursor: nat)
    requires IsTable(table)
    ensures DistinctRows(Take(After(table, cursor), RESUME_LIMIT))
  {
    AfterIsSuffix(table, cursor);
    TakenAt(table, UpTo(table, cursor), Take(After(table, cursor), RESUME_LIMIT));
  }

  /**
   When the replay is the first task, the matching ones of the at most hundred
   rows after the cursor are written first, oldest first, and none of them again
   among the first thousand and one writes of the stream, whatever is queued
   behind it, a live signal of one of them included.
   */
  lemma {:induction false} ReplayFirst(cursor: nat, queued: seq<Input>, table: seq<Row>, inputs: seq<Input>)
    requires IsTable(table)
    requires forall i :: 0 <= i < |queued| ==> queued[i].Enqueue?
    requires queued != [] && queued[0] == Enqueue(Replay)
    ensures
      var rows := Take(After(table, cursor), RESUME_LIMIT);
      var t := Run(Run(Start(Some(cursor)), queued), [TaskEnds(Rows(rows))] + inputs);
      && Matching(rows) <= t.log
      && (!t.closed ==> t.wire == t.log)
      && forall k, j ::
        0 <= k < |Matching(rows)| && 0 <= j < |t.log| && j <= SENT_MEMORY && t.log[j] == t.log[k]
        ==> j == k
  {
    var rows := Take(After(table, cursor), RESUME_LIMIT);
    ReplayedAreDistinct(table, cursor);
    assert |rows| <= RESUME_LIMIT;
    var s := Run(Start(Some(cursor)), queued);
    OnlyEnqueued(Start(Some(cursor)), queued);
    var first := Step(s, TaskEnds(Rows(rows)));
    var t := Run(s, [TaskEnds(Rows(rows))] + inputs);
    assert ([TaskEnds(Rows(rows))] + inputs)[1..] == inputs;
    SendAllNew(s.(queue := s.queue[1..]), rows);
    assert [] + Matching(rows) == Matching(rows);
    StepKeeps(s, TaskEnds(Rows(rows)));
    RunKeeps(first, inputs);
  }

  /**
   A resume writes every matching row after the client's cursor exactly when each
   of them was signalled before the replay ran or is among the hundred rows
   behind the cursor those signals left.
   */
  lemma {:induction false} ResumeIsLosslessIff(cursor: nat, live: seq<Row>, table: seq<Row>)
    requires IsTable(table)
    ensures
      var p := UpTo(table, CursorAfter(cursor, live));
      (forall i :: 0 <= i < |table| && table[i].matches && table[i].id > cursor
          ==> table[i].id in ResumeBehind(cursor, live, table).log)
      <==>
      (forall i :: 0 <= i < |table| && table[i].matches && table[i].id > cursor ==>
         table[i].id in Matching(live) || p <= i < p + RESUME_LIMIT)
  {
    var moved := CursorAfter(cursor, live);
    var s := SendAll(Start(Some(cursor)), live);
    SendAllKeeps(Start(Some(cursor)), live);
    forall i | 0 <= i < |table| && table[i].matches
      ensures table[i].id in ResumeBehind(cursor, live, table).log <==>
        table[i].id in Matching(live) || UpTo(table, moved) <= i < UpTo(table, moved) + RESUME_LIMIT
    {
      SendAllMembers(Start(Some(cursor)), live, table[i].id);
      SendAllMembers(s, Take(After(table, moved), RESUME_LIMIT), table[i].id);
      ReplayedIff(table, moved, i);
    }
  }

  lemma {:induction false} AfterCons(row: Row, rest: seq<Row>, id: nat)
    ensures After([row] + rest, id) == (if row.id > id then [row] else []) + After(rest, id)
  {
    assert ([row] + rest)[1..] == rest;
  }

  lemma {:induction false} AfterThree(a: Row, b: Row, c: Row, id: nat)
    requires a.id <= id
    ensures After([a, b, c], id) == (if b.id > id then [b] else []) + (if c.id > id then [c] else [])
  {
    AfterCons(a, [b, c], id);
    AfterCons(b, [c], id);
    AfterCons(c, [], id);
    assert [a, b, c] == [a] + [b, c] && [b, c] == [b] + [c] && [c] == [c] + [];
  }

  /** The live signals that ran before the replay moved its cursor: the row between is never written. */
  lemma {:induction false} LateReplayLosesRow()
    ensures
      var table := [Row(1, true), Row(2, true), Row(3, true)];
      2 !in ResumeBehind(1, [Row(3, true)], table).log && Row(2, true) in After(table, 1)
  {
    var a, b, c := Row(1, true), Row(2, true), Row(3, true);
    AfterThree(a, b, c, 1);
    AfterThree(a, b, c, 3);
    assert Matching([c]) == [3] by { assert [c][1..] == []; }
    SendAllMembers(Start(Some(1)), [c], 2);
  }

  function LongTable(): (table: seq<Row>)
    ensures |table| == 102 && forall i :: 0 <= i < 102 ==> table[i] == Row(i + 1, true)
  {
    seq(102, i requires 0 <= i < 102 => Row(i + 1, true))
  }

  lemma {:induction false} AfterMembers(table: seq<Row>, id: nat, i: nat)
    requires i < |table| && table[i].id > id
    ensures table[i] in After(table, id)
  {
    if i > 0 {
      AfterMembers(table[1..], id, i - 1);
    }
  }

  /** With a hundred and one rows behind the cursor, the last is never replayed. */
  lemma {:induction false} LongAbsenceLosesRow()
    ensures 102 !in ResumeBehind(1, [], LongTable()).log && Row(102, true) in After(LongTable(), 1)
  {
    var table := LongTable();
    AfterMembers(table, 1, 101);
    assert UpTo(table[1..], 1) == 0;
    ReplayedIff(table, 1, 101);
    SendAllMembers(Start(Some(1)), Take(After(table, 1), RESUME_LIMIT), 102);
  }

  function Signals(live: seq<Row>): seq<Task> {
    if live == [] then [] else [Live(live[0].id)] + Signals(live[1..])
  }

  function Ends(live: seq<Row>): seq<Input> {
    if live == [] then [] else [TaskEnds(Loaded(Some(live[0])))] + Ends(live[1..])
  }

  lemma {:induction false} SendAllKeepsQueue(s: State, rows: seq<Row>, queue: seq<Task>)
    ensures SendAll(s.(queue := queue), rows) == SendAll(s, rows).(queue := queue)
    decreases |rows|
  {
    if rows != [] {
      assert Send(s.(queue := queue), rows[0]) == Send(s, rows[0]).(queue := queue);
      SendAllKeepsQueue(Send(s, rows[0]), rows[1..], queue);
    }
  }

  lemma {:induction false} RunSignals(s: State, live: seq<Row>, behind: seq<Task>, inputs: seq<Input>)
    requires s.queue == Signals(live) + behind
    ensures Run(s, Ends(live) + inputs) == Run(SendAll(s, live).(queue := behind), inputs)
    decreases |live|
  {
    if live == [] {
      assert Ends(live) + inputs == inputs && s.queue == behind;
    } else {
      var rest := Ends(live[1..]) + inputs;
      assert Ends(live) + inputs == [TaskEnds(Loaded(Some(live[0])))] + rest;
      assert s.queue[1..] == Signals(live[1..]) + behind;
      var t := Step(s, TaskEnds(Loaded(Some(live[0]))));
      assert t == Send(s, live[0]).(queue := s.queue[1..]);
      RunSignals(t, live[1..], behind, inputs);
      SendAllKeepsQueue(Send(s, live[0]), live[1..], s.queue[1..]);
    }
  }

  /** `ResumeBehind` is the run in which the signals were queued before the replay. */
  lemma {:induction false} ResumeBehindRuns(cursor: nat, live: seq<Row>, table: seq<Row>)
    ensures
      var s := Start(Some(cursor)).(queue := Signals(live) + [Replay]);
      var rows := Take(After(table, CursorAfter(cursor, live)), RESUME_LIMIT);
      Run(s, Ends(live) + [TaskEnds(Rows(rows))]) == ResumeBehind(cursor, live, table)
  {
    var s := Start(Some(cursor)).(queue := Signals(live) + [Replay]);
    var rows := Take(After(table, CursorAfter(cursor, live)), RESUME_LIMIT);
    var start := Start(Some(cursor));
    RunSignals(s, live, [Replay], [TaskEnds(Rows(rows))]);
    SendAllKeepsQueue(start, live, s.queue);
    SendAllKeepsQueue(start, live, []);
    SendAllCursor(start, live);
    var t := SendAll(start, live);
    assert SendAll(s, live).(queue := [Replay]) == t.(queue := [Replay]);
    assert [TaskEnds(Rows(rows))][1..] == [];
    assert t.(queue := []) == t && [Replay][1..] == [];
    assert Step(t.(queue := [Replay]), TaskEnds(Rows(rows))) == SendAll(t, rows);
  }
}
