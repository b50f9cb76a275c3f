/**
 `captureResponse` (packages/backend/src/lib/idempotency.ts): one response's
 `res.json` is wrapped so that its first answer is recorded before it is written.
 The store attempt is asynchronous: it settles, one way or the other, at a later
 event.
 */
module ResponseCapture {
  import opened Results
  import opened Sequences

  /** `None` is `res.json(undefined)`. */
  type Body = Option<string>

  datatype StoreCall = Complete(status: int, body: Body) | Release

  datatype Event = Json(status: int, body: Body) | Settle(succeeds: bool) | Finish

  /** What reaches the client: the captured body, or one a later `res.json` passes on. */
  datatype Write = Captured(body: Body) | Passed(body: Body)

  /** The closure's state, with the store calls issued and the bodies written so far. */
  datatype State = State(settled: bool, waiting: Option<Body>, calls: seq<StoreCall>, writes: seq<Write>)

  const START := State(false, None, [], [])

  function CallFor(status: int, body: Body): StoreCall {
    if status >= 500 || body.None? then Release else Complete(status, body)
  }

  function Handle(s: State, e: Event): State {
    match e
    case Json(status, body) =>
      if s.settled then s.(writes := s.writes + [Passed(body)])
      else s.(settled := true, waiting := Some(body), calls := s.calls + [CallFor(status, body)])
    case Settle(_) =>
      if s.waiting.Some? then s.(waiting := None, writes := s.writes + [Captured(s.waiting.value)]) else s
    case Finish =>
      if s.settled then s else s.(settled := true, calls := s.calls + [Release])
  }

  function HandleAll(events: seq<Event>): State {
    if events == [] then START else Handle(HandleAll(events[..|events| - 1]), events[|events| - 1])
  }

  /** The closure as an object, its methods called by the route, the store and the response. */
  class Capture {
    var settled: bool
    var waiting: Option<Body>
    var calls: seq<StoreCall>
    var writes: seq<Write>

    ghost function Value(): State
      reads this
    {
      State(settled, waiting, calls, writes)
    }

    constructor ()
      ensures Value() == START
    {
      settled, waiting, calls, writes := false, None, [], [];
    }

    /** The wrapped `res.json`. */
    method Json(status: int, body: Body)
      modifies this
      ensures Value() == Handle(old(Value()), Event.Json(status, body))
    {
      if settled {
        writes := writes + [Passed(body)];
        return;
      }
      settled := true;
      if status >= 500 || body == None {
        calls := calls + [Release];
      } else {
        calls := calls + [Complete(status, body)];
      }
      waiting := Some(body);
    }

    /** The store attempt settles: a failure is logged, and the answer is written either way. */
    method StoreSettled(succeeds: bool)
      modifies this
      ensures Value() == Handle(old(Value()), Settle(succeeds))
    {
      if waiting.Some? {
        writes := writes + [Captured(waiting.value)];
        waiting := None;
      }
    }

    /** The response's `finish` event. */
    method Finished()
      modifies this
      ensures Value() == Handle(old(Value()), Finish)
    {
      if settled {
        return;
      }
      settled := true;
      calls := calls + [Release];
    }
  }

  // ------------------------------------------------------------------- properties

  predicate Decides(e: Event) {
    e.Json? || e.Finish?
  }

  /** The first `res.json` or `finish`, or the number of events. */
  function Deciding(events: seq<Event>): (k: nat)
    ensures k <= |events|
    ensures k < |events| ==> Decides(events[k])
  {
    if events == [] then 0 else
      var k := Deciding(events[..|events| - 1]);
      if k < |events| - 1 || Decides(events[|events| - 1]) then k else |events|
  }

  /** A store attempt has settled after the deciding event. */
  ghost predicate SettledAfter(events: seq<Event>, k: nat) {
    exists i :: k < i < |events| && events[i].Settle?
  }

  /** The bodies that later `res.json` calls pass on, in order. */
  function PassedOn(events: seq<Event>, k: nat): seq<Body> {
    if |events| <= k + 1 then [] else
      PassedOn(events[..|events| - 1], k)
      + if events[|events| - 1].Json? then [events[|events| - 1].body] else []
  }

  function CapturedWrites(writes: seq<Write>): seq<Body> {
    if writes == [] then [] else
      CapturedWrites(writes[..|writes| - 1])
      + if writes[|writes| - 1].Captured? then [writes[|writes| - 1].body] else []
  }

  function PassedWrites(writes: seq<Write>): seq<Body> {
    if writes == [] then [] else
      PassedWrites(writes[..|writes| - 1])
      + if writes[|writes| - 1].Passed? then [writes[|writes| - 1].body] else []
  }

  lemma {:induction false} WritesExtended(writes: seq<Write>, w: Write)
    ensures CapturedWrites(writes + [w]) == CapturedWrites(writes) + if w.Captured? then [w.body] else []
    ensures PassedWrites(writes + [w]) == PassedWrites(writes) + if w.Passed? then [w.body] else []
  {
    assert (writes + [w])[..|writes|] == writes;
  }

  lemma {:induction false} PassedOnExtended(before: seq<Event>, e: Event, k: nat)
    requires k < |before|
    ensures PassedOn(before + [e], k) == PassedOn(before, k) + if e.Json? then [e.body] else []
  {
    assert (before + [e])[..|before|] == before;
  }

  lemma {:induction false} NoneDecidesBefore(events: seq<Event>)
    ensures forall i :: 0 <= i < Deciding(events) ==> !Decides(events[i])
  {
    if events != [] {
      NoneDecidesBefore(events[..|events| - 1]);
    }
  }

  lemma {:induction false} DecidingExtended(before: seq<Event>, e: Event)
    ensures Deciding(before + [e]) ==
      if Deciding(before) < |before| || Decides(e) then Deciding(before) else |before| + 1
  {
    assert (before + [e])[..|before|] == before;
  }

  /** What the events, decided by event `k`, have made of the capture. */
  ghost predicate Told(s: State, events: seq<Event>, k: nat)
    requires k <= |events|
  {
    && (s.settled <==> k < |events|)
    && s.calls == (if k == |events| then []
                   else [if events[k].Json? then CallFor(events[k].status, events[k].body) else Release])
    && CapturedWrites(s.writes) ==
         (if k < |events| && events[k].Json? && SettledAfter(events, k) then [events[k].body] else [])
    && s.waiting ==
         (if k < |events| && events[k].Json? && !SettledAfter(events, k) then Some(events[k].body) else None)
    && PassedWrites(s.writes) == PassedOn(events, k)
  }

  /** An event after the deciding one. */
  lemma {:induction false} ToldLater(s: State, before: seq<Event>, e: Event, k: nat)
    requires k < |before| && Told(s, before, k)
    ensures Told(Handle(s, e), before + [e], k)
  {
    assert (before + [e])[k] == before[k];
    SettledExtended(before, e, k);
    PassedOnExtended(before, e, k);
    match e
    case Json(_, body) => WritesExtended(s.writes, Passed(body));
    case Settle(_) =>
      if s.waiting.Some? {
        WritesExtended(s.writes, Captured(s.waiting.value));
      }
    case Finish =>
  }

  /** The deciding event, or one before it. */
  lemma {:induction false} ToldFirst(s: State, before: seq<Event>, e: Event)
    requires Told(s, before, |before|)
    ensures Decides(e) ==> Told(Handle(s, e), before + [e], |before|)
    ensures !Decides(e) ==> Told(Handle(s, e), before + [e], |before| + 1)
  {
    assert (before + [e])[|before|] == e;
    assert !SettledAfter(before + [e], |before|);
    assert PassedOn(before, |before|) == [];
  }

  /**
   For every sequence of events: one complete-or-release is issued exactly when a
   `res.json` or `finish` has happened, and the first of them decides which; the
   first body is written once, exactly when the store attempt has settled after
   it, whether it succeeded or not.
   */
  lemma {:induction false} OneStoreCallThenTheAnswer(events: seq<Event>)
    ensures Told(HandleAll(events), events, Deciding(events))
  {
    if events != [] {
      var before, e := events[..|events| - 1], events[|events| - 1];
      assert events == before + [e];
      OneStoreCallThenTheAnswer(before);
      DecidingExtended(before, e);
      if Deciding(before) < |before| {
        ToldLater(HandleAll(before), before, e, Deciding(before));
      } else {
        ToldFirst(HandleAll(before), before, e);
      }
    }
  }

  lemma {:induction false} SettledExtended(before: seq<Event>, e: Event, k: nat)
    ensures SettledAfter(before + [e], k) <==> SettledAfter(before, k) || (k < |before| && e.Settle?)
  {
    var events := before + [e];
    if SettledAfter(before, k) {
      var i :| k < i < |before| && before[i].Settle?;
      assert events[i].Settle?;
    } else if k < |before| && e.Settle? {
      assert events[|before|].Settle?;
    }
    assert forall i :: k < i < |before| && events[i].Settle? ==> before[i].Settle?;
  }

  /**
   At most one complete-or-release is issued on the claim, and a complete only for a first answer
   below 500 with a body.
   */
  lemma {:induction false} CompletesExactly(events: seq<Event>)
    ensures
      var calls, k := HandleAll(events).calls, Deciding(events);
      && |calls| <= 1
      && (|calls| == 1 <==> exists i :: 0 <= i < |events| && Decides(events[i]))
      && ((exists i :: 0 <= i < |calls| && calls[i].Complete?) <==>
            k < |events| && events[k].Json? && events[k].status < 500 && events[k].body.Some?)
  {
    OneStoreCallThenTheAnswer(events);
    NoneDecidesBefore(events);
    var calls, k := HandleAll(events).calls, Deciding(events);
    if k < |events| {
      assert Decides(events[k]);
      assert calls[0].Complete? <==> events[k].Json? && CallFor(events[k].status, events[k].body).Complete?;
    }
  }

  // ----------------------------------------------------------- the order of writes

  /** What the `res.json` calls among some later events write. */
  function Passes(events: seq<Event>): seq<Write> {
    if events == [] then [] else
      Passes(events[..|events| - 1])
      + if events[|events| - 1].Json? then [Passed(events[|events| - 1].body)] else []
  }

  /** The first settled store attempt after event `k`, or the number of events. */
  function Settling(events: seq<Event>, k: nat): (i: nat)
    requires k < |events|
    ensures k < i <= |events|
  {
    if |events| == k + 1 then k + 1 else
      var i := Settling(events[..|events| - 1], k);
      if i < |events| - 1 || events[|events| - 1].Settle? then i else |events|
  }

  lemma {:induction false} SettlingMeans(events: seq<Event>, k: nat)
    requires k < |events|
    ensures var i := Settling(events, k); i < |events| ==> events[i].Settle?
    ensures forall j :: k < j < Settling(events, k) ==> !events[j].Settle?
  {
    if |events| > k + 1 {
      SettlingMeans(events[..|events| - 1], k);
    }
  }

  /** The captured answer goes out where the attempt settles, among the answers passed on. */
  ghost predicate Ordered(s: State, events: seq<Event>, k: nat)
    requires k < |events| && events[k].Json?
  {
    var i := Settling(events, k);
    if i == |events| then
      s.settled && s.waiting == Some(events[k].body) && s.writes == Passes(events[k + 1..])
    else
      && s.settled && s.waiting == None
      && s.writes == Passes(events[k + 1..i]) + [Captured(events[k].body)] + Passes(events[i + 1..])
  }

  lemma {:induction false} PassesExtended(events: seq<Event>, e: Event)
    ensures Passes(events + [e]) == Passes(events) + if e.Json? then [Passed(e.body)] else []
  {
    assert (events + [e])[..|events|] == events;
  }

  lemma {:induction false} SliceExtended(before: seq<Event>, e: Event, i: nat)
    requires i <= |before|
    ensures (before + [e])[i..] == before[i..] + [e]
  {
  }

  lemma {:induction false} SettlingExtended(before: seq<Event>, e: Event, k: nat)
    requires k < |before|
    ensures Settling(before + [e], k) ==
      if Settling(before, k) < |before| || e.Settle? then Settling(before, k) else |before| + 1
  {
    assert (before + [e])[..|before|] == before;
  }

  lemma {:induction false} OrderedWhileWaiting(s: State, before: seq<Event>, e: Event, k: nat)
    requires k < |before| && before[k].Json? && Ordered(s, before, k) && Settling(before, k) == |before|
    ensures Ordered(Handle(s, e), before + [e], k)
  {
    var events := before + [e];
    SettlingExtended(before, e, k);
    assert events[k] == before[k];
    if e.Settle? {
      assert events[k + 1..|before|] == before[k + 1..];
      assert events[|before| + 1..] == [];
    } else {
      SliceExtended(before, e, k + 1);
      PassesExtended(before[k + 1..], e);
    }
  }

  lemma {:induction false} OrderedAfterwards(s: State, before: seq<Event>, e: Event, k: nat)
    requires k < |before| && before[k].Json? && Ordered(s, before, k) && Settling(before, k) < |before|
    ensures Ordered(Handle(s, e), before + [e], k)
  {
    var i, events := Settling(before, k), before + [e];
    SettlingExtended(before, e, k);
    assert events[k] == before[k];
    assert events[k + 1..i] == before[k + 1..i];
    SliceExtended(before, e, i + 1);
    PassesExtended(before[i + 1..], e);
    if e.Json? {
      Regroup(Passes(before[k + 1..i]) + [Captured(before[k].body)], Passes(before[i + 1..]), [Passed(e.body)]);
    }
  }

  lemma {:induction false} StartUntilDecided(events: seq<Event>)
    requires Deciding(events) == |events|
    ensures HandleAll(events) == START
  {
    if events != [] {
      StartUntilDecided(events[..|events| - 1]);
    }
  }

  /** Every write, in its order, after a `res.json` that decides. */
  lemma {:induction false} WritesInOrder(events: seq<Event>)
    requires var k := Deciding(events); k < |events| && events[k].Json?
    ensures Ordered(HandleAll(events), events, Deciding(events))
  {
    var before, e := events[..|events| - 1], events[|events| - 1];
    assert events == before + [e];
    DecidingExtended(before, e);
    if Deciding(before) < |before| {
      WritesInOrder(before);
      if Settling(before, Deciding(before)) == |before| {
        OrderedWhileWaiting(HandleAll(before), before, e, Deciding(before));
      } else {
        OrderedAfterwards(HandleAll(before), before, e, Deciding(before));
      }
    } else {
      StartUntilDecided(before);
      assert events[|before| + 1..] == [];
    }
  }

  lemma {:induction false} PassesSome(events: seq<Event>)
    ensures Passes(events) == [] <==> forall j :: 0 <= j < |events| ==> !events[j].Json?
    ensures Passes(events) != [] ==> Passes(events)[0].Passed?
  {
    if events != [] {
      PassesSome(events[..|events| - 1]);
    }
  }

  /** The store attempt settles before another answer. */
  ghost predicate SettlesFirst(events: seq<Event>, k: nat) {
    exists i :: k < i < |events| && events[i].Settle? && forall j :: k < j < i ==> !events[j].Json?
  }

  lemma {:induction false} SettlesFirstAt(events: seq<Event>, k: nat)
    requires k < |events|
    ensures SettlesFirst(events, k) <==>
      Settling(events, k) < |events|
      && Passes(events[k + 1..Settling(events, k)]) == []
  {
    var i := Settling(events, k);
    SettlingMeans(events, k);
    PassesSome(events[k + 1..i]);
    assert forall j :: k < j < i ==> events[j] == events[k + 1..i][j - k - 1];
    if SettlesFirst(events, k) {
      var n :| k < n < |events| && events[n].Settle? && forall j :: k < j < n ==> !events[j].Json?;
      assert i <= n;
    }
  }

  /** Nothing but `finish` follows. */
  ghost predicate NothingFollows(events: seq<Event>, k: nat) {
    forall j :: k < j < |events| ==> events[j].Finish?
  }

  lemma {:induction false} NothingFollowsAt(events: seq<Event>, k: nat)
    requires k < |events|
    ensures NothingFollows(events, k) <==> Settling(events, k) == |events| && Passes(events[k + 1..]) == []
  {
    SettlingMeans(events, k);
    PassesSome(events[k + 1..]);
    assert forall j :: k < j < |events| ==> events[j] == events[k + 1..][j - k - 1];
  }

  lemma {:induction false} FirstOf(a: seq<Write>, w: Write, b: seq<Write>)
    ensures (a + [w] + b)[0] == if a == [] then w else a[0]
  {
  }

  /**
   The captured first answer is the first body written exactly when its store
   attempt settles before another `res.json`; nothing is written exactly when
   neither follows; and otherwise a later answer is written before it.
   */
  lemma {:induction false} AnswerIsFirstIff(events: seq<Event>)
    requires var k := Deciding(events); k < |events| && events[k].Json?
    ensures
      var writes, k := HandleAll(events).writes, Deciding(events);
      && (writes == [] <==> NothingFollows(events, k))
      && (writes != [] ==> (writes[0] == Captured(events[k].body) <==> SettlesFirst(events, k)))
      && (writes != [] && !SettlesFirst(events, k) ==> writes[0].Passed?)
  {
    var k := Deciding(events);
    WritesInOrder(events);
    SettlesFirstAt(events, k);
    NothingFollowsAt(events, k);
    var i := Settling(events, k);
    if i == |events| {
      PassesSome(events[k + 1..]);
      assert events[k + 1..i] == events[k + 1..];
    } else {
      PassesSome(events[k + 1..i]);
      FirstOf(Passes(events[k + 1..i]), Captured(events[k].body), Passes(events[i + 1..]));
    }
  }

  /** A second `res.json` before the store attempt settles is written before the captured first answer. */
  lemma {:induction false} SecondAnswerOvertakes(first: Body, second: Body)
    ensures HandleAll([Event.Json(200, first), Event.Json(200, second), Settle(true)]).writes
      == [Passed(second), Captured(first)]
  {
    var events := [Event.Json(200, first), Event.Json(200, second), Settle(true)];
    assert events[..2][..1][..0] == [];
    assert HandleAll(events[..2][..1]) == Handle(START, events[0]);
    assert HandleAll(events[..2]) == Handle(Handle(START, events[0]), events[1]);
  }
}
