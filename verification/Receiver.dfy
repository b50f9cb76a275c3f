/**
 The webhook receiver example (examples/webhooks-receiver/server.ts): deliveries
 are accepted once by id, queued, and handled by one drain loop that awaits each
 handler. Between two inputs the program is suspended: idle, or inside the
 `await` of a handler.
 */
module Receiver {
  import opened Results

  datatype Event = Event(id: string, payload: string)

  /** A verified delivery, or the end of the handler that runs. */
  datatype Input = Deliver(event: Event) | HandlerEnds(failed: bool)

  /**
   `handling` is the event whose handler the drain awaits. `order` and `handled`
   record the accepted events and the ones whose handler has ended.
   */
  datatype State = State(
    accepted: set<string>, queue: seq<Event>, draining: bool, handling: Option<Event>,
    order: seq<Event>, handled: seq<Event>)

  const INITIAL := State({}, [], false, None, [], [])

  /** The loop head of `drain`: the next event's handler, or the end of the drain. */
  function Shift(s: State): State {
    if s.queue == [] then s.(handling := None, draining := false)
    else s.(handling := Some(s.queue[0]), queue := s.queue[1..])
  }

  function Drain(s: State): State {
    if s.draining then s else Shift(s.(draining := true))
  }

  function Step(s: State, input: Input): State {
    match input
    case Deliver(event) =>
      if event.id in s.accepted then s
      else Drain(s.(accepted := s.accepted + {event.id}, queue := s.queue + [event], order := s.order + [event]))
    case HandlerEnds(_) =>
      if s.handling.None? then s
      else Shift(s.(handled := s.handled + [s.handling.value]))
  }

  function Run(s: State, inputs: seq<Input>): State
    decreases |inputs|
  {
    if inputs == [] then s else Run(Step(s, inputs[0]), inputs[1..])
  }

  /** The module's state, its methods run from one suspension to the next. */
  class Server {
    var accepted: set<string>
    var queue: seq<Event>
    var draining: bool
    var handling: Option<Event>
    ghost var order: seq<Event>
    ghost var handled: seq<Event>
    /** How many drains are past their guard. */
    ghost var drains: nat

    ghost function Value(): State
      reads this
    {
      State(accepted, queue, draining, handling, order, handled)
    }

    /** At most one drain is active, and it is when `draining` says so. */
    ghost predicate Valid()
      reads this
    {
      drains == (if draining then 1 else 0) && (handling.Some? ==> draining)
    }

    constructor ()
      ensures Valid() && Value() == INITIAL
    {
      accepted, queue, draining, handling := {}, [], false, None;
      order, handled, drains := [], [], 0;
    }

    method Receive(event: Event) returns (duplicate: bool)
      requires Valid()
      modifies this
      ensures Valid() && Value() == Step(old(Value()), Deliver(event))
      ensures duplicate <==> event.id in old(accepted)
    {
      if event.id in accepted {
        return true;
      }
      accepted := accepted + {event.id};
      queue := queue + [event];
      order := order + [event];
      DrainQueue();
      return false;
    }

    method DrainQueue()
      requires Valid()
      modifies this
      ensures Valid() && Value() == Drain(old(Value()))
    {
      if draining {
        return;
      }
      draining, drains := true, drains + 1;
      ShiftQueue();
    }

    /** `queue.shift()` and, when it gave an event, its handler up to the `await`. */
    method ShiftQueue()
      requires draining && drains == 1
      modifies this
      ensures Valid() && Value() == Shift(old(Value()))
    {
      if queue == [] {
        handling := None;
        draining, drains := false, drains - 1;
      } else {
        handling, queue := Some(queue[0]), queue[1..];
      }
    }

    /** The awaited handler ends; a failure is caught, and the loop goes on either way. */
    method Resume(failed: bool)
      requires Valid() && handling.Some?
      modifies this
      ensures Valid() && Value() == Step(old(Value()), HandlerEnds(failed))
    {
      handled := handled + [handling.value];
      ShiftQueue();
    }
  }

  // ------------------------------------------------------------------- properties

  function Current(s: State): seq<Event> {
    if s.handling.Some? then [s.handling.value] else []
  }

  function Ids(events: seq<Event>): set<string> {
    if events == [] then {} else {events[0].id} + Ids(events[1..])
  }

  lemma {:induction false} IdsExtended(events: seq<Event>, e: Event)
    ensures Ids(events + [e]) == Ids(events) + {e.id}
    ensures forall i :: 0 <= i < |events| ==> events[i].id in Ids(events)
  {
    if events == [] {
      assert ([] + [e])[1..] == [];
    } else {
      assert (events + [e])[1..] == events[1..] + [e];
      IdsExtended(events[1..], e);
    }
  }

  lemma {:induction false} IdOfSome(events: seq<Event>, id: string)
    requires id in Ids(events)
    ensures exists k :: 0 <= k < |events| && events[k].id == id
  {
    if events[0].id != id {
      IdOfSome(events[1..], id);
      var k :| 0 <= k < |events[1..]| && events[1..][k].id == id;
      assert events[k + 1].id == id;
    }
  }

  ghost predicate Inv(s: State) {
    && (forall i, j :: 0 <= i < j < |s.order| ==> s.order[i].id != s.order[j].id)
    && s.accepted == Ids(s.order)
    && s.order == s.handled + Current(s) + s.queue
    && (s.draining <==> s.handling.Some?)
    && (!s.draining ==> s.queue == [])
  }

  lemma {:induction false} StepKeeps(s: State, input: Input)
    requires Inv(s)
    ensures Inv(Step(s, input))
  {
    if input.Deliver? {
      IdsExtended(s.order, input.event);
    }
  }

  lemma {:induction false} RunKeeps(s: State, inputs: seq<Input>)
    requires Inv(s)
    ensures Inv(Run(s, inputs))
    decreases |inputs|
  {
    if inputs != [] {
      StepKeeps(s, inputs[0]);
      RunKeeps(Step(s, inputs[0]), inputs[1..]);
    }
  }

  /**
   Over every interleaving of deliveries and handler ends, failing ones included:
   an id is accepted once, the handled events are the first accepted ones in
   order, and whenever no drain is active nothing is left in the queue.
   */
  lemma {:induction false} HandledInOrderOnce(inputs: seq<Input>)
    ensures
      var s := Run(INITIAL, inputs);
      && (forall i, j :: 0 <= i < j < |s.order| ==> s.order[i].id != s.order[j].id)
      && s.handled <= s.order
      && (!s.draining ==> s.queue == [] && s.handled == s.order)
  {
    RunKeeps(INITIAL, inputs);
    var s := Run(INITIAL, inputs);
    assert s.handled <= s.handled + Current(s) + s.queue;
  }

  lemma {:induction false} AcceptedGrows(s: State, inputs: seq<Input>)
    ensures s.accepted <= Run(s, inputs).accepted
    decreases |inputs|
  {
    if inputs != [] {
      AcceptedGrows(Step(s, inputs[0]), inputs[1..]);
    }
  }

  lemma {:induction false} DeliveredIsAccepted(s: State, inputs: seq<Input>, i: nat)
    requires i < |inputs| && inputs[i].Deliver?
    ensures inputs[i].event.id in Run(s, inputs).accepted
    decreases |inputs|
  {
    var t := Step(s, inputs[0]);
    if i == 0 {
      AcceptedGrows(t, inputs[1..]);
    } else {
      DeliveredIsAccepted(t, inputs[1..], i - 1);
    }
  }

  /** Every delivered id is accepted: an event of that id is handled or waits its turn. */
  lemma {:induction false} EveryDeliveryIsAccepted(inputs: seq<Input>, i: nat)
    requires i < |inputs| && inputs[i].Deliver?
    ensures exists k :: 0 <= k < |Run(INITIAL, inputs).order| && Run(INITIAL, inputs).order[k].id == inputs[i].event.id
  {
    RunKeeps(INITIAL, inputs);
    DeliveredIsAccepted(INITIAL, inputs, i);
    IdOfSome(Run(INITIAL, inputs).order, inputs[i].event.id);
  }

  function Ends(inputs: seq<Input>): nat {
    if inputs == [] then 0 else (if inputs[0].HandlerEnds? then 1 else 0) + Ends(inputs[1..])
  }

  lemma {:induction false} OrderGrows(s: State, input: Input)
    ensures s.order <= Step(s, input).order && s.handled <= Step(s, input).handled
  {
  }

  /** No accepted event is stranded: as many handler ends as it waits for handle it, whatever is delivered meanwhile. */
  lemma {:induction false} EveryEventIsHandled(s: State, inputs: seq<Input>, k: nat)
    requires Inv(s) && k < |s.order| && Ends(inputs) > k - |s.handled|
    ensures k < |Run(s, inputs).handled| && Run(s, inputs).handled[k] == s.order[k]
    decreases |inputs|
  {
    if inputs == [] {
      assert s.handled[k] == s.order[k];
    } else {
      var t := Step(s, inputs[0]);
      StepKeeps(s, inputs[0]);
      OrderGrows(s, inputs[0]);
      EveryEventIsHandled(t, inputs[1..], k);
    }
  }
}
