/** The v1beta Traverse call as a step machine of its client, its receiver and its main loop. */
module TraverseProtocol {
  import opened Collections
  import opened NeighborGrouping
  import opened GraphStoreV1Beta

  // A receiver goroutine reads requests off the stream and hands them over a channel with one slot to the main loop,
  // which answers them. The steps of the client, the receiver and the main loop interleave freely.

  type Query = NeighborsRequest

  type Answer = seq<Neighbor>

  /** The answers that a query may get. A store may list the rows of a join in any order, so there can be several. */
  type Answers = (Query, Answer) -> bool

  /** What the client sends. The end of the client's side of the stream is read like a Cancel. */
  datatype Message = Request(query: Query) | Cancel

  datatype Response = Response(request: Query, answer: Answer)

  /** The receiver is at its select, in Recv, blocked on the channel, or has returned. */
  datatype Receiver = Checking | Receiving | Holding(query: Query) | Stopped

  datatype MainPhase = Selecting | Processing(query: Query) | Returned

  /** `sent` and `delivered` are the client's histories: the queries it sent and the responses it received, in order. */
  datatype State = State(
    sent: seq<Query>, wire: seq<Message>, receiver: Receiver, channel: Option<Query>, main: MainPhase,
    outgoing: seq<Response>, delivered: seq<Response>, done: bool)

  datatype Action =
    | Send(query: Query)      // the client sends a request
    | SendCancel          // the client sends Cancel
    | Deliver             // the client receives a response
    | Disconnect          // the context of the call ends
    | Check               // the receiver's select
    | Recv                // the receiver's Recv returns what the client sent
    | RecvEnds            // the receiver's Recv fails, which only a context that has ended makes it do
    | Push                // the receiver's send on the channel goes through
    | Take                // the main loop's select takes a request from the channel
    | Respond(answer: Answer) // the main loop sends the response
    | Fail                // the main loop's query or its send fails, which ends the call and its context
    | Return              // the main loop's select sees that the context has ended

  predicate Enabled(s: State, a: Action) {
    match a
    case Send(_) => true
    case SendCancel => true
    case Deliver => s.outgoing != []
    case Disconnect => !s.done
    case Check => s.receiver == Checking
    case Recv => s.receiver == Receiving && s.wire != []
    case RecvEnds => s.receiver == Receiving && s.done
    case Push => s.receiver.Holding? && s.channel == None
    case Take => s.main == Selecting && s.channel.Some?
    case Respond(_) => s.main.Processing?
    case Fail => s.main.Processing?
    case Return => s.main == Selecting && s.done
  }

  /** An enabled action that only responds with an answer the query may get. */
  predicate Allowed(answers: Answers, s: State, a: Action) {
    Enabled(s, a) && (a.Respond? ==> answers(s.main.query, a.answer))
  }

  function After(s: State, a: Action): State
    requires Enabled(s, a)
  {
    match a
    case Send(query) => s.(sent := s.sent + [query], wire := s.wire + [Request(query)])
    case SendCancel => s.(wire := s.wire + [Cancel])
    case Deliver => s.(outgoing := s.outgoing[1..], delivered := s.delivered + [s.outgoing[0]])
    case Disconnect => s.(done := true)
    case Check => s.(receiver := if s.done then Stopped else Receiving)
    case Recv =>
      if s.wire[0] == Cancel then s.(wire := s.wire[1..], receiver := Stopped, done := true)
      else s.(wire := s.wire[1..], receiver := Holding(s.wire[0].query))
    case RecvEnds => s.(receiver := Stopped)
    case Push => s.(receiver := Checking, channel := Some(s.receiver.query))
    case Take => s.(channel := None, main := Processing(s.channel.value))
    case Respond(answer) => s.(main := Selecting, outgoing := s.outgoing + [Response(s.main.query, answer)])
    case Fail => s.(main := Returned, done := true)
    case Return => s.(main := Returned)
  }

  function Start(): State {
    State([], [], Checking, None, Selecting, [], [], false)
  }

  ghost predicate IsRun(answers: Answers, states: seq<State>, actions: seq<Action>) {
    && |states| == |actions| + 1
    && states[0] == Start()
    && forall k :: 0 <= k < |actions| ==>
         Allowed(answers, states[k], actions[k]) && states[k + 1] == After(states[k], actions[k])
  }

  // ---- Where the requests are ----

  function OnWire(wire: seq<Message>): seq<Query> {
    if wire == [] then [] else (if wire[0] == Cancel then [] else [wire[0].query]) + OnWire(wire[1..])
  }

  function InReceiver(receiver: Receiver): seq<Query> {
    if receiver.Holding? then [receiver.query] else []
  }

  function InChannel(channel: Option<Query>): seq<Query> {
    if channel.Some? then [channel.value] else []
  }

  function InMain(main: MainPhase): seq<Query> {
    if main.Processing? then [main.query] else []
  }

  function Requests(responses: seq<Response>): seq<Query> {
    seq(|responses|, i requires 0 <= i < |responses| => responses[i].request)
  }

  /** The requests that have been answered, oldest first. */
  function Answered(s: State): seq<Query> {
    Requests(s.delivered + s.outgoing)
  }

  /** The requests that have not been answered, oldest first. */
  function Unanswered(s: State): seq<Query> {
    InMain(s.main) + (InChannel(s.channel) + (InReceiver(s.receiver) + OnWire(s.wire)))
  }

  ghost predicate AreRight(answers: Answers, responses: seq<Response>) {
    forall i :: 0 <= i < |responses| ==> answers(responses[i].request, responses[i].answer)
  }

  /** Every request is in its place. After the main loop has returned, the one it was processing may be lost. */
  ghost predicate Inv(answers: Answers, s: State) {
    && AreRight(answers, s.delivered + s.outgoing)
    && Answered(s) <= s.sent
    && |Answered(s)| + |Unanswered(s)| <= |s.sent|
    && (s.main != Returned ==> s.sent == Answered(s) + Unanswered(s))
    && (s.main == Returned || s.receiver == Stopped ==> s.done)
  }

  lemma {:induction false} OnWireAppend(wire: seq<Message>, message: Message)
    ensures OnWire(wire + [message]) == OnWire(wire) + if message == Cancel then [] else [message.query]
  {
    if wire != [] {
      OnWireAppend(wire[1..], message);
      assert (wire + [message])[1..] == wire[1..] + [message];
    }
  }

  lemma SendKeepsInv(answers: Answers, s: State, a: Action)
    requires Inv(answers, s) && (a.Send? || a == SendCancel)
    ensures Inv(answers, After(s, a))
  {
    hide OnWire, InMain, InChannel, InReceiver;
    var s' := After(s, a);
    var message := if a.Send? then Request(a.query) else Cancel;
    OnWireAppend(s.wire, message);
    assert Unanswered(s') == Unanswered(s) + if a.Send? then [a.query] else [];
    assert Answered(s') == Answered(s);
    if a.Send? {
      assert s.sent <= s'.sent;
    }
  }

  /** Steps that only move requests along do not change the order of the unanswered ones. */
  lemma MoveKeepsInv(answers: Answers, s: State, a: Action)
    requires Inv(answers, s) && Enabled(s, a) && a in {Check, Recv, RecvEnds, Push, Take, Disconnect}
    ensures Inv(answers, After(s, a))
  {
    hide AreRight, Requests, Unanswered;
    MoveKeepsUnanswered(s, a);
  }

  lemma MoveKeepsUnanswered(s: State, a: Action)
    requires Enabled(s, a) && a in {Check, Recv, RecvEnds, Push, Take, Disconnect}
    ensures Unanswered(After(s, a)) == Unanswered(s)
  {
    if a == Action.Recv {
      RecvMoves(s);
    } else if a == Push {
      assert [s.receiver.query] + ([] + OnWire(s.wire)) == [] + ([s.receiver.query] + OnWire(s.wire));
    } else if a == Take {
      var rest := InReceiver(s.receiver) + OnWire(s.wire);
      assert [s.channel.value] + ([] + rest) == [] + ([s.channel.value] + rest);
    }
  }

  lemma RecvMoves(s: State)
    requires s.receiver == Receiving && s.wire != []
    ensures InReceiver(After(s, Action.Recv).receiver) + OnWire(s.wire[1..]) == InReceiver(s.receiver) + OnWire(s.wire)
  {
  }

  lemma DeliverKeepsInv(answers: Answers, s: State)
    requires Inv(answers, s) && s.outgoing != []
    ensures Inv(answers, After(s, Deliver))
  {
    var s' := After(s, Deliver);
    assert s'.delivered + s'.outgoing == s.delivered + s.outgoing;
  }

  lemma MainKeepsInv(answers: Answers, s: State, a: Action)
    requires Inv(answers, s) && Allowed(answers, s, a) && (a.Respond? || a in {Fail, Return})
    ensures Inv(answers, After(s, a))
  {
    hide OnWire, InReceiver, InChannel;
    var s' := After(s, a);
    if a.Respond? {
      var response := Response(s.main.query, a.answer);
      assert s'.delivered + s'.outgoing == (s.delivered + s.outgoing) + [response];
      assert Answered(s') == Answered(s) + [s.main.query];
      assert Unanswered(s) == [s.main.query] + Unanswered(s');
    }
  }

  lemma StepKeepsInv(answers: Answers, s: State, a: Action)
    requires Inv(answers, s) && Allowed(answers, s, a)
    ensures Inv(answers, After(s, a))
  {
    hide Inv, After;
    match a
    case Send(_) => SendKeepsInv(answers, s, a);
    case SendCancel => SendKeepsInv(answers, s, a);
    case Deliver => DeliverKeepsInv(answers, s);
    case Respond(_) => MainKeepsInv(answers, s, a);
    case Fail => MainKeepsInv(answers, s, a);
    case Return => MainKeepsInv(answers, s, a);
    case _ => MoveKeepsInv(answers, s, a);
  }

  lemma {:induction false} RunKeepsInv(answers: Answers, states: seq<State>, actions: seq<Action>, k: nat)
    requires IsRun(answers, states, actions) && k < |states|
    ensures Inv(answers, states[k])
  {
    hide Allowed, After;
    if k > 0 {
      RunKeepsInv(answers, states, actions, k - 1);
      StepKeepsInv(answers, states[k - 1], actions[k - 1]);
    }
  }

  // ---- Safety ----

  /**
   In every reachable state the requests that were sent are, in their order: those whose response was delivered, those
   whose response is under way, the one being processed, the one in the channel, the one the receiver holds, and those
   on the wire. Once the main loop has returned, the responses are still those to the first requests.
   */
  lemma Conservation(answers: Answers, states: seq<State>, actions: seq<Action>, k: nat)
    requires IsRun(answers, states, actions) && k < |states|
    ensures var s := states[k];
      && (s.main != Returned ==>
            s.sent == Requests(s.delivered) + Requests(s.outgoing) +
                      InMain(s.main) + InChannel(s.channel) + InReceiver(s.receiver) + OnWire(s.wire))
      && Requests(s.delivered) + Requests(s.outgoing) <= s.sent
  {
    hide OnWire, InMain, InReceiver, InChannel;
    RunKeepsInv(answers, states, actions, k);
    var s := states[k];
    var a, b, c, d, e := Answered(s), InMain(s.main), InChannel(s.channel), InReceiver(s.receiver), OnWire(s.wire);
    assert a == Requests(s.delivered) + Requests(s.outgoing);
    assert a + (b + (c + (d + e))) == a + b + c + d + e;
  }

  /** The i-th response a client receives echoes its i-th request and answers it. */
  lemma ResponsesInOrder(answers: Answers, states: seq<State>, actions: seq<Action>, k: nat, i: nat)
    requires IsRun(answers, states, actions) && k < |states| && i < |states[k].delivered|
    ensures i < |states[k].sent| && states[k].delivered[i].request == states[k].sent[i]
    ensures answers(states[k].sent[i], states[k].delivered[i].answer)
  {
    RunKeepsInv(answers, states, actions, k);
    var s := states[k];
    assert (s.delivered + s.outgoing)[i] == s.delivered[i];
    assert Answered(s)[i] == s.delivered[i].request;
    assert Answered(s) <= s.sent;
  }

  /**
   A client that has received as many responses as it sent requests has nothing in flight, so its tiers cannot mix.
   */
  lemma NothingInFlight(answers: Answers, states: seq<State>, actions: seq<Action>, k: nat)
    requires IsRun(answers, states, actions) && k < |states| && |states[k].delivered| == |states[k].sent|
    ensures states[k].outgoing == [] && Unanswered(states[k]) == []
  {
    RunKeepsInv(answers, states, actions, k);
    var s := states[k];
    assert |Answered(s)| == |s.delivered| + |s.outgoing|;
  }

  // ---- To its client the stream is a queue ----

  /** The requests the client has no response to yet. */
  function Pending(s: State): seq<Query>
    requires |s.delivered| <= |s.sent|
  {
    s.sent[|s.delivered|..]
  }

  /** What a step does to the queue of pending requests. */
  ghost predicate QueueStep(answers: Answers, s: State, a: Action, s': State) {
    && |s.delivered| <= |s.sent| && |s'.delivered| <= |s'.sent|
    && match a
       case Send(query) => Pending(s') == Pending(s) + [query] && s'.delivered == s.delivered
       case Deliver =>
         && Pending(s) != [] && Pending(s') == Pending(s)[1..]
         && s.delivered <= s'.delivered && |s'.delivered| == |s.delivered| + 1
         && s'.delivered[|s.delivered|].request == Pending(s)[0]
         && answers(Pending(s)[0], s'.delivered[|s.delivered|].answer)
       case _ => Pending(s') == Pending(s) && s'.delivered == s.delivered
  }

  /**
   The protocol refines a queue: a request that is sent joins its end, a response that is delivered answers its head and
   removes it, and no other step of the client, the receiver or the main loop can be seen.
   */
  lemma RefinesQueue(answers: Answers, states: seq<State>, actions: seq<Action>, k: nat)
    requires IsRun(answers, states, actions) && k < |actions|
    ensures QueueStep(answers, states[k], actions[k], states[k + 1])
  {
    hide QueueStep, After;
    RunKeepsInv(answers, states, actions, k);
    StepOfQueue(answers, states[k], actions[k]);
  }

  lemma StepOfQueue(answers: Answers, s: State, a: Action)
    requires Inv(answers, s) && Allowed(answers, s, a)
    ensures QueueStep(answers, s, a, After(s, a))
  {
    hide Inv;
    HeadIsAnswered(answers, s);
    if a.Send? {
      assert Pending(After(s, a)) == Pending(s) + [a.query];
    } else if a == Deliver {
      assert Pending(After(s, a)) == Pending(s)[1..];
    }
  }

  lemma HeadIsAnswered(answers: Answers, s: State)
    requires Inv(answers, s)
    ensures |s.delivered| + |s.outgoing| <= |s.sent|
    ensures s.outgoing != [] ==>
      s.outgoing[0].request == s.sent[|s.delivered|] && answers(s.sent[|s.delivered|], s.outgoing[0].answer)
  {
    assert |Answered(s)| == |s.delivered| + |s.outgoing|;
    if s.outgoing != [] {
      assert (s.delivered + s.outgoing)[|s.delivered|] == s.outgoing[0];
      assert Answered(s)[|s.delivered|] == s.outgoing[0].request;
    }
  }

  // ---- Progress ----

  /** The steps that are not the client's own requests, nor the end of the call. */
  predicate Internal(a: Action) {
    !a.Send? && a != SendCancel && a != Disconnect
  }

  function Measure(s: State): nat {
    6 * |s.wire| + |s.outgoing|
    + (match s.receiver case Checking => 2 case Receiving => 1 case Holding(_) => 6 case Stopped => 0)
    + (if s.channel.Some? then 3 else 0)
    + (match s.main case Selecting => 1 case Processing(_) => 3 case Returned => 0)
  }

  /** Between two steps of the client that send something, only finitely many steps fit. */
  lemma StepDecreases(s: State, a: Action)
    requires Enabled(s, a) && Internal(a)
    ensures Measure(After(s, a)) < Measure(s)
  {
  }

  /** The requests that are not answered are somewhere on their way, and what holds them can move. */
  lemma CanGoOn(answers: Answers, s: State)
    requires Inv(answers, s) && !s.done && Cancel !in s.wire
    ensures (exists a :: Internal(a) && Enabled(s, a)) <==> |s.delivered| < |s.sent| || s.receiver == Checking
  {
    assert |Answered(s)| == |s.delivered| + |s.outgoing|;
    if s.receiver == Checking {
      assert Enabled(s, Check);
    } else if |s.delivered| < |s.sent| && s.outgoing == [] {
      assert Unanswered(s) != [];
      if s.main.Processing? { assert Enabled(s, Fail); }
      else if s.channel.Some? { assert Enabled(s, Take); }
      else if s.receiver.Holding? { assert Enabled(s, Push); }
      else { assert Enabled(s, Action.Recv); }
    } else if s.outgoing != [] {
      assert Enabled(s, Deliver);
    } else {
      assert Unanswered(s) == [];
      NothingOnWire(s.wire);
    }
  }

  lemma NothingOnWire(wire: seq<Message>)
    requires Cancel !in wire && OnWire(wire) == []
    ensures wire == []
  {
  }

  /**
   While the call has not ended and Cancel was not sent, the system can go on by itself exactly as long as a request
   has not been answered and delivered, or the receiver is at its select.
   */
  lemma GoesOnUntilDelivered(answers: Answers, states: seq<State>, actions: seq<Action>, k: nat)
    requires IsRun(answers, states, actions) && k < |states| && !states[k].done && Cancel !in states[k].wire
    ensures (exists a :: Internal(a) && Enabled(states[k], a)) <==>
            |states[k].delivered| < |states[k].sent| || states[k].receiver == Checking
  {
    RunKeepsInv(answers, states, actions, k);
    CanGoOn(answers, states[k]);
  }

  // ---- After the call has ended ----

  /** The receiver is blocked on a full channel, and nobody will empty it. */
  predicate Leaked(s: State) {
    s.main == Returned && s.receiver.Holding? && s.channel.Some?
  }

  lemma LeakedForEver(s: State, a: Action)
    requires Leaked(s) && Enabled(s, a)
    ensures Leaked(After(s, a))
  {
  }

  /** Only a client that has sent two requests which are not answered can leave the receiver so. */
  lemma LeakNeedsTwo(answers: Answers, states: seq<State>, actions: seq<Action>, k: nat)
    requires IsRun(answers, states, actions) && k < |states| && Leaked(states[k])
    ensures |states[k].sent| >= |states[k].delivered| + |states[k].outgoing| + 2
  {
    RunKeepsInv(answers, states, actions, k);
    assert |Answered(states[k])| == |states[k].delivered| + |states[k].outgoing|;
  }

  /**
   Once the main loop has returned and no server step is left, the receiver has returned if and only if it is not
   blocked so.
   */
  lemma ReceiverEnds(answers: Answers, states: seq<State>, actions: seq<Action>, k: nat)
    requires IsRun(answers, states, actions) && k < |states| && states[k].main == Returned
    requires forall a :: Internal(a) && a != Deliver ==> !Enabled(states[k], a)
    ensures states[k].receiver == Stopped <==> !Leaked(states[k])
  {
    RunKeepsInv(answers, states, actions, k);
    var s := states[k];
    assert !Enabled(s, Check) && !Enabled(s, RecvEnds) && !Enabled(s, Push);
  }

  /** The client only sends a request once it has the responses to all earlier ones. */
  ghost predicate OneAtATime(states: seq<State>, actions: seq<Action>)
    requires |states| > |actions|
  {
    forall k :: 0 <= k < |actions| && actions[k].Send? ==> |states[k].sent| == |states[k].delivered|
  }

  lemma {:induction false} AtMostOnePending(answers: Answers, states: seq<State>, actions: seq<Action>, k: nat)
    requires IsRun(answers, states, actions) && OneAtATime(states, actions) && k < |states|
    ensures |states[k].sent| <= |states[k].delivered| + 1
  {
    if k > 0 {
      AtMostOnePending(answers, states, actions, k - 1);
      assert Allowed(answers, states[k - 1], actions[k - 1]);
    }
  }

  /**
   With such a client the receiver is never left blocked: once the main loop has returned and no server step is left, it
   has returned too.
   */
  lemma ReceiverReturns(answers: Answers, states: seq<State>, actions: seq<Action>, k: nat)
    requires IsRun(answers, states, actions) && OneAtATime(states, actions) && k < |states|
      && states[k].main == Returned
    requires forall a :: Internal(a) && a != Deliver ==> !Enabled(states[k], a)
    ensures states[k].receiver == Stopped
  {
    ReceiverEnds(answers, states, actions, k);
    AtMostOnePending(answers, states, actions, k);
    if Leaked(states[k]) { LeakNeedsTwo(answers, states, actions, k); }
  }

  ghost predicate Reachable(answers: Answers, s: State) {
    exists states, actions :: IsRun(answers, states, actions) && states[|actions|] == s
  }

  lemma StartIsReachable(answers: Answers)
    ensures Reachable(answers, Start())
  {
    assert IsRun(answers, [Start()], []);
  }

  lemma StepIsReachable(answers: Answers, s: State, a: Action)
    requires Reachable(answers, s) && Allowed(answers, s, a)
    ensures Reachable(answers, After(s, a))
  {
    hide Enabled, After;
    var states, actions :| IsRun(answers, states, actions) && states[|actions|] == s;
    var s' := After(s, a);
    assert IsRun(answers, states + [s'], actions + [a]);
    assert (states + [s'])[|actions + [a]|] == s';
  }

  lemma ReachableKeepsInv(answers: Answers, s: State)
    requires Reachable(answers, s)
    ensures Inv(answers, s)
  {
    var states, actions :| IsRun(answers, states, actions) && states[|actions|] == s;
    RunKeepsInv(answers, states, actions, |actions|);
  }

  function AsMessages(queries: seq<Query>): seq<Message> {
    seq(|queries|, i requires 0 <= i < |queries| => Request(queries[i]))
  }

  lemma {:induction false} AllSent(answers: Answers, queries: seq<Query>)
    ensures Reachable(answers, Start().(sent := queries, wire := AsMessages(queries)))
  {
    hide Reachable;
    if queries == [] {
      StartIsReachable(answers);
      assert AsMessages(queries) == [];
    } else {
      var front, last := queries[..|queries| - 1], queries[|queries| - 1];
      AllSent(answers, front);
      StepIsReachable(answers, Start().(sent := front, wire := AsMessages(front)), Send(last));
      assert front + [last] == queries;
      assert AsMessages(front) + [Request(last)] == AsMessages(queries);
    }
  }

  lemma ToTheReceiver(answers: Answers, s: State) returns (s': State)
    requires Reachable(answers, s) && s.receiver == Checking && !s.done && s.wire != [] && s.wire[0].Request?
    ensures Reachable(answers, s') && s' == s.(wire := s.wire[1..], receiver := Holding(s.wire[0].query))
  {
    hide Reachable;
    StepIsReachable(answers, s, Check);
    s' := After(s, Check);
    StepIsReachable(answers, s', Action.Recv);
    s' := After(s', Action.Recv);
  }

  /** The first two requests reach the channel and the receiver, and the call ends before the main loop takes one. */
  lemma TwoLeak(answers: Answers, queries: seq<Query>) returns (s: State)
    requires |queries| >= 2
    ensures Reachable(answers, s) && s.sent == queries && Leaked(s)
  {
    hide Reachable;
    AllSent(answers, queries);
    s := Start().(sent := queries, wire := AsMessages(queries));
    s := ToTheReceiver(answers, s);
    StepIsReachable(answers, s, Push);
    s := After(s, Push);
    s := ToTheReceiver(answers, s);
    StepIsReachable(answers, s, Disconnect);
    s := After(s, Disconnect);
    StepIsReachable(answers, s, Return);
    s := After(s, Return);
  }

  /**
   Some run in which the client sent exactly these requests leaves the receiver blocked if and only if there are two of
   them.
   */
  lemma LeakIff(answers: Answers, queries: seq<Query>)
    ensures (exists s :: Reachable(answers, s) && s.sent == queries && Leaked(s)) <==> |queries| >= 2
  {
    if |queries| >= 2 {
      var s := TwoLeak(answers, queries);
    } else if exists s :: Reachable(answers, s) && s.sent == queries && Leaked(s) {
      var s :| Reachable(answers, s) && s.sent == queries && Leaked(s);
      ReachableKeepsInv(answers, s);
    }
  }
}
