/** The client's end of a Traverse call on a graph store. */
module TraverseStream {
  import opened Collections
  import opened Transforms
  import opened NeighborGrouping
  import opened GraphStoreV1Beta
  import opened TraverseProtocol

  type JoinRows = seq<JoinRow>

  /** An answer of the store to a query, from the rows of its two joins in some order. */
  ghost predicate IsAnswerFrom(t: GraphTable, query: Query, answer: Answer, toRows: JoinRows, fromRows: JoinRows) {
    && InTable(t, toRows) && Enumerates(toRows, ToRows(t, KeysOf(ToNode(query))))
    && InTable(t, fromRows) && Enumerates(fromRows, FromRows(t, KeysOf(FromNode(query))))
    && answer == Grouping(ConvertAll(Alternating(t, toRows)), FromKey) +
         Grouping(ConvertAll(Alternating(t, fromRows)), ToKey)
  }

  /** A store with a row that does not decode may answer anything. */
  ghost predicate IsAnswer(t: GraphTable, query: Query, answer: Answer) {
    Decodable(t) ==> exists toRows, fromRows :: IsAnswerFrom(t, query, answer, toRows, fromRows)
  }

  ghost function AnswersIn(t: GraphTable): Answers {
    (query, answer) => IsAnswer(t, query, answer)
  }

  /** The receiver or the main loop has a step that does not depend on the end of the call. */
  predicate ServerCanStep(s: State) {
    || s.receiver == Checking
    || (s.receiver == Receiving && s.wire != [])
    || (s.receiver.Holding? && s.channel == None)
    || (s.main == Selecting && s.channel.Some?)
    || s.main.Processing?
  }

  ghost predicate IsOpen(s: State) {
    !s.done && Cancel !in s.wire
  }

  lemma StepsUntilAnswered(answers: Answers, s: State)
    requires Reachable(answers, s) && IsOpen(s) && |s.delivered| < |s.sent| && s.outgoing == []
    ensures ServerCanStep(s)
  {
    hide Reachable, TraverseProtocol.Inv;
    ReachableKeepsInv(answers, s);
    CanGoOn(answers, s);
  }

  /** The queue of the client after a step. */
  lemma QueueAfter(answers: Answers, s: State, a: Action)
    requires Reachable(answers, s) && Allowed(answers, s, a)
    ensures Reachable(answers, After(s, a)) && QueueStep(answers, s, a, After(s, a))
  {
    hide Reachable, TraverseProtocol.Inv, After, QueueStep;
    ReachableKeepsInv(answers, s);
    StepOfQueue(answers, s, a);
    StepIsReachable(answers, s, a);
  }

  /**
   Each method takes steps of the protocol. Which of its enabled steps the server takes, and how many of them
   fit before the client goes on, is left open, so what is proved here holds of every interleaving.
   */
  class Stream {
    const gs: GraphStore
    var state: State

    ghost predicate Valid()
      reads this, gs
    {
      |state.delivered| <= |state.sent| && Reachable(AnswersIn(gs.table), state)
    }

    ghost predicate Open()
      reads this
    {
      IsOpen(state)
    }

    /** The requests without a response, oldest first. */
    ghost function Waiting(): seq<Query>
      requires Valid()
      reads this, gs
    {
      Pending(state)
    }

    constructor (gs: GraphStore)
      ensures this.gs == gs && Valid() && Open() && Waiting() == []
    {
      this.gs := gs;
      state := Start();
      new;
      StartIsReachable(AnswersIn(gs.table));
    }

    method Take(a: Action)
      requires Valid() && Allowed(AnswersIn(gs.table), state, a)
      modifies this
      ensures Valid() && state == After(old(state), a) && QueueStep(AnswersIn(gs.table), old(state), a, state)
    {
      hide Reachable, After;
      QueueAfter(AnswersIn(gs.table), state, a);
      state := After(state, a);
    }

    /** One step of the receiver or the main loop, any that can be taken. */
    method ServerStep()
      requires Valid() && Open() && ServerCanStep(state)
      modifies this
      ensures Valid() && Waiting() == old(Waiting()) && Measure(state) < old(Measure(state))
      ensures if state.done then !Decodable(gs.table) else Open()
    {
      hide Reachable, Decodable, IsAnswer;
      if
      case state.receiver == Checking => Take(Check);
      case state.receiver == Receiving && state.wire != [] => Take(Action.Recv);
      case state.receiver.Holding? && state.channel == None => Take(Push);
      case state.main == Selecting && state.channel.Some? => Take(Action.Take);
      case state.main.Processing? => Process();
    }

    /** The main loop asks the store and sends its answer, or fails with it. */
    method Process()
      requires Valid() && Open() && state.main.Processing?
      modifies this
      ensures Valid() && Waiting() == old(Waiting()) && Measure(state) < old(Measure(state))
      ensures if state.done then !Decodable(gs.table) else Open()
    {
      hide Reachable, Decodable, Grouping, ConvertAll, Alternating;
      var query := state.main.query;
      var answer, toRows, fromRows := gs.Neighbors(query);
      if answer.None? {
        Take(Fail);
      } else {
        assert Decodable(gs.table) ==> IsAnswerFrom(gs.table, query, answer.value, toRows, fromRows);
        Take(Respond(answer.value));
      }
    }

    /** As many steps of the server as happen to be taken. */
    method Serve()
      requires Valid() && Open()
      modifies this
      ensures Valid() && Waiting() == old(Waiting())
      ensures if state.done then !Decodable(gs.table) else Open()
    {
      hide Reachable, Decodable, Measure;
      while *
        invariant Valid() && Waiting() == old(Waiting())
        invariant if state.done then !Decodable(gs.table) else Open()
        decreases Measure(state)
      {
        if state.done || !ServerCanStep(state) { break; }
        ServerStep();
      }
    }

    /** Sends a request, unless the server has ended the call. */
    method Send(query: Query) returns (ok: bool)
      requires Valid() && Open()
      modifies this
      ensures Valid() && (Decodable(gs.table) ==> ok)
      ensures ok ==> Open() && Waiting() == old(Waiting()) + [query]
    {
      hide Reachable, Decodable, AnswersIn;
      Serve();
      ok := !state.done;
      if ok { Take(Action.Send(query)); }
    }

    /** Waits for the response to the oldest request. The result is None if the server ended the call instead. */
    method Recv() returns (r: Option<Answer>)
      requires Valid() && Open() && Waiting() != []
      modifies this
      ensures Valid() && (Decodable(gs.table) ==> r.Some?)
      ensures r.Some? ==> Open() && Waiting() == old(Waiting())[1..] && IsAnswer(gs.table, old(Waiting())[0], r.value)
    {
      hide Reachable, Decodable, Measure, ServerCanStep, IsAnswer;
      Serve();
      while state.outgoing == [] && !state.done
        invariant Valid() && Waiting() == old(Waiting())
        invariant if state.done then !Decodable(gs.table) else Open()
        decreases Measure(state)
      {
        StepsUntilAnswered(AnswersIn(gs.table), state);
        ServerStep();
      }
      if state.done { return None; }
      r := Some(state.outgoing[0].answer);
      Take(Deliver);
    }

    /** What the client does last. */
    method Cancel()
      requires Valid()
      modifies this
      ensures Valid() && Waiting() == old(Waiting())
    {
      hide Reachable;
      Take(SendCancel);
    }
  }
}
