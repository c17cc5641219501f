/** The indexer's worker pool: every interleaving of main and the workers is a run. */
module WorkerPool {
  // Main feeds a channel as long as there are workers, the workers consume, and a WaitGroup tells main when to return.

  datatype Repository = Repository(url: string)

  datatype Worker = Idle | Consuming(repo: Repository) | Consumed(repo: Repository) | Exited

  datatype MainPhase = Feeding | Waiting | Returned

  /** `taken` and `finished` are histories: the repositories taken from the channel, and those consumed, in order. */
  datatype State = State(unfed: seq<Repository>, queue: seq<Repository>, workers: seq<Worker>, main: MainPhase,
                         count: int, taken: seq<Repository>, finished: seq<Repository>)

  function Start(repos: seq<Repository>, n: nat): State {
    State(repos, [], seq(n, _ => Idle), Feeding, |repos|, [], [])
  }

  datatype Action = Feed | Wait | Return | Take(i: nat) | Consume(i: nat) | Done(i: nat) | Exit(i: nat)

  predicate Enabled(s: State, a: Action) {
    match a
    case Feed => s.main == Feeding && s.unfed != [] && |s.queue| < |s.workers|
    case Wait => s.main == Feeding && s.unfed == []
    case Return => s.main == Waiting && s.count == 0
    case Take(i) => i < |s.workers| && s.workers[i] == Idle && s.queue != []
    case Consume(i) => i < |s.workers| && s.workers[i].Consuming?
    case Done(i) => i < |s.workers| && s.workers[i].Consumed?
    case Exit(i) => i < |s.workers| && s.workers[i] == Idle && s.queue == [] && s.main == Returned
  }

  /** The channel holds as many repositories as there are workers; main closes it when it returns. */
  function After(s: State, a: Action): State
    requires Enabled(s, a)
  {
    match a
    case Feed => s.(unfed := s.unfed[1..], queue := s.queue + [s.unfed[0]])
    case Wait => s.(main := Waiting)
    case Return => s.(main := Returned)
    case Take(i) =>
      s.(queue := s.queue[1..], workers := s.workers[i := Consuming(s.queue[0])], taken := s.taken + [s.queue[0]])
    case Consume(i) =>
      s.(workers := s.workers[i := Consumed(s.workers[i].repo)], finished := s.finished + [s.workers[i].repo])
    case Done(i) => s.(workers := s.workers[i := Idle], count := s.count - 1)
    case Exit(i) => s.(workers := s.workers[i := Exited])
  }

  ghost predicate IsRun(repos: seq<Repository>, n: nat, states: seq<State>, actions: seq<Action>) {
    && |states| == |actions| + 1
    && states[0] == Start(repos, n)
    && forall k :: 0 <= k < |actions| ==>
         Enabled(states[k], actions[k]) && states[k + 1] == After(states[k], actions[k])
  }

  ghost predicate Stuck(s: State) {
    forall a :: !Enabled(s, a)
  }

  // ---- What the workers hold ----

  function Held(worker: Worker): multiset<Repository> {
    if worker.Consuming? then multiset{worker.repo} else multiset{}
  }

  /** The repositories that workers are still consuming. */
  function InProgress(workers: seq<Worker>): multiset<Repository> {
    if workers == [] then multiset{} else
      InProgress(workers[..|workers| - 1]) + Held(workers[|workers| - 1])
  }

  predicate Busy(worker: Worker) {
    worker.Consuming? || worker.Consumed?
  }

  function Weight(worker: Worker): nat {
    match worker
    case Exited => 0
    case Idle => 1
    case Consumed(_) => 2
    case Consuming(_) => 3
  }

  function BusyCount(workers: seq<Worker>): nat {
    if workers == [] then 0 else BusyCount(workers[..|workers| - 1]) + if Busy(workers[|workers| - 1]) then 1 else 0
  }

  function TotalWeight(workers: seq<Worker>): nat {
    if workers == [] then 0 else TotalWeight(workers[..|workers| - 1]) + Weight(workers[|workers| - 1])
  }

  lemma MultisetShuffle(a: multiset<Repository>, b: multiset<Repository>, x: multiset<Repository>,
                      y: multiset<Repository>, z: multiset<Repository>)
    requires a + x == b + y
    ensures (a + z) + x == (b + z) + y
  {
    assert (a + z) + x == (a + x) + z && (b + z) + y == (b + y) + z;
  }

  lemma {:induction false} HeldChanges(workers: seq<Worker>, i: nat, worker: Worker)
    requires i < |workers|
    ensures InProgress(workers[i := worker]) + Held(workers[i]) == InProgress(workers) + Held(worker)
  {
    hide Held;
    var n := |workers| - 1;
    var rest := InProgress(workers[..n]);
    if i == n {
      assert workers[i := worker][..n] == workers[..n];
      assert (rest + Held(worker)) + Held(workers[i]) == (rest + Held(workers[i])) + Held(worker);
    } else {
      HeldChanges(workers[..n], i, worker);
      assert workers[i := worker][..n] == workers[..n][i := worker];
      MultisetShuffle(InProgress(workers[..n][i := worker]), rest, Held(workers[i]), Held(worker), Held(workers[n]));
    }
  }

  lemma {:induction false} BusyChanges(workers: seq<Worker>, i: nat, worker: Worker)
    requires i < |workers|
    ensures BusyCount(workers[i := worker]) + (if Busy(workers[i]) then 1 else 0)
      == BusyCount(workers) + if Busy(worker) then 1 else 0
  {
    hide Busy;
    var n := |workers| - 1;
    if i == n {
      assert workers[i := worker][..n] == workers[..n];
    } else {
      BusyChanges(workers[..n], i, worker);
      assert workers[i := worker][..n] == workers[..n][i := worker];
    }
  }

  lemma {:induction false} WeightChanges(workers: seq<Worker>, i: nat, worker: Worker)
    requires i < |workers|
    ensures TotalWeight(workers[i := worker]) + Weight(workers[i]) == TotalWeight(workers) + Weight(worker)
  {
    hide Weight;
    var n := |workers| - 1;
    if i == n {
      assert workers[i := worker][..n] == workers[..n];
    } else {
      WeightChanges(workers[..n], i, worker);
      assert workers[i := worker][..n] == workers[..n][i := worker];
    }
  }

  lemma {:induction false} NoneBusy(workers: seq<Worker>)
    ensures BusyCount(workers) == 0 <==> forall i :: 0 <= i < |workers| ==> !Busy(workers[i])
    ensures BusyCount(workers) == 0 ==> InProgress(workers) == multiset{}
  {
    if workers != [] {
      NoneBusy(workers[..|workers| - 1]);
    }
  }

  // ---- The invariant ----

  ghost predicate Inv(repos: seq<Repository>, n: nat, s: State) {
    && |s.workers| == n
    && |s.queue| <= n
    && s.taken + s.queue + s.unfed == repos
    && multiset(s.taken) == InProgress(s.workers) + multiset(s.finished)
    && s.count == |s.unfed| + |s.queue| + BusyCount(s.workers)
    && (s.main != Feeding ==> s.unfed == [])
    && (s.main == Returned ==> s.count == 0)
    && (s.main != Returned ==> forall i :: 0 <= i < n ==> s.workers[i] != Exited)
  }

  lemma StartInv(repos: seq<Repository>, n: nat)
    ensures Inv(repos, n, Start(repos, n))
  {
    NoneBusy(Start(repos, n).workers);
  }

  lemma NothingAdded(a: multiset<Repository>, b: multiset<Repository>)
    requires a + multiset{} == b + multiset{}
    ensures a == b
  {
    assert a == a + multiset{} && b == b + multiset{};
  }

  lemma FeedKeepsInv(repos: seq<Repository>, n: nat, s: State)
    requires Inv(repos, n, s) && Enabled(s, Feed)
    ensures Inv(repos, n, After(s, Feed))
  {
    hide InProgress, BusyCount;
    var s' := After(s, Feed);
    assert s'.queue + s'.unfed == s.queue + s.unfed;
    assert s'.taken + s'.queue + s'.unfed == s.taken + (s.queue + s.unfed);
  }

  lemma TakeKeepsInv(repos: seq<Repository>, n: nat, s: State, i: nat)
    requires Inv(repos, n, s) && Enabled(s, Take(i))
    ensures Inv(repos, n, After(s, Take(i)))
  {
    hide InProgress, BusyCount;
    var s', repo := After(s, Take(i)), s.queue[0];
    HeldChanges(s.workers, i, Consuming(repo));
    BusyChanges(s.workers, i, Consuming(repo));
    assert s'.taken + s'.queue == s.taken + s.queue;
    MultisetShuffle(InProgress(s'.workers), InProgress(s.workers), multiset{}, multiset{repo}, multiset(s.finished));
    assert multiset(s'.taken) == multiset(s.taken) + multiset{repo};
    assert InProgress(s'.workers) + multiset(s.finished) + multiset{} == InProgress(s'.workers) + multiset(s.finished);
  }

  lemma ConsumeKeepsInv(repos: seq<Repository>, n: nat, s: State, i: nat)
    requires Inv(repos, n, s) && Enabled(s, Consume(i))
    ensures Inv(repos, n, After(s, Consume(i)))
  {
    hide InProgress, BusyCount;
    var s', repo := After(s, Consume(i)), s.workers[i].repo;
    HeldChanges(s.workers, i, Consumed(repo));
    BusyChanges(s.workers, i, Consumed(repo));
    assert InProgress(s'.workers) + multiset{repo} == InProgress(s.workers);
    assert multiset(s'.finished) == multiset(s.finished) + multiset{repo};
    assert InProgress(s.workers) + multiset(s.finished)
      == InProgress(s'.workers) + (multiset(s.finished) + multiset{repo});
  }

  lemma DoneKeepsInv(repos: seq<Repository>, n: nat, s: State, i: nat)
    requires Inv(repos, n, s) && Enabled(s, Done(i))
    ensures Inv(repos, n, After(s, Done(i)))
  {
    hide InProgress, BusyCount;
    HeldChanges(s.workers, i, Idle);
    BusyChanges(s.workers, i, Idle);
    NothingAdded(InProgress(After(s, Done(i)).workers), InProgress(s.workers));
  }

  lemma ExitKeepsInv(repos: seq<Repository>, n: nat, s: State, i: nat)
    requires Inv(repos, n, s) && Enabled(s, Exit(i))
    ensures Inv(repos, n, After(s, Exit(i)))
  {
    hide InProgress, BusyCount;
    HeldChanges(s.workers, i, Exited);
    BusyChanges(s.workers, i, Exited);
    NothingAdded(InProgress(After(s, Exit(i)).workers), InProgress(s.workers));
  }

  lemma StepKeepsInv(repos: seq<Repository>, n: nat, s: State, a: Action)
    requires Inv(repos, n, s) && Enabled(s, a)
    ensures Inv(repos, n, After(s, a))
  {
    hide InProgress, BusyCount;
    match a
    case Feed => FeedKeepsInv(repos, n, s);
    case Take(i) => TakeKeepsInv(repos, n, s, i);
    case Consume(i) => ConsumeKeepsInv(repos, n, s, i);
    case Done(i) => DoneKeepsInv(repos, n, s, i);
    case Exit(i) => ExitKeepsInv(repos, n, s, i);
    case Wait =>
    case Return =>
  }

  lemma {:induction false} RunKeepsInv(repos: seq<Repository>, n: nat, states: seq<State>, actions: seq<Action>, k: nat)
    requires IsRun(repos, n, states, actions) && k < |states|
    ensures Inv(repos, n, states[k])
  {
    hide Inv, Enabled, After;
    if k == 0 {
      StartInv(repos, n);
    } else {
      RunKeepsInv(repos, n, states, actions, k - 1);
      StepKeepsInv(repos, n, states[k - 1], actions[k - 1]);
    }
  }

  // ---- Safety: every repository is consumed once ----

  /**
   In every reachable state the repositories are split between those not fed, those in the channel, those being consumed
   and those consumed; the repositories leave the channel in their order; and the WaitGroup counts those not done.
   */
  lemma Conservation(repos: seq<Repository>, n: nat, states: seq<State>, actions: seq<Action>, k: nat)
    requires IsRun(repos, n, states, actions) && k < |states|
    ensures var s := states[k];
      && multiset(s.unfed) + multiset(s.queue) + InProgress(s.workers) + multiset(s.finished) == multiset(repos)
      && s.taken + s.queue + s.unfed == repos
      && s.count == |s.unfed| + |s.queue| + BusyCount(s.workers)
      && s.count >= 0
  {
    RunKeepsInv(repos, n, states, actions, k);
    var s := states[k];
    assert multiset(s.taken + s.queue + s.unfed) == multiset(s.taken) + multiset(s.queue) + multiset(s.unfed);
  }

  /**
   Main returns only when every repository has been consumed, each as often as it is listed, and nothing is left over.
   */
  lemma ReturnsWhenAllConsumed(repos: seq<Repository>, n: nat, states: seq<State>, actions: seq<Action>, k: nat)
    requires IsRun(repos, n, states, actions) && k < |states| && states[k].main == Returned
    ensures multiset(states[k].finished) == multiset(repos)
    ensures states[k].unfed == [] && states[k].queue == [] && BusyCount(states[k].workers) == 0
  {
    RunKeepsInv(repos, n, states, actions, k);
    Conservation(repos, n, states, actions, k);
    NoneBusy(states[k].workers);
  }

  // ---- Progress ----

  function Measure(s: State): nat {
    4 * |s.unfed| + 3 * |s.queue| + TotalWeight(s.workers)
    + (match s.main case Feeding => 2 case Waiting => 1 case Returned => 0)
  }

  lemma StepDecreases(s: State, a: Action)
    requires Enabled(s, a)
    ensures Measure(After(s, a)) < Measure(s)
  {
    hide TotalWeight;
    match a
    case Take(i) => WeightChanges(s.workers, i, Consuming(s.queue[0]));
    case Consume(i) => WeightChanges(s.workers, i, Consumed(s.workers[i].repo));
    case Done(i) => WeightChanges(s.workers, i, Idle);
    case Exit(i) => WeightChanges(s.workers, i, Exited);
    case Feed =>
    case Wait =>
    case Return =>
  }

  lemma {:induction false} IdleWeight(n: nat)
    ensures TotalWeight(seq(n, _ => Idle)) == n
  {
    if n > 0 {
      IdleWeight(n - 1);
      assert seq(n, _ => Idle)[..n - 1] == seq(n - 1, _ => Idle);
    }
  }

  /** No run is longer than four steps for each repository and one for each worker, plus two of main. */
  lemma {:induction false} RunsEnd(repos: seq<Repository>, n: nat, states: seq<State>, actions: seq<Action>, k: nat)
    requires IsRun(repos, n, states, actions) && k < |states|
    ensures k + Measure(states[k]) <= 4 * |repos| + n + 2
  {
    hide Enabled, After;
    if k == 0 {
      IdleWeight(n);
    } else {
      RunsEnd(repos, n, states, actions, k - 1);
      StepDecreases(states[k - 1], actions[k - 1]);
    }
  }

  /** With a worker, a state in which main has not returned has a next step. */
  lemma SomeoneCanStep(repos: seq<Repository>, n: nat, s: State) returns (a: Action)
    requires Inv(repos, n, s) && n > 0 && s.main != Returned
    ensures Enabled(s, a)
  {
    NoneBusy(s.workers);
    if BusyCount(s.workers) > 0 {
      var i :| 0 <= i < n && Busy(s.workers[i]);
      a := if s.workers[i].Consuming? then Consume(i) else Done(i);
    } else if s.queue != [] {
      assert s.workers[0] == Idle;
      a := Take(0);
    } else if s.main == Feeding {
      a := if s.unfed != [] then Feed else Wait;
    } else {
      a := Return;
    }
  }

  /**
   A run that cannot go on has returned, with every repository consumed, if and only if there was a worker or nothing to
   do: without workers the channel has no room, and main waits for ever to feed its first repository.
   */
  lemma PoolCompletes(repos: seq<Repository>, n: nat, states: seq<State>, actions: seq<Action>)
    requires IsRun(repos, n, states, actions) && Stuck(states[|actions|])
    ensures states[|actions|].main == Returned <==> n > 0 || repos == []
    ensures n > 0 || repos == [] ==> multiset(states[|actions|].finished) == multiset(repos)
  {
    var s := states[|actions|];
    RunKeepsInv(repos, n, states, actions, |actions|);
    if n > 0 {
      if s.main != Returned {
        var a := SomeoneCanStep(repos, n, s);
        assert false;
      }
    } else {
      assert !Enabled(s, Wait) && !Enabled(s, Return);
      NoneBusy(s.workers);
      assert s.taken == [] by {
        assert |InProgress(s.workers)| == 0;
        NothingFinished(repos, states, actions, |actions|);
      }
    }
    if s.main == Returned { ReturnsWhenAllConsumed(repos, n, states, actions, |actions|); }
  }

  lemma {:induction false} NothingFinished(repos: seq<Repository>, states: seq<State>, actions: seq<Action>, k: nat)
    requires IsRun(repos, 0, states, actions) && k < |states|
    ensures states[k].taken == [] && states[k].workers == []
  {
    if k > 0 {
      NothingFinished(repos, states, actions, k - 1);
    }
  }
}
