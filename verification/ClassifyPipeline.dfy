/**
 The classify fan-out (processor/processor.go, `processMessageIDs`).
 */
module ClassifyPipeline {
  import ClaimProtocol
  import opened ProcessedTable

  // A dispatcher takes a semaphore slot per message and starts a worker for it; workers classify,
  // collect their label changes under a mutex and send a write job into a bounded channel; one
  // writer drains the channel. A run is any interleaving of their moves.
  //
  // Proved over every run: the semaphore bounds the classifications in flight, no job is sent on
  // the closed channel, no state before the return is stuck, a run never takes more than nine
  // moves per message and four more, and on return every message's job has been applied once.

  /** A received message's worker, in the order it goes through them. The deferred calls run in
      reverse, so the slot is freed before the wait group is told. */
  datatype Stage = Waiting | Classifying | Collecting | Sending | Sent | Freed | Gone

  datatype Dispatcher = Receiving | Acquiring | WaitWorkers | WaitWriter | Returned

  datatype Writer = Idle | Writing(job: nat) | Exited

  /** Messages are numbered in the order the fetch channel delivers them. */
  datatype State = State(pc: Dispatcher, stages: seq<Stage>, slots: nat, open: nat, collected: seq<nat>,
                         queue: seq<nat>, closed: bool, panicked: bool, writer: Writer, applied: seq<nat>)

  datatype Move =
    | Receive | EndOfMessages | Acquire
    | Classified(task: nat) | Collect(task: nat) | Send(task: nat) | FreeSlot(task: nat) | Finish(task: nat)
    | Close | Take | Apply | WriterExit | Return

  /** How many messages the fetch channel delivers, and the size of both semaphore and channel. */
  datatype Config = Config(messages: nat, capacity: nat)

  /** The guard on a zero or negative setting. */
  function ClassifyConcurrency(n: int): nat {
    if n < 1 then 1 else n
  }

  function Start(): State {
    State(Receiving, [], 0, 0, [], [], false, false, Idle, [])
  }

  predicate At(s: State, task: nat, stage: Stage) {
    task < |s.stages| && s.stages[task] == stage
  }

  predicate Enabled(cfg: Config, s: State, move: Move) {
    match move
    case Receive => s.pc == Receiving && |s.stages| < cfg.messages
    case EndOfMessages => s.pc == Receiving && |s.stages| >= cfg.messages
    case Acquire => s.pc == Acquiring && s.stages != [] && s.slots < cfg.capacity
    case Classified(t) => At(s, t, Classifying)
    case Collect(t) => At(s, t, Collecting)
    case Send(t) => At(s, t, Sending) && (s.closed || |s.queue| < cfg.capacity)
    case FreeSlot(t) => At(s, t, Sent) && s.slots > 0
    case Finish(t) => At(s, t, Freed) && s.open > 0
    case Close => s.pc == WaitWorkers && s.open == 0
    case Take => s.writer == Idle && s.queue != []
    case Apply => s.writer.Writing?
    case WriterExit => s.writer == Idle && s.queue == [] && s.closed
    case Return => s.pc == WaitWriter && s.writer == Exited
  }

  function Next(cfg: Config, s: State, move: Move): State
    requires Enabled(cfg, s, move)
  {
    match move
    case Receive => s.(pc := Acquiring, stages := s.stages + [Waiting], open := s.open + 1)
    case EndOfMessages => s.(pc := WaitWorkers)
    case Acquire => s.(pc := Receiving, stages := s.stages[|s.stages| - 1 := Classifying], slots := s.slots + 1)
    case Classified(t) => s.(stages := s.stages[t := Collecting])
    case Collect(t) => s.(stages := s.stages[t := Sending], collected := s.collected + [t])
    case Send(t) =>
      if s.closed then s.(panicked := true)
      else s.(stages := s.stages[t := Sent], queue := s.queue + [t])
    case FreeSlot(t) => s.(stages := s.stages[t := Freed], slots := s.slots - 1)
    case Finish(t) => s.(stages := s.stages[t := Gone], open := s.open - 1)
    case Close => s.(pc := WaitWriter, closed := true)
    case Take => s.(writer := Writing(s.queue[0]), queue := s.queue[1..])
    case Apply => s.(writer := Idle, applied := s.applied + [s.writer.job])
    case WriterExit => s.(writer := Exited)
    case Return => s.(pc := Returned)
  }

  predicate Runs(cfg: Config, s: State, moves: seq<Move>)
    decreases |moves|
  {
    moves == [] || (Enabled(cfg, s, moves[0]) && Runs(cfg, Next(cfg, s, moves[0]), moves[1..]))
  }

  function After(cfg: Config, s: State, moves: seq<Move>): State
    requires Runs(cfg, s, moves)
    decreases |moves|
  {
    if moves == [] then s else After(cfg, Next(cfg, s, moves[0]), moves[1..])
  }

  // ---------------------------------------------------------------- counting over the workers

  function Total(stages: seq<Stage>, weight: Stage -> nat): nat {
    if stages == [] then 0 else Total(stages[..|stages| - 1], weight) + weight(stages[|stages| - 1])
  }

  lemma {:induction false} TotalUpdate(stages: seq<Stage>, t: nat, stage: Stage, weight: Stage -> nat)
    requires t < |stages|
    ensures Total(stages[t := stage], weight) + weight(stages[t]) == Total(stages, weight) + weight(stage)
    ensures weight(stages[t]) <= Total(stages, weight)
  {
    var last := |stages| - 1;
    if t == last {
      assert stages[t := stage][..last] == stages[..last];
    } else {
      TotalUpdate(stages[..last], t, stage, weight);
      assert stages[t := stage][..last] == stages[..last][t := stage];
    }
  }

  lemma TotalAppend(stages: seq<Stage>, stage: Stage, weight: Stage -> nat)
    ensures Total(stages + [stage], weight) == Total(stages, weight) + weight(stage)
  {
    assert (stages + [stage])[..|stages|] == stages;
  }

  lemma {:induction false} TotalPositive(stages: seq<Stage>, weight: Stage -> nat) returns (t: nat)
    requires Total(stages, weight) > 0
    ensures t < |stages| && weight(stages[t]) > 0
  {
    var last := |stages| - 1;
    if weight(stages[last]) > 0 {
      t := last;
    } else {
      t := TotalPositive(stages[..last], weight);
    }
  }

  lemma {:induction false} TotalAtMost(stages: seq<Stage>, weight: Stage -> nat, most: nat)
    requires forall x :: weight(x) <= most
    ensures Total(stages, weight) <= most * |stages|
  {
    if stages != [] {
      TotalAtMost(stages[..|stages| - 1], weight, most);
    }
  }

  function Slot(stage: Stage): nat {
    if stage == Waiting || stage == Freed || stage == Gone then 0 else 1
  }

  function Open(stage: Stage): nat {
    if stage == Gone then 0 else 1
  }

  function InClassify(stage: Stage): nat {
    if stage == Classifying then 1 else 0
  }

  function Rank(stage: Stage): nat {
    match stage
    case Waiting => 1
    case Classifying => 2
    case Collecting => 3
    case Sending => 4
    case Sent => 5
    case Freed => 6
    case Gone => 7
  }

  // ---------------------------------------------------------------- the invariant

  function InWriter(s: State): seq<nat> {
    if s.writer.Writing? then [s.writer.job] else []
  }

  /** Every job sent so far, in the order it was sent. */
  function Jobs(s: State): seq<nat> {
    s.applied + InWriter(s) + s.queue
  }

  ghost predicate Distinct(tasks: seq<nat>) {
    forall i, j | 0 <= i < j < |tasks| :: tasks[i] != tasks[j]
  }

  ghost predicate Past(s: State, tasks: seq<nat>, rank: nat) {
    && Distinct(tasks)
    && forall t: nat :: t in tasks <==> t < |s.stages| && Rank(s.stages[t]) >= rank
  }

  predicate Counted(cfg: Config, s: State) {
    && s.slots == Total(s.stages, Slot) <= cfg.capacity
    && s.open == Total(s.stages, Open)
    && |s.queue| <= cfg.capacity
  }

  predicate Phased(cfg: Config, s: State) {
    && |s.stages| <= cfg.messages
    && (s.pc == Acquiring ==> s.stages != [])
    && (forall t | 0 <= t < |s.stages| :: s.stages[t] == Waiting <==> s.pc == Acquiring && t == |s.stages| - 1)
    && (s.pc != Receiving && s.pc != Acquiring ==> |s.stages| == cfg.messages)
    && (s.closed <==> s.pc == WaitWriter || s.pc == Returned)
    && (s.closed ==> s.open == 0)
    && (s.writer == Exited ==> s.closed && s.queue == [])
    && (s.pc == Returned ==> s.writer == Exited)
    && !s.panicked
  }

  ghost predicate Inv(cfg: Config, s: State) {
    Counted(cfg, s) && Phased(cfg, s) && Past(s, Jobs(s), 5) && Past(s, s.collected, 4)
  }

  lemma AllGone(s: State, t: nat)
    requires Total(s.stages, Open) == 0 && t < |s.stages|
    ensures s.stages[t] == Gone
  {
    TotalUpdate(s.stages, t, Gone, Open);
  }

  lemma AdvanceKeepsCounts(cfg: Config, s: State, t: nat, stage: Stage)
    requires Counted(cfg, s) && t < |s.stages|
    ensures var after := s.stages[t := stage];
            && Total(after, Slot) == s.slots + Slot(stage) - Slot(s.stages[t])
            && Total(after, Open) == s.open + Open(stage) - Open(s.stages[t])
  {
    TotalUpdate(s.stages, t, stage, Slot);
    TotalUpdate(s.stages, t, stage, Open);
  }

  lemma MoveKeepsCounts(cfg: Config, s: State, move: Move)
    requires Inv(cfg, s) && Enabled(cfg, s, move)
    ensures Counted(cfg, Next(cfg, s, move))
  {
    if move.Receive? {
      TotalAppend(s.stages, Waiting, Slot);
      TotalAppend(s.stages, Waiting, Open);
    } else if Advances(s, move) {
      AdvanceMoves(cfg, s, move);
      AdvanceKeepsCounts(cfg, s, TaskOf(s, move), StageAfter(move));
    }
  }

  /** The move takes a worker to its next stage. */
  predicate Advances(s: State, move: Move) {
    move.Acquire? || move.Classified? || move.Collect? || (move.Send? && !s.closed) || move.FreeSlot? || move.Finish?
  }

  function TaskOf(s: State, move: Move): int {
    match move
    case Acquire => |s.stages| - 1
    case Classified(t) => t
    case Collect(t) => t
    case Send(t) => t
    case FreeSlot(t) => t
    case Finish(t) => t
    case _ => 0
  }

  function StageAfter(move: Move): Stage {
    match move
    case Acquire => Classifying
    case Classified(_) => Collecting
    case Collect(_) => Sending
    case Send(_) => Sent
    case FreeSlot(_) => Freed
    case Finish(_) => Gone
    case _ => Waiting
  }

  lemma AdvanceMoves(cfg: Config, s: State, move: Move)
    requires Enabled(cfg, s, move) && Advances(s, move)
    ensures 0 <= TaskOf(s, move) < |s.stages|
    ensures var t := Next(cfg, s, move);
            && t.stages == s.stages[TaskOf(s, move) := StageAfter(move)]
            && t.applied == s.applied && t.writer == s.writer && Phase(t.pc) == Phase(s.pc)
    ensures !move.Acquire? ==> Rank(StageAfter(move)) == Rank(s.stages[TaskOf(s, move)]) + 1
  {
  }

  /** A worker that could still send is not gone, so the channel is still open. */
  lemma MoveKeepsPhase(cfg: Config, s: State, move: Move)
    requires Inv(cfg, s) && Enabled(cfg, s, move)
    ensures Phased(cfg, Next(cfg, s, move))
  {
    match move
    case Send(t) =>
      if s.closed {
        AllGone(s, t);
        assert false;
      }
    case _ =>
  }

  lemma PastKept(s: State, t: State, tasks: seq<nat>, rank: nat)
    requires Past(s, tasks, rank) && |s.stages| <= |t.stages|
    requires forall k | 0 <= k < |s.stages| :: Rank(s.stages[k]) >= rank <==> Rank(t.stages[k]) >= rank
    requires forall k | |s.stages| <= k < |t.stages| :: Rank(t.stages[k]) < rank
    ensures Past(t, tasks, rank)
  {
  }

  lemma PastGrows(s: State, t: State, tasks: seq<nat>, task: nat, rank: nat)
    requires Past(s, tasks, rank) && task < |s.stages| && Rank(s.stages[task]) < rank
    requires |t.stages| == |s.stages| && Rank(t.stages[task]) >= rank
    requires forall k | 0 <= k < |s.stages| && k != task :: t.stages[k] == s.stages[k]
    ensures Past(t, tasks + [task], rank)
  {
  }

  /** A send still finds the channel open, and the slot goes to the message that waits for it. */
  lemma InPhase(cfg: Config, s: State, move: Move)
    requires Inv(cfg, s) && Enabled(cfg, s, move)
    ensures move.Send? ==> !s.closed
    ensures move.Acquire? ==> s.stages[|s.stages| - 1] == Waiting
  {
    MoveKeepsPhase(cfg, s, move);
  }

  /** The jobs sent in a run, in order. */
  function Sends(moves: seq<Move>): seq<nat> {
    if moves == [] then [] else (if moves[0].Send? then [moves[0].task] else []) + Sends(moves[1..])
  }

  /** A job moves on behind the ones sent before it, and none is lost. */
  lemma MoveJobs(cfg: Config, s: State, move: Move)
    requires Enabled(cfg, s, move) && (move.Send? ==> !s.closed)
    ensures Jobs(Next(cfg, s, move)) == if move.Send? then Jobs(s) + [move.task] else Jobs(s)
  {
    if move.Take? {
      assert s.queue == [s.queue[0]] + s.queue[1..];
    }
  }

  /** No move but a send brings a worker past its send. */
  lemma StagesStay(cfg: Config, s: State, move: Move)
    requires Enabled(cfg, s, move) && (move.Acquire? ==> s.stages[|s.stages| - 1] == Waiting)
    ensures var t := Next(cfg, s, move);
            && |s.stages| <= |t.stages| && (forall k | |s.stages| <= k < |t.stages| :: t.stages[k] == Waiting)
            && (!move.Send? ==> forall k | 0 <= k < |s.stages| :: Rank(s.stages[k]) >= 5 <==> Rank(t.stages[k]) >= 5)
            && (!move.Collect? ==> forall k | 0 <= k < |s.stages| :: Rank(s.stages[k]) >= 4 <==> Rank(t.stages[k]) >= 4)
  {
    if Advances(s, move) {
      AdvanceMoves(cfg, s, move);
    }
  }

  lemma MoveKeepsSent(cfg: Config, s: State, move: Move)
    requires Inv(cfg, s) && Enabled(cfg, s, move)
    ensures var t := Next(cfg, s, move); Past(t, Jobs(t), 5)
  {
    InPhase(cfg, s, move);
    MoveJobs(cfg, s, move);
    StagesStay(cfg, s, move);
    var t := Next(cfg, s, move);
    if move.Send? {
      PastGrows(s, t, Jobs(s), move.task, 5);
    } else {
      PastKept(s, t, Jobs(s), 5);
    }
  }

  lemma MoveKeepsCollected(cfg: Config, s: State, move: Move)
    requires Inv(cfg, s) && Enabled(cfg, s, move)
    ensures var t := Next(cfg, s, move); Past(t, t.collected, 4)
  {
    InPhase(cfg, s, move);
    StagesStay(cfg, s, move);
    var t := Next(cfg, s, move);
    if move.Collect? {
      PastGrows(s, t, s.collected, move.task, 4);
    } else {
      PastKept(s, t, s.collected, 4);
    }
  }

  lemma MoveKeepsInv(cfg: Config, s: State, move: Move)
    requires Inv(cfg, s) && Enabled(cfg, s, move)
    ensures Inv(cfg, Next(cfg, s, move))
  {
    MoveKeepsCounts(cfg, s, move);
    MoveKeepsPhase(cfg, s, move);
    MoveKeepsSent(cfg, s, move);
    MoveKeepsCollected(cfg, s, move);
  }

  lemma Regroup(xs: seq<nat>, ys: seq<nat>, zs: seq<nat>)
    ensures (xs + ys) + zs == xs + (ys + zs)
  {
  }

  lemma {:induction false} RunSends(cfg: Config, s: State, moves: seq<Move>)
    requires Inv(cfg, s) && Runs(cfg, s, moves)
    ensures Jobs(After(cfg, s, moves)) == Jobs(s) + Sends(moves)
    decreases |moves|
  {
    if moves != [] {
      var next, sent := Next(cfg, s, moves[0]), if moves[0].Send? then [moves[0].task] else [];
      MoveKeepsInv(cfg, s, moves[0]);
      InPhase(cfg, s, moves[0]);
      MoveJobs(cfg, s, moves[0]);
      RunSends(cfg, next, moves[1..]);
      assert Jobs(next) == Jobs(s) + sent;
      Regroup(Jobs(s), sent, Sends(moves[1..]));
    }
  }

  lemma {:induction false} RunKeepsInv(cfg: Config, s: State, moves: seq<Move>)
    requires Inv(cfg, s) && Runs(cfg, s, moves)
    ensures Inv(cfg, After(cfg, s, moves))
    decreases |moves|
  {
    if moves != [] {
      MoveKeepsInv(cfg, s, moves[0]);
      RunKeepsInv(cfg, Next(cfg, s, moves[0]), moves[1..]);
    }
  }

  lemma {:induction false} FewerWeighted(stages: seq<Stage>, small: Stage -> nat, large: Stage -> nat)
    requires forall x :: small(x) <= large(x)
    ensures Total(stages, small) <= Total(stages, large)
  {
    if stages != [] {
      FewerWeighted(stages[..|stages| - 1], small, large);
    }
  }

  /** In every reachable state: at most `capacity` emails are being classified, at most that many
      jobs are queued, nothing was sent on the closed channel, and the jobs applied, the one with
      the writer and the queued ones are together the jobs sent so far, each once and in the order
      they were sent. */
  lemma PipelineSafety(cfg: Config, moves: seq<Move>)
    requires Runs(cfg, Start(), moves)
    ensures var s := After(cfg, Start(), moves);
            && Total(s.stages, InClassify) <= cfg.capacity
            && |s.queue| <= cfg.capacity
            && !s.panicked
            && s.applied + InWriter(s) + s.queue == Sends(moves)
            && Distinct(Sends(moves))
            && (forall t: nat :: t in Sends(moves) ==> t in s.collected)
  {
    RunKeepsInv(cfg, Start(), moves);
    RunSends(cfg, Start(), moves);
    var s := After(cfg, Start(), moves);
    FewerWeighted(s.stages, InClassify, Slot);
  }

  /** The state with n workers classifying and nothing else under way, and the moves to it. */
  function Busy(n: nat): State {
    State(Receiving, seq(n, _ => Classifying), n, n, [], [], false, false, Idle, [])
  }

  function ToBusy(n: nat): seq<Move> {
    if n == 0 then [] else ToBusy(n - 1) + [Receive, Acquire]
  }

  lemma {:induction false} RunsOn(cfg: Config, s: State, moves: seq<Move>, more: seq<Move>)
    requires Runs(cfg, s, moves) && Runs(cfg, After(cfg, s, moves), more)
    ensures Runs(cfg, s, moves + more) && After(cfg, s, moves + more) == After(cfg, After(cfg, s, moves), more)
    decreases |moves|
  {
    if moves == [] {
      assert moves + more == more;
    } else {
      assert (moves + more)[1..] == moves[1..] + more;
      RunsOn(cfg, Next(cfg, s, moves[0]), moves[1..], more);
    }
  }

  lemma OneMove(cfg: Config, s: State, move: Move)
    requires Enabled(cfg, s, move)
    ensures Runs(cfg, s, [move]) && After(cfg, s, [move]) == Next(cfg, s, move)
  {
    assert [move][1..] == [];
  }

  lemma BusyOneMore(cfg: Config, n: nat)
    requires n < cfg.messages && n < cfg.capacity
    ensures Runs(cfg, Busy(n), [Receive, Acquire]) && After(cfg, Busy(n), [Receive, Acquire]) == Busy(n + 1)
  {
    var s := Busy(n);
    var t := Next(cfg, s, Receive);
    OneMove(cfg, s, Receive);
    OneMove(cfg, t, Acquire);
    RunsOn(cfg, s, [Receive], [Acquire]);
    assert [Receive] + [Acquire] == [Receive, Acquire];
    assert Next(cfg, t, Acquire).stages == Busy(n + 1).stages;
  }

  lemma {:induction false} BusyReached(cfg: Config, n: nat)
    requires n <= cfg.messages && n <= cfg.capacity
    ensures Runs(cfg, Start(), ToBusy(n)) && After(cfg, Start(), ToBusy(n)) == Busy(n)
  {
    if n > 0 {
      BusyReached(cfg, n - 1);
      BusyOneMore(cfg, n - 1);
      RunsOn(cfg, Start(), ToBusy(n - 1), [Receive, Acquire]);
    } else {
      assert Busy(0).stages == [];
    }
  }

  lemma {:induction false} AllClassifying(stages: seq<Stage>)
    requires forall k | 0 <= k < |stages| :: stages[k] == Classifying
    ensures Total(stages, InClassify) == |stages|
  {
    if stages != [] {
      AllClassifying(stages[..|stages| - 1]);
    }
  }

  /** The bound is reached: the semaphore lets as many classify at once as it has slots. */
  lemma CapacityReached(cfg: Config) returns (moves: seq<Move>)
    ensures Runs(cfg, Start(), moves)
    ensures var n := Total(After(cfg, Start(), moves).stages, InClassify);
            n <= cfg.messages && n <= cfg.capacity && (n == cfg.messages || n == cfg.capacity)
  {
    var n := if cfg.messages < cfg.capacity then cfg.messages else cfg.capacity;
    moves := ToBusy(n);
    BusyReached(cfg, n);
    AllClassifying(Busy(n).stages);
  }

  /** From there the first k workers have sent their jobs and the writer has taken none. */
  function Backlog(n: nat, k: nat): State
    requires k <= n
  {
    State(Receiving, seq(n, i => if i < k then Sent else Classifying), n, n, Upto(k), Upto(k), false, false, Idle, [])
  }

  function Upto(k: nat): (tasks: seq<nat>)
    ensures |tasks| == k
  {
    seq(k, i requires 0 <= i < k => i)
  }

  function ToSend(k: nat): seq<Move> {
    [Classified(k), Collect(k), Send(k)]
  }

  lemma BacklogOneMore(cfg: Config, n: nat, k: nat)
    requires k < n && k < cfg.capacity
    ensures Runs(cfg, Backlog(n, k), ToSend(k)) && After(cfg, Backlog(n, k), ToSend(k)) == Backlog(n, k + 1)
  {
    var s := Backlog(n, k);
    var t := Next(cfg, s, Classified(k));
    var u := Next(cfg, t, Collect(k));
    OneMove(cfg, s, Classified(k));
    OneMove(cfg, t, Collect(k));
    OneMove(cfg, u, Send(k));
    RunsOn(cfg, s, [Classified(k)], [Collect(k)]);
    assert [Classified(k)] + [Collect(k)] == [Classified(k), Collect(k)];
    RunsOn(cfg, s, [Classified(k), Collect(k)], [Send(k)]);
    assert [Classified(k), Collect(k)] + [Send(k)] == ToSend(k);
    BacklogNext(cfg, n, k, Next(cfg, u, Send(k)));
  }

  lemma BacklogNext(cfg: Config, n: nat, k: nat, v: State)
    requires k < n && k < cfg.capacity
    requires var s := Backlog(n, k);
             v == s.(stages := s.stages[k := Collecting][k := Sending][k := Sent],
                     collected := s.collected + [k], queue := s.queue + [k])
    ensures v == Backlog(n, k + 1)
  {
    assert Upto(k) + [k] == Upto(k + 1);
    assert v.stages == Backlog(n, k + 1).stages;
  }

  lemma {:induction false} BacklogReached(cfg: Config, n: nat, k: nat) returns (moves: seq<Move>)
    requires k <= n <= cfg.messages && n <= cfg.capacity
    ensures Runs(cfg, Start(), moves) && After(cfg, Start(), moves) == Backlog(n, k)
  {
    if k > 0 {
      var before := BacklogReached(cfg, n, k - 1);
      BacklogOneMore(cfg, n, k - 1);
      RunsOn(cfg, Start(), before, ToSend(k - 1));
      moves := before + ToSend(k - 1);
    } else {
      moves := ToBusy(n);
      BusyReached(cfg, n);
      assert Busy(n).stages == Backlog(n, 0).stages && Upto(0) == [];
    }
  }

  /** And the channel holds as many jobs as it has room for while the writer is not heard from. */
  lemma BufferFills(cfg: Config) returns (moves: seq<Move>)
    ensures Runs(cfg, Start(), moves) && After(cfg, Start(), moves).applied == []
    ensures var n := |After(cfg, Start(), moves).queue|;
            n <= cfg.messages && n <= cfg.capacity && (n == cfg.messages || n == cfg.capacity)
  {
    var n := if cfg.messages < cfg.capacity then cfg.messages else cfg.capacity;
    moves := BacklogReached(cfg, n, n);
  }

  // ---------------------------------------------------------------- progress

  ghost predicate CanMove(cfg: Config, s: State) {
    exists move :: Enabled(cfg, s, move)
  }

  /** While the channel is open, a worker that has not gone, or the writer ahead of it, can move. */
  lemma WorkerMoves(cfg: Config, s: State, t: nat)
    requires Inv(cfg, s) && cfg.capacity > 0 && !s.closed
    requires t < |s.stages| && s.stages[t] != Waiting && s.stages[t] != Gone
    ensures CanMove(cfg, s)
  {
    TotalUpdate(s.stages, t, Gone, Slot);
    TotalUpdate(s.stages, t, Gone, Open);
    match s.stages[t]
    case Classifying => assert Enabled(cfg, s, Classified(t));
    case Collecting => assert Enabled(cfg, s, Collect(t));
    case Sending =>
      if |s.queue| < cfg.capacity {
        assert Enabled(cfg, s, Send(t));
      } else if s.writer == Idle {
        assert Enabled(cfg, s, Take);
      } else {
        assert Enabled(cfg, s, Apply);
      }
    case Sent => assert Enabled(cfg, s, FreeSlot(t));
    case Freed => assert Enabled(cfg, s, Finish(t));
  }

  lemma NotStuck(cfg: Config, s: State)
    requires Inv(cfg, s) && s.pc != Returned && (cfg.capacity > 0 || cfg.messages == 0)
    ensures CanMove(cfg, s)
  {
    match s.pc
    case Receiving =>
      assert Enabled(cfg, s, if |s.stages| < cfg.messages then Receive else EndOfMessages);
    case Acquiring =>
      if s.slots < cfg.capacity {
        assert Enabled(cfg, s, Acquire);
      } else {
        var t := TotalPositive(s.stages, Slot);
        WorkerMoves(cfg, s, t);
      }
    case WaitWorkers =>
      if s.open == 0 {
        assert Enabled(cfg, s, Close);
      } else {
        var t := TotalPositive(s.stages, Open);
        WorkerMoves(cfg, s, t);
      }
    case WaitWriter =>
      if s.writer.Writing? {
        assert Enabled(cfg, s, Apply);
      } else if s.writer == Exited {
        assert Enabled(cfg, s, Return);
      } else if s.queue != [] {
        assert Enabled(cfg, s, Take);
      } else {
        assert Enabled(cfg, s, WriterExit);
      }
  }

  ghost predicate NeverStuck(cfg: Config) {
    forall moves: seq<Move> | Runs(cfg, Start(), moves) && After(cfg, Start(), moves).pc != Returned ::
      CanMove(cfg, After(cfg, Start(), moves))
  }

  /** No run gets stuck before it returns exactly when there is capacity for the messages: this is
      what the guard on a zero setting is for. */
  lemma NeverStuckExactly(cfg: Config)
    ensures NeverStuck(cfg) <==> cfg.capacity > 0 || cfg.messages == 0
    ensures forall n: int :: ClassifyConcurrency(n) == n || (n < 1 && ClassifyConcurrency(n) == 1)
  {
    if cfg.capacity > 0 || cfg.messages == 0 {
      forall moves: seq<Move> | Runs(cfg, Start(), moves) && After(cfg, Start(), moves).pc != Returned
        ensures CanMove(cfg, After(cfg, Start(), moves))
      {
        RunKeepsInv(cfg, Start(), moves);
        NotStuck(cfg, After(cfg, Start(), moves));
      }
    } else {
      var moves := [Receive];
      assert Runs(cfg, Next(cfg, Start(), Receive), moves[1..]);
      var s := After(cfg, Start(), moves);
      assert s == Next(cfg, Start(), Receive);
      assert s.stages == [Waiting];
      forall move: Move ensures !Enabled(cfg, s, move) {
      }
    }
  }

  // ---------------------------------------------------------------- length of a run

  function Phase(pc: Dispatcher): nat {
    match pc
    case Receiving => 0
    case Acquiring => 0
    case WaitWorkers => 1
    case WaitWriter => 2
    case Returned => 3
  }

  /** How many moves have been made. */
  function Spent(s: State): nat {
    Total(s.stages, Rank) + 2 * |s.applied| + |InWriter(s)| + Phase(s.pc) + (if s.writer == Exited then 1 else 0)
  }

  lemma OtherMoveSpendsOne(cfg: Config, s: State, move: Move)
    requires Enabled(cfg, s, move) && !move.Receive? && !Advances(s, move) && !move.Send?
    ensures Spent(Next(cfg, s, move)) == Spent(s) + 1
  {
  }

  lemma MoveSpendsOne(cfg: Config, s: State, move: Move)
    requires Enabled(cfg, s, move)
    requires move.Send? ==> !s.closed
    requires move.Acquire? ==> s.stages[|s.stages| - 1] == Waiting
    ensures Spent(Next(cfg, s, move)) == Spent(s) + 1
  {
    if move.Receive? {
      TotalAppend(s.stages, Waiting, Rank);
    } else if Advances(s, move) {
      AdvanceMoves(cfg, s, move);
      TotalUpdate(s.stages, TaskOf(s, move), StageAfter(move), Rank);
    } else {
      OtherMoveSpendsOne(cfg, s, move);
    }
  }

  lemma {:induction false} RunSpends(cfg: Config, s: State, moves: seq<Move>)
    requires Inv(cfg, s) && Runs(cfg, s, moves)
    ensures Spent(After(cfg, s, moves)) == Spent(s) + |moves|
    decreases |moves|
  {
    if moves != [] {
      InPhase(cfg, s, moves[0]);
      MoveSpendsOne(cfg, s, moves[0]);
      MoveKeepsInv(cfg, s, moves[0]);
      RunSpends(cfg, Next(cfg, s, moves[0]), moves[1..]);
    }
  }

  lemma DropAt(tasks: seq<nat>, k: nat) returns (rest: seq<nat>)
    requires Distinct(tasks) && k < |tasks|
    ensures Distinct(rest) && |rest| == |tasks| - 1
    ensures forall t: nat :: t in rest <==> t in tasks && t != tasks[k]
  {
    rest := tasks[..k] + tasks[k + 1..];
    forall t: nat | t in tasks && t != tasks[k] ensures t in rest {
      var i :| 0 <= i < |tasks| && tasks[i] == t;
      assert rest[if i < k then i else i - 1] == t;
    }
  }

  /** Pigeonhole: distinct numbers below n are at most n. */
  lemma {:induction false} DistinctBelow(tasks: seq<nat>, n: nat)
    requires Distinct(tasks) && forall t: nat :: t in tasks ==> t < n
    ensures |tasks| <= n
    decreases n
  {
    if tasks != [] {
      assert tasks[0] in tasks;
      if k: nat :| k < |tasks| && tasks[k] == n - 1 {
        var rest := DropAt(tasks, k);
        DistinctBelow(rest, n - 1);
      } else {
        assert n - 1 !in tasks;
        DistinctBelow(tasks, n - 1);
      }
    }
  }

  lemma {:induction false} AllBelowIn(tasks: seq<nat>, n: nat)
    requires Distinct(tasks) && forall t: nat :: t in tasks <==> t < n
    ensures |tasks| == n
    decreases n
  {
    DistinctBelow(tasks, n);
    if n > 0 {
      assert n - 1 in tasks;
      var k: nat :| k < |tasks| && tasks[k] == n - 1;
      var rest := DropAt(tasks, k);
      AllBelowIn(rest, n - 1);
    }
  }

  lemma JobsBounded(cfg: Config, s: State)
    requires Inv(cfg, s)
    ensures |Jobs(s)| <= |s.stages|
  {
    DistinctBelow(Jobs(s), |s.stages|);
  }

  lemma SpentAtMost(cfg: Config, s: State)
    requires Inv(cfg, s)
    ensures Spent(s) <= 9 * cfg.messages + 4
  {
    JobsBounded(cfg, s);
    TotalAtMost(s.stages, Rank, 7);
  }

  /** Whatever the schedule, a run makes at most nine moves per message and four more. */
  lemma RunBounded(cfg: Config, moves: seq<Move>)
    requires Runs(cfg, Start(), moves)
    ensures |moves| <= 9 * cfg.messages + 4
  {
    RunKeepsInv(cfg, Start(), moves);
    RunSpends(cfg, Start(), moves);
    SpentAtMost(cfg, After(cfg, Start(), moves));
  }

  // ---------------------------------------------------------------- the state on return

  ghost predicate EachOnce(tasks: seq<nat>, n: nat) {
    && |tasks| == n
    && Distinct(tasks)
    && (forall k | 0 <= k < |tasks| :: tasks[k] < n)
    && (forall t: nat :: t in tasks <==> t < n)
  }

  lemma Drained(cfg: Config, s: State)
    requires Inv(cfg, s) && s.pc == Returned
    ensures forall t: nat | t < |s.stages| :: s.stages[t] == Gone
    ensures s.slots == 0 && s.open == 0 && s.queue == [] && Jobs(s) == s.applied && |s.stages| == cfg.messages
  {
    forall t: nat | t < |s.stages| ensures s.stages[t] == Gone {
      AllGone(s, t);
    }
    if s.slots > 0 {
      var t := TotalPositive(s.stages, Slot);
      assert false;
    }
  }

  lemma AllPast(s: State, tasks: seq<nat>, rank: nat)
    requires Past(s, tasks, rank) && rank <= 7
    requires forall t: nat | t < |s.stages| :: s.stages[t] == Gone
    ensures EachOnce(tasks, |s.stages|)
  {
    forall t: nat ensures t in tasks <==> t < |s.stages| {
    }
    AllBelowIn(tasks, |s.stages|);
    forall k | 0 <= k < |tasks| ensures tasks[k] < |s.stages| {
      assert tasks[k] in tasks;
    }
  }

  /** On return every message received has had exactly one job applied and its label changes
      collected exactly once, and no worker is left. */
  lemma ReturnComplete(cfg: Config, moves: seq<Move>)
    requires Runs(cfg, Start(), moves) && After(cfg, Start(), moves).pc == Returned
    ensures var s := After(cfg, Start(), moves);
            && EachOnce(s.applied, cfg.messages)
            && EachOnce(s.collected, cfg.messages)
            && s.queue == [] && s.slots == 0 && s.open == 0
  {
    RunKeepsInv(cfg, Start(), moves);
    var s := After(cfg, Start(), moves);
    Drained(cfg, s);
    AllPast(s, s.applied, 5);
    AllPast(s, s.collected, 4);
  }

  /** The markers after the writer has applied these jobs in order; the writes of the failed ones
      are dropped. */
  function Applied(markers: ClaimProtocol.Markers, jobs: seq<WriteJob>, order: seq<nat>,
                   failed: set<nat>): ClaimProtocol.Markers
    requires forall k | 0 <= k < |order| :: order[k] < |jobs|
  {
    if order == [] then markers
    else
      var job := jobs[order[|order| - 1]];
      var before := Applied(markers, jobs, order[..|order| - 1], failed);
      if order[|order| - 1] in failed then before
      else if job.release then ClaimProtocol.Released(before, job.messageId)
      else before[job.messageId := ClaimProtocol.Confirmed]
  }

  ghost predicate DistinctMessages(jobs: seq<WriteJob>) {
    forall i, j | 0 <= i < j < |jobs| :: jobs[i].messageId != jobs[j].messageId
  }

  lemma {:induction false} AppliedAt(markers: ClaimProtocol.Markers, jobs: seq<WriteJob>, order: seq<nat>,
                                     failed: set<nat>, t: nat)
    requires DistinctMessages(jobs) && Distinct(order) && t < |jobs|
    requires forall k | 0 <= k < |order| :: order[k] < |jobs|
    ensures var after, job := Applied(markers, jobs, order, failed), jobs[t];
            if t !in order || t in failed then (job.messageId in after <==> job.messageId in markers) &&
                                (job.messageId in markers ==> after[job.messageId] == markers[job.messageId])
            else if job.release
            then job.messageId in markers && markers[job.messageId].Lease? ==> job.messageId !in after
            else job.messageId in after && after[job.messageId] == ClaimProtocol.Confirmed
  {
    if order != [] {
      var last := order[|order| - 1];
      AppliedAt(markers, jobs, order[..|order| - 1], failed, t);
      assert order == order[..|order| - 1] + [last];
    }
  }

  /** From the claims of this call to the markers it leaves, on every schedule and whichever
      marker writes fail: a classified message ends confirmed, one whose classification failed ends
      with no marker at all, and one whose own write failed keeps the lease it was claimed with. */
  lemma ReturnMarkers(cfg: Config, moves: seq<Move>, markers: ClaimProtocol.Markers, jobs: seq<WriteJob>,
                      failed: set<nat>, t: nat)
    requires Runs(cfg, Start(), moves) && After(cfg, Start(), moves).pc == Returned
    requires |jobs| == cfg.messages && DistinctMessages(jobs) && t < |jobs|
    requires jobs[t].messageId in markers && markers[jobs[t].messageId].Lease?
    ensures EachOnce(After(cfg, Start(), moves).applied, |jobs|)
    ensures var after := Applied(markers, jobs, After(cfg, Start(), moves).applied, failed);
            if t in failed then jobs[t].messageId in after && after[jobs[t].messageId] == markers[jobs[t].messageId]
            else if jobs[t].release then jobs[t].messageId !in after
            else jobs[t].messageId in after && after[jobs[t].messageId] == ClaimProtocol.Confirmed
  {
    ReturnComplete(cfg, moves);
    AppliedAt(markers, jobs, After(cfg, Start(), moves).applied, failed, t);
  }
}
