/** The store-buffering experiment of atomic/test.cpp on a machine with FIFO store buffers (x86-TSO).

    A store goes into the buffer of its processor and reaches memory at some later time; a load looks into
    its own buffer first. mfence, like thread creation and thread exit, waits until the own buffer is empty. */
module StoreBuffering {

  datatype Var = X | Y | A | B

  datatype Write = Write(v: Var, value: int)

  datatype Task = Idle | AtStore | AtFence | AtLoad | AtPublish(loaded: int) | Finished(loaded: int)

  datatype Main = Resetting(done: nat) | Creating(started: nat) | Joining

  datatype State = State(memory: Var -> int, mainBuffer: seq<Write>, main: Main,
                         tasks: seq<Task>, buffers: seq<seq<Write>>,
                         outcomes: seq<(int, int)>)  // x and y, as main reads them after the joins

  datatype Move = MainStep | TaskStep(task: nat) | DrainMain | Drain(task: nat)

  // The order in which main clears the variables.
  const CLEARED := [X, Y, A, B]

  function Own(t: nat): Var { if t == 0 then A else B }
  function Other(t: nat): Var { if t == 0 then B else A }
  function Result(t: nat): Var { if t == 0 then X else Y }

  function Set(memory: Var -> int, w: Write): Var -> int {
    v => if v == w.v then w.value else memory(v)
  }

  // What a processor sees: its own newest buffered write, or memory.
  function Look(memory: Var -> int, buffer: seq<Write>, v: Var): int {
    if buffer == [] then memory(v)
    else
      var last := buffer[|buffer| - 1];
      if last.v == v then last.value else Look(memory, buffer[..|buffer| - 1], v)
  }

  predicate WellFormed(s: State) {
    |s.tasks| == 2 && |s.buffers| == 2
  }

  ghost predicate MainNext(s: State, s': State)
    requires WellFormed(s)
  {
    match s.main
    case Resetting(n) =>
      n < 4 && s' == s.(mainBuffer := s.mainBuffer + [Write(CLEARED[n], 0)],
                        main := if n == 3 then Creating(0) else Resetting(n + 1))
    case Creating(n) =>
      n < 2 && s.mainBuffer == [] &&
      s' == s.(tasks := s.tasks[n := AtStore], main := if n == 1 then Joining else Creating(n + 1))
    case Joining =>
      // Each thread's exit has emptied its buffer; then the outcome is read and the next round begins.
      s.tasks[0].Finished? && s.tasks[1].Finished? && s.buffers == [[], []] &&
      s' == s.(outcomes := s.outcomes + [(Look(s.memory, s.mainBuffer, X), Look(s.memory, s.mainBuffer, Y))],
               tasks := [Idle, Idle], main := Resetting(0))
  }

  ghost predicate CanStep(barrier: bool, s: State, t: nat)
    requires WellFormed(s) && t < 2
  {
    !s.tasks[t].Idle? && !s.tasks[t].Finished? && (s.tasks[t] == AtFence && barrier ==> s.buffers[t] == [])
  }

  ghost function TaskDoes(s: State, t: nat): (s': State)
    requires WellFormed(s) && t < 2
    ensures WellFormed(s')
  {
    match s.tasks[t]
    case AtStore => Buffer(Becomes(s, t, AtFence), t, Write(Own(t), 1))
    case AtFence => Becomes(s, t, AtLoad)
    case AtLoad => Becomes(s, t, AtPublish(Look(s.memory, s.buffers[t], Other(t))))
    case AtPublish(r) => Buffer(Becomes(s, t, Finished(r)), t, Write(Result(t), r))
    case _ => s
  }

  ghost function Becomes(s: State, t: nat, task: Task): State
    requires WellFormed(s) && t < 2
  {
    s.(tasks := s.tasks[t := task])
  }

  ghost function Buffer(s: State, t: nat, w: Write): State
    requires WellFormed(s) && t < 2
  {
    s.(buffers := s.buffers[t := s.buffers[t] + [w]])
  }

  ghost function Drained(s: State, t: nat): (s': State)
    requires WellFormed(s) && t < 2 && s.buffers[t] != []
    ensures WellFormed(s')
  {
    s.(memory := Set(s.memory, s.buffers[t][0]), buffers := s.buffers[t := s.buffers[t][1..]])
  }

  ghost predicate Next(barrier: bool, s: State, m: Move, s': State) {
    && WellFormed(s)
    && match m
       case MainStep => MainNext(s, s')
       case TaskStep(t) => t < 2 && CanStep(barrier, s, t) && s' == TaskDoes(s, t)
       case DrainMain =>
         s.mainBuffer != [] &&
         s' == s.(memory := Set(s.memory, s.mainBuffer[0]), mainBuffer := s.mainBuffer[1..])
       case Drain(t) => t < 2 && s.buffers[t] != [] && s' == Drained(s, t)
  }

  ghost predicate Init(s: State) {
    s.mainBuffer == [] && s.main == Resetting(0) && s.tasks == [Idle, Idle] && s.buffers == [[], []] && s.outcomes == []
  }

  ghost predicate IsRun(barrier: bool, run: seq<State>, moves: seq<Move>) {
    && |run| == |moves| + 1 && Init(run[0])
    && forall i | 0 <= i < |moves| :: Next(barrier, run[i], moves[i], run[i + 1])
  }

  // The stores main has made in this round.
  function Written(m: Main): nat {
    match m case Resetting(n) => n case _ => 4
  }

  // Main leaves the variables alone while the tasks run.
  ghost predicate Turns(s: State)
    requires WellFormed(s)
  {
    && (s.main.Resetting? ==> s.main.done < 4 && s.tasks == [Idle, Idle] && s.buffers == [[], []])
    && (s.main.Creating? ==> s.main.started < 2 && s.tasks[1] == Idle && (s.main.started == 0 <==> s.tasks[0] == Idle))
    && (s.main == Joining ==> !s.tasks[0].Idle? && !s.tasks[1].Idle?)
    && (!s.tasks[0].Idle? || !s.tasks[1].Idle? ==> s.mainBuffer == [])
    && |s.mainBuffer| <= Written(s.main)
  }

  // Where a task's own store is, in a build with barriers.
  ghost predicate TaskInv(s: State, t: nat)
    requires WellFormed(s) && t < 2
  {
    match s.tasks[t]
    case Idle => s.buffers[t] == []
    case AtStore => s.buffers[t] == []
    case AtFence => s.buffers[t] == [Write(Own(t), 1)] || (s.buffers[t] == [] && s.memory(Own(t)) == 1)
    case AtLoad => s.buffers[t] == [] && s.memory(Own(t)) == 1
    case AtPublish(_) => s.buffers[t] == [] && s.memory(Own(t)) == 1
    case Finished(r) =>
      s.memory(Own(t)) == 1 &&
      (s.buffers[t] == [Write(Result(t), r)] || (s.buffers[t] == [] && s.memory(Result(t)) == r))
  }

  predicate Loaded(t: Task) {
    t.AtPublish? || t.Finished?
  }

  ghost predicate Inv(s: State) {
    && WellFormed(s) && Turns(s) && TaskInv(s, 0) && TaskInv(s, 1)
    && (Loaded(s.tasks[0]) && Loaded(s.tasks[1]) ==> s.tasks[0].loaded == 1 || s.tasks[1].loaded == 1)
    && forall i | 0 <= i < |s.outcomes| :: s.outcomes[i] != (0, 0)
  }

  lemma MainKeeps(s: State, s': State)
    requires Inv(s) && MainNext(s, s')
    ensures Inv(s')
  {
  }

  lemma StoreKeeps(s: State, t: nat, s': State)
    requires Inv(s) && Next(true, s, TaskStep(t), s') && (s.tasks[t] == AtStore || s.tasks[t] == AtFence)
    ensures Inv(s')
  {
  }

  lemma LoadKeeps(s: State, t: nat, s': State)
    requires Inv(s) && Next(true, s, TaskStep(t), s') && s.tasks[t] == AtLoad
    ensures Inv(s')
  {
  }

  lemma PublishKeeps(s: State, t: nat, s': State)
    requires Inv(s) && Next(true, s, TaskStep(t), s') && s.tasks[t].AtPublish?
    ensures Inv(s')
  {
  }

  lemma DrainKeeps(s: State, t: nat, s': State)
    requires Inv(s) && Next(true, s, Drain(t), s')
    ensures Inv(s')
  {
  }

  lemma DrainMainKeeps(s: State, s': State)
    requires Inv(s) && Next(true, s, DrainMain, s')
    ensures Inv(s')
  {
  }

  lemma {:induction false} RunInv(run: seq<State>, moves: seq<Move>)
    requires IsRun(true, run, moves)
    ensures Inv(run[|moves|])
  {
    if moves != [] {
      var n := |moves| - 1;
      RunInv(run[..n + 1], moves[..n]);
      var s, s' := run[n], run[n + 1];
      assert Next(true, s, moves[n], s');
      match moves[n]
      case MainStep => MainKeeps(s, s');
      case TaskStep(t) =>
        if s.tasks[t] == AtLoad {
          LoadKeeps(s, t, s');
        } else if s.tasks[t].AtPublish? {
          PublishKeeps(s, t, s');
        } else {
          StoreKeeps(s, t, s');
        }
      case DrainMain => DrainMainKeeps(s, s');
      case Drain(t) => DrainKeeps(s, t, s');
    }
  }

  // Barriers rule out the reordering, over any number of rounds and every order of steps and drains.
  lemma BarriersHold(run: seq<State>, moves: seq<Move>)
    requires IsRun(true, run, moves)
    ensures (0, 0) !in run[|moves|].outcomes
  {
    RunInv(run, moves);
  }

  /* ---- Which outcomes there are. ---- */

  predicate Bit(x: int) {
    x == 0 || x == 1
  }

  // What a task has still in its buffer, in either build.
  ghost predicate TaskShape(s: State, t: nat)
    requires WellFormed(s) && t < 2
  {
    match s.tasks[t]
    case Idle => s.buffers[t] == []
    case AtStore => s.buffers[t] == []
    case AtFence => OwnIsOut(s, t)
    case AtLoad => OwnIsOut(s, t)
    case AtPublish(r) => Bit(r) && OwnIsOut(s, t)
    case Finished(r) =>
      && Bit(r)
      && (|| s.buffers[t] == [Write(Own(t), 1), Write(Result(t), r)]
          || s.buffers[t] == [Write(Result(t), r)]
          || (s.buffers[t] == [] && s.memory(Result(t)) == r))
  }

  ghost predicate OwnIsOut(s: State, t: nat)
    requires WellFormed(s) && t < 2
  {
    s.buffers[t] == [Write(Own(t), 1)] || s.buffers[t] == []
  }

  // Main sees the zeros it has written until it creates a task, and the tasks see a zero or a one ever after.
  ghost predicate Cleared(s: State)
    requires WellFormed(s)
  {
    if s.tasks == [Idle, Idle]
    then forall i | 0 <= i < Written(s.main) && i < 4 :: Look(s.memory, s.mainBuffer, CLEARED[i]) == 0
    else Bit(s.memory(A)) && Bit(s.memory(B))
  }

  ghost predicate BothInv(s: State) {
    && WellFormed(s) && Turns(s) && TaskShape(s, 0) && TaskShape(s, 1) && Cleared(s)
    && forall i | 0 <= i < |s.outcomes| :: Bit(s.outcomes[i].0) && Bit(s.outcomes[i].1)
  }

  lemma {:induction false} LookAfterDrain(memory: Var -> int, buffer: seq<Write>, v: Var)
    requires buffer != []
    ensures Look(Set(memory, buffer[0]), buffer[1..], v) == Look(memory, buffer, v)
  {
    var n := |buffer| - 1;
    if n > 0 && buffer[n].v != v {
      LookAfterDrain(memory, buffer[..n], v);
      assert buffer[1..][..n - 1] == buffer[..n][1..];
    }
  }

  lemma LookAfterWrite(memory: Var -> int, buffer: seq<Write>, w: Write, v: Var)
    ensures Look(memory, buffer + [w], v) == if v == w.v then w.value else Look(memory, buffer, v)
  {
    assert (buffer + [w])[..|buffer|] == buffer;
  }

  lemma ResetKeepsBoth(s: State, s': State)
    requires BothInv(s) && MainNext(s, s') && s.main.Resetting?
    ensures BothInv(s')
  {
    forall i | 0 <= i < 4 && i < s.main.done + 1 ensures Look(s'.memory, s'.mainBuffer, CLEARED[i]) == 0 {
      LookAfterWrite(s.memory, s.mainBuffer, Write(CLEARED[s.main.done], 0), CLEARED[i]);
    }
  }

  lemma CreateKeepsBoth(s: State, s': State)
    requires BothInv(s) && MainNext(s, s') && s.main.Creating?
    ensures BothInv(s')
  {
    if s.main.started == 0 {
      assert Look(s.memory, [], CLEARED[2]) == 0 && Look(s.memory, [], CLEARED[3]) == 0;
    }
  }

  lemma JoinKeepsBoth(s: State, s': State)
    requires BothInv(s) && MainNext(s, s') && s.main == Joining
    ensures BothInv(s')
  {
  }

  lemma StoreKeepsBoth(barrier: bool, s: State, t: nat, s': State)
    requires BothInv(s) && Next(barrier, s, TaskStep(t), s') && (s.tasks[t].AtStore? || s.tasks[t].AtFence?)
    ensures BothInv(s')
  {
  }

  lemma PublishKeepsBoth(barrier: bool, s: State, t: nat, s': State)
    requires BothInv(s) && Next(barrier, s, TaskStep(t), s') && s.tasks[t].AtPublish?
    ensures BothInv(s')
  {
  }

  lemma LookIsBit(s: State, t: nat)
    requires BothInv(s) && t < 2 && s.tasks[t].AtLoad?
    ensures Bit(Look(s.memory, s.buffers[t], Other(t)))
  {
    if s.buffers[t] != [] {
      assert s.buffers[t][..0] == [];
    }
  }

  lemma LoadKeepsBoth(barrier: bool, s: State, t: nat, s': State)
    requires BothInv(s) && Next(barrier, s, TaskStep(t), s') && s.tasks[t].AtLoad?
    ensures BothInv(s')
  {
    LookIsBit(s, t);
  }

  lemma DrainKeepsBoth(barrier: bool, s: State, t: nat, s': State)
    requires BothInv(s) && Next(barrier, s, Drain(t), s')
    ensures BothInv(s')
  {
  }

  lemma DrainMainKeepsBoth(barrier: bool, s: State, s': State)
    requires BothInv(s) && Next(barrier, s, DrainMain, s')
    ensures BothInv(s')
  {
    forall i | 0 <= i < 4
      ensures Look(s'.memory, s'.mainBuffer, CLEARED[i]) == Look(s.memory, s.mainBuffer, CLEARED[i])
    {
      LookAfterDrain(s.memory, s.mainBuffer, CLEARED[i]);
    }
  }

  lemma KeepsBothInv(barrier: bool, s: State, m: Move, s': State)
    requires BothInv(s) && Next(barrier, s, m, s')
    ensures BothInv(s')
  {
    match m
    case MainStep =>
      match s.main {
        case Resetting(_) => ResetKeepsBoth(s, s');
        case Creating(_) => CreateKeepsBoth(s, s');
        case Joining => JoinKeepsBoth(s, s');
      }
    case TaskStep(t) =>
      if s.tasks[t].AtLoad? {
        LoadKeepsBoth(barrier, s, t, s');
      } else if s.tasks[t].AtPublish? {
        PublishKeepsBoth(barrier, s, t, s');
      } else {
        StoreKeepsBoth(barrier, s, t, s');
      }
    case DrainMain => DrainMainKeepsBoth(barrier, s, s');
    case Drain(t) => DrainKeepsBoth(barrier, s, t, s');
  }

  lemma {:induction false} RunBothInv(barrier: bool, run: seq<State>, moves: seq<Move>)
    requires IsRun(barrier, run, moves)
    ensures BothInv(run[|moves|])
  {
    if moves != [] {
      var n := |moves| - 1;
      RunBothInv(barrier, run[..n + 1], moves[..n]);
      assert Next(barrier, run[n], moves[n], run[n + 1]);
      KeepsBothInv(barrier, run[n], moves[n], run[n + 1]);
    }
  }

  // No state of a run is the last one: the threads and the buffers never wait for each other.
  lemma NeverStops(barrier: bool, run: seq<State>, moves: seq<Move>)
    requires IsRun(barrier, run, moves)
    ensures exists m, s' :: Next(barrier, run[|moves|], m, s')
  {
    var s := run[|moves|];
    RunBothInv(barrier, run, moves);
    match s.main
    case Resetting(n) =>
      var s' := s.(mainBuffer := s.mainBuffer + [Write(CLEARED[n], 0)],
                   main := if n == 3 then Creating(0) else Resetting(n + 1));
      assert Next(barrier, s, MainStep, s');
    case Creating(n) => CreatingGoesOn(barrier, s);
    case Joining => JoiningGoesOn(barrier, s);
  }

  lemma CreatingGoesOn(barrier: bool, s: State)
    requires BothInv(s) && s.main.Creating?
    ensures exists m, s' :: Next(barrier, s, m, s')
  {
    var n := s.main.started;
    if s.mainBuffer == [] {
      var s' := s.(tasks := s.tasks[n := AtStore], main := if n == 1 then Joining else Creating(n + 1));
      assert Next(barrier, s, MainStep, s');
    } else {
      var s' := s.(memory := Set(s.memory, s.mainBuffer[0]), mainBuffer := s.mainBuffer[1..]);
      assert Next(barrier, s, DrainMain, s');
    }
  }

  lemma JoiningGoesOn(barrier: bool, s: State)
    requires BothInv(s) && s.main == Joining
    ensures exists m, s' :: Next(barrier, s, m, s')
  {
    if t: nat :| t < 2 && s.buffers[t] != [] {
      assert Next(barrier, s, Drain(t), Drained(s, t));
    } else if t: nat :| t < 2 && !s.tasks[t].Finished? {
      assert s.buffers[t] == [];
      assert Next(barrier, s, TaskStep(t), TaskDoes(s, t));
    } else {
      assert s.buffers[0] == [] && s.buffers[1] == [] && s.buffers == [[], []];
      var s' := s.(outcomes := s.outcomes + [(Look(s.memory, s.mainBuffer, X), Look(s.memory, s.mainBuffer, Y))],
                   tasks := [Idle, Idle], main := Resetting(0));
      assert Next(barrier, s, MainStep, s');
    }
  }

  // A round is main's seven steps, four of each task, and the arrival of the eight stores in memory.
  const ROUND := 23

  function MainDone(m: Main): nat {
    match m
    case Resetting(n) => n
    case Creating(n) => 4 + n
    case Joining => 6
  }

  function TaskDone(t: Task): nat {
    match t
    case Idle => 0
    case AtStore => 0
    case AtFence => 1
    case AtLoad => 2
    case AtPublish(_) => 3
    case Finished(_) => 4
  }

  // The stores a task has made.
  function TaskWrote(t: Task): nat {
    match t
    case Idle => 0
    case AtStore => 0
    case Finished(_) => 2
    case _ => 1
  }

  function Done(s: State): int
    requires WellFormed(s)
  {
    MainDone(s.main) + Written(s.main) - |s.mainBuffer| + DoneBy(s, 0) + DoneBy(s, 1)
  }

  function DoneBy(s: State, t: nat): int
    requires WellFormed(s) && t < 2
  {
    TaskDone(s.tasks[t]) + TaskWrote(s.tasks[t]) - |s.buffers[t]|
  }

  lemma MainCounts(s: State, s': State)
    requires BothInv(s) && MainNext(s, s') && WellFormed(s')
    ensures Done(s') + ROUND * |s'.outcomes| == Done(s) + ROUND * |s.outcomes| + 1
  {
  }

  lemma TaskCounts(barrier: bool, s: State, t: nat, s': State)
    requires BothInv(s) && Next(barrier, s, TaskStep(t), s') && WellFormed(s')
    ensures Done(s') + ROUND * |s'.outcomes| == Done(s) + ROUND * |s.outcomes| + 1
  {
  }

  lemma StepCounts(barrier: bool, s: State, m: Move, s': State)
    requires BothInv(s) && Next(barrier, s, m, s') && WellFormed(s')
    ensures Done(s') + ROUND * |s'.outcomes| == Done(s) + ROUND * |s.outcomes| + 1
  {
    match m
    case MainStep => MainCounts(s, s');
    case TaskStep(t) => TaskCounts(barrier, s, t, s');
    case _ =>
  }

  // So every round ends, after exactly so many steps, in whatever order they are made.
  lemma {:induction false} RoundsTakeTheirSteps(barrier: bool, run: seq<State>, moves: seq<Move>)
    requires IsRun(barrier, run, moves)
    ensures WellFormed(run[|moves|])
    ensures |moves| == ROUND * |run[|moves|].outcomes| + Done(run[|moves|])
    ensures |run[|moves|].outcomes| == |moves| / ROUND
  {
    RunBothInv(barrier, run, moves);
    if moves != [] {
      var n := |moves| - 1;
      RoundsTakeTheirSteps(barrier, run[..n + 1], moves[..n]);
      assert Next(barrier, run[n], moves[n], run[n + 1]);
      RunBothInv(barrier, run[..n + 1], moves[..n]);
      StepCounts(barrier, run[n], moves[n], run[n + 1]);
    }
    RoundIsLonger(run[|moves|]);
  }

  lemma RoundIsLonger(s: State)
    requires BothInv(s)
    ensures 0 <= Done(s) < ROUND
  {
  }

  /* ---- Runs that end with each of them. ---- */

  lemma Step(barrier: bool, run: seq<State>, moves: seq<Move>, m: Move, s: State)
    returns (run': seq<State>, moves': seq<Move>)
    requires IsRun(barrier, run, moves) && Next(barrier, run[|moves|], m, s)
    ensures IsRun(barrier, run', moves') && run'[0] == run[0] && run'[|moves'|] == s
  {
    run', moves' := run + [s], moves + [m];
  }

  // Main clears the four variables, the zeros reach memory, and both tasks are created.
  lemma RoundBegins(barrier: bool, s: State) returns (run: seq<State>, moves: seq<Move>)
    requires Init(s)
    ensures IsRun(barrier, run, moves) && run[0] == s
    ensures var e := run[|moves|];
            e == s.(memory := e.memory, main := Joining, tasks := [AtStore, AtStore]) &&
            e.memory(A) == 0 && e.memory(B) == 0
  {
    var w := seq(4, i requires 0 <= i < 4 => Write(CLEARED[i], 0));
    run, moves := [s], [];
    for i := 0 to 4
      invariant IsRun(barrier, run, moves) && run[0] == s
      invariant run[|moves|] == s.(mainBuffer := w[..i], main := if i == 4 then Creating(0) else Resetting(i))
    {
      var e := run[|moves|];
      run, moves := Step(barrier, run, moves, MainStep,
                         e.(mainBuffer := w[..i + 1], main := if i == 3 then Creating(0) else Resetting(i + 1)));
    }
    var memory := s.memory;
    for i := 0 to 4
      invariant IsRun(barrier, run, moves) && run[0] == s
      invariant run[|moves|] == s.(memory := memory, mainBuffer := w[i..], main := Creating(0))
      invariant forall j | 0 <= j < i :: memory(CLEARED[j]) == 0
    {
      memory := Set(memory, w[i]);
      run, moves := Step(barrier, run, moves, DrainMain, run[|moves|].(memory := memory, mainBuffer := w[i + 1..]));
    }
    assert memory(CLEARED[2]) == 0 && memory(CLEARED[3]) == 0;
    run, moves := Step(barrier, run, moves, MainStep, run[|moves|].(tasks := [AtStore, Idle], main := Creating(1)));
    run, moves := Step(barrier, run, moves, MainStep, run[|moves|].(tasks := [AtStore, AtStore], main := Joining));
  }

  lemma TaskRuns(barrier: bool, run: seq<State>, moves: seq<Move>, t: nat)
    returns (run': seq<State>, moves': seq<Move>)
    requires IsRun(barrier, run, moves) && WellFormed(run[|moves|]) && t < 2 && CanStep(barrier, run[|moves|], t)
    ensures IsRun(barrier, run', moves') && run'[0] == run[0] && run'[|moves'|] == TaskDoes(run[|moves|], t)
  {
    run', moves' := Step(barrier, run, moves, TaskStep(t), TaskDoes(run[|moves|], t));
  }

  lemma BufferDrains(barrier: bool, run: seq<State>, moves: seq<Move>, t: nat)
    returns (run': seq<State>, moves': seq<Move>)
    requires IsRun(barrier, run, moves) && WellFormed(run[|moves|]) && t < 2 && run[|moves|].buffers[t] != []
    ensures IsRun(barrier, run', moves') && run'[0] == run[0] && run'[|moves'|] == Drained(run[|moves|], t)
  {
    run', moves' := Step(barrier, run, moves, Drain(t), Drained(run[|moves|], t));
  }

  // A task goes all the way with both its writes left in the buffer.
  lemma TaskRunsThrough(run: seq<State>, moves: seq<Move>, t: nat) returns (run': seq<State>, moves': seq<Move>)
    requires IsRun(false, run, moves) && WellFormed(run[|moves|]) && t < 2
    requires run[|moves|].tasks[t] == AtStore && run[|moves|].buffers[t] == []
    requires run[|moves|].memory(Other(t)) == 0
    ensures IsRun(false, run', moves') && run'[0] == run[0]
    ensures var s := run[|moves|];
            run'[|moves'|] == s.(tasks := s.tasks[t := Finished(0)],
                                 buffers := s.buffers[t := [Write(Own(t), 1), Write(Result(t), 0)]])
  {
    var s := run[|moves|];
    run', moves' := TaskRuns(false, run, moves, t);
    assert run'[|moves'|].buffers[t] == [Write(Own(t), 1)];
    run', moves' := TaskRuns(false, run', moves', t);
    assert Look(s.memory, [], Other(t)) == 0;
    run', moves' := TaskRuns(false, run', moves', t);
    assert run'[|moves'|].tasks[t] == AtPublish(0);
    run', moves' := TaskRuns(false, run', moves', t);
    var e := run'[|moves'|];
    assert e.buffers[t] == [Write(Own(t), 1)] + [Write(Result(t), 0)] == [Write(Own(t), 1), Write(Result(t), 0)];
    assert e.buffers == s.buffers[t := e.buffers[t]] && e.tasks == s.tasks[t := Finished(0)];
  }

  // Without barriers both stores can wait in their buffers until both loads are done.
  lemma ReorderedRun(s: State) returns (run: seq<State>, moves: seq<Move>)
    requires Init(s)
    ensures IsRun(false, run, moves) && run[0] == s && (0, 0) in run[|moves|].outcomes
  {
    run, moves := RoundBegins(false, s);
    run, moves := TaskRunsThrough(run, moves, 0);
    run, moves := TaskRunsThrough(run, moves, 1);
    run, moves := BufferDrains(false, run, moves, 0);
    run, moves := BufferDrains(false, run, moves, 0);
    run, moves := BufferDrains(false, run, moves, 1);
    run, moves := BufferDrains(false, run, moves, 1);
    var e := run[|moves|];
    assert e.buffers[0] == [] && e.buffers[1] == [] && e.buffers == [[], []];
    assert e.memory(X) == 0 && e.memory(Y) == 0;
    run, moves := Step(false, run, moves, MainStep,
                       e.(outcomes := e.outcomes + [(0, 0)], tasks := [Idle, Idle], main := Resetting(0)));
    assert run[|moves|].outcomes[0] == (0, 0);
  }

  // A task's store reaches memory before it goes on.
  lemma TaskStores(barrier: bool, run: seq<State>, moves: seq<Move>, t: nat)
    returns (run': seq<State>, moves': seq<Move>)
    requires IsRun(barrier, run, moves) && WellFormed(run[|moves|]) && t < 2
    requires run[|moves|].tasks[t] == AtStore && run[|moves|].buffers == [[], []]
    ensures IsRun(barrier, run', moves') && run'[0] == run[0]
    ensures var s, s' := run[|moves|], run'[|moves'|];
            s' == s.(memory := s'.memory, tasks := s.tasks[t := AtLoad]) &&
            s'.memory(Own(t)) == 1 && forall v | v != Own(t) :: s'.memory(v) == s.memory(v)
  {
    run', moves' := TaskRuns(barrier, run, moves, t);
    assert run'[|moves'|].buffers[t] == [Write(Own(t), 1)];
    run', moves' := BufferDrains(barrier, run', moves', t);
    run', moves' := TaskRuns(barrier, run', moves', t);
    EmptyAgain(run'[|moves'|].buffers, t);
    assert run'[|moves'|].tasks == run[|moves|].tasks[t := AtLoad];
  }

  lemma EmptyAgain(buffers: seq<seq<Write>>, t: nat)
    requires |buffers| == 2 && t < 2 && buffers[t] == [] && buffers[1 - t] == []
    ensures buffers == [[], []]
  {
  }

  // Then it loads, and its result reaches memory.
  lemma TaskLoads(barrier: bool, run: seq<State>, moves: seq<Move>, t: nat)
    returns (run': seq<State>, moves': seq<Move>)
    requires IsRun(barrier, run, moves) && WellFormed(run[|moves|]) && t < 2
    requires run[|moves|].tasks[t] == AtLoad && run[|moves|].buffers == [[], []]
    ensures IsRun(barrier, run', moves') && run'[0] == run[0]
    ensures var s, s' := run[|moves|], run'[|moves'|];
            var r := s.memory(Other(t));
            s' == s.(memory := s'.memory, tasks := s.tasks[t := Finished(r)]) &&
            s'.memory(Result(t)) == r && forall v | v != Result(t) :: s'.memory(v) == s.memory(v)
  {
    var r := run[|moves|].memory(Other(t));
    run', moves' := TaskRuns(barrier, run, moves, t);
    assert run'[|moves'|].tasks[t] == AtPublish(r);
    run', moves' := TaskRuns(barrier, run', moves', t);
    assert run'[|moves'|].buffers[t] == [Write(Result(t), r)];
    run', moves' := BufferDrains(barrier, run', moves', t);
    EmptyAgain(run'[|moves'|].buffers, t);
    assert run'[|moves'|].tasks == run[|moves|].tasks[t := Finished(r)];
  }

  lemma RoundEnds(barrier: bool, run: seq<State>, moves: seq<Move>)
    returns (run': seq<State>, moves': seq<Move>)
    requires IsRun(barrier, run, moves)
    requires var s := run[|moves|];
             s.main == Joining && |s.tasks| == 2 && s.tasks[0].Finished? && s.tasks[1].Finished? &&
             s.buffers == [[], []] && s.mainBuffer == []
    ensures IsRun(barrier, run', moves') && run'[0] == run[0]
    ensures (run[|moves|].memory(X), run[|moves|].memory(Y)) in run'[|moves'|].outcomes
  {
    var e := run[|moves|];
    var o := (e.memory(X), e.memory(Y));
    run', moves' := Step(barrier, run, moves, MainStep,
                         e.(outcomes := e.outcomes + [o], tasks := [Idle, Idle], main := Resetting(0)));
    assert run'[|moves'|].outcomes[|e.outcomes|] == o;
  }

  // One task after the other: the one that comes first reads zero, and the other one.
  lemma OneAfterTheOther(barrier: bool, s: State, t: nat) returns (run: seq<State>, moves: seq<Move>)
    requires Init(s) && t < 2
    ensures IsRun(barrier, run, moves) && run[0] == s
    ensures (if t == 0 then (0, 1) else (1, 0)) in run[|moves|].outcomes
  {
    run, moves := RoundBegins(barrier, s);
    run, moves := TaskStores(barrier, run, moves, t);
    run, moves := TaskLoads(barrier, run, moves, t);
    run, moves := TaskStores(barrier, run, moves, 1 - t);
    run, moves := TaskLoads(barrier, run, moves, 1 - t);
    run, moves := RoundEnds(barrier, run, moves);
  }

  // Both stores before both loads.
  lemma BothTogether(barrier: bool, s: State) returns (run: seq<State>, moves: seq<Move>)
    requires Init(s)
    ensures IsRun(barrier, run, moves) && run[0] == s && (1, 1) in run[|moves|].outcomes
  {
    run, moves := RoundBegins(barrier, s);
    run, moves := TaskStores(barrier, run, moves, 0);
    run, moves := TaskStores(barrier, run, moves, 1);
    run, moves := TaskLoads(barrier, run, moves, 0);
    run, moves := TaskLoads(barrier, run, moves, 1);
    run, moves := RoundEnds(barrier, run, moves);
  }

  ghost predicate CanEndWith(barrier: bool, s: State, o: (int, int)) {
    exists run: seq<State>, moves :: IsRun(barrier, run, moves) && run[0] == s && o in run[|moves|].outcomes
  }

  // From any initial memory a round can end with any two bits, but not with two zeros if there are barriers.
  lemma OutcomesExactly(barrier: bool, s: State, o: (int, int))
    requires Init(s)
    ensures CanEndWith(barrier, s, o) <==> Bit(o.0) && Bit(o.1) && (barrier ==> o != (0, 0))
  {
    OutcomesAreBits(barrier, s, o);
    if Bit(o.0) && Bit(o.1) && (barrier ==> o != (0, 0)) {
      OutcomeIsReached(barrier, s, o);
    }
  }

  lemma OutcomesAreBits(barrier: bool, s: State, o: (int, int))
    ensures CanEndWith(barrier, s, o) ==> Bit(o.0) && Bit(o.1) && (barrier ==> o != (0, 0))
  {
    forall run: seq<State>, moves | IsRun(barrier, run, moves) && o in run[|moves|].outcomes
      ensures Bit(o.0) && Bit(o.1) && (barrier ==> o != (0, 0))
    {
      RunBothInv(barrier, run, moves);
      if barrier {
        BarriersHold(run, moves);
      }
    }
  }

  lemma OutcomeIsReached(barrier: bool, s: State, o: (int, int))
    requires Init(s) && Bit(o.0) && Bit(o.1) && (barrier ==> o != (0, 0))
    ensures CanEndWith(barrier, s, o)
  {
    var run, moves;
    if o == (0, 0) {
      run, moves := ReorderedRun(s);
    } else if o == (1, 1) {
      run, moves := BothTogether(barrier, s);
    } else {
      run, moves := OneAfterTheOther(barrier, s, o.0);
    }
    assert IsRun(barrier, run, moves) && run[0] == s && o in run[|moves|].outcomes;
  }

  // The reordering can happen exactly in the build without barriers.
  lemma ReorderingNeedsNoBarrier(barrier: bool)
    ensures (exists run: seq<State>, moves :: IsRun(barrier, run, moves) && (0, 0) in run[|moves|].outcomes)
            <==> !barrier
  {
    if barrier {
      forall run: seq<State>, moves | IsRun(true, run, moves) ensures (0, 0) !in run[|moves|].outcomes {
        BarriersHold(run, moves);
      }
    } else {
      var run, moves := ReorderedRun(State(_ => 0, [], Resetting(0), [Idle, Idle], [[], []], []));
    }
  }
}
