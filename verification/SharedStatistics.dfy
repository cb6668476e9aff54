/** The counters shared by the pre-forked processes, the semaphore that guards them, and the reporter.

    Every process and the reporter move one step at a time in any order. An increment of a shared counter is
    two steps, a load and a store, so that only the semaphore keeps two processes from losing a count. */
module SharedStatistics {
  import opened Dispatch
  import opened Tally
  import opened Wrappers

  // The counter of a class; codes outside 200..599 have none.
  function ClassOf(code: int): Option<nat> {
    if 200 <= code < 600 then Some(code / 100 - 2) else None
  }

  // What a connection makes its process do: read the total first, and count a status or nothing.
  datatype Job = Job(readsTotal: bool, status: Option<int>)

  datatype Proc =
    | Accepting
    | TotalWait(job: Job)                 // the statistics page: sem_wait, read, sem_post
    | TotalRead(job: Job)
    | TotalPost(job: Job)
    | CountWait(code: int)                // write_code: sem_wait
    | LoadRequests(code: int)
    | StoreRequests(code: int, seen: int)
    | LoadClass(code: int)
    | StoreClass(code: int, seen: int)
    | CountPost

  datatype Reporter = Idle | WantsTotal | HasTotal | Posts

  type Classes = s: seq<int> | |s| == 4 witness [0, 0, 0, 0]

  datatype State = State(sem: int, requests: int, classes: Classes, procs: seq<Proc>,
                         userSem: int, reporter: Reporter,
                         // what has happened so far
                         jobs: seq<Job>, totals: seq<int>, signals: nat, reports: nat)

  datatype Move = Accept(proc: nat, job: Job) | Run(proc: nat) | Report | Signal

  predicate Init(s: State) {
    && s.sem == 1 && s.requests == 0 && s.classes == [0, 0, 0, 0] && s.userSem == 0 && s.reporter == Idle
    && (forall p | 0 <= p < |s.procs| :: s.procs[p] == Accepting)
    && s.jobs == [] && s.totals == [] && s.signals == 0 && s.reports == 0
  }

  function AfterRead(job: Job): Proc {
    if job.status == None then Accepting else CountWait(job.status.value)
  }

  function At(s: State, p: nat, pc: Proc): State
    requires p < |s.procs|
  {
    s.(procs := s.procs[p := pc])
  }

  // One step of a process that is serving a connection; None while it must wait.
  function RunProc(s: State, p: nat): Option<State>
    requires p < |s.procs|
  {
    match s.procs[p]
    case Accepting => None
    case TotalWait(j) => if s.sem > 0 then Some(At(s, p, TotalRead(j)).(sem := s.sem - 1)) else None
    case TotalRead(j) => Some(At(s, p, TotalPost(j)).(totals := s.totals + [s.requests]))
    case TotalPost(j) => Some(At(s, p, AfterRead(j)).(sem := s.sem + 1))
    case CountWait(c) => if s.sem > 0 then Some(At(s, p, LoadRequests(c)).(sem := s.sem - 1)) else None
    case LoadRequests(c) => Some(At(s, p, StoreRequests(c, s.requests)))
    case StoreRequests(c, seen) => Some(At(s, p, LoadClass(c)).(requests := seen + 1))
    case LoadClass(c) =>
      Some(At(s, p, if ClassOf(c) == None then CountPost else StoreClass(c, s.classes[ClassOf(c).value])))
    case StoreClass(c, seen) =>
      if ClassOf(c) == None then None
      else Some(At(s, p, CountPost).(classes := s.classes[ClassOf(c).value := seen + 1]))
    case CountPost => Some(At(s, p, Accepting).(sem := s.sem + 1))
  }

  // One step of handler_siguser1.
  function RunReporter(s: State): Option<State> {
    match s.reporter
    case Idle =>
      if s.userSem > 0 then Some(s.(reporter := WantsTotal, userSem := s.userSem - 1, reports := s.reports + 1))
      else None
    case WantsTotal => if s.sem > 0 then Some(s.(reporter := HasTotal, sem := s.sem - 1)) else None
    case HasTotal => Some(s.(reporter := Posts, totals := s.totals + [s.requests]))
    case Posts => Some(s.(reporter := Idle, sem := s.sem + 1))
  }

  predicate Next(s: State, m: Move, s': State) {
    match m
       case Accept(p, job) =>
         && p < |s.procs| && s.procs[p] == Accepting
         && s' == At(s, p, if job.readsTotal then TotalWait(job) else AfterRead(job)).(jobs := s.jobs + [job])
       case Run(p) => p < |s.procs| && RunProc(s, p) == Some(s')
       case Report => RunReporter(s) == Some(s')
       case Signal => s' == s.(userSem := s.userSem + 1, signals := s.signals + 1)
  }

  ghost predicate IsRun(run: seq<State>, moves: seq<Move>) {
    && |run| == |moves| + 1 && Init(run[0])
    && forall i | 0 <= i < |moves| :: Next(run[i], moves[i], run[i + 1])
  }

  /* ---- Who holds the semaphore, and what each process still owes the counters. ---- */

  function Holds(pc: Proc): nat {
    if pc.TotalRead? || pc.TotalPost? || pc.LoadRequests? || pc.StoreRequests? || pc.LoadClass? ||
       pc.StoreClass? || pc.CountPost? then 1 else 0
  }

  function ReporterHolds(r: Reporter): nat {
    if r == HasTotal || r == Posts then 1 else 0
  }

  // The status a process has still to add to the total.
  function OwedStatus(pc: Proc): Option<int> {
    match pc
    case TotalWait(j) => j.status
    case TotalRead(j) => j.status
    case TotalPost(j) => j.status
    case CountWait(c) => Some(c)
    case LoadRequests(c) => Some(c)
    case StoreRequests(c, _) => Some(c)
    case _ => None
  }

  // The status a process has still to add to a class.
  function OwedClass(pc: Proc): Option<int> {
    match pc
    case LoadClass(c) => Some(c)
    case StoreClass(c, _) => Some(c)
    case _ => OwedStatus(pc)
  }

  function Owes(pc: Proc): nat {
    if OwedStatus(pc) == None then 0 else 1
  }

  function IsClass(status: Option<int>, k: nat): nat {
    if status != None && ClassOf(status.value) == Some(k) then 1 else 0
  }

  function OwesClass(k: nat): Proc -> nat {
    (pc: Proc) => IsClass(OwedClass(pc), k)
  }

  function Counted(j: Job): nat {
    if j.status == None then 0 else 1
  }

  function CountedIn(k: nat): Job -> nat {
    (j: Job) => IsClass(j.status, k)
  }

  ghost predicate Exclusive(s: State) {
    s.sem + Sum(Holds, s.procs) + ReporterHolds(s.reporter) == 1 && s.sem >= 0
  }

  ghost predicate FreshAt(s: State, pc: Proc) {
    && (pc.StoreRequests? ==> pc.seen == s.requests)
    && (pc.StoreClass? ==> ClassOf(pc.code) != None && pc.seen == s.classes[ClassOf(pc.code).value])
  }

  // A value loaded inside the critical section is still the value of the counter.
  ghost predicate Fresh(s: State) {
    forall p | 0 <= p < |s.procs| :: FreshAt(s, s.procs[p])
  }

  ghost predicate Conserved(s: State) {
    && s.requests + Sum(Owes, s.procs) == Sum(Counted, s.jobs)
    && forall k: nat | k < 4 :: s.classes[k] + Sum(OwesClass(k), s.procs) == Sum(CountedIn(k), s.jobs)
  }

  ghost predicate ReadsGrow(s: State) {
    && (forall i, j | 0 <= i < j < |s.totals| :: s.totals[i] <= s.totals[j])
    && (forall i | 0 <= i < |s.totals| :: s.totals[i] <= s.requests)
  }

  ghost predicate Inv(s: State) {
    Exclusive(s) && Fresh(s) && Conserved(s) && ReadsGrow(s) &&
    s.signals == s.userSem + s.reports && s.userSem >= 0
  }

  // Two processes are never inside together.
  lemma OnlyOneHolds(s: State, p: nat, q: nat)
    requires Exclusive(s) && p < |s.procs| && q < |s.procs| && p != q && Holds(s.procs[p]) == 1
    ensures Holds(s.procs[q]) == 0
  {
    SumUpdate(Holds, s.procs, p, Accepting);
    SumAtLeast(Holds, s.procs[p := Accepting], q);
  }

  // The semaphore and the process's own hold on it change together.
  lemma RunHolds(s: State, p: nat, s': State)
    requires p < |s.procs| && RunProc(s, p) == Some(s')
    ensures |s'.procs| == |s.procs| && s'.procs == s.procs[p := s'.procs[p]] && s'.reporter == s.reporter
    ensures s'.sem + Holds(s'.procs[p]) == s.sem + Holds(s.procs[p]) && (s.sem >= 0 ==> s'.sem >= 0)
  {
  }

  lemma ReportHolds(s: State, s': State)
    requires RunReporter(s) == Some(s')
    ensures s'.procs == s.procs && s'.classes == s.classes && s'.requests == s.requests
    ensures s'.sem + ReporterHolds(s'.reporter) == s.sem + ReporterHolds(s.reporter) && (s.sem >= 0 ==> s'.sem >= 0)
  {
  }

  lemma RunKeepsExclusive(s: State, p: nat, s': State)
    requires Exclusive(s) && p < |s.procs| && RunProc(s, p) == Some(s')
    ensures Exclusive(s')
  {
    RunHolds(s, p, s');
    SumUpdate(Holds, s.procs, p, s'.procs[p]);
  }

  lemma AcceptKeepsExclusive(s: State, p: nat, job: Job, s': State)
    requires Exclusive(s) && Next(s, Accept(p, job), s')
    ensures Exclusive(s')
  {
    SumUpdate(Holds, s.procs, p, s'.procs[p]);
  }

  lemma KeepsExclusive(s: State, m: Move, s': State)
    requires Exclusive(s) && Next(s, m, s')
    ensures Exclusive(s')
  {
    match m
    case Accept(p, job) => AcceptKeepsExclusive(s, p, job, s');
    case Run(p) => RunKeepsExclusive(s, p, s');
    case Report => ReportHolds(s, s');
    case Signal =>
  }

  // What a step loads is fresh, and it changes a counter only inside the critical section.
  lemma RunLoads(s: State, p: nat, s': State)
    requires p < |s.procs| && RunProc(s, p) == Some(s')
    ensures |s'.procs| == |s.procs| && s'.procs == s.procs[p := s'.procs[p]] && FreshAt(s', s'.procs[p])
    ensures Holds(s.procs[p]) == 0 ==> s'.requests == s.requests && s'.classes == s.classes
  {
  }

  lemma RunKeepsFresh(s: State, p: nat, s': State)
    requires Exclusive(s) && Fresh(s) && p < |s.procs| && RunProc(s, p) == Some(s')
    ensures Fresh(s')
  {
    RunLoads(s, p, s');
    forall q | 0 <= q < |s.procs| && q != p ensures FreshAt(s', s'.procs[q]) {
      assert FreshAt(s, s.procs[q]);
      if Holds(s.procs[p]) == 1 {
        OnlyOneHolds(s, p, q);
      }
    }
  }

  lemma KeepsFresh(s: State, m: Move, s': State)
    requires Exclusive(s) && Fresh(s) && Next(s, m, s')
    ensures Fresh(s')
  {
    match m
    case Accept(p, job) => assert forall q | 0 <= q < |s.procs| && q != p :: FreshAt(s, s'.procs[q]);
    case Run(p) => RunKeepsFresh(s, p, s');
    case Report =>
      ReportHolds(s, s');
      assert forall q | 0 <= q < |s.procs| :: FreshAt(s, s'.procs[q]);
    case Signal => assert forall q | 0 <= q < |s.procs| :: FreshAt(s, s'.procs[q]);
  }

  // A step pays into a counter exactly what its process stops owing.
  lemma RunPays(s: State, p: nat, s': State)
    requires p < |s.procs| && Fresh(s) && RunProc(s, p) == Some(s')
    ensures |s'.procs| == |s.procs| && s'.procs == s.procs[p := s'.procs[p]] && s'.jobs == s.jobs
    ensures s'.requests + Owes(s'.procs[p]) == s.requests + Owes(s.procs[p])
    ensures forall k: nat | k < 4 ::
              s'.classes[k] + OwesClass(k)(s'.procs[p]) == s.classes[k] + OwesClass(k)(s.procs[p])
  {
  }

  lemma RunKeepsConserved(s: State, p: nat, s': State)
    requires p < |s.procs| && Fresh(s) && Conserved(s) && RunProc(s, p) == Some(s')
    ensures Conserved(s')
  {
    RunPays(s, p, s');
    SumUpdate(Owes, s.procs, p, s'.procs[p]);
    forall k: nat | k < 4 ensures s'.classes[k] + Sum(OwesClass(k), s'.procs) == Sum(CountedIn(k), s'.jobs) {
      SumUpdate(OwesClass(k), s.procs, p, s'.procs[p]);
    }
  }

  lemma AcceptKeepsConserved(s: State, p: nat, job: Job, s': State)
    requires Conserved(s) && Next(s, Accept(p, job), s')
    ensures Conserved(s')
  {
    SumUpdate(Owes, s.procs, p, s'.procs[p]);
    SumAppend(Counted, s.jobs, job);
    forall k: nat | k < 4 ensures s'.classes[k] + Sum(OwesClass(k), s'.procs) == Sum(CountedIn(k), s'.jobs) {
      SumUpdate(OwesClass(k), s.procs, p, s'.procs[p]);
      SumAppend(CountedIn(k), s.jobs, job);
    }
  }

  lemma KeepsConserved(s: State, m: Move, s': State)
    requires Fresh(s) && Conserved(s) && Next(s, m, s')
    ensures Conserved(s')
  {
    match m
    case Accept(p, job) => AcceptKeepsConserved(s, p, job, s');
    case Run(p) => RunKeepsConserved(s, p, s');
    case _ =>
  }

  lemma KeepsReads(s: State, m: Move, s': State)
    requires Fresh(s) && ReadsGrow(s) && Next(s, m, s')
    ensures ReadsGrow(s')
  {
  }

  lemma KeepsInv(s: State, m: Move, s': State)
    requires Inv(s) && Next(s, m, s')
    ensures Inv(s')
  {
    KeepsExclusive(s, m, s');
    KeepsFresh(s, m, s');
    KeepsConserved(s, m, s');
    KeepsReads(s, m, s');
    KeepsSignals(s, m, s');
  }

  lemma KeepsSignals(s: State, m: Move, s': State)
    requires s.signals == s.userSem + s.reports && s.userSem >= 0 && Next(s, m, s')
    ensures s'.signals == s'.userSem + s'.reports && s'.userSem >= 0
  {
  }

  lemma {:induction false} RunInv(run: seq<State>, moves: seq<Move>)
    requires IsRun(run, moves)
    ensures Inv(run[|moves|])
  {
    if moves == [] {
      InitInv(run[0]);
    } else {
      var n := |moves| - 1;
      RunInv(run[..n + 1], moves[..n]);
      assert Next(run[n], moves[n], run[n + 1]);
      KeepsInv(run[n], moves[n], run[n + 1]);
    }
  }

  lemma InitInv(s: State)
    requires Init(s)
    ensures Inv(s)
  {
    SumZero(Holds, s.procs);
    SumZero(Owes, s.procs);
    forall k: nat | k < 4 ensures Sum(OwesClass(k), s.procs) == 0 {
      SumZero(OwesClass(k), s.procs);
    }
  }

  /* ---- What holds in every reachable state. ---- */

  // The semaphore admits one process or the reporter at a time.
  lemma OneAtATime(run: seq<State>, moves: seq<Move>)
    requires IsRun(run, moves)
    ensures var s := run[|moves|];
            s.sem + Sum(Holds, s.procs) + ReporterHolds(s.reporter) == 1 &&
            forall p, q | 0 <= p < |s.procs| && 0 <= q < |s.procs| && p != q && Holds(s.procs[p]) == 1 ::
              Holds(s.procs[q]) == 0
  {
    RunInv(run, moves);
    var s := run[|moves|];
    forall p, q | 0 <= p < |s.procs| && 0 <= q < |s.procs| && p != q && Holds(s.procs[p]) == 1
      ensures Holds(s.procs[q]) == 0
    {
      OnlyOneHolds(s, p, q);
    }
  }

  function Total(s: State): int {
    s.classes[0] + s.classes[1] + s.classes[2] + s.classes[3]
  }

  // A process between its two increments.
  function Between(pc: Proc): nat {
    if pc.LoadClass? || pc.StoreClass? then 1 else 0
  }

  // Jobs as do_call makes them: each status is that of a connection.
  ghost predicate FromConnections(jobs: seq<Job>) {
    forall i | 0 <= i < |jobs| :: SomeConnectionEndsWith(jobs[i].status)
  }

  ghost predicate SomeConnectionEndsWith(status: Option<int>) {
    exists c :: EndsWith(c, status)
  }

  ghost predicate Classified(status: Option<int>) {
    status != None ==> HasClass(status.value)
  }

  ghost predicate AllClassified(jobs: seq<Job>) {
    forall i | 0 <= i < |jobs| :: Classified(jobs[i].status)
  }

  lemma ConnectionsAreClassified(jobs: seq<Job>)
    requires FromConnections(jobs)
    ensures AllClassified(jobs)
  {
    forall i | 0 <= i < |jobs| ensures Classified(jobs[i].status) {
      assert SomeConnectionEndsWith(jobs[i].status);
      var c :| EndsWith(c, jobs[i].status);
      StatusIsClassified(c, jobs[i].status);
    }
  }

  ghost predicate Balanced(s: State) {
    && (forall p | 0 <= p < |s.procs| :: Classified(OwedClass(s.procs[p])))
    && s.requests == Total(s) + Sum(Between, s.procs)
    && s.classes[1] == 0
  }

  lemma RunKeepsBalance(s: State, p: nat, s': State)
    requires p < |s.procs| && Fresh(s) && Balanced(s) && RunProc(s, p) == Some(s')
    ensures Balanced(s')
  {
    RunPays(s, p, s');
    SumUpdate(Between, s.procs, p, s'.procs[p]);
    assert Classified(OwedClass(s.procs[p]));
    assert Classified(OwedClass(s'.procs[p]));
    assert s'.requests - Total(s') == s.requests - Total(s) + Between(s'.procs[p]) - Between(s.procs[p]);
  }

  lemma AcceptKeepsBalance(s: State, p: nat, job: Job, s': State)
    requires Balanced(s) && Next(s, Accept(p, job), s') && Classified(job.status)
    ensures Balanced(s')
  {
    SumUpdate(Between, s.procs, p, s'.procs[p]);
  }

  lemma StepKeepsBalance(s: State, m: Move, s': State)
    requires Fresh(s) && Balanced(s) && Next(s, m, s') && AllClassified(s'.jobs)
    ensures Balanced(s')
  {
    match m
    case Accept(p, job) =>
      assert s'.jobs[|s.jobs|] == job;
      AcceptKeepsBalance(s, p, job, s');
    case Run(p) => RunKeepsBalance(s, p, s');
    case _ =>
  }

  lemma JobsStay(s: State, m: Move, s': State)
    requires Next(s, m, s') && AllClassified(s'.jobs)
    ensures AllClassified(s.jobs)
  {
    assert forall i | 0 <= i < |s.jobs| :: s'.jobs[i] == s.jobs[i];
  }

  lemma {:induction false} RunBalanced(run: seq<State>, moves: seq<Move>)
    requires IsRun(run, moves) && AllClassified(run[|moves|].jobs)
    ensures Balanced(run[|moves|])
  {
    if moves == [] {
      SumZero(Between, run[0].procs);
    } else {
      var n := |moves| - 1;
      assert Next(run[n], moves[n], run[n + 1]);
      JobsStay(run[n], moves[n], run[n + 1]);
      RunBalanced(run[..n + 1], moves[..n]);
      RunInv(run[..n + 1], moves[..n]);
      StepKeepsBalance(run[n], moves[n], run[n + 1]);
    }
  }

  // Whatever connections come, the total exceeds the sum of the classes by one while some process is between
  // its two increments, and equals it otherwise. The class of redirects stays empty.
  lemma TotalsAgree(run: seq<State>, moves: seq<Move>)
    requires IsRun(run, moves) && FromConnections(run[|moves|].jobs)
    ensures var s := run[|moves|];
            s.requests - Total(s) == Sum(Between, s.procs) <= 1 && s.classes[1] == 0 &&
            (s.requests == Total(s) <==> forall p | 0 <= p < |s.procs| :: Between(s.procs[p]) == 0)
  {
    ConnectionsAreClassified(run[|moves|].jobs);
    RunBalanced(run, moves);
    RunInv(run, moves);
    var s := run[|moves|];
    SumZero(Between, s.procs);
    SumLess(s.procs);
  }

  lemma {:induction false} SumLess(procs: seq<Proc>)
    ensures Sum(Between, procs) <= Sum(Holds, procs)
  {
    if procs != [] {
      SumLess(procs[1..]);
    }
  }

  /* ---- The counters against the connections themselves. ---- */

  predicate HasStatus(j: Job) {
    j.status != None
  }

  function StatusWithin(low: int, high: int): Job -> bool {
    (j: Job) => j.status != None && low <= j.status.value < high
  }

  predicate StillOwes(pc: Proc) {
    OwedStatus(pc) != None
  }

  // The connections whose status has been added to the total.
  function CountedSoFar(s: State): int {
    |Places(HasStatus, s.jobs)| - |Places(StillOwes, s.procs)|
  }

  lemma TotalIsCounted(s: State)
    requires Conserved(s)
    ensures s.requests == CountedSoFar(s)
  {
    SumCounts(Counted, HasStatus, s.jobs);
    SumCounts(Owes, StillOwes, s.procs);
  }

  lemma ClassIsRange(jobs: seq<Job>, k: nat)
    requires k < 4
    ensures Sum(CountedIn(k), jobs) == |Places(StatusWithin(200 + 100 * k, 300 + 100 * k), jobs)|
  {
    SumCounts(CountedIn(k), StatusWithin(200 + 100 * k, 300 + 100 * k), jobs);
  }

  // At rest every connection is counted once in the total and once in the class its status lies in: no count is
  // lost, and none is made for a connection that has no status.
  lemma RestCountsEverything(run: seq<State>, moves: seq<Move>)
    requires IsRun(run, moves)
    requires forall p | 0 <= p < |run[|moves|].procs| :: run[|moves|].procs[p] == Accepting
    ensures var s := run[|moves|];
            && s.requests == |Places(HasStatus, s.jobs)|
            && s.classes[0] == |Places(StatusWithin(200, 300), s.jobs)|
            && s.classes[1] == |Places(StatusWithin(300, 400), s.jobs)|
            && s.classes[2] == |Places(StatusWithin(400, 500), s.jobs)|
            && s.classes[3] == |Places(StatusWithin(500, 600), s.jobs)|
  {
    RunInv(run, moves);
    var s := run[|moves|];
    TotalIsCounted(s);
    assert Places(StillOwes, s.procs) == {};
    ClassAtRest(s, 0);
    ClassAtRest(s, 1);
    ClassAtRest(s, 2);
    ClassAtRest(s, 3);
  }

  lemma ClassAtRest(s: State, k: nat)
    requires Conserved(s) && k < 4 && forall p | 0 <= p < |s.procs| :: s.procs[p] == Accepting
    ensures s.classes[k] == |Places(StatusWithin(200 + 100 * k, 300 + 100 * k), s.jobs)|
  {
    SumZero(OwesClass(k), s.procs);
    ClassIsRange(s.jobs, k);
  }

  /* ---- Which totals are read. ---- */

  // The steps that read the total, for the statistics page or for the report.
  predicate Reads(s: State, m: Move) {
    match m
    case Run(p) => p < |s.procs| && s.procs[p].TotalRead?
    case Report => s.reporter == HasTotal
    case _ => false
  }

  lemma StepReads(s: State, m: Move, s': State)
    requires Next(s, m, s') && Exclusive(s) && Conserved(s)
    ensures s'.totals == if Reads(s, m) then s.totals + [CountedSoFar(s)] else s.totals
    ensures Reads(s, m) ==> s.sem == 0
  {
    TotalIsCounted(s);
    if Reads(s, m) && m.Run? {
      SumAtLeast(Holds, s.procs, m.proc);
    }
  }

  ghost predicate Increasing(moments: seq<nat>) {
    forall i, j | 0 <= i < j < |moments| :: moments[i] < moments[j]
  }

  ghost predicate IsRead(i: nat, run: seq<State>, moves: seq<Move>)
    requires |run| == |moves| + 1
  {
    i < |moves| && Reads(run[i], moves[i])
  }

  ghost predicate AreMomentsOf(moments: seq<nat>, run: seq<State>, moves: seq<Move>)
    requires |run| == |moves| + 1
  {
    && Increasing(moments)
    && (forall i: nat :: i in moments <==> IsRead(i, run, moves))
    && (forall i: nat | IsRead(i, run, moves) :: run[i].sem == 0)
  }

  ghost predicate WereRead(totals: seq<int>, moments: seq<nat>, run: seq<State>) {
    && |totals| == |moments|
    && forall j | 0 <= j < |totals| :: moments[j] < |run| && totals[j] == CountedSoFar(run[moments[j]])
  }

  // Every total shown is, at the moment it is read and while its reader alone holds the semaphore, the number of
  // connections counted so far; every read shows one, in the order of the reads.
  lemma {:induction false} EveryTotalIsExact(run: seq<State>, moves: seq<Move>) returns (moments: seq<nat>)
    requires IsRun(run, moves)
    ensures AreMomentsOf(moments, run, moves) && WereRead(run[|moves|].totals, moments, run)
  {
    if moves == [] {
      return [];
    }
    var n := |moves| - 1;
    moments := EveryTotalIsExact(run[..n + 1], moves[..n]);
    LastRead(run, moves, n);
    moments := MoreMoments(moments, run, moves, n);
  }

  lemma MoreMoments(moments: seq<nat>, run: seq<State>, moves: seq<Move>, n: nat) returns (more: seq<nat>)
    requires |run| == |moves| + 1 && |moves| == n + 1 && AreMomentsOf(moments, run[..n + 1], moves[..n])
    requires WereRead(run[n].totals, moments, run[..n + 1]) && (Reads(run[n], moves[n]) ==> run[n].sem == 0)
    requires run[n + 1].totals ==
             if Reads(run[n], moves[n]) then run[n].totals + [CountedSoFar(run[n])] else run[n].totals
    ensures AreMomentsOf(more, run, moves) && WereRead(run[n + 1].totals, more, run)
  {
    MomentsGrow(moments, run, moves, n);
    TotalsGrowAt(run[n].totals, moments, run, n);
    more := if Reads(run[n], moves[n]) then moments + [n] else moments;
  }

  lemma TotalsGrowAt(totals: seq<int>, moments: seq<nat>, run: seq<State>, n: nat)
    requires n < |run| && WereRead(totals, moments, run[..n + 1])
    ensures WereRead(totals, moments, run) && WereRead(totals + [CountedSoFar(run[n])], moments + [n], run)
  {
  }

  lemma LastRead(run: seq<State>, moves: seq<Move>, n: nat)
    requires IsRun(run, moves) && |moves| == n + 1
    ensures run[n + 1].totals ==
            if Reads(run[n], moves[n]) then run[n].totals + [CountedSoFar(run[n])] else run[n].totals
    ensures Reads(run[n], moves[n]) ==> run[n].sem == 0
  {
    RunInv(run[..n + 1], moves[..n]);
    assert Next(run[n], moves[n], run[n + 1]);
    StepReads(run[n], moves[n], run[n + 1]);
  }

  lemma MomentsGrow(moments: seq<nat>, run: seq<State>, moves: seq<Move>, n: nat)
    requires |run| == |moves| + 1 && |moves| == n + 1 && AreMomentsOf(moments, run[..n + 1], moves[..n])
    requires Reads(run[n], moves[n]) ==> run[n].sem == 0
    ensures AreMomentsOf(if Reads(run[n], moves[n]) then moments + [n] else moments, run, moves)
  {
    var more := if Reads(run[n], moves[n]) then moments + [n] else moments;
    forall i: nat ensures IsRead(i, run, moves) ==> run[i].sem == 0
      ensures i in more <==> IsRead(i, run, moves)
    {
      assert i < n ==> run[i] == run[..n + 1][i] && moves[i] == moves[..n][i];
      assert i in moments <==> IsRead(i, run[..n + 1], moves[..n]);
    }
    forall j | 0 <= j < |moments| ensures moments[j] < n {
      assert moments[j] in moments;
      assert IsRead(moments[j], run[..n + 1], moves[..n]);
    }
  }

  // So a total read while no process has a status to add is the number of connections with a status.
  lemma ReadAtLeisure(run: seq<State>, moves: seq<Move>, moments: seq<nat>, j: nat)
    requires IsRun(run, moves) && WereRead(run[|moves|].totals, moments, run) && j < |moments|
    requires forall p | 0 <= p < |run[moments[j]].procs| :: OwedStatus(run[moments[j]].procs[p]) == None
    ensures run[|moves|].totals[j] == |Places(HasStatus, run[moments[j]].jobs)|
  {
    assert Places(StillOwes, run[moments[j]].procs) == {};
  }

  // A total that has been asked for and not been read yet.
  function Awaits(pc: Proc): nat {
    if pc.TotalWait? || pc.TotalRead? then 1 else 0
  }

  function ReporterAwaits(r: Reporter): nat {
    if r == WantsTotal || r == HasTotal then 1 else 0
  }

  function Asked(j: Job): nat {
    if j.readsTotal then 1 else 0
  }

  ghost predicate ReadsConserved(s: State) {
    |s.totals| + Sum(Awaits, s.procs) + ReporterAwaits(s.reporter) == Sum(Asked, s.jobs) + s.reports
  }

  lemma RunKeepsReads(s: State, p: nat, s': State)
    requires p < |s.procs| && ReadsConserved(s) && RunProc(s, p) == Some(s')
    ensures ReadsConserved(s')
  {
    RunReads(s, p, s');
    SumUpdate(Awaits, s.procs, p, s'.procs[p]);
  }

  lemma RunReads(s: State, p: nat, s': State)
    requires p < |s.procs| && RunProc(s, p) == Some(s')
    ensures |s'.procs| == |s.procs| && s'.procs == s.procs[p := s'.procs[p]] && s'.reporter == s.reporter
    ensures s'.jobs == s.jobs && s'.reports == s.reports
    ensures |s'.totals| + Awaits(s'.procs[p]) == |s.totals| + Awaits(s.procs[p])
  {
  }

  lemma AcceptKeepsReads(s: State, p: nat, job: Job, s': State)
    requires ReadsConserved(s) && Next(s, Accept(p, job), s')
    ensures ReadsConserved(s')
  {
    SumUpdate(Awaits, s.procs, p, s'.procs[p]);
    SumAppend(Asked, s.jobs, job);
  }

  lemma KeepsReadsConserved(s: State, m: Move, s': State)
    requires ReadsConserved(s) && Next(s, m, s')
    ensures ReadsConserved(s')
  {
    match m
    case Accept(p, job) => AcceptKeepsReads(s, p, job, s');
    case Run(p) => RunKeepsReads(s, p, s');
    case _ =>
  }

  // Every request for the statistics and every report reads one total: none is skipped and none is read twice.
  lemma {:induction false} EveryTotalIsRead(run: seq<State>, moves: seq<Move>)
    requires IsRun(run, moves)
    ensures ReadsConserved(run[|moves|])
  {
    if moves == [] {
      SumZero(Awaits, run[0].procs);
    } else {
      var n := |moves| - 1;
      EveryTotalIsRead(run[..n + 1], moves[..n]);
      assert Next(run[n], moves[n], run[n + 1]);
      KeepsReadsConserved(run[n], moves[n], run[n + 1]);
    }
  }

  /* ---- Progress. ---- */

  predicate CanRun(s: State, p: nat) {
    p < |s.procs| && RunProc(s, p) != None
  }

  predicate CanReport(s: State) {
    RunReporter(s) != None
  }

  // Whoever holds the semaphore can go on, so nobody waits for one who waits.
  lemma HolderGoesOn(s: State, p: nat)
    requires Fresh(s) && p < |s.procs| && s.procs[p] != Accepting
    ensures CanRun(s, p) <==> Holds(s.procs[p]) == 1 || s.sem > 0
  {
    assert FreshAt(s, s.procs[p]);
  }

  // A process that serves a connection, and the reporter, can step, or wait for another who can.
  lemma ServingOrWaiting(run: seq<State>, moves: seq<Move>, p: nat)
    requires IsRun(run, moves) && p < |run[|moves|].procs| && run[|moves|].procs[p] != Accepting
    ensures var s := run[|moves|];
            CanRun(s, p) || (s.sem == 0 && SomeoneInside(s))
  {
    RunInv(run, moves);
    HolderGoesOn(run[|moves|], p);
    if run[|moves|].sem == 0 {
      InsideGoesOn(run[|moves|]);
    }
  }

  // Someone is inside and can step.
  ghost predicate SomeoneInside(s: State) {
    || (exists q: nat :: q < |s.procs| && Holds(s.procs[q]) == 1 && CanRun(s, q))
    || (ReporterHolds(s.reporter) == 1 && CanReport(s))
  }

  lemma InsideGoesOn(s: State)
    requires Exclusive(s) && Fresh(s) && s.sem == 0
    ensures SomeoneInside(s)
  {
    if ReporterHolds(s.reporter) == 0 {
      SumZero(Holds, s.procs);
      var q :| 0 <= q < |s.procs| && Holds(s.procs[q]) != 0;
      HolderGoesOn(s, q);
    }
  }

  ghost predicate Stuck(s: State) {
    !CanReport(s) && forall p :: !CanRun(s, p)
  }

  ghost predicate Quiet(s: State) {
    && (forall p | 0 <= p < |s.procs| :: s.procs[p] == Accepting)
    && s.reporter == Idle && s.userSem == 0
  }

  // Only a state in which everything asked for is done lets nobody step.
  lemma StopsOnlyWhenQuiet(run: seq<State>, moves: seq<Move>)
    requires IsRun(run, moves)
    ensures Stuck(run[|moves|]) <==> Quiet(run[|moves|])
  {
    var s := run[|moves|];
    RunInv(run, moves);
    if Stuck(s) {
      StuckIsFree(s);
      forall p | 0 <= p < |s.procs| ensures s.procs[p] == Accepting {
        StuckIsAccepting(s, p);
      }
    }
  }

  lemma StuckIsFree(s: State)
    requires Exclusive(s) && Fresh(s) && Stuck(s)
    ensures s.sem > 0
  {
    if s.sem <= 0 {
      InsideGoesOn(s);
    }
  }

  lemma StuckIsAccepting(s: State, p: nat)
    requires Fresh(s) && Stuck(s) && s.sem > 0 && p < |s.procs|
    ensures s.procs[p] == Accepting
  {
    assert !CanRun(s, p);
    if s.procs[p] != Accepting {
      HolderGoesOn(s, p);
    }
  }

  // The steps a process has still to make, at most.
  function ToGo(pc: Proc): nat {
    match pc
    case Accepting => 0
    case CountPost => 1
    case StoreClass(_, _) => 2
    case LoadClass(_) => 3
    case StoreRequests(_, _) => 4
    case LoadRequests(_) => 5
    case CountWait(_) => 6
    case TotalPost(_) => 7
    case TotalRead(_) => 8
    case TotalWait(_) => 9
  }

  function ReporterToGo(r: Reporter): nat {
    match r
    case Idle => 0
    case Posts => 1
    case HasTotal => 2
    case WantsTotal => 3
  }

  function Measure(s: State): int {
    Sum(ToGo, s.procs) + ReporterToGo(s.reporter) + 4 * s.userSem
  }

  lemma RunNears(s: State, p: nat, s': State)
    requires p < |s.procs| && RunProc(s, p) == Some(s')
    ensures |s'.procs| == |s.procs| && s'.procs == s.procs[p := s'.procs[p]] && s'.reporter == s.reporter
    ensures s'.userSem == s.userSem && s'.jobs == s.jobs && s'.signals == s.signals
    ensures ToGo(s'.procs[p]) < ToGo(s.procs[p])
  {
  }

  // Every step lowers the measure; only a new connection or a new signal raises it.
  lemma StepDecreases(s: State, m: Move, s': State)
    requires Next(s, m, s')
    ensures Measure(s') <= Measure(s) - 1 + 10 * (|s'.jobs| - |s.jobs|) + 5 * (s'.signals - s.signals)
  {
    match m
    case Accept(p, job) => SumUpdate(ToGo, s.procs, p, s'.procs[p]);
    case Run(p) =>
      RunNears(s, p, s');
      SumUpdate(ToGo, s.procs, p, s'.procs[p]);
    case _ =>
  }

  // So a run is no longer than what is asked of it allows, and what is asked is done when no step is left.
  lemma {:induction false} EveryRunIsBounded(run: seq<State>, moves: seq<Move>)
    requires IsRun(run, moves)
    ensures |moves| + Measure(run[|moves|]) <= 10 * |run[|moves|].jobs| + 5 * run[|moves|].signals
  {
    if moves == [] {
      SumZero(ToGo, run[0].procs);
    } else {
      var n := |moves| - 1;
      EveryRunIsBounded(run[..n + 1], moves[..n]);
      assert Next(run[n], moves[n], run[n + 1]);
      StepDecreases(run[n], moves[n], run[n + 1]);
    }
  }

  // When nobody can step, every connection is counted, every page has read its total, and every signal has been
  // reported.
  lemma EverythingIsDone(run: seq<State>, moves: seq<Move>)
    requires IsRun(run, moves) && Stuck(run[|moves|])
    ensures var s := run[|moves|];
            && s.requests == |Places(HasStatus, s.jobs)|
            && |s.totals| == |Places((j: Job) => j.readsTotal, s.jobs)| + s.signals
            && s.reports == s.signals
  {
    var s := run[|moves|];
    StopsOnlyWhenQuiet(run, moves);
    RestCountsEverything(run, moves);
    EveryTotalIsRead(run, moves);
    RunInv(run, moves);
    SumZero(Awaits, s.procs);
    SumCounts(Asked, (j: Job) => j.readsTotal, s.jobs);
  }

  // Totals are read in growing order, by the statistics page and the reporter alike, and no signal is lost.
  lemma TotalsGrow(run: seq<State>, moves: seq<Move>)
    requires IsRun(run, moves)
    ensures var s := run[|moves|];
            (forall i, j | 0 <= i < j < |s.totals| :: s.totals[i] <= s.totals[j]) &&
            (forall i | 0 <= i < |s.totals| :: s.totals[i] <= s.requests) &&
            s.signals == s.userSem + s.reports && s.userSem >= 0
  {
    RunInv(run, moves);
  }
}
