/**
 The parallel run loop (`runProjectTasksParallel` in `internal/runtime/service_run.go`) as a
 transition system: the loop claims tasks and hands each to a goroutine of its own, which a
 semaphore admits and a wait group counts. What a claim returns and how a finalization ends
 is up to the environment, as is the interleaving.
 */
module ParallelRuns {

  const MAX_WORKERS := 8

  datatype Config = Config(parallelism: nat, maxTasks: nat) {
    /** The loop only runs when more than one task may run at once. */
    predicate Valid() {
      parallelism > 1 && maxTasks > 0
    }

    /** As many as wanted, but no more than eight. */
    function Workers(): (n: nat)
      ensures n <= 8 && n <= parallelism && (n == 8 || n == parallelism)
    {
      if parallelism > MAX_WORKERS then MAX_WORKERS else parallelism
    }
  }

  /** A goroutine runs its task, adds to the count, gives its semaphore slot back, then leaves the group. */
  datatype Stage = Running | Counted | Released | Left
  datatype Routine = Routine(task: nat, stage: Stage)

  datatype Outcome = ClaimFailed | FinalizeFailed | Finalized | LimitReached

  /** Where the loop is, named after what it does next. */
  datatype Place =
    | CheckLimits
    | Claim
    | WaitIdle
    | ClaimAgain
    | FinalizeIdle
    | Spawn(todo: seq<nat>)
    | WaitLast
    | FinalizeLast
    | WaitAfterError
    | Returned(ran: nat, outcome: Outcome)

  datatype State = State(place: Place, iterations: nat, ran: nat, slots: nat, group: nat, routines: seq<Routine>,
                         claimed: seq<nat>)

  const START := State(CheckLimits, 0, 0, 0, 0, [], [])

  /** What the environment decides. */
  datatype Choice = Claims(tasks: seq<nat>) | Fails | Resumes | Stops

  datatype Action = Loop(choice: Choice) | Work(routine: nat)

  // ---- the loop ------------------------------------------------------------------------

  function UpTo(tasks: seq<nat>, limit: nat): seq<nat> {
    if |tasks| <= limit then tasks else tasks[..limit]
  }

  function AfterClaim(s: State, tasks: seq<nat>): State {
    s.(place := Spawn(tasks), claimed := s.claimed + tasks)
  }

  function LoopStep(c: Config, s: State, choice: Choice): State {
    var got := if choice.Claims? then UpTo(choice.tasks, c.Workers()) else [];
    match s.place
    case CheckLimits => s.(place := if s.iterations < 2 * c.maxTasks && s.ran < c.maxTasks then Claim else WaitLast)
    case Claim =>
      if choice.Fails? then s.(place := WaitAfterError)
      else if got == [] then s.(place := WaitIdle)
      else AfterClaim(s, got)
    case WaitIdle => if s.group == 0 then s.(place := ClaimAgain) else s
    case ClaimAgain =>
      if choice.Fails? then s.(place := Returned(s.ran, ClaimFailed))
      else if got == [] then s.(place := FinalizeIdle)
      else AfterClaim(s, got)
    case FinalizeIdle =>
      if choice.Fails? then s.(place := Returned(s.ran, FinalizeFailed))
      else if choice.Resumes? then s.(place := CheckLimits)
      else s.(place := Returned(s.ran, Finalized))
    case Spawn(todo) =>
      if todo == [] then s.(place := CheckLimits)
      else if s.slots < c.Workers() then
        s.(place := Spawn(todo[1..]), iterations := s.iterations + 1, slots := s.slots + 1, group := s.group + 1,
           routines := s.routines + [Routine(todo[0], Running)])
      else s
    case WaitLast =>
      if s.group > 0 then s
      else s.(place := if s.ran >= c.maxTasks then Returned(s.ran, LimitReached) else FinalizeLast)
    case FinalizeLast =>
      if choice.Fails? then s.(place := Returned(s.ran, FinalizeFailed))
      else if choice.Resumes? then s.(place := CheckLimits, iterations := 0)
      else s.(place := Returned(s.ran, Finalized))
    case WaitAfterError => if s.group == 0 then s.(place := Returned(s.ran, ClaimFailed)) else s
    case Returned(_, _) => s
  }

  // ---- a goroutine -------------------------------------------------------------------------

  function WorkStep(s: State, i: nat): State
    requires i < |s.routines| && (s.slots > 0 || s.routines[i].stage != Counted)
    requires s.group > 0 || s.routines[i].stage != Released
  {
    match s.routines[i].stage
    case Running => s.(ran := s.ran + 1, routines := s.routines[i := s.routines[i].(stage := Counted)])
    case Counted => s.(slots := s.slots - 1, routines := s.routines[i := s.routines[i].(stage := Released)])
    case Released => s.(group := s.group - 1, routines := s.routines[i := s.routines[i].(stage := Left)])
    case Left => s
  }

  function Next(c: Config, s: State, a: Action): State {
    match a
    case Loop(choice) => LoopStep(c, s, choice)
    case Work(i) =>
      if i < |s.routines| && (s.slots > 0 || s.routines[i].stage != Counted)
          && (s.group > 0 || s.routines[i].stage != Released)
      then WorkStep(s, i) else s
  }

  function Run(c: Config, s: State, actions: seq<Action>): State
    decreases |actions|
  {
    if actions == [] then s else Run(c, Next(c, s, actions[0]), actions[1..])
  }

  // ---- counting ------------------------------------------------------------------------------

  /** How many goroutines are at one of the given stages. */
  function CountIn(routines: seq<Routine>, stages: set<Stage>): nat {
    if routines == [] then 0
    else CountIn(routines[..|routines| - 1], stages) + if routines[|routines| - 1].stage in stages then 1 else 0
  }

  lemma {:induction false} CountUpdate(routines: seq<Routine>, i: nat, r: Routine, stages: set<Stage>)
    requires i < |routines|
    ensures CountIn(routines[i := r], stages) + (if routines[i].stage in stages then 1 else 0)
            == CountIn(routines, stages) + (if r.stage in stages then 1 else 0)
    decreases |routines|
  {
    var n := |routines| - 1;
    if i < n {
      assert routines[i := r][..n] == routines[..n][i := r];
      CountUpdate(routines[..n], i, r, stages);
    } else {
      assert routines[i := r][..n] == routines[..n];
    }
  }

  lemma CountAppend(routines: seq<Routine>, r: Routine, stages: set<Stage>)
    ensures CountIn(routines + [r], stages) == CountIn(routines, stages) + (if r.stage in stages then 1 else 0)
  {
    assert (routines + [r])[..|routines|] == routines;
  }

  lemma {:induction false} CountBound(routines: seq<Routine>, stages: set<Stage>)
    ensures CountIn(routines, stages) <= |routines|
    ensures CountIn(routines, stages) == 0 <==> forall i :: 0 <= i < |routines| ==> routines[i].stage !in stages
  {
    if routines != [] {
      CountBound(routines[..|routines| - 1], stages);
    }
  }

  lemma {:induction false} CountSplits(routines: seq<Routine>)
    ensures CountIn(routines, {Running}) <= CountIn(routines, {Running, Counted}) <= CountIn(routines,
        {Running, Counted, Released})
  {
    if routines != [] {
      CountSplits(routines[..|routines| - 1]);
    }
  }

  function Tasks(routines: seq<Routine>): seq<nat> {
    seq(|routines|, i requires 0 <= i < |routines| => routines[i].task)
  }

  function Todo(p: Place): seq<nat> {
    if p.Spawn? then p.todo else []
  }

  // ---- the invariant ---------------------------------------------------------------------------

  /** The loop has just seen fewer finished tasks than allowed, and started nothing since. */
  predicate MayClaim(p: Place) {
    p.Claim? || p.WaitIdle? || p.ClaimAgain?
  }

  /** Nothing is running where the loop has waited. */
  predicate HasWaited(p: Place) {
    p.ClaimAgain? || p.FinalizeIdle? || p.FinalizeLast? || p.Returned?
  }

  /** The counter, the semaphore and the wait group agree with the goroutines. */
  predicate Counts(c: Config, ran: nat, slots: nat, group: nat, routines: seq<Routine>) {
    && ran + CountIn(routines, {Running}) == |routines|
    && slots == CountIn(routines, {Running, Counted}) <= c.Workers()
    && group == CountIn(routines, {Running, Counted, Released})
  }

  predicate Placed(c: Config, p: Place, started: nat, ran: nat, group: nat, iterations: nat) {
    && (MayClaim(p) ==> iterations < 2 * c.maxTasks)
    && iterations + |Todo(p)| <= 2 * c.maxTasks - 1 + c.Workers()
    && (p.FinalizeLast? ==> ran < c.maxTasks)
    && (MayClaim(p) ==> started <= c.maxTasks - 1 + c.Workers())
    && started + |Todo(p)| <= c.maxTasks - 1 + 2 * c.Workers()
    && (HasWaited(p) ==> group == 0)
    && (p.Returned? ==> p.ran == ran && (p.outcome == LimitReached ==> ran >= c.maxTasks))
  }

  ghost predicate Valid(c: Config, s: State) {
    && c.Valid()
    && Counts(c, s.ran, s.slots, s.group, s.routines)
    && Placed(c, s.place, |s.routines|, s.ran, s.group, s.iterations)
    && s.claimed == Tasks(s.routines) + Todo(s.place)
  }

  lemma StartedAreRunningOrRan(c: Config, s: State)
    requires Counts(c, s.ran, s.slots, s.group, s.routines)
    ensures |s.routines| <= s.ran + c.Workers() && s.slots <= s.group && s.ran <= |s.routines|
  {
    CountSplits(s.routines);
  }

  lemma SpawnKeepsCounts(c: Config, s: State, r: Routine)
    requires Counts(c, s.ran, s.slots, s.group, s.routines) && s.slots < c.Workers() && r.stage == Running
    ensures Counts(c, s.ran, s.slots + 1, s.group + 1, s.routines + [r])
  {
    CountAppend(s.routines, r, {Running});
    CountAppend(s.routines, r, {Running, Counted});
    CountAppend(s.routines, r, {Running, Counted, Released});
  }

  /** The loop itself only moves on, claims, or starts the next task it claimed. */
  lemma LoopKeepsPlaced(c: Config, s: State, choice: Choice)
    requires c.Valid() && Placed(c, s.place, |s.routines|, s.ran, s.group, s.iterations)
    requires |s.routines| <= s.ran + c.Workers()
    ensures var t := LoopStep(c, s, choice); Placed(c, t.place, |t.routines|, t.ran, t.group, t.iterations)
  {
  }

  lemma LoopKeepsClaimed(c: Config, s: State, choice: Choice, started: seq<nat>)
    requires s.claimed == started + Todo(s.place)
    ensures var t := LoopStep(c, s, choice);
      t.claimed == started + (if t.routines == s.routines then [] else Todo(s.place)[..1]) + Todo(t.place)
  {
    assert started + [] == started;
    if s.place.Spawn? && s.place.todo != [] {
      assert s.place.todo == s.place.todo[..1] + s.place.todo[1..];
    }
  }

  lemma LoopStarts(c: Config, s: State, choice: Choice)
    ensures LoopStep(c, s, choice).routines == s.routines
            || (s.place.Spawn? && s.place.todo != []
                && LoopStep(c, s, choice).routines == s.routines + [Routine(s.place.todo[0], Running)])
  {
  }

  lemma LoopKeepsCounts(c: Config, s: State, choice: Choice)
    requires Counts(c, s.ran, s.slots, s.group, s.routines)
    ensures var t := LoopStep(c, s, choice); Counts(c, t.ran, t.slots, t.group, t.routines)
  {
    if s.place.Spawn? && s.place.todo != [] && s.slots < c.Workers() {
      SpawnKeepsCounts(c, s, Routine(s.place.todo[0], Running));
    }
  }

  lemma MoreTasks(routines: seq<Routine>, todo: seq<nat>)
    requires todo != []
    ensures Tasks(routines + [Routine(todo[0], Running)]) == Tasks(routines) + todo[..1]
  {
  }

  lemma LoopKeepsValid(c: Config, s: State, choice: Choice)
    requires Valid(c, s)
    ensures Valid(c, LoopStep(c, s, choice))
  {
    StartedAreRunningOrRan(c, s);
    LoopKeepsPlaced(c, s, choice);
    LoopStarts(c, s, choice);
    LoopKeepsCounts(c, s, choice);
    LoopKeepsClaimed(c, s, choice, Tasks(s.routines));
    if LoopStep(c, s, choice).routines == s.routines {
      assert Tasks(s.routines) + [] == Tasks(s.routines);
    } else {
      MoreTasks(s.routines, s.place.todo);
    }
  }

  lemma WorkKeepsValid(c: Config, s: State, i: nat)
    requires Valid(c, s) && i < |s.routines|
    ensures (s.slots > 0 || s.routines[i].stage != Counted) && (s.group > 0 || s.routines[i].stage != Released)
    ensures Valid(c, WorkStep(s, i))
  {
    var r := s.routines[i];
    CountBound(s.routines, {Running, Counted});
    CountBound(s.routines, {Running, Counted, Released});
    var next := WorkStep(s, i).routines;
    assert next == s.routines[i := next[i]];
    CountUpdate(s.routines, i, next[i], {Running});
    CountUpdate(s.routines, i, next[i], {Running, Counted});
    CountUpdate(s.routines, i, next[i], {Running, Counted, Released});
    assert Tasks(next) == Tasks(s.routines);
  }

  lemma {:induction false} RunKeepsValid(c: Config, s: State, actions: seq<Action>)
    requires Valid(c, s)
    ensures Valid(c, Run(c, s, actions))
    decreases |actions|
  {
    if actions != [] {
      match actions[0]
      case Loop(choice) =>
        LoopKeepsValid(c, s, choice);
        RunKeepsValid(c, LoopStep(c, s, choice), actions[1..]);
      case Work(i) =>
        if i < |s.routines| {
          WorkKeepsValid(c, s, i);
        }
        RunKeepsValid(c, Next(c, s, actions[0]), actions[1..]);
    }
  }

  // ---- what a run promises ---------------------------------------------------------------------

  /**
   In every interleaving: at most `workers` tasks run at once, and at most
   `maxTasks - 1 + 2 * workers` are started in all, whatever resumes the run and resets its
   iterations.
   */
  lemma ParallelRunIsBounded(c: Config, actions: seq<Action>)
    requires c.Valid()
    ensures var s := Run(c, START, actions);
      && CountIn(s.routines, {Running}) <= c.Workers() <= MAX_WORKERS
      && |s.routines| <= c.maxTasks - 1 + 2 * c.Workers()
  {
    RunKeepsValid(c, START, actions);
    CountSplits(Run(c, START, actions).routines);
  }

  /** Once the run returns, every task it claimed was started, has finished, and was counted. */
  lemma ReturnedRunIsFinished(c: Config, actions: seq<Action>)
    requires c.Valid() && Run(c, START, actions).place.Returned?
    ensures var s := Run(c, START, actions);
      && Tasks(s.routines) == s.claimed
      && (forall i :: 0 <= i < |s.routines| ==> s.routines[i].stage == Left)
      && s.place.ran == |s.claimed|
  {
    RunKeepsValid(c, START, actions);
    var s := Run(c, START, actions);
    CountSplits(s.routines);
    CountBound(s.routines, {Running});
    CountBound(s.routines, {Running, Counted, Released});
    assert Tasks(s.routines) + [] == Tasks(s.routines);
    forall i | 0 <= i < |s.routines| ensures s.routines[i].stage == Left {
      assert s.routines[i].stage !in {Running, Counted, Released};
    }
  }

  /** A goroutine that has started can always go on: neither lock nor group ever underflows. */
  lemma WorkIsNeverStuck(c: Config, actions: seq<Action>, i: nat)
    requires c.Valid() && i < |Run(c, START, actions).routines| && Run(c, START, actions).routines[i].stage != Left
    ensures Next(c, Run(c, START, actions), Work(i)).routines[i].stage != Run(c, START, actions).routines[i].stage
  {
    RunKeepsValid(c, START, actions);
    WorkKeepsValid(c, Run(c, START, actions), i);
  }
  /** Without a final review that resumes it, a run starts fewer still when it may run few tasks. */
  lemma {:induction false} UnresumedIterations(c: Config, s: State, actions: seq<Action>)
    requires s.iterations == |s.routines| && Loop(Resumes) !in actions
    ensures Run(c, s, actions).iterations == |Run(c, s, actions).routines|
    decreases |actions|
  {
    if actions != [] {
      assert actions[0] != Loop(Resumes);
      UnresumedIterations(c, Next(c, s, actions[0]), actions[1..]);
    }
  }

  lemma UnresumedRunIsBounded(c: Config, actions: seq<Action>)
    requires c.Valid() && Loop(Resumes) !in actions
    ensures |Run(c, START, actions).routines| <= 2 * c.maxTasks - 1 + c.Workers()
  {
    RunKeepsValid(c, START, actions);
    UnresumedIterations(c, START, actions);
  }

  /** A run whose last final review resumes it goes on to claim. */
  lemma ResumedRunClaims(c: Config, actions: seq<Action>, choice: Choice)
    requires c.Valid() && Run(c, START, actions).place == FinalizeLast
    ensures Next(c, Next(c, Run(c, START, actions), Loop(Resumes)), Loop(choice)).place == Claim
  {
    RunKeepsValid(c, START, actions);
  }

  // ---- every run returns -------------------------------------------------------------------------

  function StepsOf(stage: Stage): nat {
    match stage
    case Running => 3
    case Counted => 2
    case Released => 1
    case Left => 0
  }

  /** The steps that the goroutines still have before them. */
  function StepsLeft(routines: seq<Routine>): nat {
    if routines == [] then 0 else StepsLeft(routines[..|routines| - 1]) + StepsOf(routines[|routines| - 1].stage)
  }

  lemma {:induction false} StepsLeftUpdate(routines: seq<Routine>, i: nat, r: Routine)
    requires i < |routines|
    ensures StepsLeft(routines[i := r]) + StepsOf(routines[i].stage) == StepsLeft(routines) + StepsOf(r.stage)
    decreases |routines|
  {
    var n := |routines| - 1;
    if i < n {
      assert routines[i := r][..n] == routines[..n][i := r];
      StepsLeftUpdate(routines[..n], i, r);
    } else {
      assert routines[i := r][..n] == routines[..n];
    }
  }

  lemma StepsLeftAppend(routines: seq<Routine>, r: Routine)
    ensures StepsLeft(routines + [r]) == StepsLeft(routines) + StepsOf(r.stage)
  {
    assert (routines + [r])[..|routines|] == routines;
  }

  function PlaceRank(p: Place): nat {
    match p
    case Spawn(todo) => 9 + 8 * |todo|
    case CheckLimits => 8
    case Claim => 7
    case WaitIdle => 6
    case ClaimAgain => 5
    case FinalizeIdle => 4
    case WaitLast => 3
    case FinalizeLast => 2
    case WaitAfterError => 1
    case Returned(_, _) => 0
  }

  /** How many tasks may still be claimed, what the claimed ones still have to do, and where the loop is. */
  function Distance(c: Config, s: State): int {
    16 * (c.maxTasks - 1 + 2 * c.Workers() - |s.routines| - |Todo(s.place)|) + StepsLeft(s.routines)
    + PlaceRank(s.place)
  }

  predicate IsResume(s: State, a: Action) {
    a == Loop(Resumes) && (s.place == FinalizeIdle || s.place == FinalizeLast)
  }

  /** The same without what the goroutines have to do: three steps for each that is started. */
  function LoopDistance(p: Place, started: nat): int {
    PlaceRank(p) - 16 * |Todo(p)| - 13 * started
  }

  lemma PlaceComesNearer(c: Config, s: State, choice: Choice)
    ensures var t := LoopStep(c, s, choice);
      t == s || LoopDistance(t.place, |t.routines|)
                < LoopDistance(s.place, |s.routines|) + if IsResume(s, Loop(choice)) then 8 else 0
  {
  }

  lemma LoopComesNearer(c: Config, s: State, choice: Choice)
    ensures var t := LoopStep(c, s, choice);
      t == s || Distance(c, t) < Distance(c, s) + if IsResume(s, Loop(choice)) then 8 else 0
  {
    PlaceComesNearer(c, s, choice);
    LoopStarts(c, s, choice);
    var t := LoopStep(c, s, choice);
    if t.routines != s.routines {
      StepsLeftAppend(s.routines, Routine(s.place.todo[0], Running));
    }
    assert StepsLeft(t.routines) == StepsLeft(s.routines) + 3 * (|t.routines| - |s.routines|);
  }

  lemma WorkComesNearer(c: Config, s: State, i: nat)
    requires Valid(c, s)
    ensures Next(c, s, Work(i)) == s || Distance(c, Next(c, s, Work(i))) < Distance(c, s)
  {
    if i < |s.routines| {
      WorkKeepsValid(c, s, i);
      var next := WorkStep(s, i).routines;
      assert next == s.routines[i := next[i]];
      StepsLeftUpdate(s.routines, i, next[i]);
    }
  }

  /** How often a final review has resumed the run. */
  function ResumesIn(c: Config, s: State, actions: seq<Action>): nat
    decreases |actions|
  {
    if actions == [] then 0
    else (if IsResume(s, actions[0]) then 1 else 0) + ResumesIn(c, Next(c, s, actions[0]), actions[1..])
  }

  /** Nothing waits for something that has not happened. */
  predicate AllMove(c: Config, s: State, actions: seq<Action>)
    decreases |actions|
  {
    actions == [] || (Next(c, s, actions[0]) != s && AllMove(c, Next(c, s, actions[0]), actions[1..]))
  }

  lemma {:induction false} MovesComeNearer(c: Config, s: State, actions: seq<Action>)
    requires Valid(c, s) && AllMove(c, s, actions)
    ensures |actions| + Distance(c, Run(c, s, actions)) <= Distance(c, s) + 8 * ResumesIn(c, s, actions)
    decreases |actions|
  {
    if actions != [] {
      match actions[0] {
        case Loop(choice) => LoopComesNearer(c, s, choice);
        case Work(i) => WorkComesNearer(c, s, i);
      }
      assert Run(c, s, actions[..1]) == Next(c, s, actions[0]) by {
        assert Run(c, Next(c, s, actions[0]), []) == Next(c, s, actions[0]);
      }
      RunKeepsValid(c, s, actions[..1]);
      MovesComeNearer(c, Next(c, s, actions[0]), actions[1..]);
    }
  }

  /** Until the run has returned something can move: the loop, whatever it is told, or a goroutine. */
  lemma SomethingMoves(c: Config, s: State) returns (i: nat)
    requires Valid(c, s) && !s.place.Returned?
    ensures (forall choice :: LoopStep(c, s, choice) != s) || Next(c, s, Work(i)) != s
  {
    i := 0;
    CountBound(s.routines, {Running, Counted});
    CountBound(s.routines, {Running, Counted, Released});
    if k :| 0 <= k < |s.routines| && s.routines[k].stage != Left {
      i := k;
      WorkKeepsValid(c, s, k);
      assert WorkStep(s, k).routines[k] != s.routines[k];
    }
  }

  /**
   Every run returns. A run in which all steps move takes no more than so many of them for
   each task it may start, and some for each time it is resumed; and until it has returned,
   something can move, whatever the environment does.
   */
  lemma ParallelRunReturns(c: Config, actions: seq<Action>) returns (i: nat)
    requires c.Valid() && AllMove(c, START, actions)
    ensures |actions| <= 16 * (c.maxTasks - 1 + 2 * c.Workers()) + 8 * (ResumesIn(c, START, actions) + 1)
    ensures var s := Run(c, START, actions);
      s.place.Returned? || (forall choice :: Next(c, s, Loop(choice)) != s) || Next(c, s, Work(i)) != s
  {
    RunKeepsValid(c, START, actions);
    MovesComeNearer(c, START, actions);
    var s := Run(c, START, actions);
    i := 0;
    if !s.place.Returned? {
      i := SomethingMoves(c, s);
    }
  }

}
