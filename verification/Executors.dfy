/**
 The executor (`internal/executor/generic.go`): an attempt is started, the action loop runs
 against the store and the tools, and its ending is written down. The model and the tools are
 given as functions, so they may behave in any way.
 */
module Executors {
  import opened Options
  import opened Text
  import opened TaskStatuses
  import opened Database
  import opened TaskStores
  import opened Lifecycle
  import opened FinishGates
  import opened ActionLoops
  import opened GateMeaning
  import opened ProgressGuard

  const DEFAULT_STEPS := 30

  lemma {:induction false} FirstNotBlankIs(texts: seq<string>)
    ensures Trim(FirstNotBlank(texts)) == FirstNotBlank(texts)
    ensures FirstNotBlank(texts) == "" <==> forall i :: 0 <= i < |texts| ==> Trim(texts[i]) == ""
  {
    if texts != [] {
      FirstNotBlankIs(texts[1..]);
      TrimIdempotent(texts[0]);
    }
  }

  lemma FinishSummaryNotBlank(a: AgentAction)
    ensures Trim(FinishSummary(a)) != ""
  {
    var texts := [a.summary, a.reason, "generic action loop finished"];
    FirstNotBlankIs(texts);
    StartsVisible(texts[2]);
  }

  /** The tools, and the calls that have reached them. */
  class ToolRuntime {
    const respond: (nat, nat, AgentAction) -> ToolOutcome
    var calls: seq<ToolCall>

    constructor (respond: (nat, nat, AgentAction) -> ToolOutcome)
      ensures calls == [] && this.respond == respond
    {
      this.respond := respond;
      calls := [];
    }

    method Call(attempt: nat, step: nat, a: AgentAction) returns (outcome: ToolOutcome)
      modifies this
      ensures calls == old(calls) + [ToolCall(step, a)] && outcome == respond(attempt, step, a)
    {
      calls := calls + [ToolCall(step, a)];
      outcome := respond(attempt, step, a);
    }
  }

  datatype Execution =
    | ExecutionFinished(attempt: nat)
    | ExecutionFailed(attempt: nat)
    | UserAsked(attempt: nat)
    | StoreFailed(error: StoreError)

  function ResultOf(attempt: nat, ending: Ending): Execution {
    match ending
    case Implements(_, _) => ExecutionFinished(attempt)
    case Fails => ExecutionFailed(attempt)
    case Asks => UserAsked(attempt)
  }

  class GenericExecutor {
    const store: TaskStore
    const tools: ToolRuntime
    /** The model's choice for an attempt at a step; none when it cannot give one. */
    const choose: (nat, nat, seq<ActionEvent>) -> Option<AgentAction>
    /** What the text of a task asks for. */
    const textOf: nat -> TaskText
    const toolNames: seq<string>
    const maxSteps: nat
    /** Whether there are a model and tools at all. */
    const equipped: bool

    constructor (equipped: bool, store: TaskStore, tools: ToolRuntime,
        choose: (nat, nat, seq<ActionEvent>) -> Option<AgentAction>, textOf: nat -> TaskText, toolNames: seq<string>,
        maxSteps: nat)
      ensures this.equipped == equipped && this.store == store && this.tools == tools && this.choose == choose
      ensures this.textOf == textOf && this.toolNames == toolNames
      ensures this.maxSteps == if maxSteps == 0 then 30 else maxSteps
    {
      this.equipped, this.store, this.tools, this.choose := equipped, store, tools, choose;
      this.textOf, this.toolNames := textOf, toolNames;
      this.maxSteps := if maxSteps == 0 then DEFAULT_STEPS else maxSteps;
    }

    /** What the loop of an attempt meets. */
    function SettingOf(task: nat, attempt: nat): Setting {
      Setting((step: nat, events: seq<ActionEvent>) => choose(attempt, step, events),
              (step: nat, a: AgentAction) => tools.respond(attempt, step, a), textOf(task), toolNames, maxSteps)
    }

    /** The task is being worked on in this attempt. */
    predicate Working(task: nat, attempt: nat)
      reads store
    {
      && task < |store.tasks| && store.tasks[task].status == InProgress
      && attempt < |store.attempts| && store.attempts[attempt].task == task
      && store.attempts[attempt].status == AttemptRunning
    }

    /** Everything but the task's status and the attempt's outcome is as it was. */
    ghost predicate Ended(tasks: seq<Task>, attempts: seq<Attempt>, task: nat, to: TaskStatus, attempt: nat,
            outcome: AttemptStatus)
      reads store
    {
      && task < |tasks| && store.tasks == SetStatus(tasks, task, to)
      && attempt < |attempts| && store.attempts == attempts[attempt := attempts[attempt].(status := outcome)]
    }

    /** How an ending is written down. */
    ghost predicate Concludes(tasks: seq<Task>, attempts: seq<Attempt>, task: nat, attempt: nat, ending: Ending)
      reads store
    {
      match ending
      case Implements(_, _) =>
        && Ended(tasks, attempts, task, Implemented, attempt, AttemptRunning)
        && HasFinishEvidence(store.Snapshot(), attempt)
      case Fails => Ended(tasks, attempts, task, Failed, attempt, AttemptFailed)
      case Asks => Ended(tasks, attempts, task, NeedUserInput, attempt, AttemptCancelled)
    }

    /** Where a turn leaves the rows: as they were while the loop goes on. */
    ghost predicate Leaves(tasks: seq<Task>, attempts: seq<Attempt>, task: nat, attempt: nat, t: Turn)
      reads store
    {
      if t.End? then Concludes(tasks, attempts, task, attempt, t.ending)
      else store.tasks == tasks && store.attempts == attempts
    }

    method Finish(task: nat, attempt: nat, summary: string)
      requires store.Valid() && Working(task, attempt) && Trim(summary) != ""
      modifies store
      ensures store.Valid() && Ended(old(store.tasks), old(store.attempts), task, Implemented, attempt, AttemptRunning)
      ensures HasFinishEvidence(store.Snapshot(), attempt)
    {
      ghost var n := |store.observations|;
      var observed := store.CreateObservation(attempt, FINISH, summary);
      assert store.observations[n] == Observation(attempt, FINISH, summary);
      var moved := store.TransitionTask(task, Implemented);
      assert store.observations[n] == Observation(attempt, FINISH, summary);
    }

    method Give(task: nat, attempt: nat, to: TaskStatus, outcome: AttemptStatus)
      requires store.Valid() && Working(task, attempt) && to in {Failed, NeedUserInput}
      modifies store
      ensures store.Valid() && Ended(old(store.tasks), old(store.attempts), task, to, attempt, outcome)
    {
      var moved := store.TransitionTask(task, to);
      var completed := store.CompleteTaskAttempt(attempt, outcome);
    }

    method CallTool(task: nat, attempt: nat, step: nat, m: Memory, a: AgentAction, ghost before: seq<ToolCall>)
        returns (t: Turn)
      requires store.Valid() && Working(task, attempt) && tools.calls == before + m.calls
      modifies store, tools
      ensures store.Valid() && t == ToolTurn(SettingOf(task, attempt), step, m, a)
      ensures tools.calls == before + t.memory.calls
      ensures Leaves(old(store.tasks), old(store.attempts), task, attempt, t)
    {
      var outcome := tools.Call(attempt, step, a);
      var observed := store.CreateObservation(attempt, outcome.kind, outcome.summary);
      var more := Called(m, step, a, outcome);
      assert before + m.calls + [ToolCall(step, a)] == before + more.calls;
      if !outcome.failed {
        var summary := AutoFinishSummary(textOf(task), more.events);
        if summary.Some? {
          AutoFinishSays(textOf(task), more.events, |more.events|);
          Finish(task, attempt, summary.value);
          return End(Implements(false, summary.value), more);
        }
      }
      return GoOn(more);
    }

    /** An action that was not repeated too often is noted and carried out. */
    method CarryOut(task: nat, attempt: nat, step: nat, m: Memory, a: AgentAction, ghost before: seq<ToolCall>)
        returns (t: Turn)
      requires store.Valid() && Working(task, attempt) && tools.calls == before + m.calls
      modifies store, tools
      ensures store.Valid() && t == CarriedOut(SettingOf(task, attempt), step, m, a)
      ensures tools.calls == before + t.memory.calls
      ensures Leaves(old(store.tasks), old(store.attempts), task, attempt, t)
    {
      var noted := store.AddTaskEvent(Noted(task, "agent.action_selected"));
      if a.action == "finish" {
        var ready := FinishEvidenceReady(textOf(task), toolNames, m.events);
        if !ready {
          return Rejects(m, step, "finish", "", FinishSummary(a));
        }
        FinishSummaryNotBlank(a);
        Finish(task, attempt, FinishSummary(a));
        return End(Implements(true, FinishSummary(a)), m);
      } else if a.action == "ask_user" {
        Give(task, attempt, NeedUserInput, AttemptCancelled);
        return End(Asks, m);
      } else if a.action == "tool_call" {
        if Trim(a.tool) == "" {
          Give(task, attempt, Failed, AttemptFailed);
          return End(Fails, m);
        }
        t := CallTool(task, attempt, step, m, a, before);
      } else {
        return Rejects(m, step, FirstNotBlank([a.action, "unknown"]), "",
            FirstNotBlank([a.reason, a.summary, "unsupported generic action"]));
      }
    }

    /** One turn: finish by itself, or let the model choose and carry that out unless it repeats itself. */
    method TakeTurn(task: nat, attempt: nat, step: nat, m: Memory, ghost before: seq<ToolCall>) returns (t: Turn)
      requires store.Valid() && Working(task, attempt) && tools.calls == before + m.calls
      modifies store, tools
      ensures store.Valid() && t == TurnOf(SettingOf(task, attempt), step, m)
      ensures tools.calls == before + t.memory.calls
      ensures Leaves(old(store.tasks), old(store.attempts), task, attempt, t)
    {
      var summary := AutoFinishSummary(textOf(task), m.events);
      if summary.Some? {
        AutoFinishSays(textOf(task), m.events, |m.events|);
        Finish(task, attempt, summary.value);
        return End(Implements(false, summary.value), m);
      }
      var choice := choose(attempt, step, m.events);
      if choice == None {
        Give(task, attempt, Failed, AttemptFailed);
        return End(Fails, m);
      }
      var a := choice.value;
      var times := Seen(m.counts, Fingerprint(a));
      if times >= MAX_REPEATS {
        return Rejects(Counted(m, a), step, a.action, a.tool, "repeated action blocked by progress guard");
      }
      t := CarryOut(task, attempt, step, Counted(m, a), a, before);
    }

    /** The loop over a task that is being worked on. */
    method Loop(task: nat, attempt: nat) returns (end: Turn)
      requires store.Valid() && Working(task, attempt)
      modifies store, tools
      ensures store.Valid() && end == LoopFrom(SettingOf(task, attempt), 1, NO_MEMORY)
      ensures tools.calls == old(tools.calls) + end.memory.calls
      ensures Concludes(old(store.tasks), old(store.attempts), task, attempt, end.ending)
    {
      var m := NO_MEMORY;
      ghost var g, before := SettingOf(task, attempt), tools.calls;
      for step := 1 to maxSteps + 1
        invariant store.Valid() && store.tasks == old(store.tasks) && store.attempts == old(store.attempts)
        invariant tools.calls == before + m.calls
        invariant LoopFrom(g, step, m) == LoopFrom(g, 1, NO_MEMORY)
      {
        var t := TakeTurn(task, attempt, step, m, before);
        if t.End? {
          return t;
        }
        m := t.memory;
      }
      Give(task, attempt, Failed, AttemptFailed);
      return End(Fails, m);
    }

    /** Without a model or tools the attempt is finished at once. */
    method Proceed(task: nat, attempt: nat) returns (end: Turn)
      requires store.Valid() && Working(task, attempt)
      modifies store, tools
      ensures store.Valid() && end.End? && tools.calls == old(tools.calls) + end.memory.calls
      ensures Concludes(old(store.tasks), old(store.attempts), task, attempt, end.ending)
      ensures equipped ==> end == LoopFrom(SettingOf(task, attempt), 1, NO_MEMORY)
      ensures !equipped ==> end.ending.Implements? && end.memory.calls == []
      ensures forall f :: CallCount(end.memory.calls, f) <= MAX_REPEATS
      ensures end.ending.Implements? && equipped && !TakesAnyTest(textOf(task)) ==>
                Evidenced(SettingOf(task, attempt), end.memory.calls)
    {
      if equipped {
        end := Loop(task, attempt);
        LoopPromises(SettingOf(task, attempt));
      } else {
        var summary := "generic executor" + " completed without llm/tool runtime";
        assert summary[0] == 'g';
        StartsVisible(summary);
        Finish(task, attempt, summary);
        end := End(Implements(false, summary), NO_MEMORY);
      }
    }

    /** Claims the task unless the scheduler already has. */
    method TakeUp(task: nat) returns (refused: Option<StoreError>)
      requires store.Valid()
      modifies store
      ensures store.Valid() && store.attempts == old(store.attempts)
      ensures refused == None <==> task < |old(store.tasks)| && old(store.tasks)[task].status in {InProgress, Ready}
      ensures refused == None ==> store.tasks == SetStatus(old(store.tasks), task, InProgress)
      ensures refused.Some? ==> store.Snapshot() == old(store.Snapshot())
    {
      if task >= |store.tasks| {
        return Some(NoRows);
      }
      if store.tasks[task].status != InProgress {
        var claimed := store.TransitionTask(task, InProgress);
        match claimed {
          case Failure(e) => return Some(e);
          case Success(_) =>
        }
      }
      return None;
    }

    /** Takes the task up and starts an attempt. */
    method Begin(task: nat) returns (r: Result<nat>)
      requires store.Valid()
      modifies store
      ensures store.Valid()
      ensures r.Failure? <==> !(task < |old(store.tasks)| && old(store.tasks)[task].status in {InProgress, Ready})
      ensures r.Failure? ==> store.Snapshot() == old(store.Snapshot())
      ensures r.Success? ==>
                && r.value == |old(store.attempts)| && Working(task, r.value)
                && |store.attempts| == r.value + 1 && store.attempts[..r.value] == old(store.attempts)
                && store.tasks == SetStatus(old(store.tasks), task, InProgress)
    {
      var refused := TakeUp(task);
      match refused {
        case Some(e) => return Failure(e);
        case None => r := store.CreateTaskAttempt(task);
      }
    }

    /** Takes the task up, starts an attempt and carries it through. */
    method Perform(task: nat) returns (r: Execution)
      requires store.Valid()
      modifies store, tools
      ensures store.Valid() && old(tools.calls) <= tools.calls
      ensures r.StoreFailed? <==>
                !(task < |old(store.tasks)| && old(store.tasks)[task].status in {InProgress, Ready})
      ensures r.StoreFailed? ==> store.Snapshot() == old(store.Snapshot()) && tools.calls == old(tools.calls)
      ensures !r.StoreFailed? ==>
                && |store.attempts| == |old(store.attempts)| + 1 && r.attempt == |old(store.attempts)|
                && old(store.attempts) == store.attempts[..r.attempt] && store.attempts[r.attempt].task == task
                && exists ending :: r == ResultOf(r.attempt, ending)
                     && Concludes(old(store.tasks), store.attempts, task, r.attempt, ending)
      ensures !r.StoreFailed? && !equipped ==> r.ExecutionFinished? && tools.calls == old(tools.calls)
      ensures !r.StoreFailed? && equipped ==>
                var end := LoopFrom(SettingOf(task, r.attempt), 1, NO_MEMORY);
                r == ResultOf(r.attempt, end.ending) && tools.calls == old(tools.calls) + end.memory.calls
      ensures forall f :: CallCount(tools.calls[|old(tools.calls)|..], f) <= MAX_REPEATS
      ensures r.ExecutionFinished? && equipped && !TakesAnyTest(textOf(task)) ==>
                Evidenced(SettingOf(task, r.attempt), tools.calls[|old(tools.calls)|..])
    {
      assert tools.calls[|tools.calls|..] == [];
      var begun := Begin(task);
      match begun {
        case Failure(e) => return StoreFailed(e);
        case Success(attempt) =>
          ghost var started := store.tasks;
          var end := Proceed(task, attempt);
          r := ResultOf(attempt, end.ending);
          assert tools.calls[|old(tools.calls)|..] == end.memory.calls;
          assert forall to :: SetStatus(started, task, to) == SetStatus(old(store.tasks), task, to);
      }
    }

    /**
     Runs a task that is claimed, or claims it first. Unless the store refuses, the attempt
     ends IMPLEMENTED, FAILED or NEED_USER_INPUT as the loop ends, and IMPLEMENTED always with
     the evidence the reviewers look for. The calls of the run are those the loop made, none
     with the same fingerprint more than twice. A finish that the model asked for has all the
     evidence its task needs; and unless the task takes any test, it is IMPLEMENTED only when
     one of these calls succeeded, or failed the tests it was to diagnose.
     */
    method Execute(task: nat) returns (r: Execution)
      requires store.Valid()
      modifies store, tools
      ensures store.Valid() && old(tools.calls) <= tools.calls
      ensures r.StoreFailed? <==>
                !(task < |old(store.tasks)| && old(store.tasks)[task].status in {InProgress, Ready})
      ensures r.StoreFailed? ==> store.Snapshot() == old(store.Snapshot()) && tools.calls == old(tools.calls)
      ensures !r.StoreFailed? ==>
                && r.attempt == |old(store.attempts)| && |store.attempts| == r.attempt + 1
                && old(store.attempts) == store.attempts[..r.attempt] && store.attempts[r.attempt].task == task
      ensures r.ExecutionFinished? ==>
                && store.tasks == old(store.tasks)[task := Task(old(store.tasks)[task].title, Implemented)]
                && store.attempts[r.attempt].status == AttemptRunning
                && exists i :: 0 <= i < |store.observations| && store.observations[i].attempt == r.attempt
                     && store.observations[i].kind == "agent.finish" && Trim(store.observations[i].summary) != ""
      ensures r.ExecutionFailed? ==>
                && store.tasks == old(store.tasks)[task := Task(old(store.tasks)[task].title, Failed)]
                && store.attempts[r.attempt].status == AttemptFailed
      ensures r.UserAsked? ==>
                && store.tasks == old(store.tasks)[task := Task(old(store.tasks)[task].title, NeedUserInput)]
                && store.attempts[r.attempt].status == AttemptCancelled
      ensures !r.StoreFailed? && !equipped ==> r.ExecutionFinished? && tools.calls == old(tools.calls)
      ensures !r.StoreFailed? && equipped ==>
                var g := SettingOf(task, r.attempt);
                var end := LoopFrom(g, 1, NO_MEMORY);
                && tools.calls == old(tools.calls) + end.memory.calls && EndsBy(g, end)
                && (r.ExecutionFinished? <==> end.ending.Implements?) && (r.ExecutionFailed? <==> end.ending.Fails?)
                && (end.ending.Implements? && end.ending.gated ==> AllShown(g, end.memory))
      ensures forall tool, args :: |CallsTo(tools.calls[|old(tools.calls)|..], tool, args)| <= 2
      ensures r.ExecutionFinished? && equipped && !TakesAnyTest(textOf(task)) ==>
                Evidenced(SettingOf(task, r.attempt), tools.calls[|old(tools.calls)|..])
    {
      r := Perform(task);
      EvidentFinish(store.Snapshot(), |old(store.attempts)|);
      RunPromises(SettingOf(task, |old(store.attempts)|));
      assert tools.calls[|tools.calls|..] == [];
    }
  }

  lemma EvidentFinish(db: Db, attempt: nat)
    ensures HasFinishEvidence(db, attempt) <==>
            exists i :: 0 <= i < |db.observations| && db.observations[i].attempt == attempt
                        && db.observations[i].kind == "agent.finish" && Trim(db.observations[i].summary) != ""
  {
    if i :| 0 <= i < |db.observations| && db.observations[i].attempt == attempt
            && db.observations[i].kind == "agent.finish" && Trim(db.observations[i].summary) != "" {
      assert IsFinishEvidence(db.observations[i], attempt);
    }
  }

  lemma RunPromises(g: Setting)
    ensures var end := LoopFrom(g, 1, NO_MEMORY);
      && EndsBy(g, end) && (end.ending.Implements? && end.ending.gated ==> AllShown(g, end.memory))
      && (forall tool, args :: |CallsTo(end.memory.calls, tool, args)| <= 2)
    ensures forall tool, args :: |CallsTo([], tool, args)| == 0
  {
    NothingIsTrue(g);
    RunEndsBy(g, 1, NO_MEMORY);
    if LoopFrom(g, 1, NO_MEMORY).ending.Implements? && LoopFrom(g, 1, NO_MEMORY).ending.gated {
      AcceptedFinishIsShown(g);
    }
    forall tool, args ensures |CallsTo(LoopFrom(g, 1, NO_MEMORY).memory.calls, tool, args)| <= 2 {
      NoThirdCall(g, tool, args);
    }
    forall tool, args ensures |CallsTo([], tool, args)| == 0 {
      assert CallsTo([], tool, args) == {};
    }
  }

  lemma LoopPromises(g: Setting)
    ensures var end := LoopFrom(g, 1, NO_MEMORY);
      && (forall f :: CallCount(end.memory.calls, f) <= MAX_REPEATS)
      && (end.ending.Implements? && !TakesAnyTest(g.text) ==> Evidenced(g, end.memory.calls))
  {
    NothingIsTrue(g);
    LoopIsTruthful(g, 1, NO_MEMORY);
    if LoopFrom(g, 1, NO_MEMORY).ending.Implements? && !TakesAnyTest(g.text) {
      LoopIsEvidenced(g, 1, NO_MEMORY);
    }
  }
}
