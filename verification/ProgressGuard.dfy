/**
 The progress guard of the action loop (`internal/executor/generic.go`), exactly: when the model
 has chosen an action twice, choosing it again has no effect but an event.
 */
module ProgressGuard {
  import opened Options
  import opened Text
  import opened FinishGates
  import opened ActionLoops

  // ---- what counts as the same action ---------------------------------------------------------

  /** Calls of one tool are the same when their arguments are; finishes and questions by what they say. */
  lemma SameAction(a: AgentAction, b: AgentAction)
    ensures a.action == b.action == "tool_call" && Trim(a.tool) == Trim(b.tool) ==>
              (Fingerprint(a) == Fingerprint(b) <==> a.args == b.args)
    ensures a.action == b.action == "finish" ==>
              (Fingerprint(a) == Fingerprint(b) <==> Trim(a.summary) == Trim(b.summary))
    ensures a.action == b.action == "ask_user" ==>
              (Fingerprint(a) == Fingerprint(b) <==> Trim(a.question) == Trim(b.question))
    ensures a.action !in {"tool_call", "finish", "ask_user"} && b.action !in {"tool_call", "finish", "ask_user"} ==>
              (Fingerprint(a) == Fingerprint(b) <==> Trim(a.action) == Trim(b.action))
  {
    Front("tool:" + Trim(a.tool) + ":", a.args, b.args);
    Front("finish:", Trim(a.summary), Trim(b.summary));
    Front("ask_user:", Trim(a.question), Trim(b.question));
    Front("action:", Trim(a.action), Trim(b.action));
  }

  lemma Front(front: string, one: string, two: string)
    ensures front + one == front + two <==> one == two
  {
    assert (front + one)[|front|..] == one && (front + two)[|front|..] == two;
  }

  /** Actions of different kinds are never the same. */
  lemma KindsDiffer(a: AgentAction, b: AgentAction)
    requires a.action != b.action && a.action in {"tool_call", "finish", "ask_user"}
    ensures Fingerprint(a) != Fingerprint(b)
  {
    assert "tool:"[0] == 't' && "finish:"[0] == 'f';
    assert "ask_user:"[0] == "action:"[0] == 'a' && "ask_user:"[1] == 's' && "action:"[1] == 'c';
    assert Fingerprint(a)[0] == if a.action == "tool_call" then 't' else if a.action == "finish" then 'f' else 'a';
    assert Fingerprint(b)[0] == if b.action == "tool_call" then 't' else if b.action == "finish" then 'f' else 'a';
    assert a.action == "ask_user" ==> Fingerprint(a)[1] == 's';
    assert b.action == "ask_user" ==> Fingerprint(b)[1] == 's';
    assert b.action !in {"tool_call", "finish", "ask_user"} ==> Fingerprint(b)[1] == 'c';
  }

  // ---- what the guard counts ---------------------------------------------------------------------

  /** In its turn before event `i` the model chose an action that is the same. */
  predicate ChoseSame(g: Setting, events: seq<ActionEvent>, i: nat, f: string)
    requires i < |events|
  {
    g.choose(i + 1, events[..i]).Some? && Fingerprint(g.choose(i + 1, events[..i]).value) == f
  }

  function Choices(g: Setting, events: seq<ActionEvent>, f: string): set<nat> {
    set i: nat | 0 <= i < |events| && ChoseSame(g, events, i, f)
  }

  /** The counts are how often the model has chosen each action. */
  ghost predicate CountsChoices(g: Setting, m: Memory) {
    forall f :: Seen(m.counts, f) == |Choices(g, m.events, f)|
  }

  lemma ChoicesMore(g: Setting, events: seq<ActionEvent>, e: ActionEvent, a: AgentAction, f: string)
    requires g.choose(|events| + 1, events) == Some(a)
    ensures |Choices(g, events + [e], f)| == |Choices(g, events, f)| + if Fingerprint(a) == f then 1 else 0
  {
    var more := events + [e];
    assert more[..|events|] == events;
    forall i | 0 <= i < |events| ensures ChoseSame(g, more, i, f) <==> ChoseSame(g, events, i, f) {
      assert more[..i] == events[..i];
    }
    assert ChoseSame(g, more, |events|, f) <==> Fingerprint(a) == f;
    if Fingerprint(a) == f {
      assert Choices(g, more, f) == Choices(g, events, f) + {|events|};
    } else {
      assert Choices(g, more, f) == Choices(g, events, f);
    }
  }

  lemma TurnCounts(g: Setting, step: nat, m: Memory)
    requires CountsChoices(g, m) && step == |m.events| + 1 && TurnOf(g, step, m).GoOn?
    ensures CountsChoices(g, TurnOf(g, step, m).memory) && |TurnOf(g, step, m).memory.events| == step
  {
    var a, later := g.choose(step, m.events).value, TurnOf(g, step, m).memory;
    CarryingOutAdds(g, step, Counted(m, a), a);
    assert later.counts == Counted(m, a).counts && Adds(m, later);
    assert later.events == m.events + [later.events[|m.events|]];
    forall f ensures Seen(later.counts, f) == |Choices(g, later.events, f)| {
      ChoicesMore(g, m.events, later.events[|m.events|], a, f);
    }
  }

  /** In every turn of a run the counts are how often each action was chosen before. */
  lemma {:induction false} RunCounts(g: Setting, step: nat, m: Memory, later: Memory)
    requires CountsChoices(g, m) && step == |m.events| + 1 && Comes(g, step, m, later)
    ensures CountsChoices(g, later)
    decreases if step <= g.maxSteps then g.maxSteps + 1 - step else 0
  {
    if later != m {
      TurnCounts(g, step, m);
      RunCounts(g, step + 1, TurnOf(g, step, m).memory, later);
    }
  }

  /** The run goes on with this memory after some turns. */
  predicate Comes(g: Setting, step: nat, m: Memory, later: Memory)
    decreases if step <= g.maxSteps then g.maxSteps + 1 - step else 0
  {
    || later == m
    || (step <= g.maxSteps && TurnOf(g, step, m).GoOn? && Comes(g, step + 1, TurnOf(g, step, m).memory, later))
  }

  /**
   Wherever a run has come to: an action that the model has chosen twice before leads to a
   rejection and no call, and any other tool call reaches its tool.
   */
  lemma GuardIsExact(g: Setting, m: Memory, a: AgentAction)
    requires Comes(g, 1, NO_MEMORY, m) && AutoFinish(g.text, m.events) == None
    requires g.choose(|m.events| + 1, m.events) == Some(a)
    ensures var t, before := TurnOf(g, |m.events| + 1, m), |Choices(g, m.events, Fingerprint(a))|;
      && (before >= 2 ==>
            && t.GoOn? && t.memory.calls == m.calls && |t.memory.events| == |m.events| + 1
            && t.memory.events[|m.events|].state == Rejected && t.memory.events[|m.events|].tool == a.tool)
      && (before < 2 && a.action == "tool_call" && Trim(a.tool) != "" ==>
            t.memory.calls == m.calls + [ToolCall(|m.events| + 1, a)])
  {
    assert forall f :: Choices(g, [], f) == {};
    RunCounts(g, 1, NO_MEMORY, m);
    assert Seen(m.counts, Fingerprint(a)) == |Choices(g, m.events, Fingerprint(a))|;
  }

  // ---- what reaches the tools ----------------------------------------------------------------------

  predicate IsCall(a: AgentAction, tool: string, args: string) {
    a.action == "tool_call" && Trim(a.tool) == tool && a.args == args
  }

  function CallsTo(calls: seq<ToolCall>, tool: string, args: string): set<nat> {
    set i: nat | 0 <= i < |calls| && IsCall(calls[i].action, tool, args)
  }

  function CallsWith(calls: seq<ToolCall>, f: string): set<nat> {
    set i: nat | 0 <= i < |calls| && Fingerprint(calls[i].action) == f
  }

  /** How many calls there were of one fingerprint. */
  lemma {:induction false} CallCountIs(calls: seq<ToolCall>, f: string)
    ensures CallCount(calls, f) == |CallsWith(calls, f)|
  {
    if calls == [] {
      assert CallsWith(calls, f) == {};
    } else {
      var n := |calls| - 1;
      CallCountIs(calls[..n], f);
      assert calls[..n] + [calls[n]] == calls;
      CountBoth(calls[..n], calls[n], f);
    }
  }

  lemma CountBoth(calls: seq<ToolCall>, c: ToolCall, f: string)
    requires CallCount(calls, f) == |CallsWith(calls, f)|
    ensures CallCount(calls + [c], f) == |CallsWith(calls + [c], f)|
  {
    CallCountAppend(calls, c, f);
    WithOneMore(calls, c, f);
  }

  lemma WithOneMore(calls: seq<ToolCall>, c: ToolCall, f: string)
    ensures |CallsWith(calls + [c], f)| == |CallsWith(calls, f)| + if Fingerprint(c.action) == f then 1 else 0
  {
    var more := calls + [c];
    forall i: nat
      ensures i in CallsWith(more, f) <==> i in CallsWith(calls, f) || (i == |calls| && Fingerprint(c.action) == f)
    {
      assert i < |calls| ==> more[i] == calls[i];
      assert more[|calls|] == c;
    }
    OneMore(CallsWith(calls, f), CallsWith(more, f), |calls|, Fingerprint(c.action) == f);
  }

  lemma OneMore(fewer: set<nat>, all: set<nat>, n: nat, added: bool)
    requires n !in fewer && forall i: nat :: i in all <==> i in fewer || (i == n && added)
    ensures |all| == |fewer| + if added then 1 else 0
  {
    assert all == fewer + if added then {n} else {};
  }

  lemma NoLarger(some: set<nat>, all: set<nat>)
    requires some <= all
    ensures |some| <= |all|
  {
    assert all == some + (all - some);
  }

  lemma CallsAreGuarded(calls: seq<ToolCall>, counts: map<string, nat>, tool: string, args: string)
    requires Guarded(calls, counts)
    ensures |CallsTo(calls, tool, args)| <= 2
  {
    var f := "tool:" + tool + ":" + args;
    CallCountIs(calls, f);
    assert CallCount(calls, f) <= MAX_REPEATS;
    forall i | i in CallsTo(calls, tool, args) ensures i in CallsWith(calls, f) {
      assert IsCall(calls[i].action, tool, args);
    }
    NoLarger(CallsTo(calls, tool, args), CallsWith(calls, f));
  }

  /** In a whole run no tool is called more than twice with the same arguments. */
  lemma NoThirdCall(g: Setting, tool: string, args: string)
    ensures |CallsTo(LoopFrom(g, 1, NO_MEMORY).memory.calls, tool, args)| <= 2
  {
    var last := LoopFrom(g, 1, NO_MEMORY).memory;
    NothingIsTrue(g);
    LoopIsTruthful(g, 1, NO_MEMORY);
    CallsAreGuarded(last.calls, last.counts, tool, args);
  }
}
