/**
 What the action loop (`internal/executor/generic.go`) does with a model and tools that may
 answer in any way, and what an accepted finish says about the tool calls of the run.
 */
module ActionLoops {
  import opened Options
  import opened Text
  import opened FinishGates

  const MAX_REPEATS := 2

  datatype AgentAction =
    AgentAction(action: string, tool: string, args: string, reason: string, summary: string, question: string)

  /** What a tool call leads to: an observation, how it was judged, and whether the call itself failed. */
  datatype ToolOutcome = ToolOutcome(kind: string, state: ToolState, summary: string, output: string, failed: bool)

  datatype ToolCall = ToolCall(step: nat, action: AgentAction)

  /** The model, which may give no choice, the tools, the task and the step limit. */
  datatype Setting = Setting(
    choose: (nat, seq<ActionEvent>) -> Option<AgentAction>, respond: (nat, AgentAction) -> ToolOutcome,
    text: TaskText, tools: seq<string>, maxSteps: nat)

  // ---- one turn -----------------------------------------------------------------------------

  function Fingerprint(a: AgentAction): string {
    if a.action == "tool_call" then "tool:" + Trim(a.tool) + ":" + a.args
    else if a.action == "finish" then "finish:" + Trim(a.summary)
    else if a.action == "ask_user" then "ask_user:" + Trim(a.question)
    else "action:" + Trim(a.action)
  }

  function FinishSummary(a: AgentAction): string {
    FirstNotBlank([a.summary, a.reason, "generic action loop finished"])
  }

  /** What the loop knows: the events it shows the model, how often each action was chosen, the calls it made. */
  datatype Memory = Memory(events: seq<ActionEvent>, counts: map<string, nat>, calls: seq<ToolCall>)

  const NO_MEMORY := Memory([], map[], [])

  /** A finish is the model's, through the gate, or the loop's own. */
  datatype Ending = Implements(gated: bool, summary: string) | Fails | Asks

  datatype Turn = GoOn(memory: Memory) | End(ending: Ending, memory: Memory)

  function Seen(counts: map<string, nat>, f: string): nat {
    if f in counts then counts[f] else 0
  }

  function Rejects(m: Memory, step: nat, action: string, tool: string, summary: string): Turn {
    GoOn(m.(events := m.events + [ActionEvent(step, action, tool, Rejected, summary, "")]))
  }

  function EventOf(step: nat, a: AgentAction, o: ToolOutcome): ActionEvent {
    ActionEvent(step, a.action, a.tool, o.state, o.summary, o.output)
  }

  function Called(m: Memory, step: nat, a: AgentAction, o: ToolOutcome): Memory {
    m.(events := m.events + [EventOf(step, a, o)], calls := m.calls + [ToolCall(step, a)])
  }

  function ToolTurn(g: Setting, step: nat, m: Memory, a: AgentAction): Turn {
    var o := g.respond(step, a);
    var more := Called(m, step, a, o);
    var summary := AutoFinish(g.text, more.events);
    if !o.failed && summary.Some? then End(Implements(false, summary.value), more) else GoOn(more)
  }

  /** An action that was not repeated too often is carried out. */
  function CarriedOut(g: Setting, step: nat, m: Memory, a: AgentAction): Turn {
    if a.action == "finish" then
      if EvidenceReady(g.text, g.tools, m.events) then End(Implements(true, FinishSummary(a)), m)
      else Rejects(m, step, "finish", "", FinishSummary(a))
    else if a.action == "ask_user" then End(Asks, m)
    else if a.action == "tool_call" then
      if Trim(a.tool) == "" then End(Fails, m) else ToolTurn(g, step, m, a)
    else
      Rejects(m, step, FirstNotBlank([a.action, "unknown"]), "",
              FirstNotBlank([a.reason, a.summary, "unsupported generic action"]))
  }

  function Counted(m: Memory, a: AgentAction): Memory {
    m.(counts := m.counts[Fingerprint(a) := Seen(m.counts, Fingerprint(a)) + 1])
  }

  function TurnOf(g: Setting, step: nat, m: Memory): Turn {
    var summary := AutoFinish(g.text, m.events);
    if summary.Some? then End(Implements(false, summary.value), m)
    else match g.choose(step, m.events)
      case None => End(Fails, m)
      case Some(a) =>
        if Seen(m.counts, Fingerprint(a)) >= MAX_REPEATS then
          Rejects(Counted(m, a), step, a.action, a.tool, "repeated action blocked by progress guard")
        else CarriedOut(g, step, Counted(m, a), a)
  }

  /** The turns from `step` on, until one ends the loop or the steps are used up. */
  function LoopFrom(g: Setting, step: nat, m: Memory): (t: Turn)
    ensures t.End?
    decreases if step <= g.maxSteps then g.maxSteps + 1 - step else 0
  {
    if step > g.maxSteps then End(Fails, m)
    else match TurnOf(g, step, m)
      case End(ending, last) => End(ending, last)
      case GoOn(next) => LoopFrom(g, step + 1, next)
  }

  lemma LoopGoesOn(g: Setting, step: nat, m: Memory)
    requires step <= g.maxSteps
    ensures TurnOf(g, step, m).GoOn? ==> LoopFrom(g, step, m) == LoopFrom(g, step + 1, TurnOf(g, step, m).memory)
    ensures TurnOf(g, step, m).End? ==> LoopFrom(g, step, m) == TurnOf(g, step, m)
  {
  }

  // ---- what the loop remembers is what happened ------------------------------------------------

  /** How often a call with this fingerprint reached the tools. */
  function CallCount(calls: seq<ToolCall>, fingerprint: string): nat {
    if calls == [] then 0
    else CallCount(calls[..|calls| - 1], fingerprint)
         + if Fingerprint(calls[|calls| - 1].action) == fingerprint then 1 else 0
  }

  lemma CallCountAppend(calls: seq<ToolCall>, c: ToolCall, fingerprint: string)
    ensures CallCount(calls + [c], fingerprint)
            == CallCount(calls, fingerprint) + if Fingerprint(c.action) == fingerprint then 1 else 0
  {
    assert (calls + [c])[..|calls|] == calls;
  }

  /** No call reached the tools more often than its fingerprint was counted, nor more than twice. */
  ghost predicate Guarded(calls: seq<ToolCall>, counts: map<string, nat>) {
    forall f :: CallCount(calls, f) <= MAX_REPEATS && CallCount(calls, f) <= Seen(counts, f)
  }

  lemma CallStaysGuarded(calls: seq<ToolCall>, counts: map<string, nat>, c: ToolCall)
    requires Guarded(calls, counts) && Seen(counts, Fingerprint(c.action)) < MAX_REPEATS
    ensures var counted := counts[Fingerprint(c.action) := Seen(counts, Fingerprint(c.action)) + 1];
      Guarded(calls, counted) && Guarded(calls + [c], counted)
  {
    forall f {
      CallCountAppend(calls, c, f);
    }
  }

  /** The events of tool results, in order. */
  function ToolEvents(events: seq<ActionEvent>): seq<ActionEvent> {
    if events == [] then []
    else
      var last := events[|events| - 1];
      ToolEvents(events[..|events| - 1]) + if last.state == Rejected then [] else [last]
  }

  /** The events that these calls lead to. */
  function CallEvents(g: Setting, calls: seq<ToolCall>): seq<ActionEvent> {
    if calls == [] then []
    else
      var c := calls[|calls| - 1];
      CallEvents(g, calls[..|calls| - 1]) + [EventOf(c.step, c.action, g.respond(c.step, c.action))]
  }

  /** The event was made in its step out of what the model chose when it had seen the events before. */
  predicate IsAnswer(g: Setting, before: seq<ActionEvent>, e: ActionEvent) {
    && e.step == |before| + 1
    && g.choose(e.step, before).Some?
    && var a := g.choose(e.step, before).value;
       if e.state == Rejected then e.tool == "" || e.tool == a.tool else e == EventOf(e.step, a, g.respond(e.step, a))
  }

  ghost predicate Truthful(g: Setting, m: Memory) {
    && (forall i :: 0 <= i < |m.events| ==> IsAnswer(g, m.events[..i], m.events[i]))
    && ToolEvents(m.events) == CallEvents(g, m.calls)
    && Guarded(m.calls, m.counts)
  }

  lemma RejectionIsTrue(g: Setting, m: Memory, e: ActionEvent, counts: map<string, nat>)
    requires Truthful(g, m) && e.state == Rejected && IsAnswer(g, m.events, e) && Guarded(m.calls, counts)
    ensures Truthful(g, Memory(m.events + [e], counts, m.calls))
  {
    AnswersStay(g, m.events, e);
    assert (m.events + [e])[..|m.events|] == m.events;
  }

  lemma AnswersStay(g: Setting, events: seq<ActionEvent>, e: ActionEvent)
    requires forall i :: 0 <= i < |events| ==> IsAnswer(g, events[..i], events[i])
    requires IsAnswer(g, events, e)
    ensures forall i :: 0 <= i < |events + [e]| ==> IsAnswer(g, (events + [e])[..i], (events + [e])[i])
  {
    forall i | 0 <= i < |events + [e]| ensures IsAnswer(g, (events + [e])[..i], (events + [e])[i]) {
      if i < |events| {
        assert (events + [e])[..i] == events[..i];
      } else {
        assert (events + [e])[..i] == events;
      }
    }
  }

  lemma CallIsTrue(g: Setting, m: Memory, step: nat, a: AgentAction, counts: map<string, nat>)
    requires Truthful(g, m) && step == |m.events| + 1 && g.choose(step, m.events) == Some(a)
    requires Guarded(m.calls + [ToolCall(step, a)], counts)
    ensures Truthful(g, Called(m.(counts := counts), step, a, g.respond(step, a)))
  {
    var e, c := EventOf(step, a, g.respond(step, a)), ToolCall(step, a);
    AnswersStay(g, m.events, e);
    assert (m.events + [e])[..|m.events|] == m.events && (m.calls + [c])[..|m.calls|] == m.calls;
  }

  lemma TurnStaysTrue(g: Setting, step: nat, m: Memory)
    requires Truthful(g, m) && step == |m.events| + 1
    ensures Truthful(g, TurnOf(g, step, m).memory)
    ensures TurnOf(g, step, m).GoOn? ==> |TurnOf(g, step, m).memory.events| == step
  {
    if AutoFinish(g.text, m.events) == None && g.choose(step, m.events).Some? {
      var a := g.choose(step, m.events).value;
      if Seen(m.counts, Fingerprint(a)) >= MAX_REPEATS {
        RejectionIsTrue(g, m,
            ActionEvent(step, a.action, a.tool, Rejected, "repeated action blocked by progress guard", ""),
          Counted(m, a).counts);
      } else {
        CallStaysGuarded(m.calls, m.counts, ToolCall(step, a));
        CarryingOutStaysTrue(g, step, m, a);
      }
    }
  }

  lemma CarryingOutStaysTrue(g: Setting, step: nat, m: Memory, a: AgentAction)
    requires Truthful(g, m) && step == |m.events| + 1 && g.choose(step, m.events) == Some(a)
    requires Guarded(m.calls, Counted(m, a).counts) && Guarded(m.calls + [ToolCall(step, a)], Counted(m, a).counts)
    ensures Truthful(g, CarriedOut(g, step, Counted(m, a), a).memory)
    ensures CarriedOut(g, step, Counted(m, a), a).GoOn? ==>
        |CarriedOut(g, step, Counted(m, a), a).memory.events| == step
  {
    var counts := Counted(m, a).counts;
    if a.action == "finish" {
      RejectionIsTrue(g, m, ActionEvent(step, "finish", "", Rejected, FinishSummary(a), ""), counts);
    } else if a.action == "tool_call" {
      CallIsTrue(g, m, step, a, counts);
    } else if a.action != "ask_user" {
      RejectionIsTrue(g, m, ActionEvent(step, FirstNotBlank([a.action, "unknown"]), "", Rejected,
        FirstNotBlank([a.reason, a.summary, "unsupported generic action"]), ""), counts);
    }
  }

  /**
   Every event was either a rejection or the result of exactly one call of this run, in order;
   no call was made a third time.
   */
  lemma {:induction false} LoopIsTruthful(g: Setting, step: nat, m: Memory)
    requires Truthful(g, m) && step == |m.events| + 1
    ensures Truthful(g, LoopFrom(g, step, m).memory)
    decreases if step <= g.maxSteps then g.maxSteps + 1 - step else 0
  {
    if step <= g.maxSteps {
      TurnStaysTrue(g, step, m);
      LoopGoesOn(g, step, m);
      if TurnOf(g, step, m).GoOn? {
        LoopIsTruthful(g, step + 1, TurnOf(g, step, m).memory);
      }
    }
  }

  // ---- why a task counts as implemented ------------------------------------------------------------

  /** Some call of the run had a result like this. */
  predicate CallShows(g: Setting, calls: seq<ToolCall>, f: ActionEvent -> bool) {
    exists i :: 0 <= i < |calls|
        && f(EventOf(calls[i].step, calls[i].action, g.respond(calls[i].step, calls[i].action)))
  }

  lemma {:induction false} ToolEventIsKept(events: seq<ActionEvent>, i: nat)
    requires i < |events| && events[i].state != Rejected
    ensures events[i] in ToolEvents(events)
  {
    if i < |events| - 1 {
      assert events[..|events| - 1][i] == events[i];
      ToolEventIsKept(events[..|events| - 1], i);
    }
  }

  lemma {:induction false} CallOfEvent(g: Setting, calls: seq<ToolCall>, e: ActionEvent, f: ActionEvent -> bool)
    requires e in CallEvents(g, calls) && f(e)
    ensures CallShows(g, calls, f)
  {
    var n := |calls| - 1;
    if e in CallEvents(g, calls[..n]) {
      CallOfEvent(g, calls[..n], e, f);
      var i :| 0 <= i < n && f(EventOf(calls[..n][i].step, calls[..n][i].action,
        g.respond(calls[..n][i].step, calls[..n][i].action)));
      assert calls[..n][i] == calls[i];
    } else {
      assert f(EventOf(calls[n].step, calls[n].action, g.respond(calls[n].step, calls[n].action)));
    }
  }

  /** What the events show of tool results, the calls of this run have shown. */
  lemma EventsShowCalls(g: Setting, m: Memory, f: ActionEvent -> bool)
    requires Truthful(g, m) && Any(m.events, f)
    requires forall e :: f(e) ==> e.state != Rejected
    ensures CallShows(g, m.calls, f)
  {
    var i :| 0 <= i < |m.events| && f(m.events[i]);
    ToolEventIsKept(m.events, i);
    CallOfEvent(g, m.calls, m.events[i], f);
  }

  /** A tool of this run succeeded, or for a task that is about a failing test, a test failed. */
  predicate Evidenced(g: Setting, calls: seq<ToolCall>) {
    CallShows(g, calls, GOOD_TOOL) || (NeedsDiagnostic(g.text) && CallShows(g, calls, TEST_FAILED))
  }

  /**
   What the gate asked for is not only in the events: the calls of this run have shown it.
   That a source file was read is left out; there the gate also takes an event that was rejected.
   */
  lemma GateIsEvidenced(g: Setting, m: Memory)
    requires Truthful(g, m) && EvidenceReady(g.text, g.tools, m.events)
    ensures Evidenced(g, m.calls)
    ensures g.text.passingTest ==> CallShows(g, m.calls, TEST_PASSED)
    ensures g.text.browserRead ==> CallShows(g, m.calls, BROWSED)
    ensures g.text.input ==> CallShows(g, m.calls, TYPED)
    ensures g.text.click ==> CallShows(g, m.calls, CLICKED)
    ensures g.text.wait ==> CallShows(g, m.calls, Waited(g.text.expected))
  {
    if Any(m.events, GOOD_TOOL) {
      EventsShowCalls(g, m, GOOD_TOOL);
    } else {
      EventsShowCalls(g, m, TEST_FAILED);
    }
    if g.text.passingTest {
      EventsShowCalls(g, m, TEST_PASSED);
    }
    if g.text.browserRead {
      EventsShowCalls(g, m, BROWSED);
    }
    if g.text.input {
      EventsShowCalls(g, m, TYPED);
    }
    if g.text.click {
      EventsShowCalls(g, m, CLICKED);
    }
    if g.text.wait {
      EventsShowCalls(g, m, Waited(g.text.expected));
    }
  }

  /** The automatic finish does not look at how the tests of such a task ended, nor whether they ran at all. */
  predicate TakesAnyTest(t: TaskText) {
    NeedsDiagnostic(t) && !NeedsSource(t)
  }

  lemma {:induction false} AutoFinishShows(t: TaskText, events: seq<ActionEvent>, n: nat)
    requires n <= |events| && LastFinish(t, events, n).Some?
    ensures Any(events, GOOD_TOOL) || (TakesAnyTest(t) && Any(events, TESTED))
  {
    var e := events[n - 1];
    if FinishBy(t, events, e).Some? {
      FinishByShows(t, events, e);
      if Any(events, SOURCE_READ) && !GOOD_TOOL(e) && !TakesAnyTest(t) {
        var i :| 0 <= i < |events| && SOURCE_READ(events[i]);
        assert GOOD_TOOL(events[i]);
      }
    } else {
      AutoFinishShows(t, events, n - 1);
    }
  }

  lemma FinishByShows(t: TaskText, events: seq<ActionEvent>, e: ActionEvent)
    requires FinishBy(t, events, e).Some?
    ensures GOOD_TOOL(e) || (TESTED(e) && NeedsDiagnostic(t) && (NeedsSource(t) ==> Any(events, SOURCE_READ)))
  {
    assert BROWSED(e) ==> e.tool != "";
    assert SOURCE_READ(e) ==> e.tool != "";
  }

  /** An action is only rejected as a repetition from the third turn on. */
  ghost predicate RepeatsAreLate(m: Memory) {
    && (forall f :: Seen(m.counts, f) <= |m.events|)
    && (forall i :: 0 <= i < |m.events| && m.events[i].state == Rejected && m.events[i].tool != "" ==> i >= MAX_REPEATS)
  }

  /** A turn adds an event at the end, or none. */
  predicate Adds(m: Memory, more: Memory) {
    |more.events| == |m.events| + 1 && more.events[..|m.events|] == m.events
  }

  lemma CarryingOutAdds(g: Setting, step: nat, m: Memory, a: AgentAction)
    ensures var t := CarriedOut(g, step, m, a);
      && t.memory.counts == m.counts
      && (t.GoOn? ==> Adds(m, t.memory))
      && (t.memory.events == m.events
          || (Adds(m, t.memory)
              && (t.memory.events[|m.events|].state == Rejected ==> t.GoOn? && t.memory.events[|m.events|].tool == "")))
  {
  }

  lemma RepeatsStayLate(g: Setting, step: nat, m: Memory)
    requires RepeatsAreLate(m) && TurnOf(g, step, m).GoOn?
    ensures RepeatsAreLate(TurnOf(g, step, m).memory)
  {
    var a, later := g.choose(step, m.events).value, TurnOf(g, step, m).memory;
    CarryingOutAdds(g, step, Counted(m, a), a);
    assert later.counts == Counted(m, a).counts && Adds(m, later);
    OneMoreIsLate(m, later, a);
  }

  lemma OneMoreIsLate(m: Memory, later: Memory, a: AgentAction)
    requires RepeatsAreLate(m) && Adds(m, later) && later.counts == Counted(m, a).counts
    requires later.events[|m.events|].state == Rejected && later.events[|m.events|].tool != "" ==>
               Seen(m.counts, Fingerprint(a)) >= MAX_REPEATS
    ensures RepeatsAreLate(later)
  {
    forall f ensures Seen(later.counts, f) <= |later.events| {
      assert Seen(m.counts, f) <= |m.events|;
    }
    assert Seen(m.counts, Fingerprint(a)) <= |m.events|;
    forall i | 0 <= i < |later.events| && later.events[i].state == Rejected && later.events[i].tool != ""
      ensures i >= MAX_REPEATS
    {
      assert i < |m.events| ==> later.events[i] == later.events[..|m.events|][i] == m.events[i];
    }
  }

  /** How a turn that implements the task ends. */
  lemma ImplementingTurn(g: Setting, step: nat, m: Memory)
    requires TurnOf(g, step, m).End? && TurnOf(g, step, m).ending.Implements?
    ensures var t := TurnOf(g, step, m);
      && (if t.ending.gated then EvidenceReady(g.text, g.tools, t.memory.events)
          else AutoFinish(g.text, t.memory.events).Some?)
      && (t.memory.events == m.events
          || (Adds(m, t.memory) && t.memory.events[|m.events|].state != Rejected))
  {
    if AutoFinish(g.text, m.events) == None {
      var a := g.choose(step, m.events).value;
      CarryingOutAdds(g, step, Counted(m, a), a);
    }
  }

  lemma TurnIsEvidenced(g: Setting, step: nat, m: Memory)
    requires Truthful(g, m) && RepeatsAreLate(m) && step == |m.events| + 1
    requires TurnOf(g, step, m).End? && TurnOf(g, step, m).ending.Implements?
    requires TakesAnyTest(g.text) ==> step <= MAX_REPEATS + 1
    ensures Evidenced(g, TurnOf(g, step, m).memory.calls)
  {
    var last := TurnOf(g, step, m).memory;
    TurnStaysTrue(g, step, m);
    ImplementingTurn(g, step, m);
    if TurnOf(g, step, m).ending.gated {
      GateIsEvidenced(g, last);
    } else {
      AutoFinishIsEvidenced(g, m, last);
    }
  }

  lemma AutoFinishIsEvidenced(g: Setting, m: Memory, last: Memory)
    requires Truthful(g, last) && RepeatsAreLate(m) && AutoFinish(g.text, last.events).Some?
    requires last.events == m.events || (Adds(m, last) && last.events[|m.events|].state != Rejected)
    requires TakesAnyTest(g.text) ==> |m.events| <= MAX_REPEATS
    ensures Evidenced(g, last.calls)
  {
    AutoFinishShows(g.text, last.events, |last.events|);
    if Any(last.events, GOOD_TOOL) {
      EventsShowCalls(g, last, GOOD_TOOL);
    } else {
      EarlyTestRan(g, m, last);
    }
  }

  /** Within three turns an event of a test is the result of a call. */
  lemma EarlyTestRan(g: Setting, m: Memory, last: Memory)
    requires Truthful(g, last) && RepeatsAreLate(m) && |m.events| <= MAX_REPEATS
    requires last.events == m.events || (Adds(m, last) && last.events[|m.events|].state != Rejected)
    requires NeedsDiagnostic(g.text) && Any(last.events, TESTED) && !Any(last.events, GOOD_TOOL)
    ensures Evidenced(g, last.calls)
  {
    var i :| 0 <= i < |last.events| && TESTED(last.events[i]);
    assert last.events[i].state != Rejected by {
      assert i < |m.events| ==> last.events[i] == m.events[i];
    }
    assert !GOOD_TOOL(last.events[i]);
    assert TEST_FAILED(last.events[i]);
    EventsShowCalls(g, last, TEST_FAILED);
  }

  lemma {:induction false} LoopIsEvidenced(g: Setting, step: nat, m: Memory)
    requires Truthful(g, m) && RepeatsAreLate(m) && step == |m.events| + 1
    requires TakesAnyTest(g.text) ==> g.maxSteps <= MAX_REPEATS + 1
    requires LoopFrom(g, step, m).ending.Implements?
    ensures Evidenced(g, LoopFrom(g, step, m).memory.calls)
    decreases if step <= g.maxSteps then g.maxSteps + 1 - step else 0
  {
    if TurnOf(g, step, m).End? {
      TurnIsEvidenced(g, step, m);
    } else {
      TurnStaysTrue(g, step, m);
      RepeatsStayLate(g, step, m);
      LoopIsEvidenced(g, step + 1, TurnOf(g, step, m).memory);
    }
  }

  // ---- finishing without a call ------------------------------------------------------------------------

  function AlwaysFinish(step: nat, events: seq<ActionEvent>): Option<AgentAction> {
    Some(AgentAction("finish", TEST, "", "", "done", ""))
  }

  predicate OnlyRejections(events: seq<ActionEvent>) {
    forall i :: 0 <= i < |events| ==> events[i].state == Rejected && events[i].tool == ""
  }

  lemma RejectionsShowNothing(t: TaskText, tools: seq<string>, events: seq<ActionEvent>)
    requires OnlyRejections(events)
    ensures AutoFinish(t, events) == None && !EvidenceReady(t, tools, events)
  {
    if AutoFinish(t, events).Some? {
      AutoFinishShows(t, events, |events|);
    }
  }

  /** A blocked repetition that only names the test tool finishes such a task. */
  lemma BlockedTestFinishes(t: TaskText, events: seq<ActionEvent>)
    requires TakesAnyTest(t) && events != [] && events[|events| - 1].tool == TEST
    requires events[|events| - 1].state == Rejected
    ensures AutoFinish(t, events).Some?
  {
  }

  lemma EarlyFinishIsRejected(g: Setting, step: nat, m: Memory)
    requires g.choose == AlwaysFinish && OnlyRejections(m.events) && m.calls == []
    ensures var t := TurnOf(g, step, m);
      && t.GoOn? && t.memory.calls == [] && |t.memory.events| == |m.events| + 1
      && Seen(t.memory.counts, "finish:" + Trim("done")) == Seen(m.counts, "finish:" + Trim("done")) + 1
      && t.memory.events[..|m.events|] == m.events
      && t.memory.events[|m.events|].state == Rejected
      && t.memory.events[|m.events|].tool
         == if Seen(m.counts, "finish:" + Trim("done")) >= MAX_REPEATS then TEST else ""
  {
    RejectionsShowNothing(g.text, g.tools, m.events);
  }

  /**
   A model that says three times that it is finished, and names the test tool, gets such a
   task through without a call.
   */
  lemma FinishedWithoutCall(g: Setting)
    requires TakesAnyTest(g.text) && g.maxSteps > MAX_REPEATS + 1 && g.choose == AlwaysFinish
    ensures LoopFrom(g, 1, NO_MEMORY).ending.Implements? && LoopFrom(g, 1, NO_MEMORY).memory.calls == []
  {
    EarlyFinishIsRejected(g, 1, NO_MEMORY);
    var m1 := TurnOf(g, 1, NO_MEMORY).memory;
    EarlyFinishIsRejected(g, 2, m1);
    FinishedByThird(g, TurnOf(g, 2, m1).memory);
    assert LoopFrom(g, 2, m1) == LoopFrom(g, 3, TurnOf(g, 2, m1).memory);
  }

  lemma FinishedByThird(g: Setting, m: Memory)
    requires TakesAnyTest(g.text) && g.maxSteps > MAX_REPEATS + 1 && g.choose == AlwaysFinish
    requires OnlyRejections(m.events) && m.calls == [] && Seen(m.counts, "finish:" + Trim("done")) >= MAX_REPEATS
    ensures LoopFrom(g, 3, m).ending.Implements? && LoopFrom(g, 3, m).memory.calls == []
  {
    EarlyFinishIsRejected(g, 3, m);
    var last := TurnOf(g, 3, m).memory;
    BlockedTestFinishes(g.text, last.events);
    assert TurnOf(g, 4, last).End? && TurnOf(g, 4, last).memory == last;
    assert LoopFrom(g, 4, last) == TurnOf(g, 4, last);
  }

  /** Whatever the loop comes to, an implemented task has evidence from the calls of this run. */
  predicate FinishesEvidenced(g: Setting) {
    var end := LoopFrom(g, 1, NO_MEMORY);
    end.ending.Implements? ==> Evidenced(g, end.memory.calls)
  }

  lemma NothingIsTrue(g: Setting)
    ensures Truthful(g, NO_MEMORY) && RepeatsAreLate(NO_MEMORY)
  {
  }

  /**
   Whatever the model chooses, a task is implemented only with evidence from the calls of the
   run: exactly for the tasks that do not take any test, or when three turns are all there are.
   */
  lemma FinishIsEvidencedIff(respond: (nat, AgentAction) -> ToolOutcome, text: TaskText, tools: seq<string>,
          maxSteps: nat)
    ensures (forall choose :: FinishesEvidenced(Setting(choose, respond, text, tools, maxSteps))) <==>
            !(TakesAnyTest(text) && maxSteps > MAX_REPEATS + 1)
  {
    if TakesAnyTest(text) && maxSteps > MAX_REPEATS + 1 {
      var g := Setting(AlwaysFinish, respond, text, tools, maxSteps);
      FinishedWithoutCall(g);
      assert !FinishesEvidenced(g);
    } else {
      forall choose ensures FinishesEvidenced(Setting(choose, respond, text, tools, maxSteps)) {
        var g := Setting(choose, respond, text, tools, maxSteps);
        NothingIsTrue(g);
        if LoopFrom(g, 1, NO_MEMORY).ending.Implements? {
          LoopIsEvidenced(g, 1, NO_MEMORY);
        }
      }
    }
  }
}
