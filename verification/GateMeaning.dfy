/**
 What the finish gate and the automatic finish ask for (`internal/executor/task_heuristics.go`),
 said of the tool calls of a run: which tools were called, and how their results were judged.
 */
module GateMeaning {
  import opened Options
  import opened Text
  import opened FinishGates
  import opened ActionLoops

  // ---- calls of a run ------------------------------------------------------------------------

  /** Some call went to one of these tools and was judged like this. */
  predicate WasCalled(g: Setting, calls: seq<ToolCall>, tools: set<string>, states: set<EventState>) {
    exists i :: 0 <= i < |calls| && calls[i].action.tool in tools
                && g.respond(calls[i].step, calls[i].action).state in states
  }

  const GOOD: set<EventState> := {Succeeded, Changed, Verified, Observed}
  const DONE_WELL: set<EventState> := {Succeeded, Changed, Verified}

  predicate AnyGood(g: Setting, calls: seq<ToolCall>) {
    exists i :: 0 <= i < |calls| && calls[i].action.tool != ""
                && g.respond(calls[i].step, calls[i].action).state in GOOD
  }

  predicate Browsed(g: Setting, calls: seq<ToolCall>) {
    exists i :: 0 <= i < |calls| && "browser." <= calls[i].action.tool
                && g.respond(calls[i].step, calls[i].action).state == Observed
  }

  predicate Researched(g: Setting, calls: seq<ToolCall>) {
    exists i :: 0 <= i < |calls| && g.respond(calls[i].step, calls[i].action).state in GOOD
                && Trim(calls[i].action.tool) in {"code.index", "code.search", "code.symbols", "file.read",
                     "browser.open", "browser.extract", "browser.dom_summary", "git.status", "git.diff"}
  }

  /** A browser tool waited, or showed the expected text. */
  ghost predicate SawIt(g: Setting, calls: seq<ToolCall>, expected: string) {
    exists i :: 0 <= i < |calls| && "browser." <= calls[i].action.tool
                && g.respond(calls[i].step, calls[i].action).state in GOOD
                && (calls[i].action.tool == "browser.wait"
                    || (expected != "" && Holds(g.respond(calls[i].step, calls[i].action).output, expected)))
  }

  ghost predicate Holds(text: string, part: string) {
    exists before, after :: text == before + part + after
  }

  /** Whether an event names the tool, one of a rejected action included. */
  predicate Named(events: seq<ActionEvent>, tool: string) {
    exists i :: 0 <= i < |events| && events[i].tool == tool
  }

  // ---- tools that a task names -------------------------------------------------------------------

  /** The tool has this name, or ends in it after a dot. */
  ghost predicate HasName(tool: string, token: string) {
    tool == token || exists front :: tool == front + "." + token
  }

  /** The token stands for the first of the tools that has this name. */
  ghost predicate StandsFor(tools: seq<string>, token: string, tool: string) {
    exists j :: 0 <= j < |tools| && tools[j] == tool && HasName(tool, token)
                && forall k :: 0 <= k < j ==> !HasName(tools[k], token)
  }

  // ---- the gate ----------------------------------------------------------------------------------

  /**
   All the evidence a task needs. A good result of any tool, or the failed test it is to
   diagnose; what its text asks for in particular; and unless it passes as research, each tool
   it names must have been called well. Only for the source file, and for the test that is to
   be diagnosed, it is enough that an event names the tool.
   */
  ghost predicate AllShown(g: Setting, m: Memory) {
    var t, diagnostic := g.text, g.text.diagnostic && !g.text.passingTest;
    && (AnyGood(g, m.calls) || (diagnostic && WasCalled(g, m.calls, {"test.run"}, {ToolFailed})))
    && (t.passingTest ==> WasCalled(g, m.calls, {"test.run"}, {Verified}))
    && (diagnostic ==> Named(m.events, "test.run"))
    && (t.browserRead ==> Browsed(g, m.calls))
    && (t.input ==> WasCalled(g, m.calls, {"browser.input", "browser.type"}, GOOD))
    && (t.click ==> WasCalled(g, m.calls, {"browser.click"}, GOOD))
    && (t.wait ==> SawIt(g, m.calls, t.expected))
    && ((t.research && Researched(g, m.calls))
        || ((t.sourceRead && !t.browserRead ==> Named(m.events, "file.read")) && AllNamedCalled(g, m.calls)))
  }

  ghost predicate AllNamedCalled(g: Setting, calls: seq<ToolCall>) {
    forall k, tool :: 0 <= k < |g.text.named| && StandsFor(g.tools, g.text.named[k], tool) && tool != "" ==>
      WasCalled(g, calls, {tool, g.text.named[k]}, DONE_WELL)
  }

  // ---- events and calls ------------------------------------------------------------------------------

  lemma {:induction false} CallEventAt(g: Setting, calls: seq<ToolCall>, i: nat)
    requires i < |calls|
    ensures EventOf(calls[i].step, calls[i].action, g.respond(calls[i].step, calls[i].action)) in CallEvents(g, calls)
  {
    if i < |calls| - 1 {
      assert calls[..|calls| - 1][i] == calls[i];
      CallEventAt(g, calls[..|calls| - 1], i);
    }
  }

  lemma {:induction false} ToolEventsAreEvents(events: seq<ActionEvent>)
    ensures forall e :: e in ToolEvents(events) ==> e in events
  {
    if events != [] {
      ToolEventsAreEvents(events[..|events| - 1]);
    }
  }

  /** What the events show of results, the calls show, and nothing else. */
  lemma ShownIff(g: Setting, m: Memory, f: ActionEvent -> bool)
    requires Truthful(g, m) && forall e :: f(e) ==> e.state != Rejected
    ensures Any(m.events, f) <==> CallShows(g, m.calls, f)
  {
    if Any(m.events, f) {
      EventsShowCalls(g, m, f);
    }
    if CallShows(g, m.calls, f) {
      var i :| 0 <= i < |m.calls|
               && f(EventOf(m.calls[i].step, m.calls[i].action, g.respond(m.calls[i].step, m.calls[i].action)));
      CallEventAt(g, m.calls, i);
      ToolEventsAreEvents(m.events);
      var e := EventOf(m.calls[i].step, m.calls[i].action, g.respond(m.calls[i].step, m.calls[i].action));
      var j :| 0 <= j < |m.events| && m.events[j] == e;
      assert f(m.events[j]);
    }
  }

  lemma HoldsIs(text: string, part: string)
    ensures Contains(text, part) <==> Holds(text, part)
  {
    if Contains(text, part) {
      var i :| 0 <= i <= |text| && part <= text[i..];
      HoldsAt(text, part, i);
    }
    if Holds(text, part) {
      var before, after :| text == before + part + after;
      ContainsAfter(text, before, part, after);
    }
  }

  lemma HoldsAt(text: string, part: string, i: nat)
    requires i <= |text| && part <= text[i..]
    ensures Holds(text, part)
  {
    var rest := text[i..];
    assert rest == part + rest[|part|..] && text == text[..i] + rest;
    assert text == text[..i] + part + rest[|part|..];
  }

  lemma ContainsAfter(text: string, before: string, part: string, after: string)
    requires text == before + part + after
    ensures Contains(text, part)
  {
    assert text[|before|..] == part + after;
  }

  lemma HasNameIs(tool: string, token: string)
    ensures IsNamed(tool, token) <==> HasName(tool, token)
  {
    if EndsWith(tool, "." + token) {
      assert tool == tool[..|tool| - |"." + token|] + "." + token;
    }
    if front :| tool == front + "." + token {
      assert tool[|front|..] == "." + token;
    }
  }

  lemma {:induction false} FirstNamed(tools: seq<string>, token: string, tool: string)
    ensures ToolNamed(tools, token) == Some(tool) <==> StandsFor(tools, token, tool)
  {
    if tools != [] {
      HasNameIs(tools[0], token);
      var rest := tools[1..];
      FirstNamed(rest, token, tool);
      if !IsNamed(tools[0], token) {
        if StandsFor(rest, token, tool) {
          var j :| 0 <= j < |rest| && rest[j] == tool && HasName(tool, token)
                   && forall k :: 0 <= k < j ==> !HasName(rest[k], token);
          assert tools[j + 1] == tool;
          assert forall k :: 0 < k < j + 1 ==> tools[k] == rest[k - 1];
        }
        if StandsFor(tools, token, tool) {
          var j :| 0 <= j < |tools| && tools[j] == tool && HasName(tool, token)
                   && forall k :: 0 <= k < j ==> !HasName(tools[k], token);
          assert rest[j - 1] == tool;
          assert forall k :: 0 <= k < j - 1 ==> rest[k] == tools[k + 1];
        }
      }
    }
  }

  // ---- the gate is exact -----------------------------------------------------------------------------

  lemma WaitedIs(g: Setting, m: Memory)
    requires Truthful(g, m)
    ensures Any(m.events, Waited(g.text.expected)) <==> SawIt(g, m.calls, g.text.expected)
  {
    ShownIff(g, m, Waited(g.text.expected));
    forall i | 0 <= i < |m.calls|
      ensures Contains(g.respond(m.calls[i].step, m.calls[i].action).output, g.text.expected)
          <==> Holds(g.respond(m.calls[i].step, m.calls[i].action).output, g.text.expected)
    {
      HoldsIs(g.respond(m.calls[i].step, m.calls[i].action).output, g.text.expected);
    }
  }

  lemma NamedToolIs(g: Setting, m: Memory, token: string)
    requires Truthful(g, m)
    ensures Uncalled(g.tools, m.events, token) <==>
            exists tool :: StandsFor(g.tools, token, tool) && tool != ""
                           && !WasCalled(g, m.calls, {tool, token}, DONE_WELL)
  {
    var named := ToolNamed(g.tools, token);
    forall tool ensures named == Some(tool) <==> StandsFor(g.tools, token, tool) {
      FirstNamed(g.tools, token, tool);
    }
    if named.Some? {
      ShownIff(g, m, CalledWell(named.value));
      ShownIff(g, m, CalledWell(token));
    }
  }

  lemma AllNamedIs(g: Setting, m: Memory)
    requires Truthful(g, m)
    ensures NamedToolsCalled(g.text, g.tools, m.events) <==> AllNamedCalled(g, m.calls)
  {
    forall k | 0 <= k < |g.text.named|
      ensures Uncalled(g.tools, m.events, g.text.named[k]) <==>
              exists tool :: StandsFor(g.tools, g.text.named[k], tool) && tool != ""
                             && !WasCalled(g, m.calls, {tool, g.text.named[k]}, DONE_WELL)
    {
      NamedToolIs(g, m, g.text.named[k]);
    }
  }

  lemma CalledIs(g: Setting, m: Memory, f: ActionEvent -> bool, tools: set<string>, states: set<EventState>)
    requires Truthful(g, m) && Rejected !in states
    requires forall e :: f(e) <==> e.tool in tools && e.state in states
    ensures Any(m.events, f) <==> WasCalled(g, m.calls, tools, states)
  {
    ShownIff(g, m, f);
  }

  lemma GoodIs(g: Setting, m: Memory)
    requires Truthful(g, m)
    ensures Any(m.events, GOOD_TOOL) <==> AnyGood(g, m.calls)
    ensures Any(m.events, RESEARCHED) <==> Researched(g, m.calls)
  {
    ShownIff(g, m, GOOD_TOOL);
    ShownIff(g, m, RESEARCHED);
  }

  lemma NamedIs(g: Setting, m: Memory)
    requires Truthful(g, m)
    ensures Any(m.events, BROWSED) <==> Browsed(g, m.calls)
    ensures Any(m.events, TESTED) <==> Named(m.events, "test.run")
    ensures Any(m.events, SOURCE_NAMED) <==> Named(m.events, "file.read")
  {
    ShownIff(g, m, BROWSED);
  }

  lemma TestsAre(g: Setting, m: Memory)
    requires Truthful(g, m)
    ensures Any(m.events, TEST_PASSED) <==> WasCalled(g, m.calls, {"test.run"}, {Verified})
    ensures Any(m.events, TEST_FAILED) <==> WasCalled(g, m.calls, {"test.run"}, {ToolFailed})
  {
    CalledIs(g, m, TEST_PASSED, {"test.run"}, {Verified});
    CalledIs(g, m, TEST_FAILED, {"test.run"}, {ToolFailed});
  }

  lemma InteractionsAre(g: Setting, m: Memory)
    requires Truthful(g, m)
    ensures !InteractionMissing(g.text, m.events) <==>
              && (g.text.input ==> WasCalled(g, m.calls, {"browser.input", "browser.type"}, GOOD))
              && (g.text.click ==> WasCalled(g, m.calls, {"browser.click"}, GOOD))
              && (g.text.wait ==> SawIt(g, m.calls, g.text.expected))
  {
    CalledIs(g, m, TYPED, {"browser.input", "browser.type"}, GOOD);
    CalledIs(g, m, CLICKED, {"browser.click"}, GOOD);
    WaitedIs(g, m);
  }

  /** The gate accepts exactly where the calls of the run have shown all the evidence. */
  lemma GateIsExact(g: Setting, m: Memory)
    requires Truthful(g, m)
    ensures EvidenceReady(g.text, g.tools, m.events) <==> AllShown(g, m)
  {
    GoodIs(g, m);
    NamedIs(g, m);
    TestsAre(g, m);
    InteractionsAre(g, m);
    AllNamedIs(g, m);
  }

  /**
   An accepted finish that does not pass as research has a call of this run, with a good
   result, to each tool that the task names.
   */
  lemma NamedToolsWereCalled(g: Setting, m: Memory, k: nat, j: nat)
    requires Truthful(g, m) && EvidenceReady(g.text, g.tools, m.events)
    requires k < |g.text.named| && j < |g.tools| && g.tools[j] != "" && HasName(g.tools[j], g.text.named[k])
    requires forall i :: 0 <= i < j ==> !HasName(g.tools[i], g.text.named[k])
    requires !g.text.research || !Researched(g, m.calls)
    ensures exists i :: 0 <= i < |m.calls|
                        && (m.calls[i].action.tool == g.tools[j] || m.calls[i].action.tool == g.text.named[k])
                        && g.respond(m.calls[i].step, m.calls[i].action).state in {Succeeded, Changed, Verified}
  {
    GateIsExact(g, m);
    assert StandsFor(g.tools, g.text.named[k], g.tools[j]);
    assert WasCalled(g, m.calls, {g.tools[j], g.text.named[k]}, DONE_WELL);
  }

  /** A finish that the model asks for in time is accepted exactly where all the evidence was shown. */
  lemma FinishIsAcceptedIff(g: Setting, step: nat, m: Memory, a: AgentAction)
    requires Truthful(g, m) && AutoFinish(g.text, m.events) == None
    requires g.choose(step, m.events) == Some(a) && a.action == "finish" && Seen(m.counts, Fingerprint(a)) < MAX_REPEATS
    ensures AllShown(g, m) ==>
              TurnOf(g, step, m).End? && TurnOf(g, step, m).ending == Implements(true, FinishSummary(a))
    ensures !AllShown(g, m) ==> TurnOf(g, step, m).GoOn? && TurnOf(g, step, m).memory.calls == m.calls
  {
    GateIsExact(g, m);
  }

  /** Whatever the model and the tools do, a run that ends with an accepted finish has shown all the evidence. */
  lemma AcceptedFinishIsShown(g: Setting)
    requires LoopFrom(g, 1, NO_MEMORY).ending.Implements? && LoopFrom(g, 1, NO_MEMORY).ending.gated
    ensures AllShown(g, LoopFrom(g, 1, NO_MEMORY).memory)
  {
    NothingIsTrue(g);
    GatedEnding(g, 1, NO_MEMORY);
    LoopIsTruthful(g, 1, NO_MEMORY);
    GateIsExact(g, LoopFrom(g, 1, NO_MEMORY).memory);
  }

  lemma {:induction false} GatedEnding(g: Setting, step: nat, m: Memory)
    requires step <= g.maxSteps && LoopFrom(g, step, m).ending.Implements? && LoopFrom(g, step, m).ending.gated
    ensures EvidenceReady(g.text, g.tools, LoopFrom(g, step, m).memory.events)
    decreases if step <= g.maxSteps then g.maxSteps + 1 - step else 0
  {
    LoopGoesOn(g, step, m);
    if TurnOf(g, step, m).End? {
      ImplementingTurn(g, step, m);
    } else {
      GatedEnding(g, step + 1, TurnOf(g, step, m).memory);
    }
  }

  // ---- the automatic finish --------------------------------------------------------------------------

  /** What finishes a task by itself. */
  ghost predicate FinishesItself(g: Setting, m: Memory) {
    var t, calls := g.text, m.calls;
    || (t.browserRead && !t.generated && Browsed(g, calls)
        && (t.input ==> WasCalled(g, calls, {"browser.input", "browser.type"}, GOOD))
        && (t.click ==> WasCalled(g, calls, {"browser.click"}, GOOD))
        && (t.wait ==> SawIt(g, calls, t.expected)))
    || (t.readOnly && !(t.passingTest || t.diagnostic || t.codeChange || t.mechanical || t.generated || t.browserRead)
        && WasCalled(g, calls, {"file.read"}, {Succeeded}))
    || (t.report && !(t.input || t.click || t.wait)
        && WasCalled(g, calls, {"file.read"}, {Succeeded}) && Browsed(g, calls))
    || (t.generated && WasCalled(g, calls, {"file.write", "document.write", "artifact.write"}, {Changed}))
    || (t.codeChange && !t.passingTest && !t.mechanical && WasCalled(g, calls, {"file.patch", "file.write"}, {Changed}))
    || (t.passingTest && WasCalled(g, calls, {"test.run"}, {Verified}))
    || (t.diagnostic && !t.passingTest && Named(m.events, "test.run")
        && (t.sourceRead && !t.browserRead ==> WasCalled(g, calls, {"file.read"}, {Succeeded})))
  }

  const WRITTEN: ActionEvent -> bool :=
    (e: ActionEvent) => e.tool in {"file.write", "document.write", "artifact.write"} && e.state == Changed

  const PATCHED: ActionEvent -> bool :=
    (e: ActionEvent) => e.tool in {"file.patch", "file.write"} && e.state == Changed

  lemma {:induction false} LastFinishIs(t: TaskText, events: seq<ActionEvent>, n: nat)
    requires n <= |events|
    ensures LastFinish(t, events, n).Some? <==> exists i :: 0 <= i < n && FinishBy(t, events, events[i]).Some?
  {
    if n > 0 {
      LastFinishIs(t, events, n - 1);
    }
  }

  /** The last event that finishes the task decides what is said. */
  lemma {:induction false} LastOneDecides(t: TaskText, events: seq<ActionEvent>, n: nat, i: nat)
    requires i < n <= |events| && FinishBy(t, events, events[i]).Some?
    requires forall k :: i < k < n ==> FinishBy(t, events, events[k]) == None
    ensures LastFinish(t, events, n) == FinishBy(t, events, events[i])
  {
    if i < n - 1 {
      LastOneDecides(t, events, n - 1, i);
    }
  }

  /** The events that finish a task by themselves. */
  predicate Finishes(t: TaskText, events: seq<ActionEvent>, e: ActionEvent) {
    || (t.browserRead && !t.generated && !InteractionMissing(t, events) && BROWSED(e))
    || (NeedsReadOnly(t) && SOURCE_READ(e))
    || (NeedsReport(t) && Any(events, BROWSED) && SOURCE_READ(e))
    || (t.generated && WRITTEN(e))
    || (t.codeChange && !t.passingTest && !t.mechanical && PATCHED(e))
    || (t.passingTest && TEST_PASSED(e))
    || (NeedsDiagnostic(t) && (NeedsSource(t) ==> Any(events, SOURCE_READ)) && TESTED(e))
  }

  lemma FinishesIs(t: TaskText, events: seq<ActionEvent>, i: nat)
    requires i < |events|
    ensures FinishBy(t, events, events[i]).Some? <==> Finishes(t, events, events[i])
  {
    ReadIsNoTest();
  }

  lemma ReadIsNoTest()
    ensures "file.read" != "test.run" && !IsBrowser("test.run") && !IsBrowser("file.read")
    ensures "test.run" !in {"file.write", "document.write", "artifact.write", "file.patch"}
  {
    assert "file.read"[0] == 'f' && "test.run"[0] == 't' && "browser."[0] == 'b';
    assert "file.write"[0] == 'f' && "document.write"[0] == 'd' && "artifact.write"[0] == 'a' && "file.patch"[0] == 'f';
  }

  lemma FinishingEvents(t: TaskText, events: seq<ActionEvent>)
    ensures AutoFinish(t, events).Some? <==>
              || (t.browserRead && !t.generated && !InteractionMissing(t, events) && Any(events, BROWSED))
              || (NeedsReadOnly(t) && Any(events, SOURCE_READ))
              || (NeedsReport(t) && Any(events, BROWSED) && Any(events, SOURCE_READ))
              || (t.generated && Any(events, WRITTEN))
              || (t.codeChange && !t.passingTest && !t.mechanical && Any(events, PATCHED))
              || (t.passingTest && Any(events, TEST_PASSED))
              || (NeedsDiagnostic(t) && (NeedsSource(t) ==> Any(events, SOURCE_READ)) && Any(events, TESTED))
  {
    LastFinishIs(t, events, |events|);
    forall i | 0 <= i < |events| ensures FinishBy(t, events, events[i]).Some? <==> Finishes(t, events, events[i]) {
      FinishesIs(t, events, i);
    }
  }

  /** A task finishes by itself exactly where the calls of the run have shown one of these. */
  lemma AutoFinishIsExact(g: Setting, m: Memory)
    requires Truthful(g, m)
    ensures AutoFinish(g.text, m.events).Some? <==> FinishesItself(g, m)
  {
    FinishingEvents(g.text, m.events);
    NamedIs(g, m);
    TestsAre(g, m);
    InteractionsAre(g, m);
    CalledIs(g, m, SOURCE_READ, {"file.read"}, {Succeeded});
    CalledIs(g, m, WRITTEN, {"file.write", "document.write", "artifact.write"}, {Changed});
    CalledIs(g, m, PATCHED, {"file.patch", "file.write"}, {Changed});
  }

  /**
   A tool call that the model asks for in time reaches its tool, and its result is the next
   event. It ends the run exactly where it did not fail and the calls have now shown something
   that finishes the task by itself.
   */
  lemma CallIsExact(g: Setting, step: nat, m: Memory, a: AgentAction)
    requires Truthful(g, m) && step == |m.events| + 1 && AutoFinish(g.text, m.events) == None
    requires g.choose(step, m.events) == Some(a) && a.action == "tool_call" && Trim(a.tool) != ""
    requires Seen(m.counts, Fingerprint(a)) < MAX_REPEATS
    ensures var t, o := TurnOf(g, step, m), g.respond(step, a);
      && t.memory.calls == m.calls + [ToolCall(step, a)]
      && t.memory.events == m.events + [ActionEvent(step, "tool_call", a.tool, o.state, o.summary, o.output)]
      && (t.End? <==> !o.failed && FinishesItself(g, t.memory))
      && (t.End? ==> t.ending.Implements? && !t.ending.gated)
  {
    TurnStaysTrue(g, step, m);
    AutoFinishIsExact(g, TurnOf(g, step, m).memory);
  }

  /** What every other choice leads to, in a turn in which nothing finishes the task by itself. */
  lemma OtherChoices(g: Setting, step: nat, m: Memory)
    requires Truthful(g, m) && !FinishesItself(g, m)
    requires g.choose(step, m.events).Some? ==>
               Seen(m.counts, Fingerprint(g.choose(step, m.events).value)) < MAX_REPEATS
    ensures var t, c := TurnOf(g, step, m), g.choose(step, m.events);
      && (c == None ==> t == End(Fails, m))
      && (c.Some? && c.value.action == "ask_user" ==> t.End? && t.ending == Asks && t.memory.calls == m.calls)
      && (c.Some? && c.value.action == "tool_call" && Trim(c.value.tool) == "" ==>
            t.End? && t.ending == Fails && t.memory.calls == m.calls)
      && (c.Some? && c.value.action !in {"finish", "ask_user", "tool_call"} ==>
            && t.GoOn? && t.memory.calls == m.calls && |t.memory.events| == |m.events| + 1
            && t.memory.events[|m.events|].state == Rejected && t.memory.events[|m.events|].tool == "")
  {
    AutoFinishIsExact(g, m);
  }

  // ---- how a run ends --------------------------------------------------------------------------------

  /** What the run's last turn was. */
  ghost predicate EndsBy(g: Setting, end: Turn)
    requires end.End?
  {
    var events := end.memory.events;
    var chosen := g.choose(|events| + 1, events);
    match end.ending
    case Asks => chosen.Some? && chosen.value.action == "ask_user"
    case Fails =>
      || |events| == g.maxSteps
      || chosen == None
      || (chosen.value.action == "tool_call" && Trim(chosen.value.tool) == "")
    case Implements(true, summary) => chosen.Some? && chosen.value.action == "finish" && Says(chosen.value, summary)
    case Implements(false, summary) => FinishesItself(g, end.memory)
  }

  /** What a finish says: its summary, or else its reason, or else a standard sentence. */
  predicate Says(a: AgentAction, summary: string) {
    summary == if Trim(a.summary) != "" then Trim(a.summary)
               else if Trim(a.reason) != "" then Trim(a.reason)
               else "generic action loop finished"
  }

  lemma SaysIs(a: AgentAction)
    ensures Says(a, FinishSummary(a))
  {
    var standard := "generic action loop finished";
    var all, later := [a.summary, a.reason, standard], [a.reason, standard];
    assert !IsSpace('g') && !IsSpace('d') && standard[0] == 'g' && standard[|standard| - 1] == 'd';
    TrimTrimmed(standard);
    assert FirstNotBlank([standard]) == standard;
    assert later[1..] == [standard] && all[1..] == later;
    assert FirstNotBlank(later) == if Trim(a.reason) != "" then Trim(a.reason) else standard;
  }

  /** A turn that ends with what the model chose. */
  lemma ChoiceEndsBy(g: Setting, step: nat, m: Memory, a: AgentAction)
    requires step == |m.events| + 1 && g.choose(step, m.events) == Some(a)
    requires CarriedOut(g, step, Counted(m, a), a).End?
    ensures var t := CarriedOut(g, step, Counted(m, a), a);
      if t.ending.Implements? && !t.ending.gated then AutoFinish(g.text, t.memory.events).Some? else EndsBy(g, t)
  {
    SaysIs(a);
  }

  lemma TurnEndsBy(g: Setting, step: nat, m: Memory)
    requires Truthful(g, m) && step == |m.events| + 1 && TurnOf(g, step, m).End?
    ensures EndsBy(g, TurnOf(g, step, m))
  {
    var t := TurnOf(g, step, m);
    if AutoFinish(g.text, m.events).Some? {
      AutoFinishIsExact(g, m);
    } else if g.choose(step, m.events).Some? {
      var a := g.choose(step, m.events).value;
      ChoiceEndsBy(g, step, m, a);
      assert t == CarriedOut(g, step, Counted(m, a), a);
      if t.ending.Implements? && !t.ending.gated {
        TurnStaysTrue(g, step, m);
        AutoFinishIsExact(g, t.memory);
      }
    }
  }

  /** Every run ends by a question, an accepted finish, evidence that finishes the task, or because it cannot go on. */
  lemma {:induction false} RunEndsBy(g: Setting, step: nat, m: Memory)
    requires Truthful(g, m) && step == |m.events| + 1 && step <= g.maxSteps + 1
    ensures EndsBy(g, LoopFrom(g, step, m))
    decreases if step <= g.maxSteps then g.maxSteps + 1 - step else 0
  {
    if step <= g.maxSteps {
      TurnStaysTrue(g, step, m);
      LoopGoesOn(g, step, m);
      if TurnOf(g, step, m).End? {
        TurnEndsBy(g, step, m);
      } else {
        RunEndsBy(g, step + 1, TurnOf(g, step, m).memory);
      }
    }
  }
}
