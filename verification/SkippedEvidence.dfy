/**
 What the automatic finish passes over (`internal/executor/task_heuristics.go`). The gate asks
 for the passing test and the browser reading that a task needs; the automatic finish may not,
 and how few calls it takes to get round them depends on the task's text.
 */
module SkippedEvidence {
  import opened Options
  import opened Text
  import opened FinishGates
  import opened ActionLoops

  /** If the task is implemented, some call of the run had such a result. */
  predicate ImplementsShowing(g: Setting, f: ActionEvent -> bool) {
    var end := LoopFrom(g, 1, NO_MEMORY);
    end.ending.Implements? ==> CallShows(g, end.memory.calls, f)
  }

  // ---- how few calls are enough --------------------------------------------------------------

  function One(b: bool): nat {
    if b then 1 else 0
  }

  /** The browser calls of a web-reading task; expected text can be shown by any of them. */
  function BrowseCalls(t: TaskText): nat {
    var calls := One(t.input) + One(t.click) + One(t.wait && t.expected == "");
    if calls == 0 then 1 else calls
  }

  /** The fewest calls after which a task that needs a passing test can be finished without one. */
  function CallsWithoutTest(t: TaskText): Option<nat> {
    if t.generated then Some(1)
    else if t.browserRead then Some(BrowseCalls(t))
    else if NeedsReport(t) then Some(2)
    else None
  }

  /** Whether a task that needs a browser reading can be finished without one; a single call is enough then. */
  predicate SkipsBrowsing(t: TaskText) {
    t.generated || t.passingTest || t.diagnostic || (t.codeChange && !t.mechanical)
  }

  // ---- no fewer calls do ------------------------------------------------------------------------

  lemma {:induction false} FinishingEvent(t: TaskText, events: seq<ActionEvent>, n: nat) returns (i: nat)
    requires n <= |events| && LastFinish(t, events, n).Some?
    ensures i < n && FinishBy(t, events, events[i]).Some?
  {
    if FinishBy(t, events, events[n - 1]).Some? {
      i := n - 1;
    } else {
      i := FinishingEvent(t, events, n - 1);
    }
  }

  /** Typing, clicking and waiting are events of their own. */
  lemma BrowsingTakesCalls(t: TaskText, events: seq<ActionEvent>)
    requires events != [] && !InteractionMissing(t, events)
    ensures BrowseCalls(t) <= |events|
  {
    var i, j, k := 0, 0, 0;
    if t.input {
      i :| 0 <= i < |events| && TYPED(events[i]);
    }
    if t.click {
      j :| 0 <= j < |events| && CLICKED(events[j]);
    }
    if t.wait && t.expected == "" {
      k :| 0 <= k < |events| && Waited(t.expected)(events[k]);
      assert events[k].tool == "browser.wait";
    }
    ToolsDiffer();
    assert t.input && t.click ==> i != j;
    assert t.input && t.wait && t.expected == "" ==> i != k;
    assert t.click && t.wait && t.expected == "" ==> j != k;
  }

  lemma ToolsDiffer()
    ensures "browser.wait" != "browser.click" && "browser.wait" != "browser.input" && "browser.wait" != "browser.type"
    ensures "browser.click" != "browser.input" && "browser.click" != "browser.type"
  {
    assert |"browser.wait"| == 12 && |"browser.click"| == 13 && |"browser.input"| == 13 && |"browser.type"| == 12;
    assert "browser.wait"[8] == 'w' && "browser.type"[8] == 't';
    assert "browser.click"[8] == 'c' && "browser.input"[8] == 'i';
  }

  lemma ReportTakesTwo(events: seq<ActionEvent>)
    requires Any(events, SOURCE_READ) && Any(events, BROWSED)
    ensures |events| >= 2
  {
    var i :| 0 <= i < |events| && SOURCE_READ(events[i]);
    var j :| 0 <= j < |events| && BROWSED(events[j]);
    assert i != j;
  }

  /** How a task that needs a passing test finishes by itself without one. */
  lemma FinishWithoutTest(t: TaskText, events: seq<ActionEvent>)
    requires t.passingTest && AutoFinish(t, events).Some? && !Any(events, TEST_PASSED)
    ensures CallsWithoutTest(t).Some? && CallsWithoutTest(t).value <= |events|
  {
    var i := FinishingEvent(t, events, |events|);
    FinishByWithoutTest(t, events, events[i]);
    if t.browserRead && !InteractionMissing(t, events) {
      BrowsingTakesCalls(t, events);
    }
    if Any(events, SOURCE_READ) && Any(events, BROWSED) {
      ReportTakesTwo(events);
    }
  }

  lemma FinishByWithoutTest(t: TaskText, events: seq<ActionEvent>, e: ActionEvent)
    requires t.passingTest && FinishBy(t, events, e).Some?
    ensures || t.generated
            || TEST_PASSED(e)
            || (t.browserRead && !InteractionMissing(t, events))
            || (NeedsReport(t) && Any(events, SOURCE_READ) && Any(events, BROWSED))
  {
  }

  /** Where the loop ends with an implemented task, the gate or the automatic finish has let it through. */
  lemma {:induction false} HowItEnds(g: Setting, step: nat, m: Memory)
    requires Truthful(g, m) && step == |m.events| + 1 && LoopFrom(g, step, m).ending.Implements?
    ensures var last := LoopFrom(g, step, m).memory;
      && Truthful(g, last) && |last.events| <= g.maxSteps
      && (EvidenceReady(g.text, g.tools, last.events) || AutoFinish(g.text, last.events).Some?)
    decreases if step <= g.maxSteps then g.maxSteps + 1 - step else 0
  {
    TurnStaysTrue(g, step, m);
    if TurnOf(g, step, m).End? {
      ImplementingTurn(g, step, m);
    } else {
      HowItEnds(g, step + 1, TurnOf(g, step, m).memory);
    }
  }

  lemma TestIsShown(g: Setting)
    requires g.text.passingTest
    requires CallsWithoutTest(g.text).Some? ==> g.maxSteps < CallsWithoutTest(g.text).value
    ensures ImplementsShowing(g, TEST_PASSED)
  {
    NothingIsTrue(g);
    if LoopFrom(g, 1, NO_MEMORY).ending.Implements? {
      var last := LoopFrom(g, 1, NO_MEMORY).memory;
      HowItEnds(g, 1, NO_MEMORY);
      if EvidenceReady(g.text, g.tools, last.events) {
        GateIsEvidenced(g, last);
      } else if Any(last.events, TEST_PASSED) {
        EventsShowCalls(g, last, TEST_PASSED);
      } else {
        FinishWithoutTest(g.text, last.events);
      }
    }
  }

  lemma FinishByShowsBrowsing(t: TaskText, events: seq<ActionEvent>, e: ActionEvent)
    requires t.browserRead && !SkipsBrowsing(t) && FinishBy(t, events, e).Some?
    ensures Any(events, BROWSED)
  {
  }

  lemma BrowsingIsShown(g: Setting)
    requires g.text.browserRead && (SkipsBrowsing(g.text) ==> g.maxSteps == 0)
    ensures ImplementsShowing(g, BROWSED)
  {
    NothingIsTrue(g);
    if LoopFrom(g, 1, NO_MEMORY).ending.Implements? {
      var last := LoopFrom(g, 1, NO_MEMORY).memory;
      HowItEnds(g, 1, NO_MEMORY);
      if EvidenceReady(g.text, g.tools, last.events) {
        GateIsEvidenced(g, last);
      } else {
        var i := FinishingEvent(g.text, last.events, |last.events|);
        FinishByShowsBrowsing(g.text, last.events, last.events[i]);
        EventsShowCalls(g, last, BROWSED);
      }
    }
  }

  // ---- runs that call one tool after another ---------------------------------------------------------

  const WRITE := "file.write"

  function Calling(tool: string): AgentAction {
    AgentAction("tool_call", tool, "", "", "", "")
  }

  function Judged(tool: string): ToolState {
    if tool == READ then Succeeded else if tool == WRITE then Changed else if tool == TEST then Verified else Observed
  }

  /** Tools that always succeed and show the expected text. */
  function Obliging(expected: string): (nat, AgentAction) -> ToolOutcome {
    (step: nat, a: AgentAction) => ToolOutcome("", Judged(a.tool), "", expected, false)
  }

  function Following(script: seq<string>): (nat, seq<ActionEvent>) -> Option<AgentAction> {
    (step: nat, events: seq<ActionEvent>) => if |events| < |script| then Some(Calling(script[|events|])) else None
  }

  function Scripted(script: seq<string>, text: TaskText, tools: seq<string>, maxSteps: nat): Setting {
    Setting(Following(script), Obliging(text.expected), text, tools, maxSteps)
  }

  function ShownBy(tool: string, step: nat, expected: string): ActionEvent {
    ActionEvent(step, "tool_call", tool, Judged(tool), "", expected)
  }

  function ScriptEvents(script: seq<string>, expected: string): seq<ActionEvent> {
    seq(|script|, i requires 0 <= i < |script| => ShownBy(script[i], i + 1, expected))
  }

  function ScriptCalls(script: seq<string>): seq<ToolCall> {
    seq(|script|, i requires 0 <= i < |script| => ToolCall(i + 1, Calling(script[i])))
  }

  /** So short that the progress guard does not interfere. */
  predicate Short(script: seq<string>) {
    && 1 <= |script| <= 3 && (forall i :: 0 <= i < |script| ==> Trim(script[i]) != "")
    && (|script| == 3 ==> Fingerprint(Calling(script[0])) != Fingerprint(Calling(script[2])))
  }

  /** After the first `k` calls of the script. */
  ghost predicate Reached(script: seq<string>, expected: string, k: nat, m: Memory) {
    && k < |script|
    && m.events == ScriptEvents(script, expected)[..k] && m.calls == ScriptCalls(script)[..k]
    && (forall f :: Seen(m.counts, f) <= k)
    && (|script| == 3 && k > 0 ==> Seen(m.counts, Fingerprint(Calling(script[2]))) <= k - 1)
  }

  /** The event that the script's `i`-th call leads to. */
  lemma CallShowsEvent(script: seq<string>, text: TaskText, tools: seq<string>, maxSteps: nat, i: nat)
    requires i < |script|
    ensures var a, g := Calling(script[i]), Scripted(script, text, tools, maxSteps);
      EventOf(i + 1, a, g.respond(i + 1, a)) == ShownBy(script[i], i + 1, text.expected)
  {
  }

  lemma CallIsMade(g: Setting, tool: string, step: nat, m: Memory)
    requires AutoFinish(g.text, m.events) == None && g.choose(step, m.events) == Some(Calling(tool)) && Trim(tool) != ""
    requires Seen(m.counts, Fingerprint(Calling(tool))) < MAX_REPEATS
    ensures TurnOf(g, step, m) == ToolTurn(g, step, Counted(m, Calling(tool)), Calling(tool))
  {
    assert "tool_call"[0] == 't' && "finish"[0] == 'f' && "ask_user"[0] == 'a';
  }

  lemma CallAdds(g: Setting, step: nat, m: Memory, a: AgentAction)
    requires !g.respond(step, a).failed
    ensures var t := ToolTurn(g, step, m, a);
      && t.memory == Called(m, step, a, g.respond(step, a))
      && (t.End? ==> t.ending.Implements?) && (t.GoOn? ==> AutoFinish(g.text, t.memory.events) == None)
  {
  }

  /** The script's next tool is chosen, and was not chosen twice before. */
  lemma CallIsChosen(script: seq<string>, text: TaskText, tools: seq<string>, maxSteps: nat, k: nat, m: Memory)
    requires Short(script) && Reached(script, text.expected, k, m)
    ensures Scripted(script, text, tools, maxSteps).choose(k + 1, m.events) == Some(Calling(script[k]))
    ensures Seen(m.counts, Fingerprint(Calling(script[k]))) < MAX_REPEATS
  {
  }

  lemma CountsGrow(script: seq<string>, expected: string, k: nat, m: Memory, counts: map<string, nat>)
    requires Short(script) && Reached(script, expected, k, m) && counts == Counted(m, Calling(script[k])).counts
    ensures forall f :: Seen(counts, f) <= k + 1
    ensures |script| == 3 && k < 2 ==> Seen(counts, Fingerprint(Calling(script[2]))) <= k
  {
    forall f ensures Seen(counts, f) <= k + 1 {
      assert Seen(m.counts, f) <= k;
    }
    if |script| == 3 && k < 2 {
      var now, last := Fingerprint(Calling(script[k])), Fingerprint(Calling(script[2]));
      assert k == 0 ==> now != last && Seen(m.counts, last) <= 0;
      assert k == 1 ==> Seen(m.counts, last) <= 0;
      assert Seen(counts, last) == if now == last then Seen(m.counts, last) + 1 else Seen(m.counts, last);
    }
  }

  /** The memory after the next call. */
  ghost predicate Extended(script: seq<string>, expected: string, k: nat, m: Memory, later: Memory)
    requires k < |script|
  {
    && later.events == m.events + [ShownBy(script[k], k + 1, expected)]
    && later.calls == m.calls + [ToolCall(k + 1, Calling(script[k]))]
    && later.counts == Counted(m, Calling(script[k])).counts
  }

  lemma NextCall(script: seq<string>, text: TaskText, tools: seq<string>, maxSteps: nat, k: nat, m: Memory)
    requires Short(script) && Reached(script, text.expected, k, m) && AutoFinish(text, m.events) == None
    ensures var t := TurnOf(Scripted(script, text, tools, maxSteps), k + 1, m);
      && (t.End? ==> t.ending.Implements?) && (t.GoOn? ==> AutoFinish(text, t.memory.events) == None)
      && Extended(script, text.expected, k, m, t.memory)
  {
    var g, a := Scripted(script, text, tools, maxSteps), Calling(script[k]);
    CallIsChosen(script, text, tools, maxSteps, k, m);
    CallIsMade(g, script[k], k + 1, m);
    CallAdds(g, k + 1, Counted(m, a), a);
    CallShowsEvent(script, text, tools, maxSteps, k);
  }

  lemma ReachedNext(script: seq<string>, expected: string, k: nat, m: Memory, later: Memory)
    requires Short(script) && Reached(script, expected, k, m) && Extended(script, expected, k, m, later)
    ensures later.events == ScriptEvents(script, expected)[..k + 1] && later.calls == ScriptCalls(script)[..k + 1]
    ensures k + 1 < |script| ==> Reached(script, expected, k + 1, later)
  {
    ScriptPrefix(script, expected, k);
    CountsGrow(script, expected, k, m, later.counts);
  }

  lemma ScriptPrefix(script: seq<string>, expected: string, k: nat)
    requires k < |script|
    ensures ScriptEvents(script, expected)[..k + 1]
            == ScriptEvents(script, expected)[..k] + [ShownBy(script[k], k + 1, expected)]
    ensures ScriptCalls(script)[..k + 1] == ScriptCalls(script)[..k] + [ToolCall(k + 1, Calling(script[k]))]
  {
  }

  lemma EndsByItself(g: Setting, step: nat, m: Memory)
    requires step <= g.maxSteps && AutoFinish(g.text, m.events).Some?
    ensures LoopFrom(g, step, m).ending.Implements? && LoopFrom(g, step, m).memory == m
  {
  }

  lemma {:induction false} ScriptRuns(script: seq<string>, text: TaskText, tools: seq<string>, maxSteps: nat,
          step: nat, m: Memory) returns (j: nat)
    requires Short(script) && |script| <= maxSteps && step > 0 && Reached(script, text.expected, step - 1, m)
    requires AutoFinish(text, ScriptEvents(script, text.expected)).Some?
    ensures var end := LoopFrom(Scripted(script, text, tools, maxSteps), step, m);
      end.ending.Implements? && j <= |script| && end.memory.calls == ScriptCalls(script)[..j]
    decreases |script| - step
  {
    var g := Scripted(script, text, tools, maxSteps);
    if AutoFinish(text, m.events).Some? {
      j := step - 1;
      EndsByItself(g, step, m);
    } else {
      var later := TurnOf(g, step, m).memory;
      NextCall(script, text, tools, maxSteps, step - 1, m);
      ReachedNext(script, text.expected, step - 1, m, later);
      LoopGoesOn(g, step, m);
      if TurnOf(g, step, m).End? {
        j := step;
      } else {
        assert ScriptEvents(script, text.expected)[..|script|] == ScriptEvents(script, text.expected);
        j := ScriptRuns(script, text, tools, maxSteps, step + 1, later);
      }
    }
  }

  lemma ScriptStarts(script: seq<string>, expected: string)
    requires Short(script)
    ensures Reached(script, expected, 0, NO_MEMORY)
  {
  }

  /** What the loop of a script comes to. */
  lemma ScriptEnds(script: seq<string>, text: TaskText, tools: seq<string>, maxSteps: nat) returns (end: Turn, j: nat)
    requires Short(script) && |script| <= maxSteps
    requires AutoFinish(text, ScriptEvents(script, text.expected)).Some?
    ensures end == LoopFrom(Scripted(script, text, tools, maxSteps), 1, NO_MEMORY)
    ensures end.ending.Implements? && j <= |script| && end.memory.calls == ScriptCalls(script)[..j]
  {
    ScriptStarts(script, text.expected);
    j := ScriptRuns(script, text, tools, maxSteps, 1, NO_MEMORY);
    end := LoopFrom(Scripted(script, text, tools, maxSteps), 1, NO_MEMORY);
  }

  lemma EndShowsNone(g: Setting, end: Turn, f: ActionEvent -> bool)
    requires end == LoopFrom(g, 1, NO_MEMORY) && end.ending.Implements? && !CallShows(g, end.memory.calls, f)
    ensures !ImplementsShowing(g, f)
  {
  }

  /** A script that finishes the task and shows nothing of the kind. */
  lemma ScriptSkips(script: seq<string>, text: TaskText, tools: seq<string>, maxSteps: nat, f: ActionEvent -> bool)
    requires Short(script) && |script| <= maxSteps
    requires AutoFinish(text, ScriptEvents(script, text.expected)).Some?
    requires forall i: nat :: i < |script| ==> !f(ShownBy(script[i], i + 1, text.expected))
    ensures !ImplementsShowing(Scripted(script, text, tools, maxSteps), f)
  {
    var end, j := ScriptEnds(script, text, tools, maxSteps);
    ScriptShowsNone(script, text, tools, maxSteps, f, j);
    EndShowsNone(Scripted(script, text, tools, maxSteps), end, f);
  }

  lemma ScriptShowsNone(script: seq<string>, text: TaskText, tools: seq<string>, maxSteps: nat, f: ActionEvent -> bool,
          j: nat)
    requires j <= |script| && forall i: nat :: i < |script| ==> !f(ShownBy(script[i], i + 1, text.expected))
    ensures !CallShows(Scripted(script, text, tools, maxSteps), ScriptCalls(script)[..j], f)
  {
    var g, calls := Scripted(script, text, tools, maxSteps), ScriptCalls(script)[..j];
    forall i | 0 <= i < |calls|
      ensures !f(EventOf(calls[i].step, calls[i].action, g.respond(calls[i].step, calls[i].action)))
    {
      CallShowsEvent(script, text, tools, maxSteps, i);
      assert calls[i] == ToolCall(i + 1, Calling(script[i]));
    }
  }

  // ---- scripts for each kind of task --------------------------------------------------------------------

  lemma OneIsShort(tool: string)
    requires tool != "" && !IsSpace(tool[0])
    ensures Short([tool])
  {
    StartsVisible(tool);
  }

  /** One call whose event finishes the task. */
  lemma OneCallFinishes(text: TaskText, tool: string)
    requires FinishBy(text, ScriptEvents([tool], text.expected), ShownBy(tool, 1, text.expected)).Some?
    ensures AutoFinish(text, ScriptEvents([tool], text.expected)).Some?
  {
    assert ScriptEvents([tool], text.expected)[0] == ShownBy(tool, 1, text.expected);
  }

  lemma WritingSkips(text: TaskText, tools: seq<string>, maxSteps: nat)
    requires maxSteps > 0 && (text.generated || (text.codeChange && !text.passingTest && !text.mechanical))
    ensures !ImplementsShowing(Scripted([WRITE], text, tools, maxSteps), TEST_PASSED)
    ensures !ImplementsShowing(Scripted([WRITE], text, tools, maxSteps), BROWSED)
  {
    assert WRITE[0] == 'f' && TEST[0] == 't' && "browser."[0] == 'b' && READ[5] == 'r' && WRITE[5] == 'w';
    assert Judged(WRITE) == Changed;
    OneIsShort(WRITE);
    OneCallFinishes(text, WRITE);
    ScriptSkips([WRITE], text, tools, maxSteps, TEST_PASSED);
    ScriptSkips([WRITE], text, tools, maxSteps, BROWSED);
  }

  lemma TestingSkipsBrowsing(text: TaskText, tools: seq<string>, maxSteps: nat)
    requires maxSteps > 0 && text.browserRead && (text.passingTest || text.diagnostic)
    ensures !ImplementsShowing(Scripted([TEST], text, tools, maxSteps), BROWSED)
  {
    assert TEST[0] == 't' && READ[0] == 'f' && WRITE[0] == 'f' && "browser."[0] == 'b';
    assert Judged(TEST) == Verified;
    OneIsShort(TEST);
    OneCallFinishes(text, TEST);
    ScriptSkips([TEST], text, tools, maxSteps, BROWSED);
  }

  const REPORT := ["browser.open", READ]

  lemma ReportFinishes(t: TaskText)
    requires NeedsReport(t)
    ensures Short(REPORT) && AutoFinish(t, ScriptEvents(REPORT, t.expected)).Some?
  {
    var events := ScriptEvents(REPORT, t.expected);
    assert REPORT[0][0] == 'b' && READ[0] == 'f' && WRITE[0] == 'f' && TEST[0] == 't';
    StartsVisible(REPORT[0]);
    StartsVisible(READ);
    assert BROWSED(events[0]) && SOURCE_READ(events[1]);
    assert FinishBy(t, events, events[1]).Some?;
  }

  lemma ReportingSkipsTest(text: TaskText, tools: seq<string>, maxSteps: nat)
    requires maxSteps > 1 && NeedsReport(text)
    ensures !ImplementsShowing(Scripted(REPORT, text, tools, maxSteps), TEST_PASSED)
  {
    ReportFinishes(text);
    assert REPORT[0][0] == 'b' && READ[0] == 'f' && TEST[0] == 't';
    ScriptSkips(REPORT, text, tools, maxSteps, TEST_PASSED);
  }

  function BrowseScript(t: TaskText): seq<string> {
    var calls := (if t.input then ["browser.input"] else []) + (if t.click then ["browser.click"] else [])
      + if t.wait && t.expected == "" then ["browser.wait"] else [];
    if calls == [] then ["browser.open"] else calls
  }

  predicate IsBrowsing(tool: string) {
    tool == "browser.input" || tool == "browser.click" || tool == "browser.wait" || tool == "browser.open"
  }

  lemma BrowsingIsObserved(tool: string)
    requires IsBrowsing(tool)
    ensures IsBrowser(tool) && Judged(tool) == Observed && tool != TEST && Trim(tool) != ""
  {
    assert tool[0] == 'b' && READ[0] == 'f' && WRITE[0] == 'f' && TEST[0] == 't';
    StartsVisible(tool);
  }

  lemma BrowseScriptIsShort(t: TaskText)
    ensures Short(BrowseScript(t)) && |BrowseScript(t)| == BrowseCalls(t)
    ensures forall i :: 0 <= i < |BrowseScript(t)| ==> IsBrowsing(BrowseScript(t)[i])
  {
    var script := BrowseScript(t);
    forall i | 0 <= i < |script| ensures Trim(script[i]) != "" {
      BrowsingIsObserved(script[i]);
    }
    if |script| == 3 {
      FingerprintsDiffer();
      assert script[0] == "browser.input" && script[2] == "browser.wait";
    }
  }

  lemma FingerprintsDiffer()
    ensures Fingerprint(Calling("browser.input")) != Fingerprint(Calling("browser.wait"))
  {
    TrimTrimmed("browser.input");
    TrimTrimmed("browser.wait");
    assert |"browser.input"| == 13 && |"browser.wait"| == 12;
    assert |Fingerprint(Calling("browser.input"))| == 19 && |Fingerprint(Calling("browser.wait"))| == 18;
  }

  lemma ScriptObserves(t: TaskText, i: nat)
    requires i < |BrowseScript(t)|
    ensures var e := ScriptEvents(BrowseScript(t), t.expected)[i];
      e.tool == BrowseScript(t)[i] && BROWSED(e) && Good(e.state) && e.output == t.expected && e.tool != TEST
  {
    BrowseScriptIsShort(t);
    assert BrowseScript(t)[i] in BrowseScript(t);
    BrowsingIsObserved(BrowseScript(t)[i]);
  }

  lemma WaitIsShown(t: TaskText)
    requires t.wait
    ensures Any(ScriptEvents(BrowseScript(t), t.expected), Waited(t.expected))
  {
    var events := ScriptEvents(BrowseScript(t), t.expected);
    var i := if t.expected == "" then One(t.input) + One(t.click) else 0;
    ScriptObserves(t, i);
    assert t.expected == "" ==> BrowseScript(t)[i] == "browser.wait";
    assert t.expected <= t.expected[0..];
    assert Waited(t.expected)(events[i]);
  }

  /** The script leaves out no interaction that the task names. */
  lemma BrowseScriptInteracts(t: TaskText)
    ensures !InteractionMissing(t, ScriptEvents(BrowseScript(t), t.expected))
  {
    var events := ScriptEvents(BrowseScript(t), t.expected);
    if t.input {
      ScriptObserves(t, 0);
      assert TYPED(events[0]);
    }
    if t.click {
      ScriptObserves(t, One(t.input));
      assert CLICKED(events[One(t.input)]);
    }
    if t.wait {
      WaitIsShown(t);
    }
  }

  lemma BrowseScriptFinishes(t: TaskText)
    requires t.browserRead && !t.generated
    ensures AutoFinish(t, ScriptEvents(BrowseScript(t), t.expected)).Some?
  {
    var events := ScriptEvents(BrowseScript(t), t.expected);
    BrowseScriptIsShort(t);
    BrowseScriptInteracts(t);
    ScriptObserves(t, |events| - 1);
    assert BROWSED(events[|events| - 1]);
  }

  lemma BrowsingSkipsTest(text: TaskText, tools: seq<string>, maxSteps: nat)
    requires maxSteps >= BrowseCalls(text) && text.browserRead && !text.generated
    ensures !ImplementsShowing(Scripted(BrowseScript(text), text, tools, maxSteps), TEST_PASSED)
  {
    var script := BrowseScript(text);
    BrowseScriptIsShort(text);
    BrowseScriptFinishes(text);
    forall i: nat | i < |script| ensures !TEST_PASSED(ShownBy(script[i], i + 1, text.expected)) {
      BrowsingIsObserved(script[i]);
    }
    ScriptSkips(script, text, tools, maxSteps, TEST_PASSED);
  }

  // ---- exactly when the evidence can be missing ---------------------------------------------------------------

  /**
   Every implemented task that needs a passing test has shown one, whatever model and tools
   do: exactly when its text offers no way round it, or the steps do not suffice for that.
   */
  lemma PassingTestIsShownIff(text: TaskText, tools: seq<string>, maxSteps: nat)
    requires text.passingTest
    ensures (forall choose, respond :: ImplementsShowing(Setting(choose, respond, text, tools, maxSteps), TEST_PASSED))
            <==> !(CallsWithoutTest(text).Some? && CallsWithoutTest(text).value <= maxSteps)
  {
    if CallsWithoutTest(text).Some? && CallsWithoutTest(text).value <= maxSteps {
      if text.generated {
        WritingSkips(text, tools, maxSteps);
      } else if text.browserRead {
        BrowsingSkipsTest(text, tools, maxSteps);
      } else {
        ReportingSkipsTest(text, tools, maxSteps);
      }
    } else {
      forall choose, respond
        ensures ImplementsShowing(Setting(choose, respond, text, tools, maxSteps), TEST_PASSED)
      {
        TestIsShown(Setting(choose, respond, text, tools, maxSteps));
      }
    }
  }

  /** The same for the browser reading that a task needs. */
  lemma BrowsingIsShownIff(text: TaskText, tools: seq<string>, maxSteps: nat)
    requires text.browserRead
    ensures (forall choose, respond :: ImplementsShowing(Setting(choose, respond, text, tools, maxSteps), BROWSED))
            <==> !(SkipsBrowsing(text) && maxSteps > 0)
  {
    if SkipsBrowsing(text) && maxSteps > 0 {
      if text.passingTest || text.diagnostic {
        TestingSkipsBrowsing(text, tools, maxSteps);
      } else {
        WritingSkips(text, tools, maxSteps);
      }
    } else {
      forall choose, respond ensures ImplementsShowing(Setting(choose, respond, text, tools, maxSteps), BROWSED) {
        BrowsingIsShown(Setting(choose, respond, text, tools, maxSteps));
      }
    }
  }
}
