/**
 What counts as evidence that a task is finished (`internal/executor/task_heuristics.go`): the
 gate in front of a model that says so, and the evidence that finishes a task by itself.
 */
module FinishGates {
  import opened Options
  import opened Text

  /** How an event of the action loop ended: rejected by the loop, or as the observer judged a tool's result. */
  datatype EventState = Rejected | Succeeded | ToolFailed | Changed | Verified | Observed

  type ToolState = s: EventState | s != Rejected witness Succeeded

  /** An output is taken in lower case. */
  datatype ActionEvent =
    ActionEvent(step: nat, action: string, tool: string, state: EventState, summary: string, output: string)

  /**
   Which groups of markers the task's title, description and criteria contain, the text a
   browser is expected to show, and the tokens that look like tool names.
   */
  datatype TaskText = TaskText(
    passingTest: bool, diagnostic: bool, sourceRead: bool, browserRead: bool, research: bool,
    generated: bool, readOnly: bool, report: bool, codeChange: bool, mechanical: bool,
    input: bool, click: bool, wait: bool, expected: string, named: seq<string>)

  const TEST := "test.run"
  const READ := "file.read"

  predicate NeedsDiagnostic(t: TaskText) {
    !t.passingTest && t.diagnostic
  }

  predicate NeedsSource(t: TaskText) {
    !t.browserRead && t.sourceRead
  }

  predicate NeedsReadOnly(t: TaskText) {
    && !(t.passingTest || NeedsDiagnostic(t) || t.codeChange || t.mechanical || t.generated || t.browserRead)
    && t.readOnly
  }

  predicate NeedsReport(t: TaskText) {
    !InteractionMissing(t, []) && t.report
  }

  // ---- events -----------------------------------------------------------------------------

  predicate Any(events: seq<ActionEvent>, f: ActionEvent -> bool) {
    exists i :: 0 <= i < |events| && f(events[i])
  }

  lemma AnyMore(events: seq<ActionEvent>, i: nat, f: ActionEvent -> bool)
    requires i < |events|
    ensures Any(events[..i + 1], f) <==> Any(events[..i], f) || f(events[i])
  {
    if Any(events[..i], f) {
      var k :| 0 <= k < i && f(events[..i][k]);
      assert f(events[..i + 1][k]);
    }
    assert events[..i + 1][i] == events[i];
    if Any(events[..i + 1], f) && !f(events[i]) {
      var k :| 0 <= k < i + 1 && f(events[..i + 1][k]);
      assert events[..i][k] == events[..i + 1][k];
    }
  }

  predicate Good(s: EventState) {
    s == Succeeded || s == Changed || s == Verified || s == Observed
  }

  predicate IsBrowser(tool: string) {
    "browser." <= tool
  }

  predicate IsResearch(tool: string) {
    Trim(tool) in {"code.index", "code.search", "code.symbols", "file.read", "browser.open", "browser.extract",
                   "browser.dom_summary", "git.status", "git.diff"}
  }

  predicate Contains(text: string, part: string) {
    exists i :: 0 <= i <= |text| && part <= text[i..]
  }

  const GOOD_TOOL: ActionEvent -> bool := (e: ActionEvent) => Good(e.state) && e.tool != ""
  const RESEARCHED: ActionEvent -> bool := (e: ActionEvent) => Good(e.state) && IsResearch(e.tool)
  const TESTED: ActionEvent -> bool := (e: ActionEvent) => e.tool == TEST
  const TEST_PASSED: ActionEvent -> bool := (e: ActionEvent) => e.tool == TEST && e.state == Verified
  const TEST_FAILED: ActionEvent -> bool := (e: ActionEvent) => e.tool == TEST && e.state == ToolFailed
  const SOURCE_NAMED: ActionEvent -> bool := (e: ActionEvent) => e.tool == READ
  const SOURCE_READ: ActionEvent -> bool := (e: ActionEvent) => e.tool == READ && e.state == Succeeded
  const BROWSED: ActionEvent -> bool := (e: ActionEvent) => IsBrowser(e.tool) && e.state == Observed
  const TYPED: ActionEvent -> bool := (e: ActionEvent) => Good(e.state) && e.tool in {"browser.input", "browser.type"}
  const CLICKED: ActionEvent -> bool := (e: ActionEvent) => Good(e.state) && e.tool == "browser.click"

  function Waited(expected: string): ActionEvent -> bool {
    (e: ActionEvent) => Good(e.state) && IsBrowser(e.tool)
                        && (e.tool == "browser.wait" || (expected != "" && Contains(e.output, expected)))
  }

  function CalledWell(tool: string): ActionEvent -> bool {
    (e: ActionEvent) => e.tool == tool && (e.state == Succeeded || e.state == Changed || e.state == Verified)
  }

  predicate InteractionMissing(t: TaskText, events: seq<ActionEvent>) {
    || (t.input && !Any(events, TYPED))
    || (t.click && !Any(events, CLICKED))
    || (t.wait && !Any(events, Waited(t.expected)))
  }

  // ---- tools the task names ----------------------------------------------------------------

  predicate EndsWith(text: string, suffix: string) {
    |suffix| <= |text| && text[|text| - |suffix|..] == suffix
  }

  predicate IsNamed(tool: string, token: string) {
    tool == token || EndsWith(tool, "." + token)
  }

  /** The first available tool that a token names. */
  function ToolNamed(tools: seq<string>, token: string): Option<string> {
    if tools == [] then None
    else if IsNamed(tools[0], token) then Some(tools[0])
    else ToolNamed(tools[1..], token)
  }

  predicate Uncalled(tools: seq<string>, events: seq<ActionEvent>, token: string) {
    var tool := ToolNamed(tools, token);
    tool.Some? && tool.value != "" && !Any(events, CalledWell(tool.value)) && !Any(events, CalledWell(token))
  }

  predicate NamedToolsCalled(t: TaskText, tools: seq<string>, events: seq<ActionEvent>) {
    forall i :: 0 <= i < |t.named| ==> !Uncalled(tools, events, t.named[i])
  }

  // ---- the gate ------------------------------------------------------------------------------

  predicate EvidenceReady(t: TaskText, tools: seq<string>, events: seq<ActionEvent>) {
    && (Any(events, GOOD_TOOL) || (NeedsDiagnostic(t) && Any(events, TEST_FAILED)))
    && (t.passingTest ==> Any(events, TEST_PASSED))
    && (NeedsDiagnostic(t) ==> Any(events, TESTED))
    && (t.browserRead ==> Any(events, BROWSED))
    && !InteractionMissing(t, events)
    && ((t.research && Any(events, RESEARCHED))
        || ((NeedsSource(t) ==> Any(events, SOURCE_NAMED)) && NamedToolsCalled(t, tools, events)))
  }

  method BrowserInteractionMissing(t: TaskText, events: seq<ActionEvent>) returns (missing: bool)
    ensures missing == InteractionMissing(t, events)
  {
    if !t.input && !t.click && !t.wait {
      return false;
    }
    var typed, clicked, waited := false, false, false;
    for i := 0 to |events|
      invariant typed == Any(events[..i], TYPED) && clicked == Any(events[..i], CLICKED)
      invariant waited == Any(events[..i], Waited(t.expected))
    {
      var e := events[i];
      AnyMore(events, i, TYPED);
      AnyMore(events, i, CLICKED);
      AnyMore(events, i, Waited(t.expected));
      if IsBrowser(e.tool) && Good(e.state) {
        if e.tool in {"browser.input", "browser.type"} {
          typed := true;
        } else if e.tool == "browser.click" {
          clicked := true;
        } else if e.tool == "browser.wait" {
          waited := true;
        }
        if t.expected != "" && Contains(e.output, t.expected) {
          waited := true;
        }
      }
    }
    assert events[..|events|] == events;
    return (t.input && !typed) || (t.click && !clicked) || (t.wait && !waited);
  }

  method NamesUncalledTool(t: TaskText, tools: seq<string>, events: seq<ActionEvent>) returns (uncalled: bool)
    ensures uncalled == !NamedToolsCalled(t, tools, events)
  {
    for i := 0 to |t.named|
      invariant forall k :: 0 <= k < i ==> !Uncalled(tools, events, t.named[k])
    {
      if Uncalled(tools, events, t.named[i]) {
        return true;
      }
    }
    return false;
  }

  /** What the gate remembers of the events. */
  datatype Noticed = Noticed(
    goodTool: bool, failedTest: bool, passedTest: bool, tested: bool, source: bool, browsed: bool, researched: bool)

  function NoticedIn(events: seq<ActionEvent>): Noticed {
    Noticed(Any(events, GOOD_TOOL), Any(events, TEST_FAILED), Any(events, TEST_PASSED), Any(events, TESTED),
            Any(events, SOURCE_NAMED), Any(events, BROWSED), Any(events, RESEARCHED))
  }

  method NoticeAll(events: seq<ActionEvent>) returns (r: Noticed)
    ensures r == NoticedIn(events)
  {
    r := Noticed(false, false, false, false, false, false, false);
    for i := 0 to |events|
      invariant r == NoticedIn(events[..i])
    {
      var e := events[i];
      EventCounts(events, i);
      r := Noticed(r.goodTool || GOOD_TOOL(e), r.failedTest || TEST_FAILED(e), r.passedTest || TEST_PASSED(e),
        r.tested || TESTED(e), r.source || SOURCE_NAMED(e), r.browsed || BROWSED(e), r.researched || RESEARCHED(e));
    }
    assert events[..|events|] == events;
  }

  method FinishEvidenceReady(t: TaskText, tools: seq<string>, events: seq<ActionEvent>) returns (ready: bool)
    ensures ready == EvidenceReady(t, tools, events)
  {
    var seen := NoticeAll(events);
    if !seen.goodTool && !(NeedsDiagnostic(t) && seen.failedTest) {
      return false;
    }
    if (t.passingTest && !seen.passedTest) || (NeedsDiagnostic(t) && !seen.tested) || (t.browserRead && !seen.browsed) {
      return false;
    }
    var missing := BrowserInteractionMissing(t, events);
    if missing {
      return false;
    }
    if t.research && seen.researched {
      return true;
    }
    if NeedsSource(t) && !seen.source {
      return false;
    }
    var uncalled := NamesUncalledTool(t, tools, events);
    return !uncalled;
  }

  lemma EventCounts(events: seq<ActionEvent>, i: nat)
    requires i < |events|
    ensures Any(events[..i + 1], GOOD_TOOL) <==> Any(events[..i], GOOD_TOOL) || GOOD_TOOL(events[i])
    ensures Any(events[..i + 1], RESEARCHED) <==> Any(events[..i], RESEARCHED) || RESEARCHED(events[i])
    ensures Any(events[..i + 1], TESTED) <==> Any(events[..i], TESTED) || TESTED(events[i])
    ensures Any(events[..i + 1], TEST_PASSED) <==> Any(events[..i], TEST_PASSED) || TEST_PASSED(events[i])
    ensures Any(events[..i + 1], TEST_FAILED) <==> Any(events[..i], TEST_FAILED) || TEST_FAILED(events[i])
    ensures Any(events[..i + 1], SOURCE_NAMED) <==> Any(events[..i], SOURCE_NAMED) || SOURCE_NAMED(events[i])
    ensures Any(events[..i + 1], BROWSED) <==> Any(events[..i], BROWSED) || BROWSED(events[i])
  {
    AnyMore(events, i, GOOD_TOOL);
    AnyMore(events, i, RESEARCHED);
    AnyMore(events, i, TESTED);
    AnyMore(events, i, TEST_PASSED);
    AnyMore(events, i, TEST_FAILED);
    AnyMore(events, i, SOURCE_NAMED);
    AnyMore(events, i, BROWSED);
  }

  // ---- finishing by itself ----------------------------------------------------------------------

  function FirstNotBlank(texts: seq<string>): string {
    if texts == [] then "" else if Trim(texts[0]) != "" then Trim(texts[0]) else FirstNotBlank(texts[1..])
  }

  /** What an event says that finishes the task, given what the other events show. */
  function FinishBy(t: TaskText, events: seq<ActionEvent>, e: ActionEvent): Option<string> {
    var shown := FirstNotBlank([e.summary, e.output]);
    if t.browserRead && !t.generated && Any(events, BROWSED) && !InteractionMissing(t, events) && BROWSED(e) then
      Some("browser" + " evidence captured for this web-reading task: " + shown)
    else if NeedsReadOnly(t) && SOURCE_READ(e) then
      Some("file" + " content captured for this read-only task: " + shown)
    else if NeedsReport(t) && Any(events, SOURCE_READ) && Any(events, BROWSED) && SOURCE_READ(e) then
      Some("browser" + " evidence report captured for this task: " + shown)
    else if t.generated && e.tool in {"file.write", "document.write", "artifact.write"} && e.state == Changed then
      Some("generated" + " text written for this task: " + shown)
    else if t.codeChange && !t.passingTest && !t.mechanical && e.tool in {"file.patch", "file.write"}
        && e.state == Changed then
      Some("workspace" + " file changed and satisfies this code-change task: " + shown)
    else if e.tool != TEST then None
    else if t.passingTest && e.state == Verified then Some("test.run" + " passed and satisfies this verification task")
    else if NeedsDiagnostic(t) && (!NeedsSource(t) || Any(events, SOURCE_READ)) then
      Some("test.run" + " output captured for diagnostic task: " + shown)
    else None
  }

  /** The last of the first `n` events that finishes the task decides. */
  function LastFinish(t: TaskText, events: seq<ActionEvent>, n: nat): Option<string>
    requires n <= |events|
  {
    if n == 0 then None
    else if FinishBy(t, events, events[n - 1]).Some? then FinishBy(t, events, events[n - 1])
    else LastFinish(t, events, n - 1)
  }

  function AutoFinish(t: TaskText, events: seq<ActionEvent>): Option<string> {
    LastFinish(t, events, |events|)
  }

  method AutoFinishSummary(t: TaskText, events: seq<ActionEvent>) returns (summary: Option<string>)
    ensures summary == AutoFinish(t, events)
  {
    for i := |events| downto 0
      invariant LastFinish(t, events, i) == AutoFinish(t, events)
    {
      if FinishBy(t, events, events[i]).Some? {
        return FinishBy(t, events, events[i]);
      }
    }
    return None;
  }

  lemma {:induction false} AutoFinishSays(t: TaskText, events: seq<ActionEvent>, n: nat)
    requires n <= |events| && LastFinish(t, events, n).Some?
    ensures Trim(LastFinish(t, events, n).value) != ""
  {
    if FinishBy(t, events, events[n - 1]).Some? {
      FinishBySays(t, events, events[n - 1]);
    } else {
      AutoFinishSays(t, events, n - 1);
    }
  }

  lemma FinishBySays(t: TaskText, events: seq<ActionEvent>, e: ActionEvent)
    requires FinishBy(t, events, e).Some?
    ensures Trim(FinishBy(t, events, e).value) != ""
  {
    var said := FinishBy(t, events, e).value;
    assert said[0] == "browser"[0] || said[0] == "file"[0] || said[0] == "generated"[0] || said[0] == "workspace"[0]
      || said[0] == "test.run"[0];
    StartsVisible(said);
  }
}
