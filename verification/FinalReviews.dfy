/**
 The end of a project run (`internal/runtime/final_review.go`): block, check that all tasks
 are finished, let the project reviewer judge, then complete the project or plan what is
 missing and go on. The re-plan counter is shared with the repair limit.
 */
module FinalReviews {
  import opened Options
  import opened TaskStatuses
  import opened Database
  import opened TaskStores
  import opened Lifecycle
  import opened BlockingPasses
  import opened Repairs

  const MAX_PROJECT_REPLANS := 2

  /** What the project reviewer says, and what the planner then makes of the gaps, if it is asked. */
  datatype Verdict =
    | NoReviewer
    | ReviewerBroken
    | ProjectApproved
    | ProjectRejected(plan: Option<seq<string>>)

  datatype ReviewOutcome = Passed | Resumed | Exhausted

  // ---- what finalizing does --------------------------------------------------------------

  /** No task had to be blocked and none is left to do: only then is the project judged. */
  predicate ReadyForReview(db: Db) {
    BlockTargets(db, 0) == [] && AllFinished(db.tasks)
  }

  predicate Replans(replans: nat, v: Verdict) {
    v.ProjectRejected? && replans < MAX_PROJECT_REPLANS && v.plan.Some?
  }

  /** Whether a final review resumes the project. */
  predicate Resumes(replans: nat, v: Verdict) {
    Replans(replans, v) && v.plan.value != []
  }

  /** Whether the run goes on at its end. */
  predicate GoesOn(db: Db, replans: nat, v: Verdict) {
    ReadyForReview(db) && Resumes(replans, v)
  }

  function ReplansAfter(db: Db, replans: nat, v: Verdict): nat {
    if ReadyForReview(db) && Replans(replans, v) then replans + 1 else replans
  }

  class RunService {
    const store: TaskStore
    var replans: nat

    constructor (store: TaskStore)
      ensures this.store == store && replans == 0
    {
      this.store := store;
      replans := 0;
    }

    /** Queues the planned tasks and counts the re-plan; a planner error queues and counts nothing. */
    method DeltaReplan(plan: Option<seq<string>>) returns (created: Option<nat>)
      requires store.Valid()
      modifies this, store
      ensures store.Valid()
      ensures store.tasks == old(store.tasks) + if plan.Some? then DeltaTasks(plan.value) else []
      ensures plan.None? ==> store.Snapshot() == old(store.Snapshot())
      ensures store.dependencies == old(store.dependencies) && store.project == old(store.project)
      ensures replans == old(replans) + if plan.Some? then 1 else 0
      ensures created == if plan.Some? then Some(|plan.value|) else None
    {
      if plan == None {
        return None;
      }
      QueueDeltaTasks(store, plan.value);
      replans := replans + 1;
      return Some(|plan.value|);
    }

    method RunProjectFinalReview(v: Verdict) returns (outcome: ReviewOutcome)
      requires store.Valid()
      modifies this, store
      ensures store.Valid()
      ensures outcome == Passed <==> !v.ProjectRejected?
      ensures outcome == Resumed <==> Resumes(old(replans), v)
      ensures replans == old(replans) + if Replans(old(replans), v) then 1 else 0
      ensures outcome == Resumed ==> store.tasks == old(store.tasks) + DeltaTasks(v.plan.value)
      ensures outcome != Resumed ==> store.tasks == old(store.tasks)
      ensures store.project == old(store.project)
    {
      match v {
        case ProjectRejected(plan) =>
          if replans >= MAX_PROJECT_REPLANS {
            return Exhausted;
          }
          var created := DeltaReplan(plan);
          return if created == None || created == Some(0) then Exhausted else Resumed;
        case _ => return Passed;
      }
    }

    method AllTasksFinished() returns (finished: bool)
      ensures finished == AllFinished(store.tasks)
    {
      for i := 0 to |store.tasks|
        invariant forall k :: 0 <= k < i ==> Finished(store.tasks[k].status)
      {
        if !Finished(store.tasks[i].status) {
          return false;
        }
      }
      return true;
    }

    /**
     The project is COMPLETED exactly when all its tasks are finished and the reviewer does
     not object; the run goes on exactly when it does object and a re-plan is left and finds
     something to do.
     */
    method FinalizeProjectRun(v: Verdict) returns (resumed: bool)
      requires store.Valid()
      modifies this, store
      ensures store.Valid()
      ensures var finished := forall t :: 0 <= t < |old(store.tasks)| ==>
                                old(store.tasks)[t].status in {Done, Cancelled};
        && (store.project == if finished && !v.ProjectRejected? then ProjectCompleted else old(store.project))
        && (resumed <==> finished && v.ProjectRejected? && old(replans) < 2 && v.plan.Some? && v.plan.value != [])
        && replans == old(replans) + if finished && v.ProjectRejected? && old(replans) < 2 && v.plan.Some? then 1 else 0
      ensures resumed ==>
                && |store.tasks| == |old(store.tasks)| + |v.plan.value|
                && store.tasks[..|old(store.tasks)|] == old(store.tasks)
                && forall i :: 0 <= i < |v.plan.value| ==>
                     store.tasks[|old(store.tasks)| + i] == Task(v.plan.value[i], Ready)
      ensures !resumed ==>
                && |store.tasks| == |old(store.tasks)|
                && forall t :: 0 <= t < |store.tasks| ==>
                     store.tasks[t] == if MustBlock(old(store.tasks), old(store.dependencies), t)
                                       then Task(old(store.tasks)[t].title, Blocked) else old(store.tasks)[t]
      ensures resumed == GoesOn(old(store.Snapshot()), old(replans), v)
      ensures replans == ReplansAfter(old(store.Snapshot()), old(replans), v)
      ensures resumed ==> store.tasks == old(store.tasks) + DeltaTasks(v.plan.value)
      ensures !resumed ==> store.tasks == Pass(old(store.Snapshot())).tasks
      ensures store.project == if ReadyForReview(old(store.Snapshot())) && !v.ProjectRejected? then ProjectCompleted
                               else old(store.project)
    {
      BlockedProject(store.Snapshot());
      PassIs(store.Snapshot());
      ReadyIff(store.Snapshot());
      var blocked := BlockTasksWaitingOnBlockedDependencies(store);
      if blocked > 0 {
        return false;
      }
      var finished := AllTasksFinished();
      if !finished {
        return false;
      }
      if v != NoReviewer {
        var outcome := RunProjectFinalReview(v);
        if outcome != Passed {
          return outcome == Resumed;
        }
      }
      store.UpdateProjectStatus(ProjectCompleted);
      return false;
    }
  }

  /** Where all tasks are DONE or CANCELLED nothing is left to block, so then the project is judged. */
  lemma ReadyIff(db: Db)
    ensures ReadyForReview(db) <==> forall t :: 0 <= t < |db.tasks| ==> db.tasks[t].status in {Done, Cancelled}
  {
    TargetsInRange(db, 0);
    if forall t :: 0 <= t < |db.tasks| ==> db.tasks[t].status in {Done, Cancelled} {
      var targets := BlockTargets(db, 0);
      assert targets != [] ==> targets[0] in targets;
    }
  }

  /** Blocking completes no project, and changes nothing when there is nothing to block. */
  lemma BlockedProject(db: Db)
    ensures Pass(db).project == db.project
    ensures BlockTargets(db, 0) == [] ==> Pass(db) == db
  {
    TargetsInRange(db, 0);
    BlockAllKeepsProject(db, BlockTargets(db, 0));
  }

  lemma {:induction false} BlockAllKeepsProject(db: Db, todo: seq<nat>)
    requires InRange(db, todo)
    ensures BlockAll(db, todo).project == db.project
    decreases |todo|
  {
    if todo != [] {
      BlockAllKeepsProject(Move(db, todo[0], Blocked), todo[1..]);
    }
  }

  // ---- how often a project can be resumed ---------------------------------------------------

  /**
   What touches the re-plan counter, in any order: reviews that start, which read it; reviews
   that end, in any order; and repairs at their depth limit.
   */
  datatype Happening =
    | ReviewStarts
    | ReviewEnds(review: nat, verdict: Verdict)
    | RepairLimit(plan: Option<seq<string>>)

  /** The counter, what each review under way has read of it, and how often reviews resumed the project. */
  datatype Tally = Tally(replans: nat, rounds: seq<nat>, resumes: nat)

  const UNREVIEWED := Tally(0, [], 0)

  function Without(rounds: seq<nat>, i: nat): seq<nat>
    requires i < |rounds|
  {
    rounds[..i] + rounds[i + 1..]
  }

  function After(t: Tally, h: Happening): Tally {
    match h
    case ReviewStarts => t.(rounds := t.rounds + [t.replans])
    case ReviewEnds(i, v) =>
      if i >= |t.rounds| then t
      else Tally(t.replans + if Replans(t.rounds[i], v) then 1 else 0, Without(t.rounds, i),
                 t.resumes + if Resumes(t.rounds[i], v) then 1 else 0)
    case RepairLimit(plan) => t.(replans := t.replans + if plan.Some? then 1 else 0)
  }

  function AfterAll(t: Tally, happenings: seq<Happening>): Tally
    decreases |happenings|
  {
    if happenings == [] then t else AfterAll(After(t, happenings[0]), happenings[1..])
  }

  /** At no moment are more reviews under way. */
  predicate AtMostAtOnce(t: Tally, happenings: seq<Happening>, width: nat)
    decreases |happenings|
  {
    |t.rounds| <= width && (happenings == [] || AtMostAtOnce(After(t, happenings[0]), happenings[1..], width))
  }

  /** The reviews under way that may still resume the project. */
  function MayResume(rounds: seq<nat>): (n: nat)
    ensures n <= |rounds|
  {
    if rounds == [] then 0
    else MayResume(rounds[..|rounds| - 1]) + if rounds[|rounds| - 1] < MAX_PROJECT_REPLANS then 1 else 0
  }

  lemma MayResumeMore(rounds: seq<nat>, round: nat)
    ensures MayResume(rounds + [round]) == MayResume(rounds) + if round < MAX_PROJECT_REPLANS then 1 else 0
  {
    assert (rounds + [round])[..|rounds|] == rounds;
  }

  lemma {:induction false} MayResumeWithout(rounds: seq<nat>, i: nat)
    requires i < |rounds|
    ensures MayResume(Without(rounds, i)) == MayResume(rounds) - if rounds[i] < MAX_PROJECT_REPLANS then 1 else 0
    decreases |rounds|
  {
    var n := |rounds| - 1;
    if i == n {
      assert Without(rounds, i) == rounds[..n];
    } else {
      MayResumeWithout(rounds[..n], i);
      assert Without(rounds, i) == Without(rounds[..n], i) + [rounds[n]];
      MayResumeMore(Without(rounds[..n], i), rounds[n]);
    }
  }

  /** Each resume has raised the counter; once it is used up, only reviews that are under way resume. */
  predicate Limited(t: Tally, width: nat) {
    if t.replans < MAX_PROJECT_REPLANS then t.resumes <= t.replans
    else t.resumes + MayResume(t.rounds) <= MAX_PROJECT_REPLANS - 1 + width
  }

  lemma StaysLimited(t: Tally, h: Happening, width: nat)
    requires |t.rounds| <= width && Limited(t, width)
    ensures Limited(After(t, h), width)
  {
    match h
    case ReviewStarts => MayResumeMore(t.rounds, t.replans);
    case ReviewEnds(i, v) => if i < |t.rounds| { MayResumeWithout(t.rounds, i); }
    case RepairLimit(plan) =>
  }

  lemma {:induction false} TallyIsLimited(t: Tally, happenings: seq<Happening>, width: nat)
    requires AtMostAtOnce(t, happenings, width) && Limited(t, width)
    ensures Limited(AfterAll(t, happenings), width)
    decreases |happenings|
  {
    if happenings != [] {
      StaysLimited(t, happenings[0], width);
      TallyIsLimited(After(t, happenings[0]), happenings[1..], width);
    }
  }

  /**
   With at most `width` reviews at once, reviews resume a project at most `width + 1` times
   in all, however many runs, rejections and repair limits there are; so one at a time, twice.
   */
  lemma ResumesAreBounded(happenings: seq<Happening>, width: nat)
    requires AtMostAtOnce(UNREVIEWED, happenings, width) && width > 0
    ensures AfterAll(UNREVIEWED, happenings).resumes <= MAX_PROJECT_REPLANS - 1 + width
  {
    TallyIsLimited(UNREVIEWED, happenings, width);
  }

  lemma {:induction false} InTwo(t: Tally, first: seq<Happening>, second: seq<Happening>, width: nat)
    ensures AfterAll(t, first + second) == AfterAll(AfterAll(t, first), second)
    ensures AtMostAtOnce(t, first + second, width) <==>
            AtMostAtOnce(t, first, width) && AtMostAtOnce(AfterAll(t, first), second, width)
    decreases |first|
  {
    if first == [] {
      assert first + second == second;
    } else {
      assert (first + second)[1..] == first[1..] + second;
      InTwo(After(t, first[0]), first[1..], second, width);
    }
  }

  function Rejecting(title: string): Happening {
    ReviewEnds(0, ProjectRejected(Some([title])))
  }

  lemma {:induction false} AllStart(t: Tally, n: nat, width: nat)
    requires |t.rounds| + n <= width
    ensures AfterAll(t, seq(n, _ => ReviewStarts)) == t.(rounds := t.rounds + seq(n, _ => t.replans))
    ensures AtMostAtOnce(t, seq(n, _ => ReviewStarts), width)
    decreases n
  {
    if n == 0 {
      assert t.rounds + seq(0, _ => t.replans) == t.rounds;
    } else {
      var next := After(t, ReviewStarts);
      assert seq(n, _ => ReviewStarts)[1..] == seq(n - 1, _ => ReviewStarts);
      AllStart(next, n - 1, width);
      assert next.rounds + seq(n - 1, _ => t.replans) == t.rounds + seq(n, _ => t.replans);
    }
  }

  lemma {:induction false} AllReject(t: Tally, title: string, width: nat)
    requires forall i :: 0 <= i < |t.rounds| ==> t.rounds[i] < MAX_PROJECT_REPLANS
    requires |t.rounds| <= width
    ensures AfterAll(t, seq(|t.rounds|, _ => Rejecting(title))).resumes == t.resumes + |t.rounds|
    ensures AtMostAtOnce(t, seq(|t.rounds|, _ => Rejecting(title)), width)
    decreases |t.rounds|
  {
    if t.rounds != [] {
      var n := |t.rounds|;
      assert seq(n, _ => Rejecting(title))[1..] == seq(n - 1, _ => Rejecting(title));
      assert Without(t.rounds, 0) == t.rounds[1..];
      AllReject(After(t, Rejecting(title)), title, width);
    }
  }

  /** The bound is met: one review resumes the project, then `width` reviews that start at once all do. */
  lemma ResumesReachBound(title: string, width: nat) returns (happenings: seq<Happening>)
    requires width > 0
    ensures AtMostAtOnce(UNREVIEWED, happenings, width)
    ensures AfterAll(UNREVIEWED, happenings).resumes == MAX_PROJECT_REPLANS - 1 + width
  {
    var first := [ReviewStarts] + [Rejecting(title)];
    var start, reject := seq(width, _ => ReviewStarts), seq(width, _ => Rejecting(title));
    happenings := first + (start + reject);
    var once := Tally(1, [], 1);
    assert After(After(UNREVIEWED, ReviewStarts), Rejecting(title)) == once;
    assert first[1..] == [Rejecting(title)] && first[1..][1..] == [];
    InTwo(UNREVIEWED, first, start + reject, width);
    InTwo(once, start, reject, width);
    AllStart(once, width, width);
    AllReject(AfterAll(once, start), title, width);
  }

  /**
   Once re-plans are used up, by repair limits as well as by reviews, no review that starts
   later resumes the project.
   */
  lemma {:induction false} UsedUpReplansResumeNothing(t: Tally, happenings: seq<Happening>)
    requires t.replans >= MAX_PROJECT_REPLANS && MayResume(t.rounds) == 0
    ensures AfterAll(t, happenings).resumes == t.resumes
    decreases |happenings|
  {
    if happenings != [] {
      match happenings[0] {
        case ReviewStarts => MayResumeMore(t.rounds, t.replans);
        case ReviewEnds(i, v) => if i < |t.rounds| { MayResumeWithout(t.rounds, i); }
        case RepairLimit(plan) =>
      }
      UsedUpReplansResumeNothing(After(t, happenings[0]), happenings[1..]);
    }
  }

  /** Reviews that never overlap, one for each verdict. */
  function OneByOne(verdicts: seq<Verdict>): seq<Happening> {
    if verdicts == [] then [] else [ReviewStarts, ReviewEnds(0, verdicts[0])] + OneByOne(verdicts[1..])
  }

  /** One at a time, rejections alone resume the project exactly as long as re-plans are left. */
  lemma {:induction false} RejectionsUseUpReplans(replans: nat, resumes: nat, verdicts: seq<Verdict>)
    requires forall i :: 0 <= i < |verdicts| ==>
               verdicts[i].ProjectRejected? && verdicts[i].plan.Some? && verdicts[i].plan.value != []
    requires replans <= MAX_PROJECT_REPLANS
    ensures AfterAll(Tally(replans, [], resumes), OneByOne(verdicts)).resumes - resumes
            == if |verdicts| < MAX_PROJECT_REPLANS - replans then |verdicts| else MAX_PROJECT_REPLANS - replans
    decreases |verdicts|
  {
    if verdicts != [] {
      var more := if replans < MAX_PROJECT_REPLANS then 1 else 0;
      OneRejection(replans, resumes, verdicts[0], OneByOne(verdicts[1..]));
      RejectionsUseUpReplans(replans + more, resumes + more, verdicts[1..]);
    }
  }

  lemma OneRejection(replans: nat, resumes: nat, v: Verdict, rest: seq<Happening>)
    requires v.ProjectRejected? && v.plan.Some? && v.plan.value != []
    ensures var more := if replans < MAX_PROJECT_REPLANS then 1 else 0;
      AfterAll(Tally(replans, [], resumes), [ReviewStarts, ReviewEnds(0, v)] + rest)
      == AfterAll(Tally(replans + more, [], resumes + more), rest)
  {
    var both := [ReviewStarts, ReviewEnds(0, v)] + rest;
    assert both[1..][0] == ReviewEnds(0, v) && both[1..][1..] == rest;
    assert [replans][..0] + [replans][1..] == [];
  }
}
