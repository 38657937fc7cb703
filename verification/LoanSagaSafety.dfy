/**
 What every run of the loan saga guarantees.  The guarantees are phrased over the history alone:
 which completions it holds, which hold signal came last, which lender response came last.
 */
module LoanSagaSafety {
  import opened Wrappers
  import opened LoanSaga

  /** Everything in the history that is not a signal. */
  function Completions(h: seq<Event>): seq<Event> {
    if h == [] then []
    else Completions(h[..|h| - 1]) + if h[|h| - 1].IsSignal() then [] else [h[|h| - 1]]
  }

  /** Whether the latest hold or release signal was a hold. */
  predicate HoldFlag(h: seq<Event>) {
    h != [] &&
    var e := h[|h| - 1];
    e.HoldRequested? || (!e.HoldReleased? && HoldFlag(h[..|h| - 1]))
  }

  function LastResponse(h: seq<Event>): Option<LenderResponse> {
    if h == [] then None
    else if h[|h| - 1].LenderResponded? then Some(h[|h| - 1].response)
    else LastResponse(h[..|h| - 1])
  }

  /** The gates of this application, in order.  Consent is asked only when a principal is given. */
  function Stages(input: Input): seq<Stage> {
    if input.Principal() != "" then [Consent, D0, AaFetch, D1, D2, D3] else [D0, AaFetch, D1, D2, D3]
  }

  predicate Passes(stage: Stage, e: Event) {
    e.ActivityCompleted? &&
    match stage
    case Consent => e.result.ConsentChecked? && e.result.allowed
    case AaFetch => e.result.AaFetched? && e.result.dataReceived
    case D2 => e.result.Evaluated?
    case D3 => e.result.Evaluated? && e.result.matchedLenders.GetOr([]) != []
    case _ => e.result.Evaluated? && e.result.outcome != "fail"
  }

  predicate AllPass(input: Input, c: seq<Event>, k: nat) {
    k <= |c| && k <= |Stages(input)| && forall i :: 0 <= i < k ==> Passes(Stages(input)[i], c[i])
  }

  /** The lenders D3 matched. */
  function Matched(input: Input, c: seq<Event>): seq<string> {
    var n := |Stages(input)|;
    if |c| >= n && c[n - 1].ActivityCompleted? && c[n - 1].result.Evaluated?
    then c[n - 1].result.matchedLenders.GetOr([])
    else []
  }

  /** All gates have passed, nothing has happened since but signals, and no hold is up. */
  predicate Ready(input: Input, h: seq<Event>) {
    |Completions(h)| == |Stages(input)| &&
    AllPass(input, Completions(h), |Stages(input)|) && !HoldFlag(h)
  }

  /** The i-th command of the only script a run can follow. */
  function Scripted(input: Input, held: bool, lenders: seq<string>, i: nat): Command {
    var n := |Stages(input)|;
    if i < n then StageCommand(input, Stages(input)[i])
    else if held && i == n then StartTimer(72)
    else
      match i - n - (if held then 1 else 0)
      case 0 => SubmitToLender(input.applicationId, lenders)
      case 1 => SubmitOcenLoanRequest(input.applicationId)
      case _ => StartTimer(24)
  }

  predicate FollowsScript(input: Input, held: bool, lenders: seq<string>, commands: seq<Command>) {
    |commands| <= |Stages(input)| + (if held then 4 else 3) &&
    forall i :: 0 <= i < |commands| ==> commands[i] == Scripted(input, held, lenders, i)
  }

  predicate WasHeld(input: Input, commands: seq<Command>) {
    |commands| > |Stages(input)| && commands[|Stages(input)|].StartTimer?
  }

  function Rejection(stage: Stage, r: ActivityResult): Outcome {
    match stage
    case Consent =>
      Rejected("dpdp_consent", if r.ConsentChecked? then r.reason.GetOr("consent_not_granted") else "")
    case D0 => Rejected("d0_kind1_gate", if r.Evaluated? then r.reason.GetOr("kind1_conditions_not_met") else "")
    case AaFetch => Rejected("aa_fetch", "aa_consent_denied_or_timeout")
    case D1 => Rejected("d1_data_sufficiency", if r.Evaluated? then r.reason.GetOr("insufficient_data") else "")
    case _ => Rejected("d3_lender_prescreen", "no_eligible_lenders")
  }

  /** The first gate whose answer fails, or the number of gates when none does. */
  function FirstFailure(input: Input, c: seq<Event>, from: nat): (k: nat)
    requires from <= |Stages(input)|
    ensures from <= k <= |Stages(input)|
    ensures forall i :: from <= i < k && i < |c| ==> Passes(Stages(input)[i], c[i])
    ensures k < |Stages(input)| ==> k < |c| && !Passes(Stages(input)[k], c[k])
    decreases |Stages(input)| - from
  {
    if from == |Stages(input)| || from >= |c| then |Stages(input)|
    else if !Passes(Stages(input)[from], c[from]) then from
    else FirstFailure(input, c, from + 1)
  }

  /** The outcome read off the completions and the last lender response, without running the saga. */
  function Decide(input: Input, c: seq<Event>, last: Option<LenderResponse>): Outcome {
    var n := |Stages(input)|;
    var k := FirstFailure(input, c, 0);
    if k < n then
      if c[k].ActivityCompleted? then Rejection(Stages(input)[k], c[k].result) else Rejected("", "")
    else if |c| > n && c[n].ActivityCompleted? && c[n].result.Submitted? then
      if c[n].result.offerReceived then OfferReceived(c[n].result.offer, Matched(input, c))
      else if last.Some? then LenderVerdict(last.value, Matched(input, c))
      else Rejected("d4_lender_underwriting", "lender_response_timeout")
    else Rejected("ops_hold", "ops_hold_expired")
  }

  // ------------------------------------------------------------------------------------------
  // The invariants
  // ------------------------------------------------------------------------------------------

  ghost predicate FlagsFit(h: seq<Event>, s: State) {
    s.opsHold == HoldFlag(h) && s.lenderResponse == LastResponse(h)
  }

  ghost predicate PhaseFits(input: Input, c: seq<Event>, last: Option<LenderResponse>, phase: Phase) {
    var n := |Stages(input)|;
    match phase
    case AwaitStage(stage) => |c| < n && AllPass(input, c, |c|) && Stages(input)[|c|] == stage
    case AwaitRelease(lenders) => |c| == n && AllPass(input, c, n) && lenders == Matched(input, c)
    case AwaitSubmit(lenders) => |c| == n && AllPass(input, c, n) && lenders == Matched(input, c)
    case AwaitOcen(lenders, offerReceived, offer) =>
      |c| == n + 1 && AllPass(input, c, n) && lenders == Matched(input, c) &&
      c[n] == ActivityCompleted(Submitted(offerReceived, offer))
    case AwaitLender(lenders) =>
      |c| == n + 2 && AllPass(input, c, n) && lenders == Matched(input, c) && last.None? &&
      c[n].ActivityCompleted? && c[n].result.Submitted? && !c[n].result.offerReceived &&
      c[n + 1] == ActivityCompleted(OcenSubmitted)
    case Completed(outcome) =>
      outcome == Decide(input, c, last) &&
      ((|c| > n && AllPass(input, c, n)) ||
       (c != [] && AllPass(input, c, |c| - 1) && c[|c| - 1].ActivityCompleted? &&
        Enabled(AwaitStage(Stages(input)[|c| - 1]), c[|c| - 1]) && !Passes(Stages(input)[|c| - 1], c[|c| - 1])))
    case Failed => c != [] && c[|c| - 1].ActivityFailed?
  }

  lemma FirstFailureIs(input: Input, c: seq<Event>, k: nat)
    requires AllPass(input, c, k)
    requires k < |Stages(input)| ==> k < |c| && !Passes(Stages(input)[k], c[k])
    ensures FirstFailure(input, c, 0) == k
  {
  }

  lemma {:induction false} CompletionsComeFromHistory(h: seq<Event>, e: Event)
    requires e in Completions(h)
    ensures e in h
  {
    var p := h[..|h| - 1];
    if e in Completions(p) {
      CompletionsComeFromHistory(p, e);
    }
  }

  lemma StageKeepsFlags(input: Input, s: State, stage: Stage, r: ActivityResult)
    requires Enabled(AwaitStage(stage), ActivityCompleted(r))
    ensures var t := StageDone(input, s, stage, r);
      t.opsHold == s.opsHold && t.lenderResponse == s.lenderResponse
  {
  }

  lemma StepSetsFlags(input: Input, s: State, e: Event)
    requires Enabled(s.phase, e)
    ensures var t := Step(input, s, e);
      && t.opsHold == (e.HoldRequested? || (!e.HoldReleased? && s.opsHold))
      && t.lenderResponse == if e.LenderResponded? then Some(e.response) else s.lenderResponse
  {
    if e.ActivityCompleted? && s.phase.AwaitStage? {
      StageKeepsFlags(input, s, s.phase.stage, e.result);
    }
  }

  lemma {:induction false} FlagsHold(input: Input, h: seq<Event>)
    requires Legal(input, h)
    ensures FlagsFit(h, Run(input, h))
  {
    if h != [] {
      var p, e := h[..|h| - 1], h[|h| - 1];
      FlagsHold(input, p);
      StepSetsFlags(input, Run(input, p), e);
    }
  }

  lemma {:induction false} PhaseHolds(input: Input, h: seq<Event>)
    requires Legal(input, h)
    ensures PhaseFits(input, Completions(h), LastResponse(h), Run(input, h).phase)
  {
    if h != [] {
      var p, e := h[..|h| - 1], h[|h| - 1];
      PhaseHolds(input, p);
      FlagsHold(input, p);
      PhaseStep(input, Run(input, p), e, Completions(p), LastResponse(p));
    }
  }

  lemma PhaseStep(input: Input, s: State, e: Event, c: seq<Event>, last: Option<LenderResponse>)
    requires PhaseFits(input, c, last, s.phase) && Enabled(s.phase, e) && s.lenderResponse == last
    ensures PhaseFits(
              input,
              c + (if e.IsSignal() then [] else [e]),
              if e.LenderResponded? then Some(e.response) else last,
              Step(input, s, e).phase)
  {
    if e.IsSignal() {
      assert c + [] == c;
      if s.phase.AwaitLender? {
        FirstFailureIs(input, c, |Stages(input)|);
      }
    } else if s.phase.AwaitStage? {
      if e.ActivityCompleted? {
        StageStep(input, s, e, c, last);
      }
    } else if !e.ActivityFailed? {
      WaitStep(input, s, e, c, last);
    }
  }

  lemma StageStep(input: Input, s: State, e: Event, c: seq<Event>, last: Option<LenderResponse>)
    requires PhaseFits(input, c, last, s.phase) && Enabled(s.phase, e)
    requires s.phase.AwaitStage? && e.ActivityCompleted?
    ensures PhaseFits(input, c + [e], last, Step(input, s, e).phase)
  {
    if Passes(s.phase.stage, e) {
      StagePassed(input, s, e, c, last);
    } else {
      StageFailed(input, s, e, c, last);
    }
  }

  lemma StagePassed(input: Input, s: State, e: Event, c: seq<Event>, last: Option<LenderResponse>)
    requires PhaseFits(input, c, last, s.phase) && s.phase.AwaitStage? && Passes(s.phase.stage, e)
    ensures PhaseFits(input, c + [e], last, Step(input, s, e).phase)
  {
    assert AllPass(input, c + [e], |c| + 1);
    if s.phase.stage != D3 {
      assert Step(input, s, e) == GoTo(input, s, Stages(input)[|c| + 1]);
    } else {
      assert Step(input, s, e) == AfterPrescreen(input, s, Matched(input, c + [e]));
    }
  }

  lemma StageFailed(input: Input, s: State, e: Event, c: seq<Event>, last: Option<LenderResponse>)
    requires PhaseFits(input, c, last, s.phase) && Enabled(s.phase, e)
    requires s.phase.AwaitStage? && e.ActivityCompleted? && !Passes(s.phase.stage, e)
    ensures PhaseFits(input, c + [e], last, Step(input, s, e).phase)
  {
    assert AllPass(input, c + [e], |c|);
    FirstFailureIs(input, c + [e], |c|);
    assert Step(input, s, e).phase == Completed(Rejection(s.phase.stage, e.result));
  }

  lemma WaitStep(input: Input, s: State, e: Event, c: seq<Event>, last: Option<LenderResponse>)
    requires PhaseFits(input, c, last, s.phase) && Enabled(s.phase, e) && s.lenderResponse == last
    requires !s.phase.AwaitStage? && (e.ActivityCompleted? || e.TimerFired?)
    ensures PhaseFits(input, c + [e], last, Step(input, s, e).phase)
  {
    var n, c' := |Stages(input)|, c + [e];
    assert AllPass(input, c', n);
    FirstFailureIs(input, c', n);
  }

  lemma {:induction false} HeldWhileWaiting(input: Input, h: seq<Event>)
    requires Legal(input, h) && Run(input, h).phase.AwaitRelease?
    ensures HoldFlag(h)
  {
    var p := h[..|h| - 1];
    FlagsHold(input, p);
    if Run(input, p).phase.AwaitRelease? {
      HeldWhileWaiting(input, p);
    }
  }

  ghost predicate CommandsFit(input: Input, c: seq<Event>, phase: Phase, commands: seq<Command>) {
    var n, held := |Stages(input)|, WasHeld(input, commands);
    var m := if held then n + 1 else n;
    FollowsScript(input, held, Matched(input, c), commands) &&
    match phase
    case AwaitStage(_) => |c| < n && |commands| == |c| + 1
    case AwaitRelease(_) => held && |commands| == m
    case AwaitSubmit(_) => |commands| == m + 1
    case AwaitOcen(_, _, _) => |commands| == m + 2
    case AwaitLender(_) => |commands| == m + 3
    case _ => true
  }

  lemma {:induction false} CommandsHold(input: Input, h: seq<Event>)
    requires Legal(input, h)
    ensures CommandsFit(input, Completions(h), Run(input, h).phase, Run(input, h).commands)
  {
    if h != [] {
      var p, e := h[..|h| - 1], h[|h| - 1];
      CommandsHold(input, p);
      PhaseHolds(input, p);
      var s, c := Run(input, p), Completions(p);
      if e.IsSignal() {
        assert c + [] == c;
        CommandsAfterSignal(input, s, e, c, LastResponse(p));
      } else if s.phase.AwaitStage? {
        CommandsAfterStage(input, s, e, c, LastResponse(p));
      } else {
        CommandsAfterWait(input, s, e, c, LastResponse(p));
      }
    }
  }

  lemma CommandsAfterSignal(input: Input, s: State, e: Event, c: seq<Event>, last: Option<LenderResponse>)
    requires PhaseFits(input, c, last, s.phase) && CommandsFit(input, c, s.phase, s.commands)
    requires Enabled(s.phase, e) && e.IsSignal()
    ensures CommandsFit(input, c, Step(input, s, e).phase, Step(input, s, e).commands)
  {
  }

  lemma CommandsAfterStage(input: Input, s: State, e: Event, c: seq<Event>, last: Option<LenderResponse>)
    requires PhaseFits(input, c, last, s.phase) && CommandsFit(input, c, s.phase, s.commands)
    requires Enabled(s.phase, e) && !e.IsSignal() && s.phase.AwaitStage?
    ensures CommandsFit(input, c + [e], Step(input, s, e).phase, Step(input, s, e).commands)
  {
    if e.ActivityFailed? || !Passes(s.phase.stage, e) {
      StartFollows(input, s.commands, Matched(input, c + [e]));
    } else if s.phase.stage != D3 {
      NextStage(input, s, e, c);
    } else {
      LeaveStages(input, s, e, c);
    }
  }

  lemma NextStage(input: Input, s: State, e: Event, c: seq<Event>)
    requires s.phase.AwaitStage? && s.phase.stage != D3 && Passes(s.phase.stage, e)
    requires |c| < |Stages(input)| && Stages(input)[|c|] == s.phase.stage
    requires CommandsFit(input, c, s.phase, s.commands)
    ensures CommandsFit(input, c + [e], Step(input, s, e).phase, Step(input, s, e).commands)
  {
    hide StageCommand, Matched;
    var next := Stages(input)[|c| + 1];
    StageLeadsTo(input, s, s.phase.stage, e.result);
    assert next == Next(s.phase.stage);
    assert Step(input, s, e) == GoTo(input, s, next);
    StartFollows(input, s.commands + [StageCommand(input, next)], Matched(input, c + [e]));
  }

  lemma LeaveStages(input: Input, s: State, e: Event, c: seq<Event>)
    requires s.phase == AwaitStage(D3) && Passes(D3, e)
    requires |c| < |Stages(input)| && Stages(input)[|c|] == D3
    requires CommandsFit(input, c, s.phase, s.commands)
    ensures CommandsFit(input, c + [e], Step(input, s, e).phase, Step(input, s, e).commands)
  {
    assert |c| + 1 == |Stages(input)|;
    assert Step(input, s, e) == AfterPrescreen(input, s, Matched(input, c + [e]));
    assert WasHeld(input, Step(input, s, e).commands) == s.opsHold;
  }

  ghost predicate StartsScript(input: Input, commands: seq<Command>) {
    |commands| <= |Stages(input)| &&
    forall i :: 0 <= i < |commands| ==> commands[i] == StageCommand(input, Stages(input)[i])
  }

  lemma StartFollows(input: Input, commands: seq<Command>, lenders: seq<string>)
    requires StartsScript(input, commands)
    ensures !WasHeld(input, commands) && FollowsScript(input, false, lenders, commands)
  {
  }

  lemma CommandsAfterWait(input: Input, s: State, e: Event, c: seq<Event>, last: Option<LenderResponse>)
    requires PhaseFits(input, c, last, s.phase) && CommandsFit(input, c, s.phase, s.commands)
    requires Enabled(s.phase, e) && !e.IsSignal() && !s.phase.AwaitStage?
    ensures CommandsFit(input, c + [e], Step(input, s, e).phase, Step(input, s, e).commands)
  {
    assert Matched(input, c + [e]) == Matched(input, c);
  }

  // ------------------------------------------------------------------------------------------
  // Main results
  // ------------------------------------------------------------------------------------------

  /** A run's commands follow the one script that its gates, its hold and its lenders allow. */
  lemma CommandsFollowScript(input: Input, h: seq<Event>)
    requires Legal(input, h)
    ensures exists held: bool ::
      FollowsScript(input, held, Matched(input, Completions(h)), Run(input, h).commands)
  {
    CommandsHold(input, h);
    assert FollowsScript(input, WasHeld(input, Run(input, h).commands), Matched(input, Completions(h)),
                         Run(input, h).commands);
  }

  /** An outcome is the one the completions and the last lender response determine. */
  lemma OutcomeIsDecided(input: Input, h: seq<Event>)
    requires Legal(input, h) && Run(input, h).phase.Completed?
    ensures Run(input, h).phase.outcome == Decide(input, Completions(h), LastResponse(h))
  {
    PhaseHolds(input, h);
  }

  lemma PassedMeansPastStages(input: Input, c: seq<Event>, last: Option<LenderResponse>, phase: Phase)
    requires PhaseFits(input, c, last, phase) && |c| == |Stages(input)| && AllPass(input, c, |c|)
    ensures phase in {AwaitRelease(Matched(input, c)), AwaitSubmit(Matched(input, c))}
  {
    assert Passes(Stages(input)[|c| - 1], c[|c| - 1]);
  }

  /** In a ready history the workflow is handing D3's lenders to the lender activity. */
  lemma ReadyMeansSubmitting(input: Input, h: seq<Event>)
    requires Legal(input, h) && Ready(input, h)
    ensures Run(input, h).phase == AwaitSubmit(Matched(input, Completions(h)))
    ensures var commands := Run(input, h).commands;
      commands != [] &&
      commands[|commands| - 1] == SubmitToLender(input.applicationId, Matched(input, Completions(h)))
  {
    PhaseHolds(input, h);
    PassedMeansPastStages(input, Completions(h), LastResponse(h), Run(input, h).phase);
    CommandsHold(input, h);
    if Run(input, h).phase.AwaitRelease? {
      HeldWhileWaiting(input, h);
    }
  }

  /** At most one command is issued, and a submission only with the hold flag down. */
  predicate Issues(s: State, t: State) {
    && s.commands <= t.commands && |t.commands| <= |s.commands| + 1
    && (|t.commands| > |s.commands| && t.commands[|s.commands|].SubmitToLender? ==>
          t.phase.AwaitSubmit? && !t.opsHold)
  }

  lemma GoToIssues(input: Input, s: State, stage: Stage)
    ensures Issues(s, GoTo(input, s, stage))
  {
    assert !StageCommand(input, stage).SubmitToLender?;
  }

  lemma AfterPrescreenIssues(input: Input, s: State, lenders: seq<string>)
    ensures Issues(s, AfterPrescreen(input, s, lenders))
  {
  }

  /** A gate that passes leads to the next one, D3 to the wait for a release or to submission. */
  lemma StageLeadsTo(input: Input, s: State, stage: Stage, r: ActivityResult)
    requires Enabled(AwaitStage(stage), ActivityCompleted(r))
    ensures var t := StageDone(input, s, stage, r);
      if !Passes(stage, ActivityCompleted(r)) then t == s.(phase := t.phase)
      else if stage.D3? then t == AfterPrescreen(input, s, r.matchedLenders.GetOr([]))
      else t == GoTo(input, s, Next(stage))
  {
  }

  function Next(stage: Stage): Stage
    requires !stage.D3?
  {
    match stage
    case Consent => D0
    case D0 => AaFetch
    case AaFetch => D1
    case D1 => D2
    case D2 => D3
  }

  lemma StageIssues(input: Input, s: State, stage: Stage, r: ActivityResult)
    requires Enabled(AwaitStage(stage), ActivityCompleted(r))
    ensures Issues(s, StageDone(input, s, stage, r))
  {
    StageLeadsTo(input, s, stage, r);
    if Passes(stage, ActivityCompleted(r)) {
      if stage.D3? {
        AfterPrescreenIssues(input, s, r.matchedLenders.GetOr([]));
      } else {
        GoToIssues(input, s, Next(stage));
      }
    }
  }

  lemma StepIssues(input: Input, s: State, e: Event)
    ensures Issues(s, Step(input, s, e))
  {
    if Enabled(s.phase, e) && e.ActivityCompleted? && s.phase.AwaitStage? {
      StageIssues(input, s, s.phase.stage, e.result);
    }
  }

  lemma SubmittingUnheldIsReady(input: Input, h: seq<Event>)
    requires Legal(input, h) && Run(input, h).phase.AwaitSubmit? && !Run(input, h).opsHold
    ensures Ready(input, h)
  {
    FlagsHold(input, h);
    PhaseHolds(input, h);
    SubmittingMeansPassed(input, Completions(h), LastResponse(h), Run(input, h).phase);
  }

  lemma IssuedSubmission(s: State, t: State, i: nat)
    requires Issues(s, t) && |s.commands| <= i < |t.commands| && t.commands[i].SubmitToLender?
    ensures t.phase.AwaitSubmit? && !t.opsHold && |t.commands| == i + 1
  {
  }

  /** The event that makes a run submit leaves it ready. */
  lemma SubmittingIsReady(input: Input, h: seq<Event>, i: nat)
    requires Legal(input, h) && h != []
    requires |Run(input, h[..|h| - 1]).commands| <= i < |Run(input, h).commands|
    requires Run(input, h).commands[i].SubmitToLender?
    ensures Ready(input, h) && |Run(input, h).commands| == i + 1
  {
    StepIssues(input, Run(input, h[..|h| - 1]), h[|h| - 1]);
    IssuedSubmission(Run(input, h[..|h| - 1]), Run(input, h), i);
    SubmittingUnheldIsReady(input, h);
  }

  lemma SubmittingMeansPassed(input: Input, c: seq<Event>, last: Option<LenderResponse>, phase: Phase)
    requires PhaseFits(input, c, last, phase) && phase.AwaitSubmit?
    ensures |c| == |Stages(input)| && AllPass(input, c, |Stages(input)|)
  {
  }

  /** The step at which the number of commands issued passes `i`. */
  lemma {:induction false} IssuePoint(input: Input, h: seq<Event>, i: nat) returns (j: nat)
    requires Legal(input, h) && 1 <= i < |Run(input, h).commands|
    ensures j < |h| && |Run(input, h[..j]).commands| <= i < |Run(input, h[..j + 1]).commands|
  {
    var p := h[..|h| - 1];
    if |Run(input, p).commands| <= i {
      j := |h| - 1;
      assert h[..j + 1] == h;
    } else {
      j := IssuePoint(input, p, i);
      assert p[..j] == h[..j] && p[..j + 1] == h[..j + 1];
    }
  }

  /** Replaying a prefix of a history issues a prefix of its commands. */
  lemma {:induction false} PrefixCommands(input: Input, h: seq<Event>, k: nat)
    requires k <= |h|
    ensures Run(input, h[..k]).commands <= Run(input, h).commands
  {
    if k == |h| {
      assert h[..k] == h;
    } else {
      var p := h[..|h| - 1];
      PrefixCommands(input, p, k);
      assert p[..k] == h[..k];
      StepIssues(input, Run(input, p), h[|h| - 1]);
    }
  }

  /** The prefix that issued a submission. */
  lemma SubmissionPoint(input: Input, h: seq<Event>, i: nat) returns (p: seq<Event>)
    requires Legal(input, h) && 1 <= i < |Run(input, h).commands| && Run(input, h).commands[i].SubmitToLender?
    ensures p <= h && Legal(input, p) && Ready(input, p) && |Run(input, p).commands| == i + 1
    ensures Run(input, p).commands <= Run(input, h).commands
  {
    var j := IssuePoint(input, h, i);
    p := h[..j + 1];
    LegalPrefix(input, h, j + 1);
    PrefixCommands(input, h, j + 1);
    assert Run(input, p).commands[i] == Run(input, h).commands[i];
    assert p[..|p| - 1] == h[..j];
    SubmittingIsReady(input, p, i);
  }

  predicate SubmitsAt(s: State, i: nat) {
    i < |s.commands| && s.commands[i].SubmitToLender?
  }

  /** The prefix of the history that issued a submission, and what it had seen. */
  lemma SubmissionComesFrom(input: Input, h: seq<Event>, i: nat) returns (j: nat)
    requires Legal(input, h) && SubmitsAt(Run(input, h), i)
    ensures j <= |h| && IssuedBy(input, h, i, j)
    ensures forall k :: SubmitsAt(Run(input, h), k) ==> k == i
  {
    CommandsFollowScript(input, h);
    OneSubmission(input, Matched(input, Completions(h)), Run(input, h).commands, i);
    var p := SubmissionPoint(input, h, i);
    ReadyMeansSubmitting(input, p);
    MatchedAreSome(input, p);
    j := |p|;
    assert h[..j] == p;
  }

  /** The first j events were ready to submit, made command i the submission, and matched the lenders it names. */
  ghost predicate IssuedBy(input: Input, h: seq<Event>, i: nat, j: nat)
    requires j <= |h| && SubmitsAt(Run(input, h), i)
  {
    var lenders := Matched(input, Completions(h[..j]));
    && Ready(input, h[..j]) && |Run(input, h[..j]).commands| == i + 1
    && lenders != [] && Run(input, h).commands[i] == SubmitToLender(input.applicationId, lenders)
  }

  /**
   Submission safety.  A submission was issued by a prefix of the history that holds an answer of
   every gate, all of them passing, and whose latest hold signal, if any, is a release; it names
   exactly the lenders D3 matched, of which there is at least one; and it is the only submission.
   */
  lemma SubmissionSafety(input: Input, h: seq<Event>)
    requires Legal(input, h)
    ensures forall i :: SubmitsAt(Run(input, h), i) ==> exists j :: 0 <= j <= |h| && IssuedBy(input, h, i, j)
    ensures forall i, k :: SubmitsAt(Run(input, h), i) && SubmitsAt(Run(input, h), k) ==> k == i
  {
    forall i | SubmitsAt(Run(input, h), i)
      ensures exists j :: 0 <= j <= |h| && IssuedBy(input, h, i, j)
      ensures forall k :: SubmitsAt(Run(input, h), k) ==> k == i
    {
      var j := SubmissionComesFrom(input, h, i);
    }
  }

  lemma OneSubmission(input: Input, lenders: seq<string>, commands: seq<Command>, i: nat)
    requires exists held: bool :: FollowsScript(input, held, lenders, commands)
    requires i < |commands| && commands[i].SubmitToLender?
    ensures i >= 1 && forall k | 0 <= k < |commands| :: commands[k].SubmitToLender? ==> k == i
  {
  }

  lemma MatchedAreSome(input: Input, p: seq<Event>)
    requires Ready(input, p)
    ensures Matched(input, Completions(p)) != []
  {
    var n := |Stages(input)|;
    assert Passes(Stages(input)[n - 1], Completions(p)[n - 1]);
  }

  /** The workflow has submitted exactly when some prefix of its history is ready. */
  lemma SubmittedIffReady(input: Input, h: seq<Event>)
    requires Legal(input, h)
    ensures HasSubmitted(Run(input, h).commands) <==> exists j :: 0 <= j <= |h| && Ready(input, h[..j])
  {
    if HasSubmitted(Run(input, h).commands) {
      var i :| 0 <= i < |Run(input, h).commands| && Run(input, h).commands[i].SubmitToLender?;
      var j := SubmissionComesFrom(input, h, i);
    }
    if j :| 0 <= j <= |h| && Ready(input, h[..j]) {
      LegalPrefix(input, h, j);
      ReadyMeansSubmitting(input, h[..j]);
      PrefixCommands(input, h, j);
      var last := |Run(input, h[..j]).commands| - 1;
      assert Run(input, h).commands[last] == Run(input, h[..j]).commands[last];
    }
  }

  predicate HasSubmitted(commands: seq<Command>) {
    exists i :: 0 <= i < |commands| && commands[i].SubmitToLender?
  }

  // ------------------------------------------------------------------------------------------
  // What the gates ask for, word by word
  // ------------------------------------------------------------------------------------------

  /** The activity of the i-th of the six gates, consent included. */
  predicate AsksGate(c: Command, app: string, principal: string, gstin: string, i: nat) {
    match i
    case 0 =>
      c.CheckConsent? && c.applicationId == app && c.principal == principal &&
      c.purposes == ["loan_origination", "kind1_attestation"]
    case 1 => IsDecision(c, app, "d0_kind1_gate", "d0-kind1-gate")
    case 2 => c.FetchAaData? && c.applicationId == app && c.gstin == gstin && c.principal == principal
    case 3 => IsDecision(c, app, "d1_data_sufficiency", "d1-data-sufficiency")
    case 4 => IsDecision(c, app, "d2_derived_attributes", "d2-derived-flags")
    case 5 => IsDecision(c, app, "d3_lender_prescreen", "d3-lender-prescreen")
    case _ => false
  }

  predicate IsDecision(c: Command, app: string, gate: string, ruleset: string) {
    c.EvaluateDecision? && c.applicationId == app && c.gate == gate && c.ruleset == ruleset
  }

  /** What comes after the gates: a timer for a hold, both submissions, a timer for the lender. */
  predicate AsksAfterGates(c: Command, app: string, lenders: seq<string>, held: bool, i: nat) {
    if held && i == 0 then c.StartTimer? && c.hours == 72
    else
      match if held then i - 1 else i
      case 0 => c.SubmitToLender? && c.applicationId == app && c.lenders == lenders
      case 1 => c.SubmitOcenLoanRequest? && c.applicationId == app
      case 2 => c.StartTimer? && c.hours == 24
      case _ => false
  }

  /** Command i is what a run with this input asks for at that place. */
  predicate AskedAt(input: Input, lenders: seq<string>, held: bool, i: nat, c: Command) {
    var principal := if input.Structured? then input.dataPrincipalId else "";
    var gstin := if input.Structured? then input.vendorGstin else "";
    var place := if principal == "" then i + 1 else i;
    if place < 6 then AsksGate(c, input.applicationId, principal, gstin, place)
    else AsksAfterGates(c, input.applicationId, lenders, held, place - 6)
  }

  predicate AllAsked(input: Input, lenders: seq<string>, held: bool, commands: seq<Command>) {
    forall i :: 0 <= i < |commands| ==> AskedAt(input, lenders, held, i, commands[i])
  }

  /**
   The commands of every run, word by word: gate after gate, without consent when no principal is given,
   then what follows the gates.
   */
  lemma CommandsAre(input: Input, h: seq<Event>)
    requires Legal(input, h)
    ensures exists held: bool :: AllAsked(input, Matched(input, Completions(h)), held, Run(input, h).commands)
  {
    CommandsFollowScript(input, h);
    var lenders, commands := Matched(input, Completions(h)), Run(input, h).commands;
    var held :| FollowsScript(input, held, lenders, commands);
    forall i | 0 <= i < |commands| ensures AskedAt(input, lenders, held, i, commands[i]) {
      ScriptedIs(input, held, lenders, i);
    }
    assert AllAsked(input, lenders, held, commands);
  }

  lemma ScriptedIs(input: Input, held: bool, lenders: seq<string>, i: nat)
    requires i < |Stages(input)| + (if held then 4 else 3)
    ensures AskedAt(input, lenders, held, i, Scripted(input, held, lenders, i))
  {
  }

  /** The gate a rejection names goes with the command the workflow was waiting on. */
  predicate NamesGate(c: Command, gate: string) {
    match c
    case CheckConsent(_, _, _) => gate == "dpdp_consent"
    case EvaluateDecision(_, asked, _) => gate == asked
    case FetchAaData(_, _, _) => gate == "aa_fetch"
    case StartTimer(hours) => gate == if hours == 72 then "ops_hold" else "d4_lender_underwriting"
    case SubmitToLender(_, _) => false
    case SubmitOcenLoanRequest(_) => gate == "d4_lender_underwriting"
  }

  /** The last command is the one the phase waits on. */
  ghost predicate LastFits(input: Input, s: State) {
    s.commands != [] &&
    var c := s.commands[|s.commands| - 1];
    match s.phase
    case AwaitStage(Consent) => c.CheckConsent?
    case AwaitStage(D0) => c.EvaluateDecision? && c.gate == "d0_kind1_gate"
    case AwaitStage(AaFetch) => c.FetchAaData?
    case AwaitStage(D1) => c.EvaluateDecision? && c.gate == "d1_data_sufficiency"
    case AwaitStage(D2) => c.EvaluateDecision?
    case AwaitStage(D3) => c.EvaluateDecision? && c.gate == "d3_lender_prescreen"
    case AwaitRelease(_) => c == StartTimer(72)
    case AwaitOcen(_, _, _) => c.SubmitOcenLoanRequest?
    case AwaitLender(_) => c == StartTimer(24)
    case Completed(outcome) => outcome.Rejected? ==> NamesGate(c, outcome.gate)
    case _ => true
  }

  lemma StageKeepsLastFits(input: Input, s: State, stage: Stage, r: ActivityResult)
    requires s.phase == AwaitStage(stage) && LastFits(input, s) && Enabled(s.phase, ActivityCompleted(r))
    ensures LastFits(input, StageDone(input, s, stage, r))
  {
    StageLeadsTo(input, s, stage, r);
  }

  lemma StepKeepsLastFits(input: Input, s: State, e: Event)
    requires LastFits(input, s)
    ensures LastFits(input, Step(input, s, e))
  {
    if Enabled(s.phase, e) && e.ActivityCompleted? && s.phase.AwaitStage? {
      StageKeepsLastFits(input, s, s.phase.stage, e.result);
    }
  }

  lemma {:induction false} LastFitsAlways(input: Input, h: seq<Event>)
    ensures LastFits(input, Run(input, h))
  {
    if h != [] {
      LastFitsAlways(input, h[..|h| - 1]);
      StepKeepsLastFits(input, Run(input, h[..|h| - 1]), h[|h| - 1]);
    }
  }

  /** A rejection names the gate whose command was the last one issued. */
  lemma RejectionNamesGate(input: Input, h: seq<Event>)
    requires Run(input, h).phase.Completed? && Run(input, h).phase.outcome.Rejected?
    ensures var commands := Run(input, h).commands;
      commands != [] && NamesGate(commands[|commands| - 1], Run(input, h).phase.outcome.gate)
  {
    LastFitsAlways(input, h);
  }

  /**
   A run that ends after the OCEN submission without an immediate offer ends with the last lender response:
   an offer that is not empty goes to D3's lenders, anything else is a rejection with the lender's reason.
   */
  lemma LenderDecides(input: Input, h: seq<Event>)
    requires Legal(input, h) && Run(input, h).phase.Completed? && LastResponse(h).Some?
    requires var c, n := Completions(h), |Stages(input)|;
      |c| >= n + 2 && AllPass(input, c, n) && c[n].ActivityCompleted? && c[n].result.Submitted? &&
      !c[n].result.offerReceived
    ensures var response, outcome := LastResponse(h).value, Run(input, h).phase.outcome;
      if response.offer.Some? && |response.offer.value| > 0 then
        outcome.OfferReceived? && outcome.offer == response.offer &&
        outcome.lenders == Matched(input, Completions(h))
      else
        outcome.Rejected? && outcome.gate == "d4_lender_underwriting" &&
        outcome.reason == if response.reason.Some? then response.reason.value else "lender_declined"
  {
    OutcomeIsDecided(input, h);
    FirstFailureIs(input, Completions(h), |Stages(input)|);
  }
}
