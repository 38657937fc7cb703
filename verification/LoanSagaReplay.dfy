/** Which history events can be left out of a replay without changing what the saga did. */
module LoanSagaReplay {
  import opened LoanSaga
  import opened LoanSagaSafety

  function DropHolds(h: seq<Event>): seq<Event> {
    if h == [] then []
    else (if h[0].IsHoldSignal() then [] else [h[0]]) + DropHolds(h[1..])
  }

  function DropResponses(h: seq<Event>): seq<Event> {
    if h == [] then []
    else DropResponses(h[..|h| - 1]) + if h[|h| - 1].LenderResponded? then [] else [h[|h| - 1]]
  }

  /** Holds and releases are dropped, and nothing else is. */
  lemma {:induction false} OnlyHoldsDropped(h: seq<Event>, e: Event)
    ensures multiset(DropHolds(h))[e] == if e.HoldRequested? || e.HoldReleased? then 0 else multiset(h)[e]
  {
    if h != [] {
      OnlyHoldsDropped(h[1..], e);
      assert h == [h[0]] + h[1..];
    }
  }

  lemma {:induction false} OnlyResponsesDropped(h: seq<Event>, e: Event)
    ensures multiset(DropResponses(h))[e] == if e.LenderResponded? then 0 else multiset(h)[e]
  {
    if h != [] {
      var front := h[..|h| - 1];
      OnlyResponsesDropped(front, e);
      assert h == front + [h[|h| - 1]];
    }
  }

  predicate PastSubmission(phase: Phase) {
    !phase.AwaitStage? && !phase.AwaitRelease?
  }

  predicate SameButHold(s: State, t: State) {
    t == s.(opsHold := t.opsHold, opsHoldReason := t.opsHoldReason)
  }

  predicate SameButResponse(s: State, t: State) {
    t == s.(lenderResponse := t.lenderResponse)
  }

  lemma HoldBlind(input: Input, s: State, t: State, e: Event)
    requires SameButHold(s, t) && PastSubmission(s.phase)
    ensures SameButHold(Step(input, s, e), Step(input, t, e)) && PastSubmission(Step(input, s, e).phase)
    ensures e.IsHoldSignal() ==> SameButHold(Step(input, s, e), t)
  {
  }

  lemma {:induction false} HoldNoise(input: Input, s: State, t: State, q: seq<Event>)
    requires SameButHold(s, t) && PastSubmission(s.phase) && LegalFrom(input, s, q)
    ensures SameButHold(RunFrom(input, s, q), RunFrom(input, t, DropHolds(q)))
    ensures LegalFrom(input, t, DropHolds(q))
    decreases |q|
  {
    if q != [] {
      HoldBlind(input, s, t, q[0]);
      if q[0].IsHoldSignal() {
        assert DropHolds(q) == DropHolds(q[1..]);
        HoldNoise(input, Step(input, s, q[0]), t, q[1..]);
      } else {
        assert DropHolds(q) == [q[0]] + DropHolds(q[1..]);
        assert DropHolds(q)[0] == q[0] && DropHolds(q)[1..] == DropHolds(q[1..]);
        HoldNoise(input, Step(input, s, q[0]), Step(input, t, q[0]), q[1..]);
      }
    }
  }

  /**
   Once submission has started, hold and release signals are noise: a run and the run without them
   end in the same phase, with the same commands and the same lender response.
   */
  lemma HoldsAfterSubmissionAreNoise(input: Input, p: seq<Event>, q: seq<Event>)
    requires Legal(input, p + q) && Ready(input, p)
    ensures SameButHold(Run(input, p + q), Run(input, p + DropHolds(q))) && Legal(input, p + DropHolds(q))
  {
    RunResumes(input, p, q);
    RunResumes(input, p, DropHolds(q));
    ReadyMeansSubmitting(input, p);
    HoldNoise(input, Run(input, p), Run(input, p), q);
  }

  /**
   The history never lets the body look at the lender response: either the OCEN submission has not
   been acknowledged yet, or the lender activity came back with an offer.
   */
  predicate NeverConsults(h: seq<Event>) {
    ActivityCompleted(OcenSubmitted) !in h ||
    forall e :: e in h && e.ActivityCompleted? && e.result.Submitted? ==> e.result.offerReceived
  }

  lemma NeverConsultsKeepsAway(input: Input, h: seq<Event>, e: Event)
    requires Legal(input, h + [e]) && NeverConsults(h + [e])
    ensures !Run(input, h).phase.AwaitLender?
    ensures Run(input, h).phase.AwaitOcen? && !Run(input, h).phase.offerReceived ==>
              e != ActivityCompleted(OcenSubmitted)
  {
    RunSnoc(input, h, e);
    PhaseHolds(input, h);
    var phase, c, n := Run(input, h).phase, Completions(h), |Stages(input)|;
    if phase.AwaitLender? || (phase.AwaitOcen? && !phase.offerReceived) {
      assert c[n] in c;
      CompletionsComeFromHistory(h, c[n]);
      assert c[n] in h + [e];
      if phase.AwaitLender? {
        assert c[n + 1] in c;
        CompletionsComeFromHistory(h, c[n + 1]);
      }
    }
  }

  lemma StageBlind(input: Input, s: State, t: State, stage: Stage, r: ActivityResult)
    requires SameButResponse(s, t) && Enabled(AwaitStage(stage), ActivityCompleted(r))
    ensures SameButResponse(StageDone(input, s, stage, r), StageDone(input, t, stage, r))
  {
  }

  lemma ResponseBlind(input: Input, s: State, t: State, e: Event)
    requires SameButResponse(s, t) && !s.phase.AwaitLender?
    requires s.phase.AwaitOcen? && !s.phase.offerReceived ==> e != ActivityCompleted(OcenSubmitted)
    ensures SameButResponse(Step(input, s, e), Step(input, t, e))
    ensures e.LenderResponded? ==> SameButResponse(Step(input, s, e), t)
  {
    if Enabled(s.phase, e) && e.ActivityCompleted? {
      if s.phase.AwaitStage? {
        StageBlind(input, s, t, s.phase.stage, e.result);
      }
    }
  }

  /**
   Lender signals are noise as long as the body has no reason to consult them: with an immediate
   offer for the whole run, otherwise up to the final wait.
   */
  lemma {:induction false} ResponsesAreNoise(input: Input, h: seq<Event>)
    requires Legal(input, h) && NeverConsults(h)
    ensures SameButResponse(Run(input, h), Run(input, DropResponses(h))) && Legal(input, DropResponses(h))
  {
    if h != [] {
      var p, e := h[..|h| - 1], h[|h| - 1];
      assert h == p + [e];
      assert forall x :: x in p ==> x in h;
      assert e in h;
      ResponsesAreNoise(input, p);
      NeverConsultsKeepsAway(input, p, e);
      ResponseBlind(input, Run(input, p), Run(input, DropResponses(p)), e);
      if e.LenderResponded? {
        assert DropResponses(h) == DropResponses(p);
      } else {
        RunSnoc(input, DropResponses(p), e);
      }
    }
  }

  /**
   Before the final wait only the last lender signal counts: two histories that differ in lender
   signals alone, and agree on the last one, replay to the very same state and so have the same future.
   */
  lemma OnlyLastResponseCounts(input: Input, h: seq<Event>, h': seq<Event>, future: seq<Event>)
    requires Legal(input, h) && Legal(input, h')
    requires ActivityCompleted(OcenSubmitted) !in h && ActivityCompleted(OcenSubmitted) !in h'
    requires DropResponses(h) == DropResponses(h') && LastResponse(h) == LastResponse(h')
    ensures Run(input, h + future) == Run(input, h' + future)
    ensures Legal(input, h + future) <==> Legal(input, h' + future)
  {
    ResponsesAreNoise(input, h);
    ResponsesAreNoise(input, h');
    FlagsHold(input, h);
    FlagsHold(input, h');
    RunResumes(input, h, future);
    RunResumes(input, h', future);
  }
}

/** Runs are short and end once; with the shipped activities no run gets as far as a submission. */
module LoanSagaProgress {
  import opened Wrappers
  import opened LoanSaga
  import opened LoanSagaSafety

  /** How many more completions a run can take. */
  function Remaining(phase: Phase): nat {
    match phase
    case AwaitStage(Consent) => 10
    case AwaitStage(D0) => 9
    case AwaitStage(AaFetch) => 8
    case AwaitStage(D1) => 7
    case AwaitStage(D2) => 6
    case AwaitStage(D3) => 5
    case AwaitRelease(_) => 4
    case AwaitSubmit(_) => 3
    case AwaitOcen(_, _, _) => 2
    case AwaitLender(_) => 1
    case _ => 0
  }

  /** Every completion the workflow accepts brings it closer to its end; no signal takes it back. */
  lemma CompletionsMakeProgress(input: Input, s: State, e: Event)
    requires Enabled(s.phase, e)
    ensures var rest := Remaining(Step(input, s, e).phase);
      if e.IsSignal() then rest <= Remaining(s.phase) else rest < Remaining(s.phase)
  {
    if e.ActivityCompleted? && s.phase.AwaitStage? {
      StagesMakeProgress(input, s, s.phase.stage, e.result);
    }
  }

  lemma StagesMakeProgress(input: Input, s: State, stage: Stage, r: ActivityResult)
    requires Enabled(AwaitStage(stage), ActivityCompleted(r))
    ensures Remaining(StageDone(input, s, stage, r).phase) < Remaining(AwaitStage(stage))
  {
  }

  function Activities(commands: seq<Command>): nat {
    if commands == [] then 0
    else Activities(commands[..|commands| - 1]) + if commands[|commands| - 1].IsActivity() then 1 else 0
  }

  lemma {:induction false} ActivitiesWithin(input: Input, held: bool, lenders: seq<string>, commands: seq<Command>)
    requires FollowsScript(input, held, lenders, commands)
    ensures var n, m := |Stages(input)|, if held then 1 else 0;
      Activities(commands) ==
        if |commands| <= n then |commands|
        else if |commands| <= n + m + 2 then |commands| - m
        else n + 2
    decreases |commands|
  {
    if commands != [] {
      ActivitiesWithin(input, held, lenders, commands[..|commands| - 1]);
    }
  }

  /**
   Termination: at most eight activities and two timed waits; the completions still to come never
   exceed what is left; and an open run always has a completion to wait for.
   */
  lemma {:induction false} RunIsBounded(input: Input, h: seq<Event>)
    requires Legal(input, h)
    ensures |Completions(h)| + Remaining(Run(input, h).phase) <= 10
    ensures Activities(Run(input, h).commands) <= 8
    ensures |Run(input, h).commands| - Activities(Run(input, h).commands) <= 2
    ensures !Run(input, h).phase.Closed() ==> exists e: Event :: !e.IsSignal() && Enabled(Run(input, h).phase, e)
  {
    var phase := Run(input, h).phase;
    if !phase.Closed() {
      assert Enabled(phase, if phase.AwaitsActivity() then ActivityFailed else TimerFired);
    }
    CommandsFollowScript(input, h);
    var held :| FollowsScript(input, held, Matched(input, Completions(h)), Run(input, h).commands);
    ActivitiesWithin(input, held, Matched(input, Completions(h)), Run(input, h).commands);
    CompletionsBounded(input, h);
  }

  lemma {:induction false} CompletionsBounded(input: Input, h: seq<Event>)
    requires Legal(input, h)
    ensures |Completions(h)| + Remaining(Run(input, h).phase) <= 10
  {
    if h != [] {
      var p := h[..|h| - 1];
      CompletionsBounded(input, p);
      CompletionsMakeProgress(input, Run(input, p), h[|h| - 1]);
    }
  }

  /** A run that has ended takes no further event. */
  lemma EndedRunsStayEnded(input: Input, h: seq<Event>, future: seq<Event>)
    requires Legal(input, h + future) && Run(input, h).phase.Closed()
    ensures future == []
  {
    RunResumes(input, h, future);
  }

  lemma Extend(input: Input, h: seq<Event>, e: Event) returns (h': seq<Event>)
    requires Legal(input, h) && Enabled(Run(input, h).phase, e)
    ensures h' == h + [e] && Legal(input, h') && Run(input, h') == Step(input, Run(input, h), e)
  {
    RunSnoc(input, h, e);
    h' := h + [e];
  }

  lemma D0IsReachable(input: Input) returns (h: seq<Event>)
    ensures Legal(input, h) && Run(input, h).phase == AwaitStage(D0)
    ensures Run(input, h).lenderResponse.None?
  {
    h := [];
    if input.Principal() != "" {
      h := Extend(input, h, ActivityCompleted(ConsentChecked(true, None)));
    }
  }

  lemma HeldD3IsReachable(input: Input) returns (h: seq<Event>)
    ensures Legal(input, h) && Run(input, h).phase == AwaitStage(D3) && Run(input, h).opsHold
    ensures Run(input, h).lenderResponse.None?
  {
    var pass := ActivityCompleted(Evaluated("pass", None, None));
    h := D0IsReachable(input);
    h := Extend(input, h, pass);
    h := Extend(input, h, ActivityCompleted(AaFetched(true)));
    h := Extend(input, h, HoldRequested("review"));
    h := Extend(input, h, pass);
    h := Extend(input, h, pass);
  }

  lemma SubmittedIsReachable(input: Input, lenders: seq<string>) returns (h: seq<Event>)
    requires lenders != []
    ensures Legal(input, h) && Run(input, h).phase == AwaitSubmit(lenders)
    ensures Run(input, h).lenderResponse.None?
    ensures StartTimer(72) in Run(input, h).commands
    ensures SubmitToLender(input.applicationId, lenders) in Run(input, h).commands
  {
    h := HeldD3IsReachable(input);
    h := Extend(input, h, ActivityCompleted(Evaluated("pass", None, Some(lenders))));
    assert Run(input, h).phase == AwaitRelease(lenders);
    h := Extend(input, h, HoldReleased);
  }

  /** The runs the safety result speaks about exist: one is held, released, submitted and gets an offer. */
  lemma OfferIsReachable(input: Input, lenders: seq<string>, offer: Document) returns (h: seq<Event>)
    requires lenders != [] && offer != map[]
    ensures Legal(input, h) && Run(input, h).phase == Completed(OfferReceived(Some(offer), lenders))
    ensures StartTimer(72) in Run(input, h).commands && StartTimer(24) in Run(input, h).commands
    ensures SubmitToLender(input.applicationId, lenders) in Run(input, h).commands
  {
    h := SubmittedIsReachable(input, lenders);
    h := Extend(input, h, ActivityCompleted(Submitted(false, None)));
    h := Extend(input, h, ActivityCompleted(OcenSubmitted));
    h := Extend(input, h, LenderResponded(LenderResponse(Some(offer), None)));
  }

  // ------------------------------------------------------------------------------------------
  // With the activities the worker registers
  // ------------------------------------------------------------------------------------------

  /** `fetch_aa_data`, given the status the account aggregator reports for the consent. */
  function FetchAaDataActivity(gstin: string, consentStatus: string): ActivityResult {
    if gstin == "" then AaFetched(false)
    else if consentStatus != "approved" then AaFetched(false)
    else AaFetched(true)
  }

  /** `evaluate_decision` when the workflow passes no context, as it always does. */
  function EvaluateWithoutContext(): ActivityResult {
    Evaluated("pass", Some("no_ruleset_or_context"), Some([]))
  }

  /** Every account-aggregator answer in the history came from the shipped activity. */
  ghost predicate AaAnswersShipped(input: Input, h: seq<Event>) {
    forall e :: e in h && e.ActivityCompleted? && e.result.AaFetched? ==>
      exists status: string :: e.result == FetchAaDataActivity(input.Gstin(), status)
  }

  predicate DecisionsShipped(h: seq<Event>) {
    forall e :: e in h && e.ActivityCompleted? && e.result.Evaluated? ==> e.result == EvaluateWithoutContext()
  }

  /** The gates an application without a GSTIN can be turned down at. */
  function GatesUpToAa(input: Input): set<string> {
    (if input.Principal() != "" then {"dpdp_consent"} else {}) + {"d0_kind1_gate", "aa_fetch"}
  }

  /**
   Without a GSTIN, which a bare application id never carries, no run leaves the account-aggregator
   gate: it fails there at the latest, or it was turned down before.
   */
  lemma NoGstinNeverPassesAa(input: Input, h: seq<Event>)
    requires Legal(input, h) && input.Gstin() == "" && AaAnswersShipped(input, h)
    ensures !HasSubmitted(Run(input, h).commands)
    ensures Run(input, h).phase.Completed? ==>
              Run(input, h).phase.outcome.Rejected? && Run(input, h).phase.outcome.gate in GatesUpToAa(input)
    ensures Run(input, h).phase in {AwaitStage(Consent), AwaitStage(D0), AwaitStage(AaFetch), Failed} ||
            Run(input, h).phase.Completed?
  {
    PhaseHolds(input, h);
    AaNeverPasses(input, h);
    StuckBeforeAa(input, Completions(h), LastResponse(h), Run(input, h).phase);
    forall j | 0 <= j <= |h| ensures !Ready(input, h[..j]) {
      AaNeverPasses(input, h[..j]);
    }
    SubmittedIffReady(input, h);
  }

  /** Where a run can stand, and end, when the account-aggregator gate has not passed. */
  lemma StuckBeforeAa(input: Input, c: seq<Event>, last: Option<LenderResponse>, phase: Phase)
    requires PhaseFits(input, c, last, phase)
    requires !AllPass(input, c, if input.Principal() != "" then 3 else 2)
    ensures phase in {AwaitStage(Consent), AwaitStage(D0), AwaitStage(AaFetch), Failed} || phase.Completed?
    ensures phase.Completed? ==> phase.outcome.Rejected? && phase.outcome.gate in GatesUpToAa(input)
  {
    var a, gates: nat := if input.Principal() != "" then 2 else 1, if input.Principal() != "" then 3 else 2;
    AaStage(input, a);
    assert forall k: nat :: AllPass(input, c, k) ==> k < gates;
    if phase.Completed? {
      FirstFailureIs(input, c, |c| - 1);
      assert phase.outcome == Rejection(Stages(input)[|c| - 1], c[|c| - 1].result);
    }
  }

  lemma AaStage(input: Input, a: nat)
    requires a == if input.Principal() != "" then 2 else 1
    ensures |Stages(input)| == a + 4 && Stages(input)[a] == AaFetch
    ensures forall k :: 0 <= k < a ==> Stages(input)[k] in {Consent, D0}
    ensures forall k :: 0 <= k < |Stages(input)| && Stages(input)[k] == Consent ==> input.Principal() != ""
  {
  }

  lemma AaNeverPasses(input: Input, h: seq<Event>)
    requires input.Gstin() == "" && AaAnswersShipped(input, h)
    ensures !AllPass(input, Completions(h), if input.Principal() != "" then 3 else 2) && !Ready(input, h)
  {
    var c, a := Completions(h), if input.Principal() != "" then 2 else 1;
    AaStage(input, a);
    if |c| > a {
      assert c[a] in c;
      CompletionsComeFromHistory(h, c[a]);
      assert !Passes(AaFetch, c[a]);
    }
  }

  /** With the shipped activity the gate passes exactly with a GSTIN and an approved consent. */
  lemma AaPassesExactly(input: Input, h: seq<Event>, status: string)
    requires Run(input, h).phase == AwaitStage(AaFetch)
    ensures var after := Run(input, h + [ActivityCompleted(FetchAaDataActivity(input.Gstin(), status))]).phase;
      if input.Structured? && |input.vendorGstin| > 0 && status == "approved" then after == AwaitStage(D1)
      else after == Completed(Rejected("aa_fetch", "aa_consent_denied_or_timeout"))
  {
    RunSnoc(input, h, ActivityCompleted(FetchAaDataActivity(input.Gstin(), status)));
  }

  /**
   The workflow hands its decision activity no context, so with the shipped activity D0 and D1 never
   reject, D3 matches nobody, and nothing is ever submitted.
   */
  lemma ShippedDecisionsNeverSubmit(input: Input, h: seq<Event>)
    requires Legal(input, h) && DecisionsShipped(h)
    ensures !HasSubmitted(Run(input, h).commands)
    ensures var phase := Run(input, h).phase;
      phase.Completed? ==>
        phase.outcome.Rejected? &&
        (phase.outcome.gate in {"dpdp_consent", "aa_fetch"} ||
         phase.outcome == Rejected("d3_lender_prescreen", "no_eligible_lenders"))
  {
    PhaseHolds(input, h);
    ShippedNeverAllPass(input, h);
    if Run(input, h).phase.Completed? {
      ShippedOutcome(input, Completions(h), LastResponse(h), Run(input, h).phase);
    }
    forall j | 0 <= j <= |h| ensures !Ready(input, h[..j]) {
      ShippedNeverAllPass(input, h[..j]);
    }
    SubmittedIffReady(input, h);
  }

  lemma ShippedNeverAllPass(input: Input, h: seq<Event>)
    requires DecisionsShipped(h)
    ensures !AllPass(input, Completions(h), |Stages(input)|)
    ensures forall e :: e in Completions(h) && e.ActivityCompleted? && e.result.Evaluated? ==>
      e.result.outcome == "pass" && e.result.matchedLenders == Some([])
  {
    var c, n := Completions(h), |Stages(input)|;
    forall e | e in c ensures e in h {
      CompletionsComeFromHistory(h, e);
    }
    if |c| >= n {
      assert c[n - 1] in c && Stages(input)[n - 1] == D3;
      assert !Passes(D3, c[n - 1]);
    }
  }

  lemma ShippedOutcome(input: Input, c: seq<Event>, last: Option<LenderResponse>, phase: Phase)
    requires PhaseFits(input, c, last, phase) && phase.Completed? && !AllPass(input, c, |Stages(input)|)
    requires forall e :: e in c && e.ActivityCompleted? && e.result.Evaluated? ==> e.result.outcome == "pass"
    ensures phase.outcome.Rejected?
    ensures phase.outcome.gate in {"dpdp_consent", "aa_fetch"} ||
            phase.outcome == Rejected("d3_lender_prescreen", "no_eligible_lenders")
  {
    var k := |c| - 1;
    FirstFailureIs(input, c, k);
    assert c[k] in c;
    assert phase.outcome == Rejection(Stages(input)[k], c[k].result);
  }
}
