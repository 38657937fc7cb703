/**
 The loan origination saga as a step function over the workflow history.

 A history is the sequence of things the workflow host delivers: completions of the activity or
 timed wait the workflow is suspended on, and signals, which may arrive at any moment.  Each `await`
 of the workflow body is one `Phase`; `Step` says what the body does between two awaits.
 */
module LoanSaga {
  import opened Wrappers

  /** A JSON object.  Python treats the empty one as false. */
  type Document = map<string, string>

  /** `run` accepts the structured input and, for old callers, a bare application id. */
  datatype Input =
    | Structured(applicationId: string, dataPrincipalId: string, vendorGstin: string)
    | Legacy(applicationId: string)
  {
    function Principal(): string {
      if Structured? then dataPrincipalId else ""
    }

    function Gstin(): string {
      if Structured? then vendorGstin else ""
    }
  }

  datatype ActivityResult =
    | ConsentChecked(allowed: bool, reason: Option<string>)
    | Evaluated(outcome: string, reason: Option<string>, matchedLenders: Option<seq<string>>)
    | AaFetched(dataReceived: bool)
    | Submitted(offerReceived: bool, offer: Option<Document>)
    | OcenSubmitted

  datatype LenderResponse = LenderResponse(offer: Option<Document>, reason: Option<string>)

  datatype Event =
    | ActivityCompleted(result: ActivityResult)
    | ActivityFailed  // retries exhausted: the exception leaves `run`
    | TimerFired
    | LenderResponded(response: LenderResponse)
    | HoldRequested(reason: string)
    | HoldReleased
  {
    predicate IsSignal() {
      LenderResponded? || HoldRequested? || HoldReleased?
    }

    predicate IsHoldSignal() {
      HoldRequested? || HoldReleased?
    }
  }

  /** The activities that come before submission, in the order `run` awaits them. */
  datatype Stage = Consent | D0 | AaFetch | D1 | D2 | D3

  datatype Command =
    | CheckConsent(applicationId: string, principal: string, purposes: seq<string>)
    | EvaluateDecision(applicationId: string, gate: string, ruleset: string)
    | FetchAaData(applicationId: string, gstin: string, principal: string)
    | SubmitToLender(applicationId: string, lenders: seq<string>)
    | SubmitOcenLoanRequest(applicationId: string)
    | StartTimer(hours: nat)
  {
    predicate IsActivity() {
      !StartTimer?
    }
  }

  datatype Outcome =
    | Rejected(gate: string, reason: string)
    | OfferReceived(offer: Option<Document>, lenders: seq<string>)

  datatype Phase =
    | AwaitStage(stage: Stage)
    | AwaitRelease(lenders: seq<string>)
    | AwaitSubmit(lenders: seq<string>)
    | AwaitOcen(lenders: seq<string>, offerReceived: bool, offer: Option<Document>)
    | AwaitLender(lenders: seq<string>)
    | Completed(outcome: Outcome)
    | Failed
  {
    predicate Closed() {
      Completed? || Failed?
    }

    predicate AwaitsActivity() {
      AwaitStage? || AwaitSubmit? || AwaitOcen?
    }

    predicate AwaitsTimer() {
      AwaitRelease? || AwaitLender?
    }
  }

  datatype State = State(
    phase: Phase,
    lenderResponse: Option<LenderResponse>,
    opsHold: bool,
    opsHoldReason: string,
    commands: seq<Command>)

  function StageCommand(input: Input, stage: Stage): Command {
    var app := input.applicationId;
    match stage
    case Consent => CheckConsent(app, input.Principal(), ["loan_origination", "kind1_attestation"])
    case D0 => EvaluateDecision(app, "d0_kind1_gate", "d0-kind1-gate")
    case AaFetch => FetchAaData(app, input.Gstin(), input.Principal())
    case D1 => EvaluateDecision(app, "d1_data_sufficiency", "d1-data-sufficiency")
    case D2 => EvaluateDecision(app, "d2_derived_attributes", "d2-derived-flags")
    case D3 => EvaluateDecision(app, "d3_lender_prescreen", "d3-lender-prescreen")
  }

  /** What the host may deliver while the workflow is suspended in `phase`. */
  predicate Enabled(phase: Phase, e: Event) {
    match e
    case ActivityCompleted(r) =>
      (match phase
       case AwaitStage(Consent) => r.ConsentChecked?
       case AwaitStage(AaFetch) => r.AaFetched?
       case AwaitStage(_) => r.Evaluated?
       case AwaitSubmit(_) => r.Submitted?
       case AwaitOcen(_, _, _) => r.OcenSubmitted?
       case _ => false)
    case ActivityFailed => phase.AwaitsActivity()
    case TimerFired => phase.AwaitsTimer()
    case _ => !phase.Closed()
  }

  function Init(input: Input): State {
    var first := if input.Principal() != "" then Consent else D0;
    State(AwaitStage(first), None, false, "", [StageCommand(input, first)])
  }

  function GoTo(input: Input, s: State, stage: Stage): State {
    s.(phase := AwaitStage(stage), commands := s.commands + [StageCommand(input, stage)])
  }

  function Reject(s: State, gate: string, reason: string): State {
    s.(phase := Completed(Rejected(gate, reason)))
  }

  function Submit(input: Input, s: State, lenders: seq<string>): State {
    s.(phase := AwaitSubmit(lenders), commands := s.commands + [SubmitToLender(input.applicationId, lenders)])
  }

  /** D3 matched lenders: wait up to 72 hours for a raised ops hold, otherwise submit. */
  function AfterPrescreen(input: Input, s: State, lenders: seq<string>): State {
    if s.opsHold then s.(phase := AwaitRelease(lenders), commands := s.commands + [StartTimer(72)])
    else Submit(input, s, lenders)
  }

  function LenderVerdict(response: LenderResponse, lenders: seq<string>): Outcome {
    if response.offer.Some? && response.offer.value != map[] then OfferReceived(response.offer, lenders)
    else Rejected("d4_lender_underwriting", response.reason.GetOr("lender_declined"))
  }

  /** Both submissions are acknowledged: use the immediate offer, else a lender response. */
  function AfterOcen(s: State, lenders: seq<string>, offerReceived: bool, offer: Option<Document>): State {
    if offerReceived then s.(phase := Completed(OfferReceived(offer, lenders)))
    else if s.lenderResponse.Some? then s.(phase := Completed(LenderVerdict(s.lenderResponse.value, lenders)))
    else s.(phase := AwaitLender(lenders), commands := s.commands + [StartTimer(24)])
  }

  function StageDone(input: Input, s: State, stage: Stage, r: ActivityResult): State
    requires Enabled(AwaitStage(stage), ActivityCompleted(r))
  {
    match stage
    case Consent =>
      if !r.allowed then Reject(s, "dpdp_consent", r.reason.GetOr("consent_not_granted")) else GoTo(input, s, D0)
    case D0 =>
      if r.outcome == "fail" then Reject(s, "d0_kind1_gate", r.reason.GetOr("kind1_conditions_not_met"))
      else GoTo(input, s, AaFetch)
    case AaFetch =>
      if !r.dataReceived then Reject(s, "aa_fetch", "aa_consent_denied_or_timeout") else GoTo(input, s, D1)
    case D1 =>
      if r.outcome == "fail" then Reject(s, "d1_data_sufficiency", r.reason.GetOr("insufficient_data"))
      else GoTo(input, s, D2)
    case D2 => GoTo(input, s, D3)
    case D3 =>
      var lenders := r.matchedLenders.GetOr([]);
      if lenders == [] then Reject(s, "d3_lender_prescreen", "no_eligible_lenders")
      else AfterPrescreen(input, s, lenders)
  }

  /** One history event.  An event the workflow is not waiting for changes nothing. */
  function Step(input: Input, s: State, e: Event): State {
    if !Enabled(s.phase, e) then s
    else
      match e
      case HoldRequested(reason) => s.(opsHold := true, opsHoldReason := reason)
      case HoldReleased =>
        var t := s.(opsHold := false, opsHoldReason := "");
        if s.phase.AwaitRelease? then Submit(input, t, s.phase.lenders) else t
      case LenderResponded(response) =>
        var t := s.(lenderResponse := Some(response));
        if s.phase.AwaitLender? then t.(phase := Completed(LenderVerdict(response, s.phase.lenders))) else t
      case ActivityFailed => s.(phase := Failed)
      case TimerFired =>
        if s.phase.AwaitRelease? then Reject(s, "ops_hold", "ops_hold_expired")
        else Reject(s, "d4_lender_underwriting", "lender_response_timeout")
      case ActivityCompleted(r) =>
        match s.phase
        case AwaitStage(stage) => StageDone(input, s, stage, r)
        case AwaitSubmit(lenders) =>
          s.(phase := AwaitOcen(lenders, r.offerReceived, r.offer),
             commands := s.commands + [SubmitOcenLoanRequest(input.applicationId)])
        case AwaitOcen(lenders, offerReceived, offer) => AfterOcen(s, lenders, offerReceived, offer)
  }

  function Run(input: Input, h: seq<Event>): State {
    if h == [] then Init(input) else Step(input, Run(input, h[..|h| - 1]), h[|h| - 1])
  }

  /** Every event was one the workflow could receive where it stands in the history. */
  predicate Legal(input: Input, h: seq<Event>) {
    h == [] ||
    (Legal(input, h[..|h| - 1]) && Enabled(Run(input, h[..|h| - 1]).phase, h[|h| - 1]))
  }

  function RunFrom(input: Input, s: State, q: seq<Event>): State
    decreases |q|
  {
    if q == [] then s else RunFrom(input, Step(input, s, q[0]), q[1..])
  }

  predicate LegalFrom(input: Input, s: State, q: seq<Event>)
    decreases |q|
  {
    q == [] || (Enabled(s.phase, q[0]) && LegalFrom(input, Step(input, s, q[0]), q[1..]))
  }

  /** A replay can be picked up where an earlier one stopped. */
  lemma {:induction false} RunResumes(input: Input, h: seq<Event>, q: seq<Event>)
    ensures Run(input, h + q) == RunFrom(input, Run(input, h), q)
    ensures Legal(input, h + q) <==> Legal(input, h) && LegalFrom(input, Run(input, h), q)
    decreases |q|
  {
    if q == [] {
      assert h + q == h;
    } else {
      assert h + q == (h + [q[0]]) + q[1..];
      RunSnoc(input, h, q[0]);
      RunResumes(input, h + [q[0]], q[1..]);
    }
  }

  lemma RunSnoc(input: Input, h: seq<Event>, e: Event)
    ensures Run(input, h + [e]) == Step(input, Run(input, h), e)
    ensures Legal(input, h + [e]) <==> Legal(input, h) && Enabled(Run(input, h).phase, e)
  {
    assert (h + [e])[..|h + [e]| - 1] == h;
  }

  /**
   The workflow object.  Its signal handlers overwrite fields at any time; `run` advances from await
   to await and reads those fields.  The ghost history ties the object to the step function.
   */
  class LoanOriginationWorkflow {
    const input: Input
    var phase: Phase
    var lenderResponse: Option<LenderResponse>
    var opsHold: bool
    var opsHoldReason: string
    var commands: seq<Command>
    ghost var history: seq<Event>

    ghost function Snapshot(): State
      reads this
    {
      State(phase, lenderResponse, opsHold, opsHoldReason, commands)
    }

    ghost predicate Valid()
      reads this
    {
      Snapshot() == Run(input, history)
    }

    constructor (input: Input)
      ensures Valid() && this.input == input && history == []
    {
      this.input := input;
      var first := if input.Principal() != "" then Consent else D0;
      phase := AwaitStage(first);
      lenderResponse, opsHold, opsHoldReason := None, false, "";
      commands := [StageCommand(input, first)];
      history := [];
    }

    method LenderResponseReceived(response: LenderResponse)
      requires Valid() && Enabled(phase, LenderResponded(response))
      modifies this
      ensures Valid() && history == old(history) + [LenderResponded(response)]
    {
      RunSnoc(input, history, LenderResponded(response));
      history := history + [LenderResponded(response)];
      lenderResponse := Some(response);
      if phase.AwaitLender? {
        phase := Completed(LenderVerdict(response, phase.lenders));
      }
    }

    method OpsHoldRequested(reason: string)
      requires Valid() && Enabled(phase, HoldRequested(reason))
      modifies this
      ensures Valid() && history == old(history) + [HoldRequested(reason)]
    {
      RunSnoc(input, history, HoldRequested(reason));
      history := history + [HoldRequested(reason)];
      opsHold := true;
      opsHoldReason := reason;
    }

    method OpsHoldReleased()
      requires Valid() && Enabled(phase, HoldReleased)
      modifies this
      ensures Valid() && history == old(history) + [HoldReleased]
    {
      RunSnoc(input, history, HoldReleased);
      history := history + [HoldReleased];
      opsHold := false;
      opsHoldReason := "";
      if phase.AwaitRelease? {
        SubmitTo(phase.lenders);
      }
    }

    method TimeOut()
      requires Valid() && Enabled(phase, TimerFired)
      modifies this
      ensures Valid() && history == old(history) + [TimerFired]
    {
      RunSnoc(input, history, TimerFired);
      history := history + [TimerFired];
      if phase.AwaitRelease? {
        phase := Completed(Rejected("ops_hold", "ops_hold_expired"));
      } else {
        phase := Completed(Rejected("d4_lender_underwriting", "lender_response_timeout"));
      }
    }

    method FailActivity()
      requires Valid() && Enabled(phase, ActivityFailed)
      modifies this
      ensures Valid() && history == old(history) + [ActivityFailed]
    {
      RunSnoc(input, history, ActivityFailed);
      history := history + [ActivityFailed];
      phase := Failed;
    }

    /** Resumes `run` at the activity it is suspended on and advances it to the next await. */
    method CompleteActivity(r: ActivityResult)
      requires Valid() && Enabled(phase, ActivityCompleted(r))
      modifies this
      ensures Valid() && history == old(history) + [ActivityCompleted(r)]
    {
      RunSnoc(input, history, ActivityCompleted(r));
      history := history + [ActivityCompleted(r)];
      match phase {
        case AwaitStage(Consent) =>
          if !r.allowed {
            Finish(Rejected("dpdp_consent", r.reason.GetOr("consent_not_granted")));
          } else {
            Execute(D0);
          }
        case AwaitStage(D0) =>
          if r.outcome == "fail" {
            Finish(Rejected("d0_kind1_gate", r.reason.GetOr("kind1_conditions_not_met")));
          } else {
            Execute(AaFetch);
          }
        case AwaitStage(AaFetch) =>
          if !r.dataReceived {
            Finish(Rejected("aa_fetch", "aa_consent_denied_or_timeout"));
          } else {
            Execute(D1);
          }
        case AwaitStage(D1) =>
          if r.outcome == "fail" {
            Finish(Rejected("d1_data_sufficiency", r.reason.GetOr("insufficient_data")));
          } else {
            Execute(D2);
          }
        case AwaitStage(D2) =>
          Execute(D3);
        case AwaitStage(D3) =>
          var matched := r.matchedLenders.GetOr([]);
          if matched == [] {
            Finish(Rejected("d3_lender_prescreen", "no_eligible_lenders"));
          } else if opsHold {
            phase := AwaitRelease(matched);
            commands := commands + [StartTimer(72)];
          } else {
            SubmitTo(matched);
          }
        case AwaitSubmit(lenders) =>
          phase := AwaitOcen(lenders, r.offerReceived, r.offer);
          commands := commands + [SubmitOcenLoanRequest(input.applicationId)];
        case AwaitOcen(lenders, offerReceived, offer) =>
          if offerReceived {
            Finish(OfferReceived(offer, lenders));
          } else if lenderResponse.Some? {
            Finish(LenderVerdict(lenderResponse.value, lenders));
          } else {
            phase := AwaitLender(lenders);
            commands := commands + [StartTimer(24)];
          }
      }
    }

    method Execute(stage: Stage)
      modifies this`phase, this`commands
      ensures phase == AwaitStage(stage)
      ensures commands == old(commands) + [StageCommand(input, stage)]
    {
      phase := AwaitStage(stage);
      commands := commands + [StageCommand(input, stage)];
    }

    method SubmitTo(lenders: seq<string>)
      modifies this`phase, this`commands
      ensures phase == AwaitSubmit(lenders)
      ensures commands == old(commands) + [SubmitToLender(input.applicationId, lenders)]
    {
      phase := AwaitSubmit(lenders);
      commands := commands + [SubmitToLender(input.applicationId, lenders)];
    }

    method Finish(outcome: Outcome)
      modifies this`phase
      ensures phase == Completed(outcome)
    {
      phase := Completed(outcome);
    }

    /** Whatever the host delivers next. */
    method Deliver(e: Event)
      requires Valid() && Enabled(phase, e)
      modifies this
      ensures Valid() && history == old(history) + [e]
    {
      match e {
        case ActivityCompleted(r) => CompleteActivity(r);
        case ActivityFailed => FailActivity();
        case TimerFired => TimeOut();
        case LenderResponded(response) => LenderResponseReceived(response);
        case HoldRequested(reason) => OpsHoldRequested(reason);
        case HoldReleased => OpsHoldReleased();
      }
    }
  }

  /** The worker rebuilds a workflow by feeding it its history from the start. */
  method Replay(input: Input, h: seq<Event>) returns (w: LoanOriginationWorkflow)
    requires Legal(input, h)
    ensures fresh(w) && w.Valid() && w.input == input && w.history == h
  {
    w := new LoanOriginationWorkflow(input);
    for i := 0 to |h|
      invariant fresh(w) && w.Valid() && w.input == input && w.history == h[..i]
    {
      LegalPrefix(input, h, i + 1);
      assert h[..i + 1] == h[..i] + [h[i]];
      RunSnoc(input, h[..i], h[i]);
      w.Deliver(h[i]);
    }
    assert h[..|h|] == h;
  }

  lemma {:induction false} LegalPrefix(input: Input, h: seq<Event>, k: nat)
    requires Legal(input, h) && k <= |h|
    ensures Legal(input, h[..k])
  {
    if k == |h| {
      assert h[..k] == h;
    } else {
      LegalPrefix(input, h[..|h| - 1], k);
      assert h[..|h| - 1][..k] == h[..k];
    }
  }
}
