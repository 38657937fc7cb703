/**
 The breach-detection consumer: one sliding window per rule, pruned on every read, replaced after a
 workflow has been started.
 */
module BreachConsumer {
  import opened Wrappers
  import opened SlidingWindows

  /** A detection rule of the configuration. */
  datatype Rule = Rule(threshold: int, windowMinutes: int) {
    function Seconds(): real {
      (windowMinutes * 60) as real
    }
  }

  /**
   A window of one rule.  The ghost history keeps every event added since the window was created; `events` is
   that history, pruned no later than any window still to come.
   */
  class SlidingWindow {
    const windowSeconds: real
    const threshold: int
    ghost const rule: string
    var events: seq<real>
    ghost var history: seq<real>
    ghost var cutoff: real
    ghost var clock: real

    ghost predicate Valid()
      reads this
    {
      && events == After(history, cutoff)
      && (history != [] ==> NoneLaterThan(history, clock) && cutoff <= clock - windowSeconds)
    }

    constructor (ghost rule: string, windowSeconds: real, threshold: int)
      ensures Valid() && this.rule == rule && this.windowSeconds == windowSeconds && this.threshold == threshold
      ensures events == [] && history == []
    {
      this.windowSeconds, this.threshold, events := windowSeconds, threshold, [];
      this.rule, history := rule, [];
    }

    /** A missing or zero timestamp means the clock. */
    method Add(timestamp: Option<real>, time: real) returns (breached: bool)
      requires Valid()
      requires history != [] ==>
        clock <= if timestamp.Some? && timestamp.value != 0.0 then timestamp.value else time
      modifies this
      ensures Valid()
      ensures clock == if timestamp.Some? && timestamp.value != 0.0 then timestamp.value else time
      ensures history == old(history) + [clock]
      ensures breached <==> CountIn(history, clock - windowSeconds, clock) >= threshold
    {
      hide CountIn;
      var now := if timestamp.Some? && timestamp.value != 0.0 then timestamp.value else time;
      var cutoff' := now - windowSeconds;
      if history == [] {
        AfterSnoc([], now, cutoff');
      } else {
        PruneAppended(history, cutoff, now, cutoff');
      }
      history := history + [now];
      PrunedCounts(history, cutoff', now);
      events := events + [now];
      events := After(events, cutoff');
      cutoff, clock := cutoff', now;
      breached := |events| >= threshold;
    }

    /** Reading the count prunes the window. */
    method Count(now: real) returns (count: nat)
      requires Valid() && (history != [] ==> clock <= now)
      modifies this
      ensures Valid() && clock == now && history == old(history)
      ensures count == CountIn(history, now - windowSeconds, now)
    {
      var cutoff' := now - windowSeconds;
      if history != [] {
        PruneAgain(history, cutoff, cutoff');
        PrunedCounts(history, cutoff', now);
      }
      events := After(events, cutoff');
      cutoff, clock := cutoff', now;
      count := |events|;
    }

    /** What one event does to its window: `add`, and on a breach two reads of the count. */
    method Observe(at: Readings) returns (breached: bool, eventCount: nat)
      requires Valid() && at.Ordered() && (history != [] ==> clock <= at.added)
      modifies this
      ensures Valid() && history == old(history) + [at.added]
      ensures clock <= at.sent
      ensures breached <==> CountIn(history, at.added - windowSeconds, at.added) >= threshold
      ensures breached ==> eventCount == CountIn(history, at.sent - windowSeconds, at.sent)
    {
      breached := Add(None, at.added);
      eventCount := 0;
      if breached {
        var _ := Count(at.logged);
        eventCount := Count(at.sent);
      }
    }
  }

  function MapEventToRule(eventType: string): Option<string> {
    if eventType == "bulk_pii_access" then Some("bulk_access")
    else if eventType == "pii_export" then Some("export_without_dsr")
    else if eventType == "auth_failed" then Some("failed_auth")
    else None
  }

  /** The event types that count, each for the rule it counts for. */
  const COUNTED: set<(string, string)> :=
    {("bulk_pii_access", "bulk_access"), ("pii_export", "export_without_dsr"), ("auth_failed", "failed_auth")}

  lemma CountedAreMapped(eventType: string, name: string)
    ensures MapEventToRule(eventType) == Some(name) <==> (eventType, name) in COUNTED
  {
  }

  /** The clock readings of one message: at `add`, at the count that is logged, at the count that is sent. */
  datatype Readings = Readings(added: real, logged: real, sent: real) {
    predicate Ordered() {
      added <= logged <= sent
    }
  }

  datatype Alert = NoAlert | StartedWith(eventCount: nat) | StartFailed

  /** `detect_breaches` for a rule the configuration knows. */
  predicate Confirms(rule: Rule, eventCount: nat) {
    eventCount >= rule.threshold
  }

  /** What the consumer would answer if it kept every event of the rule since the last reset. */
  predicate Breached(rule: Rule, since: seq<real>, now: real) {
    CountIn(since, now - rule.Seconds(), now) >= rule.threshold
  }

  /** The answer to one event, given the rule's events since the last reset, this one included. */
  predicate Answers(rule: Rule, since: seq<real>, at: Readings, starts: bool, alert: Alert) {
    && (alert.NoAlert? <==> !Breached(rule, since, at.added))
    && (alert.StartFailed? <==> Breached(rule, since, at.added) && !starts)
    && (alert.StartedWith? ==> alert.eventCount == CountIn(since, at.sent - rule.Seconds(), at.sent))
  }

  /** A message of the audit topic, as it is handled; `starts` says whether a workflow start would succeed. */
  datatype Message = Message(eventType: string, at: Readings, starts: bool)

  predicate InOrder(messages: seq<Message>) {
    && (forall i :: 0 <= i < |messages| ==> messages[i].at.Ordered())
    && (forall i, j :: 0 <= i < j < |messages| ==> messages[i].at.sent <= messages[j].at.added)
  }

  /** The full record of one rule: its events since the last reset, the alerts started, all its events. */
  datatype Ledger = Ledger(since: seq<real>, alerts: nat, total: nat)

  /** One more event of the rule; `starts` says whether a workflow start would succeed. */
  function Recorded(rule: Rule, ledger: Ledger, now: real, starts: bool): Ledger {
    var since := ledger.since + [now];
    if Breached(rule, since, now) && starts then Ledger([], ledger.alerts + 1, ledger.total + 1)
    else Ledger(since, ledger.alerts, ledger.total + 1)
  }

  class Consumer {
    const rules: map<string, Rule>
    var windows: map<string, SlidingWindow>

    ghost predicate Valid()
      reads this, windows.Values
    {
      && windows.Keys == rules.Keys
      && (forall r :: r in windows ==>
            windows[r].Valid() && windows[r].rule == r &&
            windows[r].windowSeconds == rules[r].Seconds() && windows[r].threshold == rules[r].threshold)
    }

    /** No window has seen a clock reading later than `now`. */
    ghost predicate UpTo(now: real)
      reads this, windows.Values
    {
      forall r :: r in windows && windows[r].history != [] ==> windows[r].clock <= now
    }

    /** The rule's events since its window was last replaced. */
    ghost function Since(name: string): seq<real>
      requires name in windows
      reads this, windows.Values
    {
      windows[name].history
    }

    constructor (rules: map<string, Rule>)
      ensures Valid() && this.rules == rules && fresh(windows.Values)
      ensures forall r :: r in rules ==> Since(r) == []
    {
      var built: map<string, SlidingWindow> := map[];
      var left := rules.Keys;
      while left != {}
        invariant left <= rules.Keys && built.Keys == rules.Keys - left
        invariant forall r :: r in built ==> fresh(built[r])
        invariant forall r :: r in built ==>
          built[r].windowSeconds == rules[r].Seconds() && built[r].threshold == rules[r].threshold &&
          built[r].Valid() && built[r].rule == r && built[r].history == []
        decreases left
      {
        var r :| r in left;
        var w := new SlidingWindow(r, rules[r].Seconds(), rules[r].threshold);
        built := built[r := w];
        left := left - {r};
      }
      this.rules := rules;
      windows := built;
    }

    /** A started workflow empties the window by putting a new one in its place. */
    method Reset(name: string, ghost now: real)
      requires Valid() && name in windows && UpTo(now)
      modifies this`windows
      ensures Valid() && UpTo(now) && fresh(windows[name])
      ensures Since(name) == [] && windows.Keys == old(windows.Keys)
      ensures forall q :: q in rules && q != name ==> windows[q] == old(windows)[q] && Since(q) == old(Since(q))
    {
      var w := new SlidingWindow(name, rules[name].Seconds(), rules[name].threshold);
      windows := windows[name := w];
    }

    /** Adds one event to the window of its rule, and reads the count on a breach. */
    method Observe(name: string, at: Readings) returns (breached: bool, eventCount: nat)
      requires Valid() && at.Ordered() && name in windows
      requires UpTo(at.added)
      modifies windows[name]
      ensures Valid()
      ensures UpTo(at.sent)
      ensures windows == old(windows) && forall q :: q in rules && q != name ==> Since(q) == old(Since(q))
      ensures var r, since := rules[name], old(Since(name)) + [at.added];
        && Since(name) == since
        && (breached <==> Breached(r, since, at.added))
        && (breached ==> eventCount == CountIn(since, at.sent - r.Seconds(), at.sent))
    {
      var w := windows[name];
      breached, eventCount := w.Observe(at);
    }

    /** One event of a rule.  A failed start raises, and the window stays as it is. */
    method Process(name: string, at: Readings, starts: bool) returns (alert: Alert)
      requires Valid() && at.Ordered() && name in windows
      requires UpTo(at.added)
      modifies this`windows, windows[name]
      ensures Valid()
      ensures UpTo(at.sent)
      ensures forall q :: q in rules && q != name ==> Since(q) == old(Since(q))
      ensures forall q :: q in windows ==> windows[q] == old(windows)[q] || fresh(windows[q])
      ensures var since := old(Since(name)) + [at.added];
        Answers(rules[name], since, at, starts, alert) && Since(name) == if alert.StartedWith? then [] else since
    {
      var breached, eventCount := Observe(name, at);
      if !breached {
        return NoAlert;
      }
      if !starts {
        return StartFailed;
      }
      Reset(name, at.sent);
      alert := StartedWith(eventCount);
    }

    /** One message of the audit topic.  Windows of other rules are not touched. */
    method Handle(m: Message) returns (alert: Alert)
      requires Valid() && m.at.Ordered()
      requires UpTo(m.at.added)
      modifies this, windows.Values
      ensures Valid()
      ensures UpTo(m.at.sent)
      ensures forall q :: q in windows ==> windows[q] == old(windows)[q] || fresh(windows[q])
      ensures forall q :: q in rules && MapEventToRule(m.eventType) != Some(q) ==> Since(q) == old(Since(q))
      ensures forall q :: q in rules && MapEventToRule(m.eventType) == Some(q) ==>
        var since := old(Since(q)) + [m.at.added];
        Answers(rules[q], since, m.at, m.starts, alert) && Since(q) == if alert.StartedWith? then [] else since
      ensures alert.NoAlert? || exists q :: q in rules && MapEventToRule(m.eventType) == Some(q)
      ensures forall q :: q in rules && (m.eventType, q) !in COUNTED ==> Since(q) == old(Since(q))
      ensures alert.NoAlert? || exists q :: q in rules && (m.eventType, q) in COUNTED
    {
      forall q ensures MapEventToRule(m.eventType) == Some(q) <==> (m.eventType, q) in COUNTED {
        CountedAreMapped(m.eventType, q);
      }
      var ruleName := MapEventToRule(m.eventType);
      if ruleName.None? || ruleName.value !in windows {
        return NoAlert;
      }
      assert windows[ruleName.value] in windows.Values;
      alert := Process(ruleName.value, m.at, m.starts);
    }

    /** Every rule's window and its started alerts are what the full record of the messages says. */
    ghost predicate Follows(messages: seq<Message>, alerts: seq<Alert>)
      requires |alerts| == |messages|
      reads this, windows.Values
    {
      forall q :: q in rules && q in windows ==>
        Since(q) == LedgerFor(rules[q], q, messages).since &&
        Started(q, messages, alerts) == LedgerFor(rules[q], q, messages).alerts
    }

    /** Handles a message after others, and goes on following the full record. */
    method HandleNext(m: Message, ghost messages: seq<Message>, ghost alerts: seq<Alert>) returns (alert: Alert)
      requires Valid() && m.at.Ordered() && UpTo(m.at.added)
      requires |alerts| == |messages| && Follows(messages, alerts) && AllAnswered(rules, messages, alerts)
      modifies this, windows.Values
      ensures Valid() && UpTo(m.at.sent)
      ensures forall w :: w in windows.Values ==> w in old(windows.Values) || fresh(w)
      ensures Follows(messages + [m], alerts + [alert])
      ensures AllAnswered(rules, messages + [m], alerts + [alert])
    {
      alert := Handle(m);
      AnsweredSnoc(rules, messages, alerts, m, alert);
      forall q | q in rules && q in windows
        ensures Since(q) == LedgerFor(rules[q], q, messages + [m]).since
        ensures Started(q, messages + [m], alerts + [alert]) == LedgerFor(rules[q], q, messages + [m]).alerts
      {
        LedgerStep(rules[q], q, messages, alerts, m, alert);
      }
    }

    /**
     The consumer loop over the messages polled.  What it keeps are pruned windows; what it does is what
     the full record of each rule demands.
     */
    method Run(messages: seq<Message>) returns (alerts: seq<Alert>)
      requires Valid() && InOrder(messages) && (messages != [] ==> UpTo(messages[0].at.added))
      requires forall q :: q in windows ==> Since(q) == []
      modifies this, windows.Values
      ensures Valid() && |alerts| == |messages| && Follows(messages, alerts)
      ensures AllAnswered(rules, messages, alerts)
      ensures forall q :: q in rules ==> Started(q, messages, alerts) * rules[q].threshold <= |ArrivalsOf(q, messages)|
    {
      alerts := [];
      for i := 0 to |messages|
        invariant |alerts| == i && Valid() && Follows(messages[..i], alerts)
        invariant AllAnswered(rules, messages[..i], alerts)
        invariant i < |messages| ==> UpTo(messages[i].at.added)
        invariant forall w :: w in windows.Values ==> w in old(windows.Values) || fresh(w)
      {
        var alert := HandleNext(messages[i], messages[..i], alerts);
        assert messages[..i + 1] == messages[..i] + [messages[i]];
        assert i + 1 < |messages| ==> messages[i].at.sent <= messages[i + 1].at.added;
        alerts := alerts + [alert];
      }
      assert messages[..|messages|] == messages;
      forall q | q in rules ensures Started(q, messages, alerts) * rules[q].threshold <= |ArrivalsOf(q, messages)| {
        AlertsUseDisjointEvents(rules[q], ArrivalsOf(q, messages));
      }
    }
  }

  // ------------------------------------------------------------------------------------------
  // Whole runs
  // ------------------------------------------------------------------------------------------

  datatype Arrival = Arrival(time: real, starts: bool)

  function LedgerOf(rule: Rule, arrivals: seq<Arrival>): Ledger {
    if arrivals == [] then Ledger([], 0, 0)
    else
      var last := arrivals[|arrivals| - 1];
      Recorded(rule, LedgerOf(rule, arrivals[..|arrivals| - 1]), last.time, last.starts)
  }

  /** The events of one rule in the messages. */
  function ArrivalsOf(name: string, messages: seq<Message>): seq<Arrival> {
    if messages == [] then []
    else
      var m := messages[|messages| - 1];
      ArrivalsOf(name, messages[..|messages| - 1]) +
      if MapEventToRule(m.eventType) == Some(name) then [Arrival(m.at.added, m.starts)] else []
  }

  function LedgerFor(rule: Rule, name: string, messages: seq<Message>): Ledger {
    LedgerOf(rule, ArrivalsOf(name, messages))
  }

  /**
   The one answer to a message that the full record of the messages before it allows: which alert, with
   which count, or none.
   */
  predicate AnsweredTo(rules: map<string, Rule>, before: seq<Message>, m: Message, alert: Alert) {
    var name := MapEventToRule(m.eventType);
    if name.None? || name.value !in rules then alert.NoAlert?
    else
      var rule := rules[name.value];
      Answers(rule, LedgerFor(rule, name.value, before).since + [m.at.added], m.at, m.starts, alert)
  }

  predicate AllAnswered(rules: map<string, Rule>, messages: seq<Message>, alerts: seq<Alert>)
    requires |alerts| == |messages|
  {
    forall i :: 0 <= i < |messages| ==> AnsweredTo(rules, messages[..i], messages[i], alerts[i])
  }

  lemma AnsweredSnoc(
      rules: map<string, Rule>, messages: seq<Message>, alerts: seq<Alert>, m: Message, alert: Alert)
    requires |alerts| == |messages| && AllAnswered(rules, messages, alerts) && AnsweredTo(rules, messages, m, alert)
    ensures AllAnswered(rules, messages + [m], alerts + [alert])
  {
    var longer := messages + [m];
    forall i | 0 <= i < |longer| ensures AnsweredTo(rules, longer[..i], longer[i], (alerts + [alert])[i]) {
      assert longer[..i] == messages[..i];
      if i < |messages| {
        assert AnsweredTo(rules, messages[..i], messages[i], alerts[i]);
      } else {
        assert messages[..i] == messages;
      }
    }
  }

  /** The alerts started for one rule. */
  function Started(name: string, messages: seq<Message>, alerts: seq<Alert>): nat
    requires |alerts| == |messages|
  {
    if messages == [] then 0
    else
      var n := |messages| - 1;
      Started(name, messages[..n], alerts[..n]) +
      if MapEventToRule(messages[n].eventType) == Some(name) && alerts[n].StartedWith? then 1 else 0
  }

  /** One message and its answer move the full record of a rule on. */
  lemma LedgerStep(
      rule: Rule, name: string, messages: seq<Message>, alerts: seq<Alert>, m: Message, alert: Alert)
    requires |alerts| == |messages| && Started(name, messages, alerts) == LedgerFor(rule, name, messages).alerts
    requires MapEventToRule(m.eventType) == Some(name) ==>
      Answers(rule, LedgerFor(rule, name, messages).since + [m.at.added], m.at, m.starts, alert)
    ensures var since := LedgerFor(rule, name, messages).since;
      LedgerFor(rule, name, messages + [m]).since ==
        if MapEventToRule(m.eventType) != Some(name) then since
        else if alert.StartedWith? then [] else since + [m.at.added]
    ensures Started(name, messages + [m], alerts + [alert]) == LedgerFor(rule, name, messages + [m]).alerts
  {
    assert (messages + [m])[..|messages|] == messages && (alerts + [alert])[..|alerts|] == alerts;
    var arrivals := ArrivalsOf(name, messages);
    if MapEventToRule(m.eventType) == Some(name) {
      LedgerSnoc(rule, arrivals, Arrival(m.at.added, m.starts));
    } else {
      assert ArrivalsOf(name, messages + [m]) == arrivals + [] == arrivals;
    }
  }

  lemma LedgerSnoc(rule: Rule, arrivals: seq<Arrival>, a: Arrival)
    ensures LedgerOf(rule, arrivals + [a]) == Recorded(rule, LedgerOf(rule, arrivals), a.time, a.starts)
  {
    assert (arrivals + [a])[..|arrivals|] == arrivals;
  }

  predicate Backed(rule: Rule, l: Ledger) {
    l.alerts * rule.threshold + |l.since| <= l.total
  }

  lemma RecordedIsBacked(rule: Rule, l: Ledger, now: real, starts: bool)
    requires Backed(rule, l)
    ensures Backed(rule, Recorded(rule, l, now, starts))
  {
    CountAtMostLength(l.since + [now], now - rule.Seconds(), now);
    assert (l.alerts + 1) * rule.threshold == l.alerts * rule.threshold + rule.threshold;
  }

  /**
   No event backs two alerts: every started alert uses up at least `threshold` events of its own, and
   the events since the last one are still to be used.
   */
  lemma {:induction false} AlertsUseDisjointEvents(rule: Rule, arrivals: seq<Arrival>)
    ensures var l := LedgerOf(rule, arrivals);
      l.total == |arrivals| && l.alerts * rule.threshold + |l.since| <= |arrivals|
  {
    if arrivals != [] {
      var front, last := arrivals[..|arrivals| - 1], arrivals[|arrivals| - 1];
      AlertsUseDisjointEvents(rule, front);
      RecordedIsBacked(rule, LedgerOf(rule, front), last.time, last.starts);
    }
  }

  /** Prunes a window once for each reading, as reads of `count` do. */
  function ReadAt(events: seq<real>, seconds: real, readings: seq<real>): seq<real> {
    if readings == [] then events
    else After(ReadAt(events, seconds, readings[..|readings| - 1]), readings[|readings| - 1] - seconds)
  }

  /** However often the count was read before, the next `add` answers the same and leaves the same window. */
  lemma {:induction false} ReadsDoNotMatter(events: seq<real>, seconds: real, readings: seq<real>, now: real)
    requires forall i :: 0 <= i < |readings| ==> readings[i] <= now
    ensures After(ReadAt(events, seconds, readings) + [now], now - seconds) == After(events + [now], now - seconds)
  {
    if readings != [] {
      var front, last := readings[..|readings| - 1], readings[|readings| - 1];
      ReadsDoNotMatter(events, seconds, front, now);
      PruneAppended(ReadAt(events, seconds, front), last - seconds, now, now - seconds);
    }
  }

  /**
   A started workflow is confirmed exactly when the events counted at `add`, less those that expired
   before the count was read again, still reach the threshold.
   */
  lemma ConfirmationCountsExpiry(rule: Rule, since: seq<real>, added: real, sent: real)
    requires NoneLaterThan(since, added) && added <= sent
    ensures var seconds := rule.Seconds();
      Confirms(rule, CountIn(since, sent - seconds, sent)) <==>
      CountIn(since, added - seconds, added) - CountIn(since, added - seconds, sent - seconds) >= rule.threshold
  {
    var seconds := rule.Seconds();
    if seconds < 0.0 {
      NoneAfter(since, added, added - seconds, sent - seconds);
      NoneAfter(since, added, sent - seconds, sent);
      NoneAfter(since, added, added - seconds, added);
    } else {
      CountLater(since, added - seconds, added, sent);
      CountSplits(since, added - seconds, sent - seconds, sent);
    }
  }

  lemma {:induction false} NoneAfter(times: seq<real>, latest: real, lo: real, hi: real)
    requires NoneLaterThan(times, latest) && latest <= lo
    ensures CountIn(times, lo, hi) == 0
  {
    if times != [] {
      NoneAfter(times[..|times| - 1], latest, lo, hi);
    }
  }

  /** With no counted event expiring in between, every started workflow is confirmed. */
  lemma ConfirmedWhenNothingExpires(rule: Rule, since: seq<real>, added: real, sent: real)
    requires NoneLaterThan(since, added) && added <= sent && Breached(rule, since, added)
    requires CountIn(since, added - rule.Seconds(), sent - rule.Seconds()) == 0
    ensures Confirms(rule, CountIn(since, sent - rule.Seconds(), sent))
  {
    ConfirmationCountsExpiry(rule, since, added, sent);
  }

  lemma {:induction false} RecordIsEarlier(rule: Rule, name: string, messages: seq<Message>, now: real)
    requires forall i :: 0 <= i < |messages| ==> messages[i].at.added <= now
    ensures NoneLaterThan(LedgerFor(rule, name, messages).since, now)
  {
    if messages != [] {
      var front, m := messages[..|messages| - 1], messages[|messages| - 1];
      RecordIsEarlier(rule, name, front, now);
      if MapEventToRule(m.eventType) == Some(name) {
        LedgerSnoc(rule, ArrivalsOf(name, front), Arrival(m.at.added, m.starts));
      } else {
        assert ArrivalsOf(name, front) + [] == ArrivalsOf(name, front);
      }
    }
  }

  /**
   The alerts of a run that `detect_breaches` confirms: message i started a workflow, and it is
   confirmed exactly when the events of its rule since the last reset, less those that expired before
   the count was sent, still reach the threshold.
   */
  lemma AlertsConfirmedExactly(
      rules: map<string, Rule>, messages: seq<Message>, alerts: seq<Alert>, i: nat, name: string)
    requires InOrder(messages) && |alerts| == |messages| && AllAnswered(rules, messages, alerts)
    requires i < |messages| && alerts[i].StartedWith?
    requires MapEventToRule(messages[i].eventType) == Some(name)
    ensures name in rules
    ensures var rule, at := rules[name], messages[i].at;
      var since, seconds := LedgerFor(rule, name, messages[..i]).since + [at.added], rule.Seconds();
      && Breached(rule, since, at.added)
      && (Confirms(rule, alerts[i].eventCount) <==>
            CountIn(since, at.added - seconds, at.added) - CountIn(since, at.added - seconds, at.sent - seconds)
              >= rule.threshold)
  {
    var at := messages[i].at;
    RecordIsEarlier(rules[name], name, messages[..i], at.added);
    ConfirmationCountsExpiry(
      rules[name], LedgerFor(rules[name], name, messages[..i]).since + [at.added], at.added, at.sent);
  }

  // ------------------------------------------------------------------------------------------
  // Which events count for which rule
  // ------------------------------------------------------------------------------------------

  /** The messages of one event type, as arrivals. */
  function OfEvent(eventType: string, messages: seq<Message>): seq<Arrival> {
    if messages == [] then []
    else
      var m := messages[|messages| - 1];
      OfEvent(eventType, messages[..|messages| - 1]) +
      if m.eventType == eventType then [Arrival(m.at.added, m.starts)] else []
  }

  /** The event type whose messages a rule counts; no event counts for any other rule. */
  lemma {:induction false} RulesCountTheirEvents(name: string, messages: seq<Message>)
    ensures ArrivalsOf("bulk_access", messages) == OfEvent("bulk_pii_access", messages)
    ensures ArrivalsOf("export_without_dsr", messages) == OfEvent("pii_export", messages)
    ensures ArrivalsOf("failed_auth", messages) == OfEvent("auth_failed", messages)
    ensures name !in {"bulk_access", "export_without_dsr", "failed_auth"} ==> ArrivalsOf(name, messages) == []
  {
    RuleNames();
    if messages != [] {
      RulesCountTheirEvents(name, messages[..|messages| - 1]);
    }
  }

  lemma RuleNames()
    ensures |"bulk_access"| == |"failed_auth"| == 11 && "bulk_access"[0] == 'b' && "failed_auth"[0] == 'f'
    ensures |"export_without_dsr"| == 18
    ensures |"bulk_pii_access"| == 15 && |"pii_export"| == 10 && |"auth_failed"| == 11
  {
  }

  /** How many of the arrivals since the last alert, and the one at `added`, lie in the rule's minutes before `now`. */
  function CountInMinutes(rule: Rule, arrivals: seq<Arrival>, added: real, now: real): nat {
    CountIn(LedgerOf(rule, arrivals).since + [added], now - (60 * rule.windowMinutes) as real, now)
  }

  /**
   What a message is answered, event type by event type: an alert for the type's own rule exactly when the
   messages of that type since the rule's last alert, this one included, reach the rule's threshold
   within its minutes; nothing for any other type.
   */
  lemma AnswersByEventType(
      rules: map<string, Rule>, messages: seq<Message>, alerts: seq<Alert>, i: nat, eventType: string, name: string)
    requires |alerts| == |messages| && AllAnswered(rules, messages, alerts) && i < |messages|
    requires (eventType, name) in COUNTED
    ensures messages[i].eventType == eventType && name in rules ==>
      var rule, at, earlier := rules[name], messages[i].at, OfEvent(eventType, messages[..i]);
      var count := CountInMinutes(rule, earlier, at.added, at.added);
      && (alerts[i].NoAlert? <==> count < rule.threshold)
      && (alerts[i].StartFailed? <==> count >= rule.threshold && !messages[i].starts)
      && (alerts[i].StartedWith? ==> alerts[i].eventCount == CountInMinutes(rule, earlier, at.added, at.sent))
    ensures messages[i].eventType == eventType && name !in rules ==> alerts[i].NoAlert?
    ensures messages[i].eventType !in {"bulk_pii_access", "pii_export", "auth_failed"} ==> alerts[i].NoAlert?
  {
    RuleNames();
    RulesCountTheirEvents(name, messages[..i]);
    assert AnsweredTo(rules, messages[..i], messages[i], alerts[i]);
    if messages[i].eventType == eventType {
      assert MapEventToRule(eventType) == Some(name);
    }
  }
}
