/** The trust score of a vendor-anchor pair.  Decimals are reals. */
module TrustGraph {
  import opened Fractions

  type Pair = (nat, nat)

  datatype Repayment = Repayment(amount: real, onTime: bool)

  datatype Event = Attested(pair: Pair) | Repaid(pair: Pair, repayment: Repayment)

  datatype Components = Components(
    attestationScore: real, repaymentScore: real, relationshipScore: real, concentrationPenalty: real)

  // ------------------------------------------------------------------------------------------
  // Counting over the full record
  // ------------------------------------------------------------------------------------------

  function Attestations(log: seq<Event>, pair: Pair): nat {
    if log == [] then 0
    else Attestations(log[..|log| - 1], pair) + if log[|log| - 1] == Attested(pair) then 1 else 0
  }

  function AllAttestations(log: seq<Event>): nat {
    if log == [] then 0
    else AllAttestations(log[..|log| - 1]) + if log[|log| - 1].Attested? then 1 else 0
  }

  function Repayments(log: seq<Event>, pair: Pair): seq<Repayment> {
    if log == [] then []
    else
      var e := log[|log| - 1];
      Repayments(log[..|log| - 1], pair) + if e.Repaid? && e.pair == pair then [e.repayment] else []
  }

  function OnTime(repayments: seq<Repayment>): nat {
    if repayments == [] then 0
    else OnTime(repayments[..|repayments| - 1]) + if repayments[|repayments| - 1].onTime then 1 else 0
  }

  // ------------------------------------------------------------------------------------------
  // The score
  // ------------------------------------------------------------------------------------------

  function Min(a: real, b: real): real {
    if a <= b then a else b
  }

  function Max(a: real, b: real): real {
    if a >= b then a else b
  }

  function AttestationScore(count: nat): real {
    Min(count as real * 10.0, 30.0)
  }

  function RepaymentScore(onTime: nat, all: nat): real {
    if all > 0 then onTime as real / all as real * 40.0 else 0.0
  }

  function RelationshipScore(dealings: nat): real {
    Min(dealings as real * 2.0, 20.0)
  }

  function ConcentrationPenalty(count: nat, total: nat): real {
    if total > 0 then Max(0.0, (count as real / total as real - 0.5) * 20.0) else 0.0
  }

  function ScoreParts(count: nat, total: nat, repayments: seq<Repayment>): Components {
    Components(
      AttestationScore(count), RepaymentScore(OnTime(repayments), |repayments|),
      RelationshipScore(count + |repayments|), ConcentrationPenalty(count, total))
  }

  function Total(c: Components): real {
    c.attestationScore + c.repaymentScore + c.relationshipScore - c.concentrationPenalty
  }

  function Clamped(total: real): real {
    Max(0.0, Min(total, 100.0))
  }

  /** The parts of a pair's score, and the score, from everything recorded so far. */
  function Parts(log: seq<Event>, pair: Pair): Components {
    ScoreParts(Attestations(log, pair), AllAttestations(log), Repayments(log, pair))
  }

  function Score(log: seq<Event>, pair: Pair): real {
    Clamped(Total(Parts(log, pair)))
  }

  // ------------------------------------------------------------------------------------------
  // The service
  // ------------------------------------------------------------------------------------------

  ghost function SumOf(m: map<Pair, nat>): nat
    decreases |m|
  {
    if m == map[] then 0
    else
      var k :| k in m;
      Smaller(m, k);
      m[k] + SumOf(m - {k})
  }

  lemma Smaller(m: map<Pair, nat>, k: Pair)
    requires k in m
    ensures |m - {k}| < |m|
  {
    assert (m - {k}).Keys == m.Keys - {k};
    assert |(m - {k}).Keys| == |m - {k}| && |m.Keys| == |m|;
  }

  /** The sum does not depend on the order in which the values are visited. */
  lemma {:induction false} SumWithout(m: map<Pair, nat>, k: Pair)
    requires k in m
    ensures SumOf(m) == m[k] + SumOf(m - {k})
    decreases |m|
  {
    var j :| j in m && SumOf(m) == m[j] + SumOf(m - {j});
    if j != k {
      Smaller(m, j);
      Smaller(m, k);
      SumWithout(m - {j}, k);
      SumWithout(m - {k}, j);
      assert m - {j} - {k} == m - {k} - {j};
    }
  }

  function CountFor(attestations: map<Pair, nat>, pair: Pair): nat {
    if pair in attestations then attestations[pair] else 0
  }

  function PaidFor(repayments: map<Pair, seq<Repayment>>, pair: Pair): seq<Repayment> {
    if pair in repayments then repayments[pair] else []
  }

  ghost predicate CountsTrack(attestations: map<Pair, nat>, log: seq<Event>) {
    forall p :: Attestations(log, p) == CountFor(attestations, p)
  }

  ghost predicate RepaymentsTrack(repayments: map<Pair, seq<Repayment>>, log: seq<Event>) {
    forall p :: Repayments(log, p) == PaidFor(repayments, p)
  }

  lemma CountsTrackNext(attestations: map<Pair, nat>, log: seq<Event>, e: Event)
    requires CountsTrack(attestations, log)
    ensures CountsTrack(
      if e.Attested? then attestations[e.pair := CountFor(attestations, e.pair) + 1] else attestations, log + [e])
  {
    forall p: Pair
      ensures Attestations(log + [e], p) == CountFor(attestations, p) + if e == Attested(p) then 1 else 0
    {
      LogSnoc(log, e, p);
    }
  }

  lemma RepaymentsTrackNext(repayments: map<Pair, seq<Repayment>>, log: seq<Event>, e: Event)
    requires RepaymentsTrack(repayments, log)
    ensures RepaymentsTrack(
      if e.Repaid? then repayments[e.pair := PaidFor(repayments, e.pair) + [e.repayment]] else repayments, log + [e])
  {
    forall p: Pair
      ensures Repayments(log + [e], p) ==
        if e.Repaid? && e.pair == p then PaidFor(repayments, p) + [e.repayment] else PaidFor(repayments, p)
    {
      LogSnoc(log, e, p);
      assert PaidFor(repayments, p) + [] == PaidFor(repayments, p);
    }
  }

  lemma SumTracksNext(attestations: map<Pair, nat>, key: Pair)
    ensures SumOf(attestations[key := CountFor(attestations, key) + 1]) == SumOf(attestations) + 1
  {
    var after := attestations[key := CountFor(attestations, key) + 1];
    SumWithout(after, key);
    assert after - {key} == attestations - {key};
    if key in attestations {
      SumWithout(attestations, key);
    } else {
      assert attestations - {key} == attestations;
    }
  }

  class TrustGraphService {
    var attestations: map<Pair, nat>
    var repayments: map<Pair, seq<Repayment>>
    ghost var log: seq<Event>

    ghost predicate Valid()
      reads this
    {
      && CountsTrack(attestations, log)
      && RepaymentsTrack(repayments, log)
      && SumOf(attestations) == AllAttestations(log)
    }

    constructor ()
      ensures Valid() && log == []
    {
      attestations, repayments, log := map[], map[], [];
    }

    method RecordAttestation(vendor: nat, anchor: nat)
      requires Valid()
      modifies this
      ensures Valid() && log == old(log) + [Attested((vendor, anchor))]
    {
      var key := (vendor, anchor);
      ghost var e := Attested(key);
      CountsTrackNext(attestations, log, e);
      RepaymentsTrackNext(repayments, log, e);
      SumTracksNext(attestations, key);
      LogSnoc(log, e, key);
      attestations := attestations[key := (if key in attestations then attestations[key] else 0) + 1];
      log := log + [e];
    }

    method RecordRepayment(vendor: nat, anchor: nat, amount: real, onTime: bool)
      requires Valid()
      modifies this
      ensures Valid() && log == old(log) + [Repaid((vendor, anchor), Repayment(amount, onTime))]
    {
      var key := (vendor, anchor);
      ghost var e := Repaid(key, Repayment(amount, onTime));
      CountsTrackNext(attestations, log, e);
      RepaymentsTrackNext(repayments, log, e);
      LogSnoc(log, e, key);
      if key !in repayments {
        repayments := repayments[key := []];
      }
      repayments := repayments[key := repayments[key] + [Repayment(amount, onTime)]];
      assert repayments == old(repayments)[key := PaidFor(old(repayments), key) + [e.repayment]];
      log := log + [e];
    }

    /** `sum(attestations.values())`. */
    method SumAttestations() returns (total: nat)
      requires Valid()
      ensures total == AllAttestations(log)
    {
      var rest := attestations;
      total := 0;
      while rest != map[]
        invariant total + SumOf(rest) == SumOf(attestations)
        decreases |rest|
      {
        var k :| k in rest;
        SumWithout(rest, k);
        Smaller(rest, k);
        total := total + rest[k];
        rest := rest - {k};
      }
    }

    method ComputeTrustScore(vendor: nat, anchor: nat) returns (score: real, components: Components)
      requires Valid()
      ensures components == Parts(log, (vendor, anchor))
      ensures score == Score(log, (vendor, anchor)) == Total(components) && 0.0 <= score <= 90.0
      ensures score == components.attestationScore + components.repaymentScore + components.relationshipScore
                       - components.concentrationPenalty
      ensures PartsAre(
        components, Attestations(log, (vendor, anchor)), AllAttestations(log), |Repayments(log, (vendor, anchor))|,
        OnTime(Repayments(log, (vendor, anchor))))
    {
      hide ScoreParts, PartsAre;
      var key := (vendor, anchor);
      var attestationCount := if key in attestations then attestations[key] else 0;
      var paid := if key in repayments then repayments[key] else [];
      var totalAttestations := SumAttestations();
      components := ScoreParts(attestationCount, totalAttestations, paid);
      assert components == Parts(log, key);
      ClampsNeverAct(log, key);
      PartsOfLogAre(log, key);
      score := Clamped(Total(components));
    }
  }

  // ------------------------------------------------------------------------------------------
  // Bounds
  // ------------------------------------------------------------------------------------------

  lemma {:induction false} PairsShareTheTotal(log: seq<Event>, p: Pair, q: Pair)
    requires p != q
    ensures Attestations(log, p) + Attestations(log, q) <= AllAttestations(log)
  {
    if log != [] {
      PairsShareTheTotal(log[..|log| - 1], p, q);
    }
  }

  lemma {:induction false} OnTimeAtMostAll(repayments: seq<Repayment>)
    ensures OnTime(repayments) <= |repayments|
  {
    if repayments != [] {
      OnTimeAtMostAll(repayments[..|repayments| - 1]);
    }
  }

  /** At most one pair carries a concentration penalty: the one with more than half of all attestations. */
  lemma AtMostOnePenalised(log: seq<Event>, p: Pair, q: Pair)
    requires p != q && ConcentrationPenalty(Attestations(log, p), AllAttestations(log)) > 0.0
    ensures 2 * Attestations(log, p) > AllAttestations(log)
    ensures ConcentrationPenalty(Attestations(log, q), AllAttestations(log)) == 0.0
  {
    PairsShareTheTotal(log, p, q);
    ShareBounds(Attestations(log, p), AllAttestations(log));
    ShareBounds(Attestations(log, q), AllAttestations(log));
  }

  lemma PartsWithinBounds(count: nat, total: nat, repayments: seq<Repayment>)
    requires count <= total
    ensures var c := ScoreParts(count, total, repayments);
      && 0.0 <= c.attestationScore <= 30.0 && 0.0 <= c.repaymentScore <= 40.0
      && 0.0 <= c.relationshipScore <= 20.0 && 0.0 <= c.concentrationPenalty <= 10.0
      && 0.0 <= Total(c) <= 90.0
  {
    OnTimeAtMostAll(repayments);
    if |repayments| > 0 {
      ShareBounds(OnTime(repayments), |repayments|);
    }
    if total > 0 {
      ShareBounds(count, total);
    }
    if count == 0 {
      assert ConcentrationPenalty(count, total) == 0.0;
    } else {
      assert AttestationScore(count) >= 10.0;
    }
  }

  /** The sum of the parts always lies in [0, 90], so neither clamp ever changes it. */
  lemma ClampsNeverAct(log: seq<Event>, pair: Pair)
    ensures Score(log, pair) == Total(Parts(log, pair)) && 0.0 <= Score(log, pair) <= 90.0
  {
    PairsShareTheTotal(log, pair, (pair.0, pair.1 + 1));
    PartsWithinBounds(Attestations(log, pair), AllAttestations(log), Repayments(log, pair));
  }

  // ------------------------------------------------------------------------------------------
  // The parts, multiplied out
  // ------------------------------------------------------------------------------------------

  /**
   Ten points an attestation up to thirty; forty points in proportion to the repayments on time; two points
   a dealing up to twenty; less twenty points in proportion to the share of all attestations past a half.
   */
  predicate PartsAre(c: Components, attested: nat, all: nat, repaid: nat, onTime: nat) {
    && c.attestationScore == (if attested <= 3 then 10 * attested else 30) as real
    && IsRepaymentPart(c.repaymentScore, repaid, onTime)
    && c.relationshipScore == (if attested + repaid <= 10 then 2 * (attested + repaid) else 20) as real
    && IsPenalty(c.concentrationPenalty, attested, all)
  }

  predicate IsRepaymentPart(part: real, repaid: nat, onTime: nat) {
    part * repaid as real == (40 * onTime) as real && (repaid == 0 ==> part == 0.0)
  }

  predicate IsPenalty(penalty: real, attested: nat, all: nat) {
    && penalty * all as real == (if 2 * attested <= all then 0 else 20 * attested - 10 * all) as real
    && (all == 0 ==> penalty == 0.0)
  }

  lemma PartsAreRight(count: nat, total: nat, repayments: seq<Repayment>)
    requires count <= total
    ensures PartsAre(ScoreParts(count, total, repayments), count, total, |repayments|, OnTime(repayments))
  {
    hide AttestationScore, RepaymentScore, RelationshipScore, ConcentrationPenalty, IsRepaymentPart, IsPenalty;
    CappedParts(count, count + |repayments|);
    OnTimeAtMostAll(repayments);
    ShareTimes(OnTime(repayments), |repayments|);
    PenaltyTimes(count, total);
  }

  lemma PartsOfLogAre(log: seq<Event>, pair: Pair)
    ensures PartsAre(
      Parts(log, pair), Attestations(log, pair), AllAttestations(log), |Repayments(log, pair)|,
      OnTime(Repayments(log, pair)))
  {
    PairsShareTheTotal(log, pair, (pair.0, pair.1 + 1));
    PartsAreRight(Attestations(log, pair), AllAttestations(log), Repayments(log, pair));
  }

  lemma CappedParts(count: nat, dealings: nat)
    ensures AttestationScore(count) == (if count <= 3 then 10 * count else 30) as real
    ensures RelationshipScore(dealings) == (if dealings <= 10 then 2 * dealings else 20) as real
  {
  }

  lemma ShareTimes(onTime: nat, all: nat)
    requires onTime <= all
    ensures IsRepaymentPart(RepaymentScore(onTime, all), all, onTime)
  {
    if all > 0 {
      var share := onTime as real / all as real;
      assert share * all as real == onTime as real;
      assert share * 40.0 * all as real == 40.0 * (share * all as real);
    }
  }

  lemma PenaltyTimes(count: nat, total: nat)
    requires count <= total
    ensures IsPenalty(ConcentrationPenalty(count, total), count, total)
  {
    if total > 0 {
      var share, t := count as real / total as real, total as real;
      ShareBounds(count, total);
      assert share * t == count as real;
      assert (share - 0.5) * 20.0 * t == 20.0 * (share * t) - 10.0 * t;
    }
  }

  // ------------------------------------------------------------------------------------------
  // Monotonicity
  // ------------------------------------------------------------------------------------------

  lemma LogSnoc(log: seq<Event>, e: Event, pair: Pair)
    ensures Attestations(log + [e], pair) == Attestations(log, pair) + if e == Attested(pair) then 1 else 0
    ensures AllAttestations(log + [e]) == AllAttestations(log) + if e.Attested? then 1 else 0
    ensures Repayments(log + [e], pair) ==
      Repayments(log, pair) + if e.Repaid? && e.pair == pair then [e.repayment] else []
  {
    assert (log + [e])[..|log|] == log;
  }

  lemma OnTimeSnoc(repayments: seq<Repayment>, r: Repayment)
    ensures OnTime(repayments + [r]) == OnTime(repayments) + if r.onTime then 1 else 0
  {
    assert (repayments + [r])[..|repayments|] == repayments;
  }

  lemma MoreDealings(dealings: nat)
    ensures RelationshipScore(dealings + 1) - RelationshipScore(dealings) == if dealings < 10 then 2.0 else 0.0
  {
    assert (dealings + 1) as real == dealings as real + 1.0;
  }

  /** The score after one more repayment, on time or late. */
  lemma ScoreAfterRepayment(log: seq<Event>, pair: Pair, r: Repayment)
    ensures var c, t, paid := Attestations(log, pair), AllAttestations(log), Repayments(log, pair);
      && Score(log, pair) == Total(ScoreParts(c, t, paid))
      && Score(log + [Repaid(pair, r)], pair) == Total(ScoreParts(c, t, paid + [r]))
  {
    LogSnoc(log, Repaid(pair, r), pair);
    ClampsNeverAct(log, pair);
    ClampsNeverAct(log + [Repaid(pair, r)], pair);
  }

  /** How a repayment moves its part: forty points times what it adds to the share. */
  lemma RepaymentMoves(onTime: nat, all: nat, more: nat)
    requires onTime <= all && more <= 1 && all > 0
    ensures (RepaymentScore(onTime + more, all + 1) - RepaymentScore(onTime, all)) * (all * (all + 1)) as real
         == (40 * (more * all - onTime)) as real
  {
    hide RepaymentScore;
    var n, m := all as real, (all + 1) as real;
    var before, after := RepaymentScore(onTime, all), RepaymentScore(onTime + more, all + 1);
    ShareTimes(onTime, all);
    ShareTimes(onTime + more, all + 1);
    assert (all * (all + 1)) as real == n * m;
    assert (after - before) * (n * m) == (after * m) * n - (before * n) * m;
    assert (40 * (onTime + more)) as real * n - (40 * onTime) as real * m
        == (40 * ((onTime + more) * all - onTime * (all + 1))) as real by {
      IntegerTimes(40 * (onTime + more), all);
      IntegerTimes(40 * onTime, all + 1);
    }
    assert (onTime + more) * all - onTime * (all + 1) == more * all - onTime;
  }

  lemma IntegerTimes(a: int, b: int)
    ensures a as real * b as real == (a * b) as real
  {
  }

  /**
   A late repayment lowers the repayment part exactly when an earlier one was on time.  It lowers the score
   exactly when that is more than the two points the dealing may bring.
   */
  lemma LateRepaymentExactly(log: seq<Event>, pair: Pair, r: Repayment)
    requires !r.onTime
    ensures var n, k := |Repayments(log, pair)|, OnTime(Repayments(log, pair));
      var grows := Attestations(log, pair) + n < 10;
      && (Parts(log + [Repaid(pair, r)], pair).repaymentScore < Parts(log, pair).repaymentScore <==> k > 0)
      && (Score(log + [Repaid(pair, r)], pair) < Score(log, pair) <==> if grows then 20 * k > n * (n + 1) else k > 0)
      && (Score(log + [Repaid(pair, r)], pair) > Score(log, pair) <==>
            grows && (n == 0 || 20 * k < n * (n + 1)))
  {
    hide RepaymentScore;
    var paid := Repayments(log, pair);
    OnTimeAtMostAll(paid);
    RepaymentMovesPart(log, pair, r);
    RepaymentMovesScore(log, pair, r);
    LateMove(OnTime(paid), |paid|);
  }

  /** A repayment moves the score by what it moves its own part, and two points while dealings count. */
  lemma RepaymentMovesScore(log: seq<Event>, pair: Pair, r: Repayment)
    ensures var n, k := |Repayments(log, pair)|, OnTime(Repayments(log, pair));
      var k' := k + if r.onTime then 1 else 0;
      Score(log + [Repaid(pair, r)], pair) == Score(log, pair) + RepaymentScore(k', n + 1) - RepaymentScore(k, n)
        + if Attestations(log, pair) + n < 10 then 2.0 else 0.0
  {
    hide *;
    ScoreAfterRepayment(log, pair, r);
    PartsMove(Attestations(log, pair), AllAttestations(log), Repayments(log, pair), r);
  }

  lemma RepaymentMovesPart(log: seq<Event>, pair: Pair, r: Repayment)
    ensures Parts(log + [Repaid(pair, r)], pair).repaymentScore ==
      RepaymentScore(OnTime(Repayments(log, pair)) + (if r.onTime then 1 else 0), |Repayments(log, pair)| + 1)
  {
    hide ScoreParts, RepaymentScore, RelationshipScore, ConcentrationPenalty;
    LogSnoc(log, Repaid(pair, r), pair);
    RepaymentPartIs(Attestations(log, pair), AllAttestations(log), Repayments(log, pair), r);
  }

  lemma RepaymentPartIs(count: nat, total: nat, paid: seq<Repayment>, r: Repayment)
    ensures ScoreParts(count, total, paid + [r]).repaymentScore ==
      RepaymentScore(OnTime(paid) + (if r.onTime then 1 else 0), |paid| + 1)
  {
    OnTimeSnoc(paid, r);
  }

  lemma PartsMove(count: nat, total: nat, paid: seq<Repayment>, r: Repayment)
    ensures var n, k := |paid|, OnTime(paid);
      var k' := k + if r.onTime then 1 else 0;
      Total(ScoreParts(count, total, paid + [r])) == Total(ScoreParts(count, total, paid))
        + RepaymentScore(k', n + 1) - RepaymentScore(k, n) + if count + n < 10 then 2.0 else 0.0
  {
    hide RepaymentScore, ConcentrationPenalty;
    OnTimeSnoc(paid, r);
    MoreDealings(count + |paid|);
    assert count + |paid + [r]| == count + |paid| + 1;
  }

  lemma LateMove(onTime: nat, all: nat)
    requires onTime <= all
    ensures var move := RepaymentScore(onTime, all + 1) - RepaymentScore(onTime, all);
      && (move < 0.0 <==> onTime > 0) && move <= 0.0
      && (move < -2.0 <==> 20 * onTime > all * (all + 1))
      && (move > -2.0 <==> all == 0 || 20 * onTime < all * (all + 1))
  {
    if all > 0 {
      var move, d := RepaymentScore(onTime, all + 1) - RepaymentScore(onTime, all), (all * (all + 1)) as real;
      RepaymentMoves(onTime, all, 0);
      assert all * (all + 1) > 0;
      KeepsSign(move, d);
      KeepsSign(-move, d);
      KeepsSign(move + 2.0, d);
      KeepsSign(-2.0 - move, d);
      assert (move + 2.0) * d == 2.0 * d - (40 * onTime) as real;
    } else {
      assert onTime == 0;
      ShareTimes(0, 1);
    }
  }

  /** A repayment on time raises the score unless dealings count for nothing more and all were on time before. */
  lemma OnTimeRepaymentRaisesExactly(log: seq<Event>, pair: Pair, r: Repayment)
    requires r.onTime
    ensures var n, k := |Repayments(log, pair)|, OnTime(Repayments(log, pair));
      Score(log + [Repaid(pair, r)], pair) > Score(log, pair) <==>
        !(Attestations(log, pair) + n >= 10 && n > 0 && k == n)
  {
    hide *;
    var paid := Repayments(log, pair);
    OnTimeAtMostAll(paid);
    RepaymentMovesScore(log, pair, r);
    OnTimeMove(OnTime(paid), |paid|);
  }

  lemma OnTimeMove(onTime: nat, all: nat)
    requires onTime <= all
    ensures var move := RepaymentScore(onTime + 1, all + 1) - RepaymentScore(onTime, all);
      move >= 0.0 && (move > 0.0 <==> all == 0 || onTime < all)
  {
    if all > 0 {
      var move, d := RepaymentScore(onTime + 1, all + 1) - RepaymentScore(onTime, all), (all * (all + 1)) as real;
      RepaymentMoves(onTime, all, 1);
      assert all * (all + 1) > 0;
      KeepsSign(move, d);
      KeepsSign(-move, d);
    } else {
      ShareTimes(1, 1);
    }
  }

  /** An on-time repayment never lowers its pair's score. */
  lemma OnTimeRepaymentNeverLowers(log: seq<Event>, pair: Pair, amount: real)
    ensures Score(log + [Repaid(pair, Repayment(amount, true))], pair) >= Score(log, pair)
  {
    hide *;
    var paid := Repayments(log, pair);
    OnTimeAtMostAll(paid);
    RepaymentMovesScore(log, pair, Repayment(amount, true));
    OnTimeMove(OnTime(paid), |paid|);
  }

  lemma DilutionLowersPenalty(count: nat, total: nat)
    requires count <= total
    ensures ConcentrationPenalty(count, total + 1) <= ConcentrationPenalty(count, total)
  {
    var c, t := count as real, total as real;
    assert (total + 1) as real == t + 1.0;
    if total > 0 {
      var before, after := c / t, c / (t + 1.0);
      assert before * t == c && after * (t + 1.0) == c;
      ShareBounds(count, total);
      ShareBounds(count, total + 1);
      assert (before - after) * t == after;
      KeepsSign(before - after, t);
    } else {
      assert c / 1.0 == 0.0;
    }
  }

  /** An attestation for another pair never lowers a pair's score. */
  lemma OtherAttestationNeverLowers(log: seq<Event>, pair: Pair, other: Pair)
    requires other != pair
    ensures Score(log + [Attested(other)], pair) >= Score(log, pair)
  {
    LogSnoc(log, Attested(other), pair);
    PairsShareTheTotal(log, pair, other);
    DilutionLowersPenalty(Attestations(log, pair), AllAttestations(log));
    assert Repayments(log, pair) + [] == Repayments(log, pair);
    ClampsNeverAct(log, pair);
    ClampsNeverAct(log + [Attested(other)], pair);
  }

  lemma ConcentrationRaisesPenalty(count: nat, total: nat)
    requires 0 < count <= total
    ensures ConcentrationPenalty(count + 1, total + 1) >= ConcentrationPenalty(count, total)
  {
    var c, t := count as real, total as real;
    assert (total + 1) as real == t + 1.0 && (count + 1) as real == c + 1.0;
    var before, after := c / t, (c + 1.0) / (t + 1.0);
    assert before * t == c && after * (t + 1.0) == c + 1.0;
    ShareBounds(count, total);
    assert (after - before) * (t + 1.0) == 1.0 - before;
    assert after >= before;
  }

  /** How much one attestation moves the share, put over a common denominator. */
  lemma ShareMoves(count: nat, total: nat)
    requires 0 < count <= total
    ensures var c, t := count as real, total as real;
      ((c + 1.0) / (t + 1.0) - c / t) * (t * (t + 1.0)) == t - c
  {
    var c, t := count as real, total as real;
    var before, after := c / t, (c + 1.0) / (t + 1.0);
    assert before * t == c && after * (t + 1.0) == c + 1.0;
    assert after * (t * (t + 1.0)) == (c + 1.0) * t;
    assert before * (t * (t + 1.0)) == c * (t + 1.0);
  }

  /** The share moves by less than one over k when k times what is left is less than t(t + 1). */
  lemma ShareMovesLess(count: nat, total: nat, k: real)
    requires 0 < count <= total && k > 0.0
    requires k * (total as real - count as real) < total as real * (total as real + 1.0)
    ensures ((count as real + 1.0) / (total as real + 1.0) - count as real / total as real) * k < 1.0
  {
    var c, t := count as real, total as real;
    var move, d := (c + 1.0) / (t + 1.0) - c / t, t * (t + 1.0);
    ShareMoves(count, total);
    assert d > 0.0;
    assert (1.0 - move * k) * d == d - k * (move * d);
    assert move * d == t - c;
    KeepsSign(move * k - 1.0, d);
    assert (move * k - 1.0) * d == -((1.0 - move * k) * d);
  }

  lemma PenaltyFollowsShare(count: nat, total: nat, bound: real)
    requires 0 < count <= total && bound > 0.0
    requires ((count as real + 1.0) / (total as real + 1.0) - count as real / total as real) * 20.0 < bound
    ensures ConcentrationPenalty(count + 1, total + 1) < ConcentrationPenalty(count, total) + bound
  {
    assert (total + 1) as real == total as real + 1.0 && (count + 1) as real == count as real + 1.0;
  }

  /** From a first attestation on, one more costs less than ten points; from a third on, less than two. */
  lemma PenaltyGrowsSlowly(count: nat, total: nat)
    requires 0 < count <= total
    ensures ConcentrationPenalty(count + 1, total + 1) < ConcentrationPenalty(count, total) + 10.0
    ensures count >= 3 ==> ConcentrationPenalty(count + 1, total + 1) < ConcentrationPenalty(count, total) + 2.0
  {
    var c, t := count as real, total as real;
    SmallRemainder(c, t);
    ShareMovesLess(count, total, 2.0);
    PenaltyFollowsShare(count, total, 10.0);
    if count >= 3 {
      ShareMovesLess(count, total, 10.0);
      PenaltyFollowsShare(count, total, 2.0);
    }
  }

  lemma SmallRemainder(c: real, t: real)
    requires 1.0 <= c <= t
    ensures 2.0 * (t - c) < t * (t + 1.0)
    ensures c >= 3.0 ==> 10.0 * (t - c) < t * (t + 1.0)
  {
    assert t * (t + 1.0) - 2.0 * (t - 1.0) == (t - 0.5) * (t - 0.5) + 1.75;
    assert t * (t + 1.0) - 10.0 * (t - 3.0) == (t - 4.5) * (t - 4.5) + 9.75;
  }

  /** Past three attestations and ten dealings, the first two parts of a score cannot grow any more. */
  predicate Saturated(log: seq<Event>, pair: Pair) {
    Attestations(log, pair) >= 3 && Attestations(log, pair) + |Repayments(log, pair)| >= 10
  }

  /** The very first attestation of all, for a pair with ten repayments, is offset by its own penalty. */
  predicate FirstOfAll(log: seq<Event>, pair: Pair) {
    AllAttestations(log) == 0 && |Repayments(log, pair)| >= 10
  }

  lemma ScoreAfterAttestation(log: seq<Event>, pair: Pair)
    ensures var c, t, r := Attestations(log, pair), AllAttestations(log), Repayments(log, pair);
      && c <= t
      && Score(log, pair) == Total(ScoreParts(c, t, r))
      && Score(log + [Attested(pair)], pair) == Total(ScoreParts(c + 1, t + 1, r))
  {
    LogSnoc(log, Attested(pair), pair);
    PairsShareTheTotal(log, pair, (pair.0, pair.1 + 1));
    assert Repayments(log, pair) + [] == Repayments(log, pair);
    ClampsNeverAct(log, pair);
    ClampsNeverAct(log + [Attested(pair)], pair);
  }

  /** What one more attestation for its pair does to the penalty. */
  lemma PenaltyMoves(count: nat, total: nat)
    requires count <= total
    ensures var move := ConcentrationPenalty(count + 1, total + 1) - ConcentrationPenalty(count, total);
      if total == 0 then move == 10.0
      else if count == 0 then move == 0.0
      else 0.0 <= move < if count < 3 then 10.0 else 2.0
  {
    if count > 0 {
      PenaltyGrowsSlowly(count, total);
      ConcentrationRaisesPenalty(count, total);
    } else {
      ShareBounds(1, total + 1);
      if total > 0 {
        ShareBounds(0, total);
      }
    }
  }

  lemma MoreAttestations(count: nat)
    ensures AttestationScore(count + 1) - AttestationScore(count) == if count < 3 then 10.0 else 0.0
  {
    assert (count + 1) as real == count as real + 1.0;
  }

  /** The moves of the three parts that an attestation touches, added up. */
  lemma MovesAddUp(count: nat, total: nat, repayments: seq<Repayment>)
    requires count <= total
    ensures Total(ScoreParts(count + 1, total + 1, repayments)) > Total(ScoreParts(count, total, repayments)) <==>
      !(count >= 3 && count + |repayments| >= 10) && !(total == 0 && |repayments| >= 10)
  {
    var before, after := ScoreParts(count, total, repayments), ScoreParts(count + 1, total + 1, repayments);
    var dealings := count + |repayments|;
    MoreAttestations(count);
    MoreDealings(dealings);
    PenaltyMoves(count, total);
    assert after.relationshipScore == RelationshipScore(dealings + 1);
    var a, r := after.attestationScore - before.attestationScore, after.relationshipScore - before.relationshipScore;
    var p := after.concentrationPenalty - before.concentrationPenalty;
    MovesDecide(count, total, dealings, a, r, p);
    assert Total(after) - Total(before) == a + r - p;
  }

  lemma MovesDecide(count: nat, total: nat, dealings: nat, a: real, r: real, p: real)
    requires count <= total && count <= dealings
    requires a == (if count < 3 then 10.0 else 0.0) && r == (if dealings < 10 then 2.0 else 0.0)
    requires if total == 0 then p == 10.0 else if count == 0 then p == 0.0
             else 0.0 <= p < if count < 3 then 10.0 else 2.0
    ensures a + r - p > 0.0 <==> !(count >= 3 && dealings >= 10) && !(total == 0 && dealings - count >= 10)
  {
  }

  /** An attestation raises its own pair's score exactly when the pair is not saturated, the very first one aside. */
  lemma AttestationRaisesExactly(log: seq<Event>, pair: Pair)
    ensures Score(log + [Attested(pair)], pair) > Score(log, pair) <==> !Saturated(log, pair) && !FirstOfAll(log, pair)
  {
    hide Score, Total, ScoreParts;
    ScoreAfterAttestation(log, pair);
    MovesAddUp(Attestations(log, pair), AllAttestations(log), Repayments(log, pair));
  }

  lemma PenaltyRisesExactly(count: nat, total: nat)
    requires 0 < count <= total
    ensures ConcentrationPenalty(count + 1, total + 1) > ConcentrationPenalty(count, total)
            <==> count < total && 2 * (count + 1) > total + 1
  {
    var c, t := count as real, total as real;
    assert (total + 1) as real == t + 1.0 && (count + 1) as real == c + 1.0;
    var before, after := c / t, (c + 1.0) / (t + 1.0);
    assert before * t == c && after * (t + 1.0) == c + 1.0;
    assert (after - before) * (t + 1.0) == 1.0 - before;
    assert (1.0 - before) * t == t - c;
    KeepsSign(1.0 - before, t);
    KeepsSign(before - 1.0, t);
    KeepsSign(after - before, t + 1.0);
    KeepsSign(before - after, t + 1.0);
    ShareBounds(count + 1, total + 1);
  }

  /** An attestation lowers its own pair's score exactly when the pair is saturated and its share moves, past a half. */
  lemma AttestationLowersExactly(log: seq<Event>, pair: Pair)
    ensures Score(log + [Attested(pair)], pair) < Score(log, pair) <==>
      Saturated(log, pair) && Attestations(log, pair) < AllAttestations(log) < 2 * Attestations(log, pair) + 1
  {
    hide Score, Total, ScoreParts, ConcentrationPenalty;
    ScoreAfterAttestation(log, pair);
    AttestationRaisesExactly(log, pair);
    var c, t, paid := Attestations(log, pair), AllAttestations(log), Repayments(log, pair);
    if Saturated(log, pair) {
      PenaltyRisesExactly(c, t);
      OnlyPenaltyMoves(c, t, paid);
    } else if FirstOfAll(log, pair) {
      FirstIsOffset(paid);
    }
  }

  lemma OnlyPenaltyMoves(count: nat, total: nat, repayments: seq<Repayment>)
    requires 3 <= count <= total && count + |repayments| >= 10
    ensures Total(ScoreParts(count, total, repayments)) - Total(ScoreParts(count + 1, total + 1, repayments))
         == ConcentrationPenalty(count + 1, total + 1) - ConcentrationPenalty(count, total)
  {
    MoreAttestations(count);
    MoreDealings(count + |repayments|);
    assert count + 1 + |repayments| == count + |repayments| + 1;
  }

  lemma FirstIsOffset(repayments: seq<Repayment>)
    requires |repayments| >= 10
    ensures Total(ScoreParts(1, 1, repayments)) == Total(ScoreParts(0, 0, repayments))
  {
    MoreAttestations(0);
    MoreDealings(|repayments|);
    PenaltyMoves(0, 0);
    assert 1 + |repayments| == |repayments| + 1;
  }

  function Times(n: nat, e: Event): seq<Event> {
    if n == 0 then [] else Times(n - 1, e) + [e]
  }

  lemma {:induction false} CountTimes(log: seq<Event>, n: nat, e: Event, pair: Pair)
    ensures Attestations(log + Times(n, e), pair) == Attestations(log, pair) + if e == Attested(pair) then n else 0
    ensures AllAttestations(log + Times(n, e)) == AllAttestations(log) + if e.Attested? then n else 0
    ensures |Repayments(log + Times(n, e), pair)| ==
      |Repayments(log, pair)| + if e.Repaid? && e.pair == pair then n else 0
  {
    if n == 0 {
      assert log + Times(n, e) == log;
    } else {
      CountTimes(log, n - 1, e, pair);
      assert log + Times(n, e) == (log + Times(n - 1, e)) + [e];
      LogSnoc(log + Times(n - 1, e), e, pair);
    }
  }

  /** Ten attestations for a pair and ten for another: one more for the pair lowers its score. */
  lemma AttestationCanLower(pair: Pair, other: Pair) returns (log: seq<Event>)
    requires pair != other
    ensures Saturated(log, pair) && Score(log + [Attested(pair)], pair) < Score(log, pair)
  {
    log := [] + Times(10, Attested(pair)) + Times(10, Attested(other));
    CountTimes([], 10, Attested(pair), pair);
    CountTimes([] + Times(10, Attested(pair)), 10, Attested(other), pair);
    AttestationLowersExactly(log, pair);
  }

  /** Ten repayments and no attestation yet: the first one leaves the score where it is. */
  lemma FirstAttestationCanBeOffset(pair: Pair, r: Repayment) returns (log: seq<Event>)
    ensures FirstOfAll(log, pair) && Score(log + [Attested(pair)], pair) == Score(log, pair)
  {
    log := [] + Times(10, Repaid(pair, r));
    CountTimes([], 10, Repaid(pair, r), pair);
    AttestationRaisesExactly(log, pair);
    AttestationLowersExactly(log, pair);
  }
}
