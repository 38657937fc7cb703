/** Distinct keys and groups, as `group by` makes them. */
module Grouping {

  function Map<T, R>(f: T -> R, xs: seq<T>): (r: seq<R>)
    ensures |r| == |xs| && forall i :: 0 <= i < |xs| ==> r[i] == f(xs[i])
  {
    seq(|xs|, i requires 0 <= i < |xs| => f(xs[i]))
  }

  /** The keys in order of first appearance. */
  function Distinct<K(==)>(ks: seq<K>): seq<K> {
    if ks == [] then []
    else
      var before := Distinct(ks[..|ks| - 1]);
      if ks[|ks| - 1] in before then before else before + [ks[|ks| - 1]]
  }

  /** The rows of one group. */
  function Having<T, K(==)>(f: T -> K, xs: seq<T>, k: K): seq<T> {
    if xs == [] then []
    else Having(f, xs[..|xs| - 1], k) + if f(xs[|xs| - 1]) == k then [xs[|xs| - 1]] else []
  }

  /** How many rows have a key that is kept. */
  function CountKept<T, K>(f: T -> K, keep: K -> bool, xs: seq<T>): nat {
    if xs == [] then 0 else CountKept(f, keep, xs[..|xs| - 1]) + if keep(f(xs[|xs| - 1])) then 1 else 0
  }

  /** The sizes of the kept groups, added up key by key. */
  function SumOfGroups<T, K(==)>(f: T -> K, keep: K -> bool, ks: seq<K>, xs: seq<T>): nat {
    if ks == [] then 0
    else
      var k := ks[|ks| - 1];
      SumOfGroups(f, keep, ks[..|ks| - 1], xs) + if keep(k) then |Having(f, xs, k)| else 0
  }

  predicate NoDuplicates<K(==)>(ks: seq<K>) {
    forall i, j :: 0 <= i < j < |ks| ==> ks[i] != ks[j]
  }

  lemma {:induction false} DistinctShape<K>(ks: seq<K>)
    ensures NoDuplicates(Distinct(ks)) && forall k :: k in Distinct(ks) <==> k in ks
  {
    if ks != [] {
      var front := ks[..|ks| - 1];
      DistinctShape(front);
      assert ks == front + [ks[|ks| - 1]];
    }
  }

  lemma DistinctHasSame<K>(ks: seq<K>, k: K)
    ensures k in Distinct(ks) <==> k in ks
  {
    DistinctShape(ks);
  }

  lemma MapSnoc<T, R>(f: T -> R, xs: seq<T>, x: T)
    ensures Map(f, xs + [x]) == Map(f, xs) + [f(x)]
  {
  }

  lemma HavingSnoc<T, K>(f: T -> K, xs: seq<T>, x: T, k: K)
    ensures Having(f, xs + [x], k) == Having(f, xs, k) + if f(x) == k then [x] else []
  {
    assert (xs + [x])[..|xs|] == xs;
  }

  /** A new row adds one to the groups' total exactly when its key is among the keys and kept. */
  lemma {:induction false} SumGrows<T, K>(f: T -> K, keep: K -> bool, ks: seq<K>, xs: seq<T>, x: T)
    requires NoDuplicates(ks)
    ensures SumOfGroups(f, keep, ks, xs + [x]) ==
      SumOfGroups(f, keep, ks, xs) + if f(x) in ks && keep(f(x)) then 1 else 0
  {
    if ks != [] {
      var front, k := ks[..|ks| - 1], ks[|ks| - 1];
      SumGrows(f, keep, front, xs, x);
      HavingSnoc(f, xs, x, k);
      assert ks == front + [k];
      assert k !in front;
    }
  }

  lemma {:induction false} NoGroup<T, K>(f: T -> K, xs: seq<T>, k: K)
    requires k !in Map(f, xs)
    ensures Having(f, xs, k) == []
  {
    if xs != [] {
      var front, x := xs[..|xs| - 1], xs[|xs| - 1];
      assert xs == front + [x];
      MapSnoc(f, front, x);
      NoGroup(f, front, k);
      assert Map(f, xs)[|xs| - 1] == f(x);
    }
  }

  lemma {:induction false} HavingMembers<T, K>(f: T -> K, xs: seq<T>, k: K, x: T)
    ensures x in Having(f, xs, k) <==> x in xs && f(x) == k
  {
    if xs != [] {
      var front := xs[..|xs| - 1];
      assert xs == front + [xs[|xs| - 1]];
      HavingMembers(f, front, k, x);
    }
  }

  /** A group within a group is a group by both keys. */
  lemma {:induction false} HavingBoth<T, K, L>(f: T -> K, g: T -> L, h: T -> (K, L), xs: seq<T>, k: K, l: L)
    requires forall x :: h(x) == (f(x), g(x))
    ensures Having(g, Having(f, xs, k), l) == Having(h, xs, (k, l))
  {
    if xs != [] {
      var front, x := xs[..|xs| - 1], xs[|xs| - 1];
      HavingBoth(f, g, h, front, k, l);
      assert xs == front + [x];
      HavingSnoc(f, front, x, k);
      HavingSnoc(h, front, x, (k, l));
      if f(x) == k {
        HavingSnoc(g, Having(f, front, k), x, l);
      } else {
        assert Having(f, front, k) + [] == Having(f, front, k);
      }
    }
  }

  function Places<T, K(==)>(f: T -> K, xs: seq<T>, k: K): set<nat> {
    set i | 0 <= i < |xs| && f(xs[i]) == k
  }

  /** The size of a group, counted by places. */
  lemma {:induction false} HavingCounts<T, K>(f: T -> K, xs: seq<T>, k: K)
    ensures |Having(f, xs, k)| == |Places(f, xs, k)|
  {
    if xs != [] {
      var n := |xs| - 1;
      HavingCounts(f, xs[..n], k);
      assert Places(f, xs, k) == Places(f, xs[..n], k) + if f(xs[n]) == k then {n} else {};
    }
  }

  /** Grouping conserves rows: the kept groups hold exactly the rows whose key is kept. */
  lemma {:induction false} GroupsPartition<T, K>(f: T -> K, keep: K -> bool, xs: seq<T>)
    ensures SumOfGroups(f, keep, Distinct(Map(f, xs)), xs) == CountKept(f, keep, xs)
  {
    if xs != [] {
      var front, x := xs[..|xs| - 1], xs[|xs| - 1];
      assert xs == front + [x];
      var ks := Distinct(Map(f, front));
      GroupsPartition(f, keep, front);
      DistinctShape(Map(f, front));
      MapSnoc(f, front, x);
      assert Map(f, xs)[..|front|] == Map(f, front);
      SumGrows(f, keep, ks, front, x);
      if f(x) !in ks {
        NoGroup(f, front, f(x));
        HavingSnoc(f, front, x, f(x));
        assert (ks + [f(x)])[..|ks|] == ks;
      }
    } else {
      assert Map(f, xs) == [];
    }
  }
}

/** The scoring queries: staging, scores per vendor-anchor pair, profiles per vendor. */
module ScoringQueries {
  import opened Fractions
  import opened Grouping
  import opened Wrappers

  datatype TradeEvent = TradeEvent(
    eventType: string, loan: Option<nat>, invoice: nat, vendor: Option<string>, anchor: Option<string>,
    amount: Option<real>, occurredAt: Option<int>, daysToRepay: Option<int>, isKind1: Option<bool>)

  function TypeOf(e: TradeEvent): string {
    e.eventType
  }

  function VendorOf(e: TradeEvent): Option<string> {
    e.vendor
  }

  function KindOf(e: TradeEvent): Option<bool> {
    e.isKind1
  }

  function LoanOf(e: TradeEvent): Option<nat> {
    e.loan
  }

  function OfType(events: seq<TradeEvent>, eventType: string): seq<TradeEvent> {
    Having(TypeOf, events, eventType)
  }

  // ------------------------------------------------------------------------------------------
  // stg_loan_applications
  // ------------------------------------------------------------------------------------------

  datatype LoanRow = LoanRow(
    loan: Option<nat>, vendor: Option<string>, anchor: Option<string>, amount: Option<real>,
    originatedAt: Option<int>, repaidAt: Option<int>, daysToRepay: Option<int>, status: string)

  /** `on o.loan_application_id = r.loan_application_id`: a null joins nothing. */
  function Repayments(events: seq<TradeEvent>, o: TradeEvent): seq<TradeEvent> {
    if o.loan.None? then []
    else Having(LoanOf, OfType(events, "REPAYMENT_OBSERVED"), o.loan)
  }

  function Joined(o: TradeEvent, repaidAt: Option<int>, days: Option<int>): LoanRow {
    LoanRow(o.loan, o.vendor, o.anchor, o.amount, o.occurredAt, repaidAt, days,
            if repaidAt.Some? then "REPAID" else if o.occurredAt.Some? then "ACTIVE" else "UNKNOWN")
  }

  /** The rows one origination contributes to the left join. */
  function RowsOf(events: seq<TradeEvent>, o: TradeEvent): seq<LoanRow> {
    var repaid := Repayments(events, o);
    if repaid == [] then [Joined(o, None, None)]
    else Map((r: TradeEvent) => Joined(o, r.occurredAt, r.daysToRepay), repaid)
  }

  function JoinAll(events: seq<TradeEvent>, originated: seq<TradeEvent>): seq<LoanRow> {
    if originated == [] then []
    else JoinAll(events, originated[..|originated| - 1]) + RowsOf(events, originated[|originated| - 1])
  }

  function StagedLoans(events: seq<TradeEvent>): seq<LoanRow> {
    JoinAll(events, OfType(events, "LOAN_ORIGINATED"))
  }

  function SumOfMatches(events: seq<TradeEvent>, originated: seq<TradeEvent>): nat {
    if originated == [] then 0
    else
      var n := |Repayments(events, originated[|originated| - 1])|;
      SumOfMatches(events, originated[..|originated| - 1]) + if n == 0 then 1 else n
  }

  /** The staging table has one row per origination and repayment, and one per origination without any. */
  lemma {:induction false} JoinCounts(events: seq<TradeEvent>, originated: seq<TradeEvent>)
    ensures |JoinAll(events, originated)| == SumOfMatches(events, originated)
  {
    if originated != [] {
      JoinCounts(events, originated[..|originated| - 1]);
    }
  }

  /** A staged row shows its origination, and the status that goes with its repayment. */
  predicate Stages(o: TradeEvent, repaidAt: Option<int>, days: Option<int>, row: LoanRow) {
    && o.eventType == "LOAN_ORIGINATED"
    && row.loan == o.loan && row.vendor == o.vendor && row.anchor == o.anchor && row.amount == o.amount
    && row.originatedAt == o.occurredAt && row.repaidAt == repaidAt && row.daysToRepay == days
    && row.status == if repaidAt.Some? then "REPAID" else if o.occurredAt.Some? then "ACTIVE" else "UNKNOWN"
  }

  predicate Repays(r: TradeEvent, o: TradeEvent) {
    r.eventType == "REPAYMENT_OBSERVED" && o.loan.Some? && r.loan == o.loan
  }

  /** The row of an origination that nothing repays, or of one with one of its repayments. */
  ghost predicate StagedFrom(events: seq<TradeEvent>, o: TradeEvent, row: LoanRow) {
    if exists r :: r in events && Repays(r, o)
    then exists r :: r in events && Repays(r, o) && Stages(o, r.occurredAt, r.daysToRepay, row)
    else Stages(o, None, None, row)
  }

  lemma RepaymentsAre(events: seq<TradeEvent>, o: TradeEvent, r: TradeEvent)
    ensures r in Repayments(events, o) <==> r in events && Repays(r, o)
  {
    HavingMembers(TypeOf, events, "REPAYMENT_OBSERVED", r);
    HavingMembers(LoanOf, OfType(events, "REPAYMENT_OBSERVED"), o.loan, r);
  }

  lemma RowsOfAre(events: seq<TradeEvent>, o: TradeEvent, row: LoanRow)
    requires o.eventType == "LOAN_ORIGINATED"
    ensures row in RowsOf(events, o) <==> StagedFrom(events, o, row)
  {
    var repaid := Repayments(events, o);
    forall r ensures r in repaid <==> r in events && Repays(r, o) {
      RepaymentsAre(events, o, r);
    }
    if repaid != [] {
      assert repaid[0] in repaid;
      forall r | r in repaid && Stages(o, r.occurredAt, r.daysToRepay, row) ensures row in RowsOf(events, o) {
        var i :| 0 <= i < |repaid| && repaid[i] == r;
        assert RowsOf(events, o)[i] == row;
      }
      if row in RowsOf(events, o) {
        var i :| 0 <= i < |repaid| && RowsOf(events, o)[i] == row;
        assert repaid[i] in repaid && Stages(o, repaid[i].occurredAt, repaid[i].daysToRepay, row);
      }
    }
  }

  lemma {:induction false} JoinedRowsAre(events: seq<TradeEvent>, originated: seq<TradeEvent>, row: LoanRow)
    ensures row in JoinAll(events, originated) <==> exists o :: o in originated && row in RowsOf(events, o)
  {
    if originated != [] {
      var front, o := originated[..|originated| - 1], originated[|originated| - 1];
      assert originated == front + [o];
      JoinedRowsAre(events, front, row);
    }
  }

  /** What the staging table holds, row by row; `JoinCounts` says how many times. */
  lemma StagedRowsAre(events: seq<TradeEvent>, row: LoanRow)
    ensures row in StagedLoans(events) <==>
      exists o :: o in events && o.eventType == "LOAN_ORIGINATED" && StagedFrom(events, o, row)
  {
    var originated := OfType(events, "LOAN_ORIGINATED");
    JoinedRowsAre(events, originated, row);
    forall o ensures o in originated <==> o in events && o.eventType == "LOAN_ORIGINATED" {
      HavingMembers(TypeOf, events, "LOAN_ORIGINATED", o);
    }
    forall o | o in originated ensures row in RowsOf(events, o) <==> StagedFrom(events, o, row) {
      RowsOfAre(events, o, row);
    }
  }

  /** The `unique` declaration of `loan_application_id`; nulls are not compared. */
  predicate UniqueLoans(rows: seq<LoanRow>) {
    forall i, j :: 0 <= i < j < |rows| && rows[i].loan.Some? ==> rows[i].loan != rows[j].loan
  }

  /** No application was originated twice, and none with an id was repaid twice. */
  predicate OnceEach(events: seq<TradeEvent>, originated: seq<TradeEvent>) {
    && (forall i, j :: 0 <= i < j < |originated| && originated[i].loan.Some? ==>
          originated[i].loan != originated[j].loan)
    && (forall i :: 0 <= i < |originated| ==> |Repayments(events, originated[i])| <= 1)
  }

  lemma RowsShareLoan(events: seq<TradeEvent>, o: TradeEvent)
    ensures |RowsOf(events, o)| >= 1 && forall i :: 0 <= i < |RowsOf(events, o)| ==> RowsOf(events, o)[i].loan == o.loan
    ensures o.loan.None? ==> |RowsOf(events, o)| == 1
  {
  }

  predicate HasLoan(rows: seq<LoanRow>, loan: Option<nat>) {
    exists i :: 0 <= i < |rows| && rows[i].loan == loan
  }

  predicate Originates(originated: seq<TradeEvent>, loan: Option<nat>) {
    exists i :: 0 <= i < |originated| && originated[i].loan == loan
  }

  lemma HasLoanOfSum(a: seq<LoanRow>, b: seq<LoanRow>, loan: Option<nat>)
    ensures HasLoan(a + b, loan) <==> HasLoan(a, loan) || HasLoan(b, loan)
  {
    if HasLoan(a, loan) {
      var i :| 0 <= i < |a| && a[i].loan == loan;
      assert (a + b)[i].loan == loan;
    }
    if HasLoan(b, loan) {
      var i :| 0 <= i < |b| && b[i].loan == loan;
      assert (a + b)[|a| + i].loan == loan;
    }
  }

  lemma OriginatesSnoc(front: seq<TradeEvent>, o: TradeEvent, loan: Option<nat>)
    ensures Originates(front + [o], loan) <==> Originates(front, loan) || o.loan == loan
  {
    if Originates(front, loan) {
      var i :| 0 <= i < |front| && front[i].loan == loan;
      assert (front + [o])[i].loan == loan;
    }
    if o.loan == loan {
      assert (front + [o])[|front|].loan == loan;
    }
  }

  lemma {:induction false} LoansComeFromOriginations(
      events: seq<TradeEvent>, originated: seq<TradeEvent>, loan: Option<nat>)
    ensures HasLoan(JoinAll(events, originated), loan) <==> Originates(originated, loan)
  {
    if originated != [] {
      var front, o := originated[..|originated| - 1], originated[|originated| - 1];
      assert originated == front + [o];
      LoansComeFromOriginations(events, front, loan);
      RowsShareLoan(events, o);
      HasLoanOfSum(JoinAll(events, front), RowsOf(events, o), loan);
      OriginatesSnoc(front, o, loan);
      if o.loan == loan {
        assert RowsOf(events, o)[0].loan == loan;
      }
    }
  }

  lemma UniqueSum(a: seq<LoanRow>, b: seq<LoanRow>, loan: Option<nat>)
    requires b != [] && forall i :: 0 <= i < |b| ==> b[i].loan == loan
    requires loan.None? ==> |b| == 1
    ensures UniqueLoans(a + b) <==> UniqueLoans(a) && |b| == 1 && (loan.Some? ==> !HasLoan(a, loan))
  {
    assert (a + b)[|a|].loan == loan;
    assert forall i :: 0 <= i < |a| ==> (a + b)[i] == a[i];
    if |b| > 1 {
      assert (a + b)[|a| + 1].loan == loan;
      assert !UniqueLoans(a + b);
    }
  }

  lemma OnceEachSnoc(events: seq<TradeEvent>, front: seq<TradeEvent>, o: TradeEvent)
    ensures OnceEach(events, front + [o]) <==>
      OnceEach(events, front) && |Repayments(events, o)| <= 1 && (o.loan.Some? ==> !Originates(front, o.loan))
  {
    var all := front + [o];
    if OnceEach(events, all) {
      assert all[|front|] == o;
      assert forall i :: 0 <= i < |front| ==> all[i] == front[i];
    }
  }

  /**
   The staging table has unique loan applications exactly when no application with an id was originated
   twice or repaid twice: the join itself promises no such thing.
   */
  lemma {:induction false} StagedLoansUniqueExactly(events: seq<TradeEvent>, originated: seq<TradeEvent>)
    ensures UniqueLoans(JoinAll(events, originated)) <==> OnceEach(events, originated)
  {
    if originated != [] {
      var front, o := originated[..|originated| - 1], originated[|originated| - 1];
      assert originated == front + [o];
      StagedLoansUniqueExactly(events, front);
      LoansComeFromOriginations(events, front, o.loan);
      RowsShareLoan(events, o);
      UniqueSum(JoinAll(events, front), RowsOf(events, o), o.loan);
      OnceEachSnoc(events, front, o);
    }
  }

  /** One origination and two repayments of it: the application is staged twice. */
  lemma SecondRepaymentDuplicates(o: TradeEvent, r: TradeEvent, r': TradeEvent)
    requires o.eventType == "LOAN_ORIGINATED" && o.loan.Some?
    requires r.eventType == r'.eventType == "REPAYMENT_OBSERVED" && r.loan == r'.loan == o.loan
    ensures !UniqueLoans(StagedLoans([o, r, r']))
  {
    var events := [o, r, r'];
    assert |"LOAN_ORIGINATED"| == 15 && |"REPAYMENT_OBSERVED"| == 18;
    HavingThree(TypeOf, o, r, r', "LOAN_ORIGINATED");
    HavingThree(TypeOf, o, r, r', "REPAYMENT_OBSERVED");
    assert OfType(events, "LOAN_ORIGINATED") == [o] && OfType(events, "REPAYMENT_OBSERVED") == [r, r'];
    assert [r, r'] == [] + [r] + [r'];
    HavingSnoc(LoanOf, [], r, o.loan);
    HavingSnoc(LoanOf, [] + [r], r', o.loan);
    assert |Repayments(events, o)| == 2;
    StagedLoansUniqueExactly(events, [o]);
  }

  lemma HavingThree<K>(f: TradeEvent -> K, a: TradeEvent, b: TradeEvent, c: TradeEvent, k: K)
    ensures Having(f, [a, b, c], k) ==
      (if f(a) == k then [a] else []) + (if f(b) == k then [b] else []) + (if f(c) == k then [c] else [])
  {
    assert [a, b, c] == [] + [a] + [b] + [c];
    HavingSnoc(f, [] + [a] + [b], c, k);
    HavingSnoc(f, [] + [a], b, k);
    HavingSnoc(f, [], a, k);
  }

  // ------------------------------------------------------------------------------------------
  // trust_scores
  // ------------------------------------------------------------------------------------------

  type Pair = (Option<string>, Option<string>)

  function PairOf(r: LoanRow): Pair {
    (r.vendor, r.anchor)
  }

  function WithStatus(rows: seq<LoanRow>, status: string): nat {
    |Having(StatusOf, rows, status)|
  }

  function StatusOf(r: LoanRow): string {
    r.status
  }

  function PairAndStatus(r: LoanRow): (Pair, string) {
    (PairOf(r), r.status)
  }

  function DaysSum(rows: seq<LoanRow>): int {
    if rows == [] then 0
    else DaysSum(rows[..|rows| - 1]) + rows[|rows| - 1].daysToRepay.GetOr(0)
  }

  function DaysCount(rows: seq<LoanRow>): nat {
    if rows == [] then 0
    else DaysCount(rows[..|rows| - 1]) + if rows[|rows| - 1].daysToRepay.Some? then 1 else 0
  }

  /** `avg` skips nulls, and is null itself when nothing is left. */
  function AverageDays(rows: seq<LoanRow>): Option<real> {
    if DaysCount(rows) == 0 then None else Some(DaysSum(rows) as real / DaysCount(rows) as real)
  }

  /** `round(x, 0)` of a number that is not negative. */
  function Round(x: real): int {
    (x + 0.5).Floor
  }

  function TrustScore(total: nat, repaid: nat, averageDays: Option<real>): int {
    if total == 0 then 0
    else if total < 3 then Round(repaid as real / total as real * 50.0)
    else
      Round(repaid as real / total as real * 70.0
            + (if total <= 20 then total else 20) as real / 20.0 * 20.0
            + if averageDays.Some? && averageDays.value <= 30.0 then 10.0 else 0.0)
  }

  datatype TrustRow = TrustRow(
    vendor: Option<string>, anchor: Option<string>, totalLoans: nat, repaidLoans: nat, activeLoans: nat, score: int)

  function TrustRowOf(rows: seq<LoanRow>, pair: Pair): TrustRow {
    var group := Having(PairOf, rows, pair);
    TrustRow(pair.0, pair.1, |group|, WithStatus(group, "REPAID"), WithStatus(group, "ACTIVE"),
             TrustScore(|group|, WithStatus(group, "REPAID"), AverageDays(group)))
  }

  function Pairs(rows: seq<LoanRow>): seq<Pair> {
    Distinct(Map(PairOf, rows))
  }

  function TrustScores(rows: seq<LoanRow>): (t: seq<TrustRow>)
    ensures |t| == |Pairs(rows)|
  {
    Map((p: Pair) => TrustRowOf(rows, p), Pairs(rows))
  }

  lemma {:induction false} HavingShortens<T, K>(f: T -> K, xs: seq<T>, k: K)
    ensures |Having(f, xs, k)| <= |xs|
  {
    if xs != [] {
      HavingShortens(f, xs[..|xs| - 1], k);
    }
  }

  lemma ScoreBounds(total: nat, repaid: nat, averageDays: Option<real>)
    requires repaid <= total
    ensures 0 <= TrustScore(total, repaid, averageDays) <= 100
    ensures total < 3 ==> TrustScore(total, repaid, averageDays) <= 50
  {
    if total > 0 {
      ShareBounds(repaid, total);
    }
  }

  /** Every trust score lies in [0, 100]. */
  lemma TrustScoresInRange(rows: seq<LoanRow>, i: nat)
    requires i < |TrustScores(rows)|
    ensures 0 <= TrustScores(rows)[i].score <= 100
  {
    var group := Having(PairOf, rows, Pairs(rows)[i]);
    HavingShortens(StatusOf, group, "REPAID");
    ScoreBounds(|group|, WithStatus(group, "REPAID"), AverageDays(group));
  }

  /** The rows of a pair, by place. */
  function RowsAbout(rows: seq<LoanRow>, vendor: Option<string>, anchor: Option<string>): set<nat> {
    set i | 0 <= i < |rows| && rows[i].vendor == vendor && rows[i].anchor == anchor
  }

  function RowsWith(rows: seq<LoanRow>, vendor: Option<string>, anchor: Option<string>, status: string): set<nat> {
    set i | 0 <= i < |rows| && rows[i].vendor == vendor && rows[i].anchor == anchor && rows[i].status == status
  }

  lemma StatusCounts(rows: seq<LoanRow>, pair: Pair, status: string)
    ensures WithStatus(Having(PairOf, rows, pair), status) == |RowsWith(rows, pair.0, pair.1, status)|
  {
    HavingBoth(PairOf, StatusOf, PairAndStatus, rows, pair, status);
    HavingCounts(PairAndStatus, rows, (pair, status));
    assert Places(PairAndStatus, rows, (pair, status)) == RowsWith(rows, pair.0, pair.1, status);
  }

  /** Every trust row counts the staged rows of its pair: all, repaid, active. */
  lemma TrustRowCounts(rows: seq<LoanRow>, i: nat)
    requires i < |TrustScores(rows)|
    ensures var t := TrustScores(rows)[i];
      && t.totalLoans == |RowsAbout(rows, t.vendor, t.anchor)|
      && t.repaidLoans == |RowsWith(rows, t.vendor, t.anchor, "REPAID")|
      && t.activeLoans == |RowsWith(rows, t.vendor, t.anchor, "ACTIVE")|
      && t.score == TrustScore(t.totalLoans, t.repaidLoans, AverageDays(Having(PairOf, rows, (t.vendor, t.anchor))))
  {
    var pair := Pairs(rows)[i];
    HavingCounts(PairOf, rows, pair);
    assert Places(PairOf, rows, pair) == RowsAbout(rows, pair.0, pair.1);
    StatusCounts(rows, pair, "REPAID");
    StatusCounts(rows, pair, "ACTIVE");
  }

  /**
   The score, multiplied out: with up to two loans half the repayment rate, from three on seventy points in
   proportion to it, a point a loan up to twenty and ten for an average of thirty days or less; rounded to
   the nearest whole number, halves up.
   */
  lemma TrustScoreIs(total: nat, repaid: nat, averageDays: Option<real>)
    ensures var score := TrustScore(total, repaid, averageDays);
      var volume := if total < 20 then total else 20;
      var prompt := if averageDays.Some? && averageDays.value <= 30.0 then 10 else 0;
      var twice := if total < 3 then 100 * repaid else 140 * repaid + 2 * total * (volume + prompt);
      if total == 0 then score == 0 else 2 * total * score <= twice + total < 2 * total * (score + 1)
  {
    if total > 0 {
      var volume := if total < 20 then total else 20;
      var prompt := if averageDays.Some? && averageDays.value <= 30.0 then 10 else 0;
      if total < 3 {
        RoundedShare(total, repaid, 50, 0);
      } else {
        RoundedShare(total, repaid, 70, volume + prompt);
        assert TrustScore(total, repaid, averageDays) ==
          Round(repaid as real / total as real * 70.0 + (volume + prompt) as real);
      }
    }
  }

  lemma RoundedShare(n: nat, part: nat, weight: nat, more: nat)
    requires n > 0
    ensures var r := Round(part as real / n as real * weight as real + more as real);
      2 * n * r <= 2 * weight * part + 2 * n * more + n < 2 * n * (r + 1)
  {
    var x := part as real / n as real * weight as real + more as real;
    RoundTimes(x, n);
    TwiceTimes(n, part, weight, more);
  }

  lemma TwiceTimes(n: nat, part: nat, weight: nat, more: nat)
    requires n > 0
    ensures 2.0 * n as real * (part as real / n as real * weight as real + more as real)
         == (2 * weight * part + 2 * n * more) as real
  {
    var share, t, w, m := part as real / n as real, n as real, weight as real, more as real;
    assert share * t == part as real;
    assert 2.0 * t * (share * w + m) == 2.0 * w * (share * t) + 2.0 * t * m;
    RealTimes(weight, part, n, more);
  }

  lemma RealTimes(weight: nat, part: nat, n: nat, more: nat)
    ensures 2.0 * weight as real * part as real + 2.0 * n as real * more as real
         == (2 * weight * part + 2 * n * more) as real
  {
    assert weight as real * part as real == (weight * part) as real;
    assert n as real * more as real == (n * more) as real;
  }

  lemma RoundTimes(x: real, n: nat)
    requires n > 0
    ensures (2 * n * Round(x)) as real <= 2.0 * n as real * x + n as real < (2 * n * (Round(x) + 1)) as real
  {
    var t, r := n as real, Round(x) as real;
    assert r <= x + 0.5 < r + 1.0;
    var above, below := x + 0.5 - r, r + 0.5 - x;
    KeepsSign(above, t);
    KeepsSign(-below, t);
    assert 2.0 * t * x + t - 2.0 * t * r == 2.0 * (above * t);
    assert 2.0 * t * r + t - 2.0 * t * x == 2.0 * (below * t);
    assert n as real * Round(x) as real == (n * Round(x)) as real;
    assert (2 * n * (Round(x) + 1)) as real == 2.0 * (n * Round(x)) as real + 2.0 * t;
  }

  /** The average lies between any bounds on the days that are known, and is missing when none are. */
  lemma {:induction false} DaysBetween(rows: seq<LoanRow>, low: int, high: int)
    requires forall r :: r in rows && r.daysToRepay.Some? ==> low <= r.daysToRepay.value <= high
    ensures DaysCount(rows) * low <= DaysSum(rows) <= DaysCount(rows) * high
    ensures DaysCount(rows) == 0 <==> forall r :: r in rows ==> r.daysToRepay.None?
  {
    if rows != [] {
      var front, last := rows[..|rows| - 1], rows[|rows| - 1];
      assert rows == front + [last] && last in rows;
      assert forall r :: r in front ==> r in rows;
      DaysBetween(front, low, high);
      OneMore(DaysCount(front), low);
      OneMore(DaysCount(front), high);
    }
  }

  lemma OneMore(n: nat, x: int)
    ensures (n + 1) * x == n * x + x
  {
  }

  lemma AverageBetween(rows: seq<LoanRow>, low: int, high: int)
    requires forall r :: r in rows && r.daysToRepay.Some? ==> low <= r.daysToRepay.value <= high
    ensures AverageDays(rows).None? <==> forall r :: r in rows ==> r.daysToRepay.None?
    ensures AverageDays(rows).Some? ==> low as real <= AverageDays(rows).value <= high as real
  {
    DaysBetween(rows, low, high);
    if DaysCount(rows) > 0 {
      QuotientBetween(DaysSum(rows), DaysCount(rows), low, high);
    }
  }

  lemma QuotientBetween(sum: int, n: nat, low: int, high: int)
    requires n > 0 && n * low <= sum <= n * high
    ensures low as real <= sum as real / n as real <= high as real
  {
    var t, q := n as real, sum as real / n as real;
    assert q * t == sum as real;
    assert (n * low) as real == t * low as real && (n * high) as real == t * high as real;
    KeepsSign(q - low as real, t);
    KeepsSign(high as real - q, t);
  }

  // ------------------------------------------------------------------------------------------
  // vendor_profiles
  // ------------------------------------------------------------------------------------------

  datatype AttestationRow = AttestationRow(vendor: Option<string>, total: nat, kind1: nat)

  function AttestationEvents(events: seq<TradeEvent>): seq<TradeEvent> {
    OfType(events, "INVOICE_KIND1_ATTESTED")
  }

  function AttestationRowOf(attested: seq<TradeEvent>, vendor: Option<string>): AttestationRow {
    var group := Having(VendorOf, attested, vendor);
    AttestationRow(vendor, |group|, |Having(KindOf, group, Some(true))|)
  }

  function AttestationTable(events: seq<TradeEvent>): seq<AttestationRow> {
    var attested := AttestationEvents(events);
    Map((v: Option<string>) => AttestationRowOf(attested, v), Distinct(Map(VendorOf, attested)))
  }

  /** The attestation rows a trust row meets in the left join. */
  function Matches(table: seq<AttestationRow>, vendor: Option<string>): seq<AttestationRow> {
    if vendor.None? then [] else Having((a: AttestationRow) => a.vendor, table, vendor)
  }

  datatype ProfileInput = ProfileInput(trust: TrustRow, total: Option<nat>, kind1: Option<nat>)

  function InputsOf(table: seq<AttestationRow>, t: TrustRow): seq<ProfileInput> {
    var matches := Matches(table, t.vendor);
    if matches == [] then [ProfileInput(t, None, None)]
    else Map((a: AttestationRow) => ProfileInput(t, Some(a.total), Some(a.kind1)), matches)
  }

  function JoinAttestations(table: seq<AttestationRow>, trust: seq<TrustRow>): seq<ProfileInput> {
    if trust == [] then []
    else JoinAttestations(table, trust[..|trust| - 1]) + InputsOf(table, trust[|trust| - 1])
  }

  type ProfileKey = (Option<string>, Option<nat>, Option<nat>)

  function KeyOf(i: ProfileInput): ProfileKey {
    (i.trust.vendor, i.total, i.kind1)
  }

  datatype Profile = Profile(
    vendor: Option<string>, anchorCount: nat, lifetimeLoans: nat, averageScore: real, maximumScore: int,
    totalAttestations: nat, kind1Attestations: nat)

  function Loans(group: seq<ProfileInput>): nat {
    if group == [] then 0 else Loans(group[..|group| - 1]) + group[|group| - 1].trust.totalLoans
  }

  function ScoreSum(group: seq<ProfileInput>): int {
    if group == [] then 0 else ScoreSum(group[..|group| - 1]) + group[|group| - 1].trust.score
  }

  function ScoreMax(group: seq<ProfileInput>): int
    requires group != []
  {
    var last := group[|group| - 1].trust.score;
    if |group| == 1 then last
    else
      var before := ScoreMax(group[..|group| - 1]);
      if last > before then last else before
  }

  /** `count(distinct anchor_gstin)`; nulls are not counted. */
  function Anchors(group: seq<ProfileInput>): nat {
    var distinct := Distinct(Map((i: ProfileInput) => i.trust.anchor, group));
    |distinct| - if None in distinct then 1 else 0
  }

  function ProfileOf(inputs: seq<ProfileInput>, key: ProfileKey): (p: Profile)
    ensures p.vendor == key.0
  {
    var group := Having(KeyOf, inputs, key);
    Profile(key.0, Anchors(group), Loans(group),
            if group == [] then 0.0 else ScoreSum(group) as real / |group| as real,
            if group == [] then 0 else ScoreMax(group),
            key.1.GetOr(0), key.2.GetOr(0))
  }

  function ProfileInputs(events: seq<TradeEvent>): seq<ProfileInput> {
    JoinAttestations(AttestationTable(events), TrustScores(StagedLoans(events)))
  }

  function ProfileKeys(events: seq<TradeEvent>): seq<ProfileKey> {
    Distinct(Map(KeyOf, ProfileInputs(events)))
  }

  function VendorProfiles(events: seq<TradeEvent>): seq<Profile> {
    Map((k: ProfileKey) => ProfileOf(ProfileInputs(events), k), ProfileKeys(events))
  }

  // ------------------------------------------------------------------------------------------
  // Conservation
  // ------------------------------------------------------------------------------------------

  lemma {:induction false} SingleMatch(table: seq<AttestationRow>, vendor: Option<string>)
    requires NoDuplicates(Map((a: AttestationRow) => a.vendor, table))
    ensures |Having((a: AttestationRow) => a.vendor, table, vendor)| <= 1
  {
    var f := (a: AttestationRow) => a.vendor;
    if table != [] {
      var front, last := table[..|table| - 1], table[|table| - 1];
      assert table == front + [last];
      assert forall i :: 0 <= i < |front| ==> Map(f, front)[i] == Map(f, table)[i];
      SingleMatch(front, vendor);
      if last.vendor == vendor {
        assert vendor !in Map(f, front) by {
          assert Map(f, table)[|front|] == vendor;
        }
        NoGroup(f, front, vendor);
      }
    }
  }

  /** Attestations are grouped by vendor, so a trust row meets at most one of them. */
  lemma AttestationVendorsDistinct(events: seq<TradeEvent>)
    ensures NoDuplicates(Map((a: AttestationRow) => a.vendor, AttestationTable(events)))
  {
    var vendors := Distinct(Map(VendorOf, AttestationEvents(events)));
    DistinctShape(Map(VendorOf, AttestationEvents(events)));
    assert Map((a: AttestationRow) => a.vendor, AttestationTable(events)) == vendors;
  }

  /** The one input row a trust row yields. */
  function InputFor(table: seq<AttestationRow>, t: TrustRow): ProfileInput {
    var matches := Matches(table, t.vendor);
    if matches == [] then ProfileInput(t, None, None)
    else ProfileInput(t, Some(matches[0].total), Some(matches[0].kind1))
  }

  /** The grouping key of a vendor: its attestation counts are a function of it. */
  function KeyFor(table: seq<AttestationRow>, vendor: Option<string>): ProfileKey {
    var matches := Matches(table, vendor);
    if matches == [] then (vendor, None, None) else (vendor, Some(matches[0].total), Some(matches[0].kind1))
  }

  lemma {:induction false} JoinOfSingles(table: seq<AttestationRow>, trust: seq<TrustRow>)
    requires forall t: TrustRow :: InputsOf(table, t) == [InputFor(table, t)]
    ensures JoinAttestations(table, trust) == Map((t: TrustRow) => InputFor(table, t), trust)
  {
    if trust != [] {
      var front, t := trust[..|trust| - 1], trust[|trust| - 1];
      JoinOfSingles(table, front);
      assert InputsOf(table, t) == [InputFor(table, t)];
      MapSnoc((t: TrustRow) => InputFor(table, t), front, t);
      assert trust == front + [t];
    }
  }

  /** Joining the attestations adds no rows and takes none away: there is one row per trust row, in place. */
  lemma JoinAddsNoRows(table: seq<AttestationRow>, trust: seq<TrustRow>)
    requires NoDuplicates(Map((a: AttestationRow) => a.vendor, table))
    ensures |JoinAttestations(table, trust)| == |trust|
    ensures forall i :: 0 <= i < |trust| ==> JoinAttestations(table, trust)[i] == InputFor(table, trust[i])
  {
    forall t: TrustRow ensures InputsOf(table, t) == [InputFor(table, t)] {
      OneInputEach(table, t);
    }
    JoinOfSingles(table, trust);
  }

  lemma OneInputEach(table: seq<AttestationRow>, t: TrustRow)
    requires NoDuplicates(Map((a: AttestationRow) => a.vendor, table))
    ensures InputsOf(table, t) == [InputFor(table, t)]
  {
    SingleMatch(table, t.vendor);
  }

  /** The profile inputs of a list of pairs. */
  function Inputs(table: seq<AttestationRow>, rows: seq<LoanRow>, pairs: seq<Pair>): seq<ProfileInput> {
    Map((p: Pair) => InputFor(table, TrustRowOf(rows, p)), pairs)
  }

  lemma InputsAreJoined(table: seq<AttestationRow>, rows: seq<LoanRow>)
    requires NoDuplicates(Map((a: AttestationRow) => a.vendor, table))
    ensures JoinAttestations(table, TrustScores(rows)) == Inputs(table, rows, Pairs(rows))
  {
    JoinAddsNoRows(table, TrustScores(rows));
  }

  lemma InputsSnoc(table: seq<AttestationRow>, rows: seq<LoanRow>, pairs: seq<Pair>, vendor: Option<string>)
    requires pairs != []
    ensures var front, p := pairs[..|pairs| - 1], pairs[|pairs| - 1];
      Having(KeyOf, Inputs(table, rows, pairs), KeyFor(table, vendor))
        == Having(KeyOf, Inputs(table, rows, front), KeyFor(table, vendor))
           + if p.0 == vendor then [InputFor(table, TrustRowOf(rows, p))] else []
  {
    var front, p := pairs[..|pairs| - 1], pairs[|pairs| - 1];
    assert Inputs(table, rows, pairs)[..|front|] == Inputs(table, rows, front);
  }

  /** A vendor's group adds up exactly the sizes of its pairs' groups. */
  lemma {:induction false} LoansOfGroup(
      table: seq<AttestationRow>, rows: seq<LoanRow>, pairs: seq<Pair>, vendor: Option<string>)
    ensures Loans(Having(KeyOf, Inputs(table, rows, pairs), KeyFor(table, vendor)))
         == SumOfGroups(PairOf, (p: Pair) => p.0 == vendor, pairs, rows)
  {
    if pairs != [] {
      LoansOfGroup(table, rows, pairs[..|pairs| - 1], vendor);
      InputsSnoc(table, rows, pairs, vendor);
      var group := Having(KeyOf, Inputs(table, rows, pairs), KeyFor(table, vendor));
      var before := Having(KeyOf, Inputs(table, rows, pairs[..|pairs| - 1]), KeyFor(table, vendor));
      if pairs[|pairs| - 1].0 == vendor {
        assert group[..|group| - 1] == before;
      } else {
        assert group == before;
      }
    }
  }

  /** Every grouping key is the one its vendor determines. */
  lemma KeysFollowVendors(table: seq<AttestationRow>, trust: seq<TrustRow>, k: ProfileKey)
    requires NoDuplicates(Map((a: AttestationRow) => a.vendor, table))
    requires k in Map(KeyOf, JoinAttestations(table, trust))
    ensures k == KeyFor(table, k.0)
  {
    JoinAddsNoRows(table, trust);
    var inputs := JoinAttestations(table, trust);
    var i :| 0 <= i < |inputs| && Map(KeyOf, inputs)[i] == k;
    assert inputs[i] == InputFor(table, trust[i]) && KeyOf(inputs[i]) == k;
  }

  lemma ProfileKeyIs(events: seq<TradeEvent>, k: ProfileKey)
    requires k in ProfileKeys(events)
    ensures k == KeyFor(AttestationTable(events), k.0)
  {
    AttestationVendorsDistinct(events);
    DistinctShape(Map(KeyOf, ProfileInputs(events)));
    KeysFollowVendors(AttestationTable(events), TrustScores(StagedLoans(events)), k);
  }

  lemma ProfileKeysDiffer(events: seq<TradeEvent>, i: nat, j: nat)
    requires i < j < |ProfileKeys(events)|
    ensures ProfileKeys(events)[i].0 != ProfileKeys(events)[j].0
  {
    DistinctShape(Map(KeyOf, ProfileInputs(events)));
    ProfileKeyIs(events, ProfileKeys(events)[i]);
    ProfileKeyIs(events, ProfileKeys(events)[j]);
    assert ProfileKeys(events)[i] != ProfileKeys(events)[j];
  }

  lemma LoansOfVendor(events: seq<TradeEvent>, vendor: Option<string>)
    ensures ProfileOf(ProfileInputs(events), KeyFor(AttestationTable(events), vendor)).lifetimeLoans
         == CountKept(PairOf, (p: Pair) => p.0 == vendor, StagedLoans(events))
  {
    var rows, table := StagedLoans(events), AttestationTable(events);
    AttestationVendorsDistinct(events);
    InputsAreJoined(table, rows);
    LoansOfGroup(table, rows, Pairs(rows), vendor);
    GroupsPartition(PairOf, (p: Pair) => p.0 == vendor, rows);
  }

  /** A vendor's lifetime loans are its rows in the staging table, none lost and none counted twice. */
  lemma LifetimeLoansAreStagedRows(events: seq<TradeEvent>, i: nat)
    requires i < |VendorProfiles(events)|
    ensures var profile := VendorProfiles(events)[i];
      profile.lifetimeLoans == CountKept(PairOf, (p: Pair) => p.0 == profile.vendor, StagedLoans(events))
  {
    var k := ProfileKeys(events)[i];
    ProfileKeyIs(events, k);
    LoansOfVendor(events, k.0);
  }

  lemma DistinctHolds<K>(ks: seq<K>, j: nat) returns (i: nat)
    requires j < |ks|
    ensures i < |Distinct(ks)| && Distinct(ks)[i] == ks[j]
  {
    DistinctShape(ks);
    assert ks[j] in Distinct(ks);
    i :| 0 <= i < |Distinct(ks)| && Distinct(ks)[i] == ks[j];
  }

  /** Every vendor with a row in the staging table has a profile. */
  lemma EveryVendorHasProfile(events: seq<TradeEvent>, j: nat)
    requires j < |StagedLoans(events)|
    ensures exists i ::
      0 <= i < |VendorProfiles(events)| && VendorProfiles(events)[i].vendor == StagedLoans(events)[j].vendor
  {
    var rows := StagedLoans(events);
    var n := DistinctHolds(Map(PairOf, rows), j);
    AttestationVendorsDistinct(events);
    JoinAddsNoRows(AttestationTable(events), TrustScores(rows));
    var i := DistinctHolds(Map(KeyOf, ProfileInputs(events)), n);
    assert ProfileKeys(events)[i].0 == rows[j].vendor;
    assert VendorProfiles(events)[i].vendor == rows[j].vendor;
  }

  /** The vendors of the profiles are distinct: the `unique` declaration of `vendor_gstin` always holds. */
  lemma ProfilesHaveDistinctVendors(events: seq<TradeEvent>, i: nat, j: nat)
    requires i < j < |VendorProfiles(events)|
    ensures VendorProfiles(events)[i].vendor != VendorProfiles(events)[j].vendor
  {
    ProfileKeysDiffer(events, i, j);
  }

  // ------------------------------------------------------------------------------------------
  // Anchors and scores of a profile
  // ------------------------------------------------------------------------------------------

  /** The anchors of a vendor's pairs, in order. */
  function AnchorList(pairs: seq<Pair>, vendor: Option<string>): seq<Option<string>> {
    if pairs == [] then []
    else
      var p := pairs[|pairs| - 1];
      AnchorList(pairs[..|pairs| - 1], vendor) + if p.0 == vendor then [p.1] else []
  }

  lemma {:induction false} AnchorListShape(pairs: seq<Pair>, vendor: Option<string>)
    requires NoDuplicates(pairs)
    ensures NoDuplicates(AnchorList(pairs, vendor))
    ensures forall a :: a in AnchorList(pairs, vendor) <==> (vendor, a) in pairs
  {
    if pairs != [] {
      var front, p := pairs[..|pairs| - 1], pairs[|pairs| - 1];
      assert pairs == front + [p];
      AnchorListShape(front, vendor);
      assert p !in front;
    }
  }

  lemma {:induction false} AnchorsOfGroup(
      table: seq<AttestationRow>, rows: seq<LoanRow>, pairs: seq<Pair>, vendor: Option<string>)
    ensures Map((i: ProfileInput) => i.trust.anchor, Having(KeyOf, Inputs(table, rows, pairs), KeyFor(table, vendor)))
         == AnchorList(pairs, vendor)
  {
    if pairs != [] {
      AnchorsOfGroup(table, rows, pairs[..|pairs| - 1], vendor);
      InputsSnoc(table, rows, pairs, vendor);
    }
  }

  lemma {:induction false} DistinctOfDistinct<K>(ks: seq<K>)
    requires NoDuplicates(ks)
    ensures Distinct(ks) == ks
  {
    if ks != [] {
      var front := ks[..|ks| - 1];
      DistinctOfDistinct(front);
      assert ks == front + [ks[|ks| - 1]];
    }
  }

  lemma {:induction false} SizeOfDistinct<K>(ks: seq<K>)
    requires NoDuplicates(ks)
    ensures |set k | k in ks| == |ks|
  {
    if ks != [] {
      var front, last := ks[..|ks| - 1], ks[|ks| - 1];
      SizeOfDistinct(front);
      assert ks == front + [last];
      assert (set k | k in ks) == (set k | k in front) + {last};
    }
  }

  /** The distinct anchors, nulls aside, a vendor has loans with. */
  ghost function AnchorsDealtWith(rows: seq<LoanRow>, vendor: Option<string>): set<Option<string>> {
    set r | r in rows && r.vendor == vendor && r.anchor.Some? :: r.anchor
  }

  lemma AnchorListCovers(rows: seq<LoanRow>, vendor: Option<string>, a: Option<string>)
    ensures a in AnchorList(Pairs(rows), vendor) <==> exists r :: r in rows && r.vendor == vendor && r.anchor == a
    ensures NoDuplicates(AnchorList(Pairs(rows), vendor))
  {
    DistinctShape(Map(PairOf, rows));
    AnchorListShape(Pairs(rows), vendor);
    PairHasRow(rows, vendor, a);
  }

  lemma AnchorListIsExact(rows: seq<LoanRow>, vendor: Option<string>)
    ensures var anchors := AnchorList(Pairs(rows), vendor);
      && Distinct(anchors) == anchors
      && |anchors| - (if None in anchors then 1 else 0) == |AnchorsDealtWith(rows, vendor)|
  {
    var anchors := AnchorList(Pairs(rows), vendor);
    AnchorListCovers(rows, vendor, None);
    DistinctOfDistinct(anchors);
    SizeOfDistinct(anchors);
    var all := set a | a in anchors;
    forall a: Option<string> ensures a in all - {None} <==> a in AnchorsDealtWith(rows, vendor) {
      AnchorListCovers(rows, vendor, a);
    }
    assert all - {None} == AnchorsDealtWith(rows, vendor);
  }

  /** A profile's anchor count is the number of anchors, nulls aside, that its vendor has loans with. */
  lemma AnchorCountIsExact(events: seq<TradeEvent>, i: nat)
    requires i < |VendorProfiles(events)|
    ensures var profile := VendorProfiles(events)[i];
      profile.anchorCount == |AnchorsDealtWith(StagedLoans(events), profile.vendor)|
  {
    var k := ProfileKeys(events)[i];
    ProfileKeyIs(events, k);
    AnchorsOfVendor(events, k.0);
  }

  lemma AnchorsOfVendor(events: seq<TradeEvent>, vendor: Option<string>)
    ensures ProfileOf(ProfileInputs(events), KeyFor(AttestationTable(events), vendor)).anchorCount
         == |AnchorsDealtWith(StagedLoans(events), vendor)|
  {
    var rows, table := StagedLoans(events), AttestationTable(events);
    AttestationVendorsDistinct(events);
    InputsAreJoined(table, rows);
    AnchorsOfGroup(table, rows, Pairs(rows), vendor);
    AnchorListIsExact(rows, vendor);
  }

  lemma PairHasRow(rows: seq<LoanRow>, vendor: Option<string>, anchor: Option<string>)
    ensures (vendor, anchor) in Map(PairOf, rows) <==> exists r :: r in rows && r.vendor == vendor && r.anchor == anchor
  {
    if r :| r in rows && r.vendor == vendor && r.anchor == anchor {
      var i :| 0 <= i < |rows| && rows[i] == r;
      assert Map(PairOf, rows)[i] == (vendor, anchor);
    }
    if (vendor, anchor) in Map(PairOf, rows) {
      var i :| 0 <= i < |rows| && Map(PairOf, rows)[i] == (vendor, anchor);
      assert rows[i] in rows;
    }
  }

  predicate ScoresInRange(group: seq<ProfileInput>) {
    forall i :: 0 <= i < |group| ==> 0 <= group[i].trust.score <= 100
  }

  lemma {:induction false} SumAtMostMax(group: seq<ProfileInput>)
    requires group != [] && ScoresInRange(group)
    ensures 0 <= ScoreSum(group) <= |group| * ScoreMax(group) && 0 <= ScoreMax(group) <= 100
  {
    if |group| > 1 {
      var front := group[..|group| - 1];
      SumAtMostMax(front);
      SumStays(|front|, ScoreMax(front), ScoreMax(group));
    }
  }

  lemma SumStays(n: nat, top: int, higher: int)
    requires top <= higher
    ensures n * top <= n * higher && (n + 1) * higher == n * higher + higher
  {
    assert 0 <= n * (higher - top);
  }

  lemma {:induction false} GroupKeepsRange(inputs: seq<ProfileInput>, key: ProfileKey)
    requires ScoresInRange(inputs)
    ensures ScoresInRange(Having(KeyOf, inputs, key))
  {
    if inputs != [] {
      GroupKeepsRange(inputs[..|inputs| - 1], key);
    }
  }

  lemma InputScoresInRange(events: seq<TradeEvent>)
    ensures ScoresInRange(ProfileInputs(events))
  {
    var rows, inputs := StagedLoans(events), ProfileInputs(events);
    AttestationVendorsDistinct(events);
    JoinAddsNoRows(AttestationTable(events), TrustScores(rows));
    forall k | 0 <= k < |inputs| ensures 0 <= inputs[k].trust.score <= 100 {
      TrustScoresInRange(rows, k);
    }
  }

  /** A profile's average score never exceeds its maximum, and both lie in [0, 100]. */
  lemma AverageAtMostMaximum(events: seq<TradeEvent>, i: nat)
    requires i < |VendorProfiles(events)|
    ensures var p := VendorProfiles(events)[i]; 0.0 <= p.averageScore <= p.maximumScore as real <= 100.0
  {
    var inputs, key := ProfileInputs(events), ProfileKeys(events)[i];
    var group := Having(KeyOf, inputs, key);
    InputScoresInRange(events);
    GroupKeepsRange(inputs, key);
    if group != [] {
      SumAtMostMax(group);
      AverageBound(ScoreSum(group), |group|, ScoreMax(group));
    }
  }

  lemma AverageBound(sum: int, n: nat, top: int)
    requires n > 0 && 0 <= sum <= n * top
    ensures 0.0 <= sum as real / n as real <= top as real
  {
    var average, t := sum as real / n as real, n as real;
    assert average * t == sum as real;
    assert (n * top) as real == t * top as real;
    KeepsSign(average, t);
    KeepsSign(top as real - average, t);
  }

  // ------------------------------------------------------------------------------------------
  // What a profile says of its vendor
  // ------------------------------------------------------------------------------------------

  function ScoreOf(i: ProfileInput): int {
    i.trust.score
  }

  /** The scores of a vendor's trust rows, in order. */
  function ScoresOf(trust: seq<TrustRow>, vendor: Option<string>): seq<int> {
    if trust == [] then []
    else
      var t := trust[|trust| - 1];
      ScoresOf(trust[..|trust| - 1], vendor) + if t.vendor == vendor then [t.score] else []
  }

  function Total(scores: seq<int>): int {
    if scores == [] then 0 else Total(scores[..|scores| - 1]) + scores[|scores| - 1]
  }

  function TrustRows(rows: seq<LoanRow>, pairs: seq<Pair>): seq<TrustRow> {
    Map((p: Pair) => TrustRowOf(rows, p), pairs)
  }

  lemma {:induction false} GroupScores(
      table: seq<AttestationRow>, rows: seq<LoanRow>, pairs: seq<Pair>, vendor: Option<string>)
    ensures Map(ScoreOf, Having(KeyOf, Inputs(table, rows, pairs), KeyFor(table, vendor)))
         == ScoresOf(TrustRows(rows, pairs), vendor)
  {
    if pairs != [] {
      var front, p := pairs[..|pairs| - 1], pairs[|pairs| - 1];
      GroupScores(table, rows, front, vendor);
      InputsSnoc(table, rows, pairs, vendor);
      assert TrustRows(rows, pairs)[..|front|] == TrustRows(rows, front);
    }
  }

  lemma {:induction false} SumIsTotal(group: seq<ProfileInput>)
    ensures ScoreSum(group) == Total(Map(ScoreOf, group))
  {
    if group != [] {
      var front := group[..|group| - 1];
      SumIsTotal(front);
      assert Map(ScoreOf, group)[..|front|] ==
        Map(ScoreOf, front);
    }
  }

  lemma {:induction false} MaxIsAttained(group: seq<ProfileInput>) returns (at: nat)
    requires group != []
    ensures at < |group| && group[at].trust.score == ScoreMax(group)
    ensures forall i :: 0 <= i < |group| ==> group[i].trust.score <= ScoreMax(group)
  {
    at := |group| - 1;
    if at > 0 {
      var front := group[..at];
      var before := MaxIsAttained(front);
      assert forall i :: 0 <= i < |front| ==> group[i] == front[i];
      if group[at].trust.score <= ScoreMax(front) {
        at := before;
      }
    }
  }

  /** A profile's average is that of its pairs' scores, and its maximum is one of them, none above it. */
  lemma ScoresAreExact(events: seq<TradeEvent>, i: nat)
    requires i < |VendorProfiles(events)|
    ensures var p := VendorProfiles(events)[i];
      var scores := ScoresOf(TrustScores(StagedLoans(events)), p.vendor);
      && scores != [] && p.averageScore == Total(scores) as real / |scores| as real
      && p.maximumScore in scores && forall s :: s in scores ==> s <= p.maximumScore
  {
    var group := ProfileGroup(events, i);
    ProfileGroupScores(events, i);
    SumIsTotal(group);
    ScoresOfGroup(group, ScoresOf(TrustScores(StagedLoans(events)), VendorProfiles(events)[i].vendor));
  }

  lemma ProfileGroup(events: seq<TradeEvent>, i: nat) returns (group: seq<ProfileInput>)
    requires i < |VendorProfiles(events)|
    ensures group == Having(KeyOf, ProfileInputs(events), ProfileKeys(events)[i]) && group != []
    ensures var p := VendorProfiles(events)[i];
      && p.vendor == ProfileKeys(events)[i].0
      && p.averageScore == ScoreSum(group) as real / |group| as real && p.maximumScore == ScoreMax(group)
  {
    group := Having(KeyOf, ProfileInputs(events), ProfileKeys(events)[i]);
    KeyHasInputs(ProfileInputs(events), i);
  }

  lemma ProfileGroupScores(events: seq<TradeEvent>, i: nat)
    requires i < |ProfileKeys(events)|
    ensures ScoresOf(TrustScores(StagedLoans(events)), ProfileKeys(events)[i].0) ==
      Map(ScoreOf, Having(KeyOf, ProfileInputs(events), ProfileKeys(events)[i]))
  {
    var rows, table, k := StagedLoans(events), AttestationTable(events), ProfileKeys(events)[i];
    ProfileKeyIs(events, k);
    AttestationVendorsDistinct(events);
    InputsAreJoined(table, rows);
    GroupScores(table, rows, Pairs(rows), k.0);
    assert TrustScores(rows) == TrustRows(rows, Pairs(rows));
  }

  lemma KeyHasInputs(inputs: seq<ProfileInput>, i: nat)
    requires i < |Distinct(Map(KeyOf, inputs))|
    ensures Having(KeyOf, inputs, Distinct(Map(KeyOf, inputs))[i]) != []
  {
    var k := Distinct(Map(KeyOf, inputs))[i];
    DistinctHasSame(Map(KeyOf, inputs), k);
    assert k in Distinct(Map(KeyOf, inputs));
    var n :| 0 <= n < |Map(KeyOf, inputs)| && Map(KeyOf, inputs)[n] == k;
    HavingMembers(KeyOf, inputs, k, inputs[n]);
  }

  lemma ScoresOfGroup(group: seq<ProfileInput>, scores: seq<int>)
    requires group != [] && scores == Map(ScoreOf, group)
    ensures |scores| == |group| && ScoreMax(group) in scores && forall s :: s in scores ==> s <= ScoreMax(group)
  {
    var at := MaxIsAttained(group);
    assert scores[at] == ScoreMax(group);
  }

  /** The attestation events of a vendor, by place. */
  function AttestedPlaces(events: seq<TradeEvent>, vendor: Option<string>): set<nat> {
    set i | 0 <= i < |events| && events[i].eventType == "INVOICE_KIND1_ATTESTED" && events[i].vendor == vendor
  }

  function Kind1Places(events: seq<TradeEvent>, vendor: Option<string>): set<nat> {
    set i | 0 <= i < |events| && events[i].eventType == "INVOICE_KIND1_ATTESTED" && events[i].vendor == vendor &&
      events[i].isKind1 == Some(true)
  }

  function TypeAndVendor(e: TradeEvent): (string, Option<string>) {
    (e.eventType, e.vendor)
  }

  function TypeVendorKind(e: TradeEvent): ((string, Option<string>), Option<bool>) {
    (TypeAndVendor(e), e.isKind1)
  }

  lemma AttestationRowCounts(events: seq<TradeEvent>, vendor: Option<string>)
    ensures var row := AttestationRowOf(AttestationEvents(events), vendor);
      row.total == |AttestedPlaces(events, vendor)| && row.kind1 == |Kind1Places(events, vendor)|
  {
    var kind := "INVOICE_KIND1_ATTESTED";
    HavingBoth(TypeOf, VendorOf, TypeAndVendor, events, kind, vendor);
    HavingCounts(TypeAndVendor, events, (kind, vendor));
    assert Places(TypeAndVendor, events, (kind, vendor)) == AttestedPlaces(events, vendor);
    HavingBoth(TypeAndVendor, KindOf, TypeVendorKind, events, (kind, vendor), Some(true));
    HavingCounts(TypeVendorKind, events, ((kind, vendor), Some(true)));
    assert Places(TypeVendorKind, events, ((kind, vendor), Some(true))) == Kind1Places(events, vendor);
  }

  /** A vendor's row of the attestation table, if the vendor has any attestation. */
  lemma VendorMatches(events: seq<TradeEvent>, vendor: Option<string>)
    requires vendor.Some?
    ensures Matches(AttestationTable(events), vendor) ==
      if AttestedPlaces(events, vendor) == {} then [] else [AttestationRowOf(AttestationEvents(events), vendor)]
  {
    var table, attested := AttestationTable(events), AttestationEvents(events);
    var row, matches := AttestationRowOf(attested, vendor), Matches(table, vendor);
    AttestationVendorsDistinct(events);
    SingleMatch(table, vendor);
    AttestedIn(events, vendor);
    if matches != [] {
      HavingMembers((a: AttestationRow) => a.vendor, table, vendor, matches[0]);
      var n :| 0 <= n < |table| && table[n] == matches[0];
      assert matches[0] == row;
      TableRowHasEvents(events, n);
    }
    if vendor in Map(VendorOf, attested) {
      DistinctShape(Map(VendorOf, attested));
      assert vendor in Distinct(Map(VendorOf, attested));
      var n :| 0 <= n < |table| && Distinct(Map(VendorOf, attested))[n] == vendor;
      assert table[n] == row;
      HavingMembers((a: AttestationRow) => a.vendor, table, vendor, row);
    }
  }

  lemma TableRowHasEvents(events: seq<TradeEvent>, n: nat)
    requires n < |AttestationTable(events)|
    ensures AttestationTable(events)[n].vendor in Map(VendorOf, AttestationEvents(events))
  {
    var vendors := Map(VendorOf, AttestationEvents(events));
    DistinctShape(vendors);
    assert Distinct(vendors)[n] in Distinct(vendors);
  }

  lemma AttestedIn(events: seq<TradeEvent>, vendor: Option<string>)
    ensures vendor in Map(VendorOf, AttestationEvents(events)) <==> AttestedPlaces(events, vendor) != {}
  {
    var attested, kind := AttestationEvents(events), "INVOICE_KIND1_ATTESTED";
    if vendor in Map(VendorOf, attested) {
      var j :| 0 <= j < |attested| && Map(VendorOf, attested)[j] == vendor;
      HavingMembers(TypeOf, events, kind, attested[j]);
      var i :| 0 <= i < |events| && events[i] == attested[j];
      assert i in AttestedPlaces(events, vendor);
    }
    if AttestedPlaces(events, vendor) != {} {
      var i :| i in AttestedPlaces(events, vendor);
      HavingMembers(TypeOf, events, kind, events[i]);
      var j :| 0 <= j < |attested| && attested[j] == events[i];
      assert Map(VendorOf, attested)[j] == vendor;
    }
  }

  /** A profile counts the attestation events of its vendor, and those of kind 1; a null vendor joins none. */
  lemma AttestationCountsAreExact(events: seq<TradeEvent>, i: nat)
    requires i < |VendorProfiles(events)|
    ensures var p := VendorProfiles(events)[i];
      && p.totalAttestations == (if p.vendor.None? then 0 else |AttestedPlaces(events, p.vendor)|)
      && p.kind1Attestations == (if p.vendor.None? then 0 else |Kind1Places(events, p.vendor)|)
  {
    var k := ProfileKeys(events)[i];
    ProfileKeyIs(events, k);
    AttestationRowCounts(events, k.0);
    if k.0.Some? {
      VendorMatches(events, k.0);
      assert Kind1Places(events, k.0) <= AttestedPlaces(events, k.0);
      SmallerSet(Kind1Places(events, k.0), AttestedPlaces(events, k.0));
    }
  }

  lemma SmallerSet(a: set<nat>, b: set<nat>)
    requires a <= b
    ensures b == {} ==> |a| == 0
  {
  }
}
