/**
 What erasure and retention keep, over any run that mixes them, and when their order matters.
 Throughout, `sha` is any function from text to digests; where collisions would matter it is asked
 to be injective on the identifiers in the tables, and nothing more.
 */
module PlatformDataLaws {
  import opened Wrappers
  import opened Hashing
  import opened PlatformData

  // ------------------------------------------------------------------------------------------
  // Owners
  // ------------------------------------------------------------------------------------------

  /** Whose row it is, however far it has been pseudonymised. */
  function Owner(sha: Sha256, gstin: string): string {
    if Masked(gstin) then gstin else Pseudonym(sha, gstin)
  }

  ghost predicate OwnersKept(sha: Sha256, t: Tables, u: Tables) {
    && |u.vendors| == |t.vendors| && |u.loans| == |t.loans|
    && (forall i :: 0 <= i < |t.vendors| ==>
          u.vendors[i].id == t.vendors[i].id &&
          Owner(sha, u.vendors[i].gstin) == Owner(sha, t.vendors[i].gstin))
    && (forall i :: 0 <= i < |t.loans| ==>
          u.loans[i].id == t.loans[i].id && u.loans[i].status == t.loans[i].status &&
          u.loans[i].createdAt == t.loans[i].createdAt &&
          Owner(sha, u.loans[i].vendorGstin) == Owner(sha, t.loans[i].vendorGstin))
  }

  datatype Operation =
    | EraseOp(id: string, now: int)
    | RetainLoansOp(days: int, now: int)
    | RetainVendorsOp(days: int, now: int)
  {
    /** Requests name a data principal by its own identifier, not by a pseudonym. */
    predicate Raw() {
      EraseOp? ==> !Masked(id)
    }
  }

  /** The rows an operation wants to commit. */
  function Attempt(sha: Sha256, t: Tables, op: Operation): Tables {
    match op
    case EraseOp(id, now) => Erase(sha, t, id, now)
    case RetainLoansOp(days, now) => RetainLoans(sha, t, now, days)
    case RetainVendorsOp(days, now) => RetainVendors(sha, t, now, days)
  }

  function Apply(sha: Sha256, t: Tables, op: Operation): Tables {
    Commit(t, Attempt(sha, t, op))
  }

  function RunOps(sha: Sha256, t: Tables, ops: seq<Operation>): Tables
    decreases |ops|
  {
    if ops == [] then t else RunOps(sha, Apply(sha, t, ops[0]), ops[1..])
  }

  predicate AllRaw(ops: seq<Operation>) {
    forall i :: 0 <= i < |ops| ==> ops[i].Raw()
  }

  lemma AttemptKeepsOwners(sha: Sha256, t: Tables, op: Operation)
    requires op.Raw()
    ensures OwnersKept(sha, t, Attempt(sha, t, op))
  {
  }

  /**
   Over every run of erasures and retention passes, in any order and with any clock readings, each
   vendor and loan row keeps its owner, so a vendor and its loans can still be matched.
   */
  lemma {:induction false} RunKeepsOwners(sha: Sha256, t: Tables, ops: seq<Operation>)
    requires AllRaw(ops)
    ensures OwnersKept(sha, t, RunOps(sha, t, ops))
    decreases |ops|
  {
    if ops != [] {
      AttemptKeepsOwners(sha, t, ops[0]);
      RunKeepsOwners(sha, Apply(sha, t, ops[0]), ops[1..]);
    }
  }

  ghost function SingleVendor(gstin: string): Tables {
    Tables([Vendor(0, "", gstin, None, 0, None, None, None, None, None)], [], [])
  }

  /** Erasing by a pseudonym loses the owner, unless the pseudonym happens to be its own pseudonym. */
  lemma EraseKeepsOwnersExactlyWhenRaw(sha: Sha256, id: string)
    ensures (forall t, now :: OwnersKept(sha, t, Erase(sha, t, id, now))) <==>
            !Masked(id) || Pseudonym(sha, id) == id
  {
    if !Masked(id) || Pseudonym(sha, id) == id {
      forall t, now ensures OwnersKept(sha, t, Erase(sha, t, id, now)) {
        forall i | 0 <= i < |t.vendors|
          ensures Owner(sha, EraseVendor(sha, id, t.vendors[i]).gstin) == Owner(sha, t.vendors[i].gstin)
        {
        }
      }
    } else {
      var t := SingleVendor(id);
      assert Erase(sha, t, id, 0).vendors[0].gstin == Pseudonym(sha, id);
      assert !OwnersKept(sha, t, Erase(sha, t, id, 0));
    }
  }

  /** The vendor's row and the loan's have one owner, so they can be matched. */
  predicate Linked(sha: Sha256, t: Tables, i: nat, j: nat)
    requires i < |t.vendors| && j < |t.loans|
  {
    Owner(sha, t.vendors[i].gstin) == Owner(sha, t.loans[j].vendorGstin)
  }

  /**
   An erasure parts a vendor from a loan of its own exactly when it is asked for by a pseudonym that is
   not its own, no hold blocks it, and just one of the two rows has been masked before.
   */
  lemma ErasePartsExactly(sha: Sha256, t: Tables, id: string, now: int, i: nat, j: nat)
    requires i < |t.vendors| && j < |t.loans| && Linked(sha, t, i, j)
    ensures Linked(sha, Erase(sha, t, id, now), i, j) <==>
      !Masked(id) || HasLegalHold(t.loans, id, now) || Pseudonym(sha, id) == id ||
      (t.vendors[i].gstin == id <==> t.loans[j].vendorGstin == id)
  {
  }

  /** A vendor masked by vendor retention, its closed loan still raw: erasing by the vendor's pseudonym parts them. */
  lemma EraseByPseudonymParts(sha: Sha256, gstin: string) returns (t: Tables)
    requires !Masked(gstin) && Pseudonym(sha, Pseudonym(sha, gstin)) != Pseudonym(sha, gstin)
    ensures t == Tables(SingleVendor(gstin).vendors, ClosedLoan(gstin, 0).loans, [])
    ensures var u := RetainVendors(sha, t, 1, 0);
      && UniqueGstins(u.vendors) && |u.vendors| == |u.loans| == 1 && Linked(sha, u, 0, 0)
      && UniqueGstins(Erase(sha, u, Pseudonym(sha, gstin), 1).vendors)
      && !Linked(sha, Erase(sha, u, Pseudonym(sha, gstin), 1), 0, 0)
  {
    t := Tables(SingleVendor(gstin).vendors, ClosedLoan(gstin, 0).loans, []);
    var u := RetainVendors(sha, t, 1, 0);
    assert !HasActiveLoan(t.loans, gstin) && Dormant(t.vendors[0], t.loans, 1, 0);
    assert u.vendors[0].gstin == Pseudonym(sha, gstin) && u.loans[0].vendorGstin == gstin;
    ErasePartsExactly(sha, u, Pseudonym(sha, gstin), 1, 0, 0);
  }

  // ------------------------------------------------------------------------------------------
  // Uniqueness
  // ------------------------------------------------------------------------------------------

  ghost predicate DistinctOwners(sha: Sha256, vendors: seq<Vendor>) {
    forall i, j :: 0 <= i < j < |vendors| ==> Owner(sha, vendors[i].gstin) != Owner(sha, vendors[j].gstin)
  }

  ghost predicate AllCommit(sha: Sha256, t: Tables, ops: seq<Operation>)
    decreases |ops|
  {
    ops == [] ||
    (UniqueGstins(Attempt(sha, t, ops[0]).vendors) && AllCommit(sha, Attempt(sha, t, ops[0]), ops[1..]))
  }

  lemma DistinctOwnersMoveAlong(sha: Sha256, t: Tables, u: Tables)
    requires DistinctOwners(sha, t.vendors) && OwnersKept(sha, t, u)
    ensures DistinctOwners(sha, u.vendors) && UniqueGstins(u.vendors)
  {
    forall i, j | 0 <= i < j < |u.vendors| ensures u.vendors[i].gstin != u.vendors[j].gstin {
      assert Owner(sha, t.vendors[i].gstin) != Owner(sha, t.vendors[j].gstin);
    }
  }

  /** With owners distinct at the start, no run ever violates the uniqueness of `vendors.gstin`. */
  lemma {:induction false} DistinctOwnersNeverConflict(sha: Sha256, t: Tables, ops: seq<Operation>)
    requires DistinctOwners(sha, t.vendors) && AllRaw(ops)
    ensures AllCommit(sha, t, ops)
    decreases |ops|
  {
    if ops != [] {
      var u := Attempt(sha, t, ops[0]);
      AttemptKeepsOwners(sha, t, ops[0]);
      DistinctOwnersMoveAlong(sha, t, u);
      DistinctOwnersNeverConflict(sha, u, ops[1..]);
    }
  }

  /** A clock reading late enough for every legal hold to have lapsed. */
  lemma {:induction false} HoldsLapse(loans: seq<Loan>) returns (now: int)
    ensures forall i :: 0 <= i < |loans| ==> loans[i].createdAt <= now - HOLD_DAYS * DAY
  {
    now := 0;
    if loans != [] {
      var last := loans[|loans| - 1];
      var before := HoldsLapse(loans[..|loans| - 1]);
      now := if before < last.createdAt + HOLD_DAYS * DAY then last.createdAt + HOLD_DAYS * DAY else before;
      forall i | 0 <= i < |loans| ensures loans[i].createdAt <= now - HOLD_DAYS * DAY {
        assert i < |loans| - 1 ==> loans[i] == loans[..|loans| - 1][i];
      }
    }
  }

  /** Two vendors with one owner can be driven into a uniqueness violation by erasing them both. */
  lemma SharedOwnerConflicts(sha: Sha256, t: Tables, i: nat, j: nat) returns (ops: seq<Operation>)
    requires UniqueGstins(t.vendors) && i < |t.vendors| && j < |t.vendors| && i != j
    requires Owner(sha, t.vendors[i].gstin) == Owner(sha, t.vendors[j].gstin)
    ensures AllRaw(ops) && !AllCommit(sha, t, ops)
  {
    var now := HoldsLapse(t.loans);
    var a, b := t.vendors[i].gstin, t.vendors[j].gstin;
    assert a != b;
    var first := EraseOp(a, now);
    var second := EraseOp(b, now);
    if Masked(a) {
      ops := [second];
      assert Attempt(sha, t, second).vendors[i].gstin == Attempt(sha, t, second).vendors[j].gstin;
    } else if Masked(b) {
      ops := [first];
      assert Attempt(sha, t, first).vendors[i].gstin == Attempt(sha, t, first).vendors[j].gstin;
    } else {
      ops := [first, second];
      var u := Attempt(sha, t, first);
      assert !HasLegalHold(t.loans, a, now) && u == EraseRows(sha, t, a, now);
      assert !HasLegalHold(u.loans, b, now);
      var w := Attempt(sha, u, second);
      assert u.vendors[i].gstin == Pseudonym(sha, a) && u.vendors[j].gstin == b;
      assert w.vendors[i].gstin == w.vendors[j].gstin;
      assert !UniqueGstins(w.vendors);
      assert ops[1..] == [second];
    }
  }

  /** The constraint survives every run exactly when the owners are distinct to begin with. */
  lemma ConstraintSurvivesExactlyWhenOwnersDistinct(sha: Sha256, t: Tables)
    requires UniqueGstins(t.vendors)
    ensures (forall ops :: AllRaw(ops) ==> AllCommit(sha, t, ops)) <==> DistinctOwners(sha, t.vendors)
  {
    if DistinctOwners(sha, t.vendors) {
      forall ops | AllRaw(ops) ensures AllCommit(sha, t, ops) {
        DistinctOwnersNeverConflict(sha, t, ops);
      }
    } else {
      var i, j :| 0 <= i < j < |t.vendors| && Owner(sha, t.vendors[i].gstin) == Owner(sha, t.vendors[j].gstin);
      var ops := SharedOwnerConflicts(sha, t, i, j);
    }
  }

  ghost predicate PseudonymsInjective(sha: Sha256, gstins: set<string>) {
    forall x, y :: x in gstins && y in gstins && Pseudonym(sha, x) == Pseudonym(sha, y) ==> x == y
  }

  /** A table of plain, distinct identifiers with distinct pseudonyms starts with distinct owners. */
  lemma PlainTablesHaveDistinctOwners(sha: Sha256, vendors: seq<Vendor>)
    requires UniqueGstins(vendors) && forall v :: v in vendors ==> !Masked(v.gstin)
    requires PseudonymsInjective(sha, set v | v in vendors :: v.gstin)
    ensures DistinctOwners(sha, vendors)
  {
    forall i, j | 0 <= i < j < |vendors|
      ensures Owner(sha, vendors[i].gstin) != Owner(sha, vendors[j].gstin)
    {
      assert vendors[i] in vendors && vendors[j] in vendors;
    }
  }

  // ------------------------------------------------------------------------------------------
  // Erasure
  // ------------------------------------------------------------------------------------------

  /** No vendor or loan row is filed under the identifier. */
  ghost predicate Unfiled(t: Tables, id: string) {
    && (forall i :: 0 <= i < |t.vendors| ==> t.vendors[i].gstin != id)
    && (forall i :: 0 <= i < |t.loans| ==> t.loans[i].vendorGstin != id)
  }

  /** An erasure that no hold blocks leaves nothing under the identifier, neither rows nor consents. */
  lemma EraseUnfiles(sha: Sha256, t: Tables, id: string, now: int)
    requires !Masked(id) && !HasLegalHold(t.loans, id, now)
    ensures Unfiled(Erase(sha, t, id, now), id)
    ensures (forall i :: 0 <= i < |t.consents| ==> Erase(sha, t, id, now).consents[i].dataPrincipalId != id) <==>
            id != "P-" + sha(id)[..12] || forall i :: 0 <= i < |t.consents| ==> t.consents[i].dataPrincipalId != id
  {
    var u := Erase(sha, t, id, now);
    forall i | 0 <= i < |t.consents|
      ensures u.consents[i].dataPrincipalId == id <==>
        t.consents[i].dataPrincipalId == id && id == "P-" + sha(id)[..12]
    {
    }
  }

  lemma AttemptKeepsUnfiled(sha: Sha256, t: Tables, id: string, op: Operation)
    requires !Masked(id) && Unfiled(t, id)
    ensures Unfiled(Attempt(sha, t, op), id)
  {
  }

  /** What has been erased stays erased, whatever erasures and retention passes follow. */
  lemma {:induction false} ErasedStaysErased(sha: Sha256, t: Tables, id: string, ops: seq<Operation>)
    requires !Masked(id) && Unfiled(t, id)
    ensures Unfiled(RunOps(sha, t, ops), id)
    decreases |ops|
  {
    if ops != [] {
      AttemptKeepsUnfiled(sha, t, id, ops[0]);
      ErasedStaysErased(sha, Apply(sha, t, ops[0]), id, ops[1..]);
    }
  }

  /** Name and columns show no trace of the vendor. */
  predicate Anonymous(v: Vendor) {
    "Vendor-" <= v.name && VendorCleared(v)
  }

  lemma AttemptKeepsAnonymous(sha: Sha256, t: Tables, op: Operation, i: nat)
    requires i < |t.vendors| && Anonymous(t.vendors[i])
    ensures i < |Attempt(sha, t, op).vendors| && Anonymous(Attempt(sha, t, op).vendors[i])
  {
  }

  /** No run, even one that erases by pseudonyms, brings back a name, a registration number or a ciphertext. */
  lemma {:induction false} AnonymousStaysAnonymous(sha: Sha256, t: Tables, ops: seq<Operation>, i: nat)
    requires i < |t.vendors| && Anonymous(t.vendors[i])
    ensures i < |RunOps(sha, t, ops).vendors| && Anonymous(RunOps(sha, t, ops).vendors[i])
    decreases |ops|
  {
    if ops != [] {
      AttemptKeepsAnonymous(sha, t, ops[0], i);
      AnonymousStaysAnonymous(sha, Apply(sha, t, ops[0]), ops[1..], i);
    }
  }

  lemma AttemptKeepsMaskedRows(sha: Sha256, t: Tables, op: Operation)
    requires op.Raw()
    ensures var u := Attempt(sha, t, op);
      && |u.vendors| == |t.vendors| && |u.loans| == |t.loans|
      && (forall i :: 0 <= i < |t.vendors| && Masked(t.vendors[i].gstin) ==> u.vendors[i] == t.vendors[i])
      && (forall i :: 0 <= i < |t.loans| && Masked(t.loans[i].vendorGstin) ==> u.loans[i] == t.loans[i])
  {
  }

  /** A masked row is final: no raw run touches it again. */
  lemma {:induction false} MaskedRowsAreFinal(sha: Sha256, t: Tables, ops: seq<Operation>)
    requires AllRaw(ops)
    ensures var u := RunOps(sha, t, ops);
      && |u.vendors| == |t.vendors| && |u.loans| == |t.loans|
      && (forall i :: 0 <= i < |t.vendors| && Masked(t.vendors[i].gstin) ==> u.vendors[i] == t.vendors[i])
      && (forall i :: 0 <= i < |t.loans| && Masked(t.loans[i].vendorGstin) ==> u.loans[i] == t.loans[i])
    decreases |ops|
  {
    if ops != [] {
      AttemptKeepsMaskedRows(sha, t, ops[0]);
      MaskedRowsAreFinal(sha, Apply(sha, t, ops[0]), ops[1..]);
    }
  }

  // ------------------------------------------------------------------------------------------
  // What masking forgets
  // ------------------------------------------------------------------------------------------

  /** Two vendor rows that differ in name, registration number and encrypted columns at most. */
  predicate SameButSecrets(v: Vendor, w: Vendor) {
    v.id == w.id && v.gstin == w.gstin && v.onboardedAt == w.onboardedAt
  }

  predicate SameButVendorSecrets(l: Loan, m: Loan) {
    m == l.(vendorGstinEnc := m.vendorGstinEnc, vendorGstinIdx := m.vendorGstinIdx)
  }

  predicate SameButLoanSecrets(l: Loan, m: Loan) {
    m == l.(vendorGstinEnc := m.vendorGstinEnc, vendorGstinIdx := m.vendorGstinIdx,
            anchorGstinEnc := m.anchorGstinEnc, anchorGstinIdx := m.anchorGstinIdx)
  }

  /** The tables differ at most in the secrets of the rows filed under the identifier. */
  predicate AlikeExceptAbout(t: Tables, u: Tables, id: string) {
    && u.consents == t.consents && |u.vendors| == |t.vendors| && |u.loans| == |t.loans|
    && (forall i :: 0 <= i < |t.vendors| ==>
          if t.vendors[i].gstin == id then SameButSecrets(t.vendors[i], u.vendors[i])
          else u.vendors[i] == t.vendors[i])
    && (forall i :: 0 <= i < |t.loans| ==>
          if t.loans[i].vendorGstin == id then SameButVendorSecrets(t.loans[i], u.loans[i])
          else u.loans[i] == t.loans[i])
  }

  /** An erasure that goes through leaves the same tables, whatever the secrets of the vendor were. */
  lemma ErasureForgets(sha: Sha256, t: Tables, u: Tables, id: string, now: int)
    requires AlikeExceptAbout(t, u, id) && !HasLegalHold(t.loans, id, now)
    ensures Erase(sha, t, id, now) == Erase(sha, u, id, now)
  {
    assert !HasLegalHold(u.loans, id, now) by {
      forall i | 0 <= i < |u.loans| ensures !Holds(u.loans[i], id, now) {
        assert !Holds(t.loans[i], id, now);
      }
    }
    assert EraseRows(sha, t, id, now).vendors == EraseRows(sha, u, id, now).vendors;
    assert EraseRows(sha, t, id, now).loans == EraseRows(sha, u, id, now).loans;
  }

  /** The tables differ at most in the secrets of rows that the two retention passes would mask. */
  predicate AlikeExceptRetired(t: Tables, u: Tables, now: int, days: int) {
    && u.consents == t.consents && |u.vendors| == |t.vendors| && |u.loans| == |t.loans|
    && (forall i :: 0 <= i < |t.vendors| ==>
          if Dormant(t.vendors[i], t.loans, now, days) then SameButSecrets(t.vendors[i], u.vendors[i])
          else u.vendors[i] == t.vendors[i])
    && (forall i :: 0 <= i < |t.loans| ==>
          if Expired(t.loans[i], now, days) then SameButLoanSecrets(t.loans[i], u.loans[i])
          else u.loans[i] == t.loans[i])
  }

  /** Both retention passes together leave the same tables, whatever those secrets were. */
  lemma RetentionForgets(sha: Sha256, t: Tables, u: Tables, now: int, days: int)
    requires AlikeExceptRetired(t, u, now, days)
    ensures RetainVendors(sha, RetainLoans(sha, t, now, days), now, days)
         == RetainVendors(sha, RetainLoans(sha, u, now, days), now, days)
  {
    var x, y := RetainLoans(sha, t, now, days), RetainLoans(sha, u, now, days);
    assert x.loans == y.loans;
    forall i | 0 <= i < |t.vendors|
      ensures RetainVendor(sha, x.loans, now, days, t.vendors[i]) == RetainVendor(sha, y.loans, now, days, u.vendors[i])
    {
      RetainLoansKeepsActive(sha, t, now, days, t.vendors[i].gstin);
    }
    assert RetainVendors(sha, x, now, days).vendors == RetainVendors(sha, y, now, days).vendors;
  }

  // ------------------------------------------------------------------------------------------
  // Idempotence
  // ------------------------------------------------------------------------------------------

  /** Erasing the same identifier again changes nothing, at whatever time. */
  lemma EraseTwice(sha: Sha256, t: Tables, id: string, now: int, later: int)
    requires !HasLegalHold(t.loans, id, now) && !Masked(id)
    ensures Erase(sha, Erase(sha, t, id, now), id, later) == Erase(sha, t, id, now)
  {
    var u := Erase(sha, t, id, now);
    assert forall i :: 0 <= i < |u.loans| ==> u.loans[i].vendorGstin != id;
    var w := EraseRows(sha, u, id, later);
    assert w.vendors == u.vendors && w.loans == u.loans && w.consents == u.consents;
  }

  lemma RetainLoansTwice(sha: Sha256, t: Tables, now: int, days: int)
    ensures RetainLoans(sha, RetainLoans(sha, t, now, days), now, days) == RetainLoans(sha, t, now, days)
  {
    var u := RetainLoans(sha, t, now, days);
    assert RetainLoans(sha, u, now, days).loans == u.loans;
  }

  lemma RetainVendorsTwice(sha: Sha256, t: Tables, now: int, days: int)
    ensures RetainVendors(sha, RetainVendors(sha, t, now, days), now, days) == RetainVendors(sha, t, now, days)
  {
    var u := RetainVendors(sha, t, now, days);
    assert RetainVendors(sha, u, now, days).vendors == u.vendors;
  }

  // ------------------------------------------------------------------------------------------
  // Legal holds
  // ------------------------------------------------------------------------------------------

  /** No row was updated before it was created. */
  ghost predicate Ordered(loans: seq<Loan>) {
    forall i :: 0 <= i < |loans| ==> loans[i].createdAt <= loans[i].updatedAt
  }

  /** Whether a loan retention pass leaves every legal hold exactly as it found it. */
  ghost predicate HoldsUntouched(sha: Sha256, t: Tables, now: int, days: int) {
    forall id :: HasLegalHold(RetainLoans(sha, t, now, days).loans, id, now) <==> HasLegalHold(t.loans, id, now)
  }

  /** A retention pass that only reaches loans too old for any hold at `at` leaves those holds alone. */
  lemma RetentionKeepsHoldsAt(sha: Sha256, t: Tables, now: int, days: int, at: int, id: string)
    requires now - days * DAY <= at - HOLD_DAYS * DAY && Ordered(t.loans)
    ensures HasLegalHold(RetainLoans(sha, t, now, days).loans, id, at) <==> HasLegalHold(t.loans, id, at)
  {
    var u := RetainLoans(sha, t, now, days);
    forall i | 0 <= i < |t.loans| ensures Holds(u.loans[i], id, at) <==> Holds(t.loans[i], id, at) {
    }
    if HasLegalHold(t.loans, id, at) {
      var i :| 0 <= i < |t.loans| && Holds(t.loans[i], id, at);
      assert Holds(u.loans[i], id, at);
    }
  }

  lemma LongRetentionKeepsHolds(sha: Sha256, t: Tables, now: int, days: int)
    requires days >= HOLD_DAYS && Ordered(t.loans)
    ensures HoldsUntouched(sha, t, now, days)
  {
    forall id ensures HasLegalHold(RetainLoans(sha, t, now, days).loans, id, now) <==> HasLegalHold(t.loans, id, now) {
      RetentionKeepsHoldsAt(sha, t, now, days, now, id);
    }
  }

  ghost function ClosedLoan(gstin: string, at: int): Tables {
    Tables([], [Loan(0, gstin, "", "closed", at, at, None, None, None, None)], [])
  }

  /** Loan retention respects every legal hold exactly when it waits at least the hold's seven years. */
  lemma RetentionKeepsHoldsExactly(sha: Sha256, now: int, days: int)
    ensures (forall t: Tables :: Ordered(t.loans) ==> HoldsUntouched(sha, t, now, days)) <==> days >= 2555
  {
    if days >= HOLD_DAYS {
      forall t: Tables | Ordered(t.loans) ensures HoldsUntouched(sha, t, now, days) {
        LongRetentionKeepsHolds(sha, t, now, days);
      }
    } else {
      var t := ClosedLoan("27AADCB2230M1ZT", now - days * DAY - 1);
      var u := RetainLoans(sha, t, now, days);
      assert Holds(t.loans[0], "27AADCB2230M1ZT", now);
      assert u.loans[0].vendorGstin == Pseudonym(sha, "27AADCB2230M1ZT");
      assert !HasLegalHold(u.loans, "27AADCB2230M1ZT", now);
      assert Ordered(t.loans) && !HoldsUntouched(sha, t, now, days);
    }
  }

  // ------------------------------------------------------------------------------------------
  // Order of operations
  // ------------------------------------------------------------------------------------------

  lemma RetainLoansKeepsActive(sha: Sha256, t: Tables, now: int, days: int, gstin: string)
    ensures HasActiveLoan(RetainLoans(sha, t, now, days).loans, gstin) <==> HasActiveLoan(t.loans, gstin)
  {
    var u := RetainLoans(sha, t, now, days);
    forall i | 0 <= i < |t.loans| ensures ActiveFor(u.loans[i], gstin) <==> ActiveFor(t.loans[i], gstin) {
    }
    if HasActiveLoan(t.loans, gstin) {
      var i :| 0 <= i < |t.loans| && ActiveFor(t.loans[i], gstin);
      assert ActiveFor(u.loans[i], gstin);
    }
  }

  lemma RetentionRowsCommute(sha: Sha256, t: Tables, now: int, days: int, now': int, days': int)
    ensures RetainVendors(sha, RetainLoans(sha, t, now, days), now', days')
         == RetainLoans(sha, RetainVendors(sha, t, now', days'), now, days)
  {
    var u := RetainLoans(sha, t, now, days);
    forall i | 0 <= i < |t.vendors|
      ensures RetainVendor(sha, u.loans, now', days', t.vendors[i]) ==
        RetainVendor(sha, t.loans, now', days', t.vendors[i])
    {
      RetainLoansKeepsActive(sha, t, now, days, t.vendors[i].gstin);
    }
    assert RetainVendors(sha, u, now', days').vendors == RetainVendors(sha, t, now', days').vendors;
  }

  /**
   The two retention passes can run in either order, whatever their periods and clocks, rolled back or
   not: a loan pass never conflicts, and never decides whether a vendor pass does.
   */
  lemma RetentionPassesCommute(sha: Sha256, t: Tables, loanPass: Operation, vendorPass: Operation)
    requires UniqueGstins(t.vendors) && loanPass.RetainLoansOp? && vendorPass.RetainVendorsOp?
    ensures Apply(sha, Apply(sha, t, loanPass), vendorPass) == Apply(sha, Apply(sha, t, vendorPass), loanPass)
  {
    RetentionRowsCommute(sha, t, loanPass.now, loanPass.days, vendorPass.now, vendorPass.days);
  }

  lemma EraseKeepsActive(sha: Sha256, t: Tables, id: string, now: int, gstin: string)
    requires !Masked(gstin) && gstin != id
    ensures HasActiveLoan(EraseRows(sha, t, id, now).loans, gstin) <==> HasActiveLoan(t.loans, gstin)
  {
    var u := EraseRows(sha, t, id, now);
    forall i | 0 <= i < |t.loans| ensures ActiveFor(u.loans[i], gstin) <==> ActiveFor(t.loans[i], gstin) {
    }
    if HasActiveLoan(t.loans, gstin) {
      var i :| 0 <= i < |t.loans| && ActiveFor(t.loans[i], gstin);
      assert ActiveFor(u.loans[i], gstin);
    }
  }

  lemma VendorAndEraseRowsCommute(sha: Sha256, t: Tables, id: string, at: int, now: int, days: int)
    requires !Masked(id)
    ensures RetainVendors(sha, Erase(sha, t, id, at), now, days) == Erase(sha, RetainVendors(sha, t, now, days), id, at)
  {
    if !HasLegalHold(t.loans, id, at) {
      var u, w := EraseRows(sha, t, id, at), RetainVendors(sha, t, now, days);
      forall i | 0 <= i < |t.vendors|
        ensures RetainVendor(sha, u.loans, now, days, u.vendors[i]) == EraseVendor(sha, id, w.vendors[i])
      {
        if t.vendors[i].gstin != id && !Masked(t.vendors[i].gstin) {
          EraseKeepsActive(sha, t, id, at, t.vendors[i].gstin);
        }
      }
      assert RetainVendors(sha, u, now, days).vendors == EraseRows(sha, w, id, at).vendors;
      assert EraseRows(sha, w, id, at).loans == u.loans && EraseRows(sha, w, id, at).consents == u.consents;
    }
  }

  /** Both operations would go through alone, but their masked rows clash with each other. */
  predicate OnlyOneFits(sha: Sha256, t: Tables, first: Operation, second: Operation) {
    && UniqueGstins(Attempt(sha, t, first).vendors) && UniqueGstins(Attempt(sha, t, second).vendors)
    && !UniqueGstins(Attempt(sha, Attempt(sha, t, first), second).vendors)
  }

  /** No vendor row has the pseudonym of the erased one. */
  predicate EraseFits(sha: Sha256, vendors: seq<Vendor>, id: string) {
    (exists i :: 0 <= i < |vendors| && vendors[i].gstin == id) ==>
      forall k :: 0 <= k < |vendors| ==> vendors[k].gstin != Pseudonym(sha, id)
  }

  /** No dormant vendor row has a pseudonym that another row has, or that another dormant row would get. */
  predicate RetainFits(sha: Sha256, t: Tables, now: int, days: int) {
    forall j, k :: 0 <= j < |t.vendors| && 0 <= k < |t.vendors| && j != k &&
                   Dormant(t.vendors[j], t.loans, now, days) ==>
      t.vendors[k].gstin != Pseudonym(sha, t.vendors[j].gstin) &&
      (Dormant(t.vendors[k], t.loans, now, days) ==>
         Pseudonym(sha, t.vendors[k].gstin) != Pseudonym(sha, t.vendors[j].gstin))
  }

  /**
   No hold blocks the erasure, each masking fits alone, and the erased vendor, itself not dormant, shares
   its pseudonym with a dormant one.
   */
  predicate Rivals(sha: Sha256, t: Tables, id: string, at: int, now: int, days: int) {
    && !HasLegalHold(t.loans, id, at) && EraseFits(sha, t.vendors, id) && RetainFits(sha, t, now, days)
    && exists i, j :: 0 <= i < |t.vendors| && 0 <= j < |t.vendors| && RivalRows(sha, t, id, now, days, i, j)
  }

  predicate RivalRows(sha: Sha256, t: Tables, id: string, now: int, days: int, i: nat, j: nat)
    requires i < |t.vendors| && j < |t.vendors|
  {
    && t.vendors[i].gstin == id && !Dormant(t.vendors[i], t.loans, now, days)
    && Dormant(t.vendors[j], t.loans, now, days) && Pseudonym(sha, t.vendors[j].gstin) == Pseudonym(sha, id)
  }

  lemma EraseFitsExactly(sha: Sha256, t: Tables, id: string, now: int)
    requires UniqueGstins(t.vendors) && !Masked(id)
    ensures UniqueGstins(EraseRows(sha, t, id, now).vendors) <==> EraseFits(sha, t.vendors, id)
  {
    var u := EraseRows(sha, t, id, now);
    if i, k :| 0 <= i < |t.vendors| && 0 <= k < |t.vendors| && t.vendors[i].gstin == id &&
               t.vendors[k].gstin == Pseudonym(sha, id) {
      assert u.vendors[i].gstin == u.vendors[k].gstin;
    }
  }

  lemma RetainFitsExactly(sha: Sha256, t: Tables, now: int, days: int)
    requires UniqueGstins(t.vendors)
    ensures UniqueGstins(RetainVendors(sha, t, now, days).vendors) <==> RetainFits(sha, t, now, days)
  {
    var u := RetainVendors(sha, t, now, days);
    forall j, k | 0 <= j < |t.vendors| && 0 <= k < |t.vendors| && j != k && UniqueGstins(u.vendors) &&
                  Dormant(t.vendors[j], t.loans, now, days)
      ensures t.vendors[k].gstin != Pseudonym(sha, t.vendors[j].gstin)
      ensures Dormant(t.vendors[k], t.loans, now, days) ==>
        Pseudonym(sha, t.vendors[k].gstin) != Pseudonym(sha, t.vendors[j].gstin)
    {
      assert u.vendors[j].gstin != u.vendors[k].gstin;
    }
  }

  lemma BothMaskedRow(sha: Sha256, t: Tables, erase: Operation, retain: Operation, k: nat)
    requires erase.EraseOp? && erase.Raw() && retain.RetainVendorsOp? && k < |t.vendors|
    requires !HasLegalHold(t.loans, erase.id, erase.now)
    ensures Attempt(sha, Attempt(sha, t, erase), retain).vendors[k].gstin ==
      if t.vendors[k].gstin == erase.id || Dormant(t.vendors[k], t.loans, retain.now, retain.days)
      then Pseudonym(sha, t.vendors[k].gstin) else t.vendors[k].gstin
  {
    if t.vendors[k].gstin != erase.id && !Masked(t.vendors[k].gstin) {
      EraseKeepsActive(sha, t, erase.id, erase.now, t.vendors[k].gstin);
    }
  }

  /** What the outcome of the two operations says can be read off the rows. */
  lemma OnlyOneFitsExactly(sha: Sha256, t: Tables, erase: Operation, retain: Operation)
    requires UniqueGstins(t.vendors) && erase.EraseOp? && erase.Raw() && retain.RetainVendorsOp?
    ensures OnlyOneFits(sha, t, erase, retain) <==> Rivals(sha, t, erase.id, erase.now, retain.now, retain.days)
  {
    EraseFitsExactly(sha, t, erase.id, erase.now);
    RetainFitsExactly(sha, t, retain.now, retain.days);
    if OnlyOneFits(sha, t, erase, retain) {
      ClashAreRivals(sha, t, erase, retain);
    }
    if Rivals(sha, t, erase.id, erase.now, retain.now, retain.days) {
      var i, j :| 0 <= i < |t.vendors| && 0 <= j < |t.vendors| &&
        RivalRows(sha, t, erase.id, retain.now, retain.days, i, j);
      BothMaskedRow(sha, t, erase, retain, i);
      BothMaskedRow(sha, t, erase, retain, j);
    }
  }

  lemma ClashAreRivals(sha: Sha256, t: Tables, erase: Operation, retain: Operation)
    requires UniqueGstins(t.vendors) && erase.EraseOp? && erase.Raw() && retain.RetainVendorsOp?
    requires OnlyOneFits(sha, t, erase, retain)
    ensures !HasLegalHold(t.loans, erase.id, erase.now)
    ensures exists i, j :: 0 <= i < |t.vendors| && 0 <= j < |t.vendors| &&
                           RivalRows(sha, t, erase.id, retain.now, retain.days, i, j)
  {
    var e, r := Attempt(sha, t, erase), Attempt(sha, t, retain);
    var both := Attempt(sha, e, retain);
    var a, b :| 0 <= a < b < |t.vendors| && both.vendors[a].gstin == both.vendors[b].gstin;
    BothMaskedRow(sha, t, erase, retain, a);
    BothMaskedRow(sha, t, erase, retain, b);
    assert e.vendors[a].gstin != e.vendors[b].gstin && r.vendors[a].gstin != r.vendors[b].gstin;
    var i, j := if t.vendors[a].gstin == erase.id then a else b, if t.vendors[a].gstin == erase.id then b else a;
    assert RivalRows(sha, t, erase.id, retain.now, retain.days, i, j);
  }

  /** Rows that fit with both maskings in place fit with either alone. */
  lemma BothFitMeansEachFits(sha: Sha256, t: Tables, erase: Operation, retain: Operation)
    requires UniqueGstins(t.vendors) && erase.EraseOp? && erase.Raw() && retain.RetainVendorsOp?
    requires UniqueGstins(Attempt(sha, Attempt(sha, t, erase), retain).vendors)
    ensures UniqueGstins(Attempt(sha, t, erase).vendors) && UniqueGstins(Attempt(sha, t, retain).vendors)
  {
    VendorAndEraseRowsCommute(sha, t, erase.id, erase.now, retain.now, retain.days);
    var e, r := Attempt(sha, t, erase), Attempt(sha, t, retain);
    var both := Attempt(sha, e, retain);
    forall i, j | 0 <= i < j < |t.vendors| ensures e.vendors[i].gstin != e.vendors[j].gstin {
      assert both.vendors[i].gstin != both.vendors[j].gstin;
    }
    forall i, j | 0 <= i < j < |t.vendors| ensures r.vendors[i].gstin != r.vendors[j].gstin {
      assert both.vendors[i].gstin != both.vendors[j].gstin;
    }
  }

  /**
   Vendor retention and an erasure, with their rollbacks: the order shows exactly when the erased vendor
   has a rival for its pseudonym.  With distinct owners none has.
   */
  lemma VendorRetentionCommutesWithErase(sha: Sha256, t: Tables, erase: Operation, retain: Operation)
    requires UniqueGstins(t.vendors) && erase.EraseOp? && erase.Raw() && retain.RetainVendorsOp?
    ensures Apply(sha, Apply(sha, t, erase), retain) == Apply(sha, Apply(sha, t, retain), erase)
            <==> !Rivals(sha, t, erase.id, erase.now, retain.now, retain.days)
    ensures DistinctOwners(sha, t.vendors) ==> !Rivals(sha, t, erase.id, erase.now, retain.now, retain.days)
  {
    hide Rivals, OnlyOneFits;
    OnlyOneFitsExactly(sha, t, erase, retain);
    OrderShowsExactly(sha, t, erase, retain);
    if DistinctOwners(sha, t.vendors) {
      DistinctOwnersBothFit(sha, t, erase, retain);
    }
  }

  lemma DistinctOwnersBothFit(sha: Sha256, t: Tables, erase: Operation, retain: Operation)
    requires UniqueGstins(t.vendors) && erase.EraseOp? && erase.Raw() && retain.RetainVendorsOp?
    requires DistinctOwners(sha, t.vendors)
    ensures !OnlyOneFits(sha, t, erase, retain)
  {
    DistinctOwnersNeverConflict(sha, t, [erase, retain]);
    assert [erase, retain][1..] == [retain];
  }

  lemma OrderShowsExactly(sha: Sha256, t: Tables, erase: Operation, retain: Operation)
    requires UniqueGstins(t.vendors) && erase.EraseOp? && erase.Raw() && retain.RetainVendorsOp?
    ensures Apply(sha, Apply(sha, t, erase), retain) == Apply(sha, Apply(sha, t, retain), erase)
            <==> !OnlyOneFits(sha, t, erase, retain)
  {
    VendorAndEraseRowsCommute(sha, t, erase.id, erase.now, retain.now, retain.days);
    RetainVendorsTwice(sha, t, retain.now, retain.days);
    if UniqueGstins(Attempt(sha, Attempt(sha, t, erase), retain).vendors) {
      BothFitMeansEachFits(sha, t, erase, retain);
    }
  }

  /** Identifiers with one pseudonym: erase one vendor, retire the other, and the first to run wins. */
  lemma CollidingPseudonymsShowOrder(sha: Sha256, a: string, b: string)
    returns (t: Tables, erase: Operation, retain: Operation)
    requires a != b && !Masked(a) && !Masked(b) && Pseudonym(sha, a) == Pseudonym(sha, b)
    ensures UniqueGstins(t.vendors) && erase.EraseOp? && erase.Raw() && retain.RetainVendorsOp?
    ensures Apply(sha, Apply(sha, t, erase), retain) != Apply(sha, Apply(sha, t, retain), erase)
  {
    var v := SingleVendor(a).vendors[0];
    t := Tables([v, v.(gstin := b, onboardedAt := -1)], [], []);
    erase, retain := EraseOp(a, 0), RetainVendorsOp(0, 0);
    assert !Dormant(t.vendors[0], t.loans, 0, 0) && Dormant(t.vendors[1], t.loans, 0, 0);
    assert RivalRows(sha, t, a, 0, 0, 0, 1);
    VendorRetentionCommutesWithErase(sha, t, erase, retain);
  }

  /** A loan row without the columns only retention masks. */
  function WithoutAnchor(l: Loan): Loan {
    l.(anchorGstin := "", anchorGstinEnc := None, anchorGstinIdx := None)
  }

  ghost predicate SameButAnchorsAndStamps(t: Tables, u: Tables) {
    && u.vendors == t.vendors && u.consents == t.consents && |u.loans| == |t.loans|
    && forall i :: 0 <= i < |t.loans| ==>
         WithoutAnchor(u.loans[i].(updatedAt := t.loans[i].updatedAt)) == WithoutAnchor(t.loans[i])
  }

  ghost predicate SameStamps(t: Tables, u: Tables) {
    |u.loans| == |t.loans| && forall i :: 0 <= i < |t.loans| ==> u.loans[i].updatedAt == t.loans[i].updatedAt
  }

  /** The erasure goes through, and some loan of `id` has expired that retention would leave different. */
  ghost predicate LoanAtStake(sha: Sha256, t: Tables, id: string, at: int, now: int, days: int) {
    !HasLegalHold(t.loans, id, at) && UniqueGstins(EraseRows(sha, t, id, at).vendors) &&
    exists i :: 0 <= i < |t.loans| && t.loans[i].vendorGstin == id && Expired(t.loans[i], now, days) &&
      (MaskAnchor(sha, t.loans[i]) != t.loans[i] || at != now)
  }

  lemma LoanOrderRow(sha: Sha256, id: string, at: int, now: int, days: int, l: Loan)
    requires !Masked(id)
    ensures var one, other := EraseLoan(sha, id, at, RetainLoan(sha, now, days, l)),
                              RetainLoan(sha, now, days, EraseLoan(sha, id, at, l));
      && WithoutAnchor(other.(updatedAt := one.updatedAt)) == WithoutAnchor(one)
      && (at == now ==> other.updatedAt == one.updatedAt)
      && (one == other <==>
            !(l.vendorGstin == id && Expired(l, now, days) && (MaskAnchor(sha, l) != l || at != now)))
  {
  }

  /**
   Loan retention and an erasure, with their rollbacks, where retention only reaches loans too old for
   the hold the erasure looks for: the order shows in anchor columns and update stamps only, under one
   clock reading in anchor columns only, and it shows exactly when a loan is at stake.
   */
  lemma LoanRetentionAndErase(sha: Sha256, t: Tables, id: string, at: int, now: int, days: int)
    requires UniqueGstins(t.vendors) && Ordered(t.loans)
    requires !Masked(id) && now - days * DAY <= at - HOLD_DAYS * DAY
    ensures var erase, retain := EraseOp(id, at), RetainLoansOp(days, now);
      var one, other := Apply(sha, Apply(sha, t, retain), erase), Apply(sha, Apply(sha, t, erase), retain);
      && SameButAnchorsAndStamps(one, other) && (at == now ==> SameStamps(one, other))
      && (one == other <==> !LoanAtStake(sha, t, id, at, now, days))
  {
    var u, w := RetainLoans(sha, t, now, days), EraseRows(sha, t, id, at);
    RetentionKeepsHoldsAt(sha, t, now, days, at, id);
    assert EraseRows(sha, u, id, at).vendors == w.vendors;
    if !HasLegalHold(t.loans, id, at) && UniqueGstins(w.vendors) {
      LoanAndEraseRows(sha, t, id, at, now, days);
    }
  }

  lemma LoanAndEraseRows(sha: Sha256, t: Tables, id: string, at: int, now: int, days: int)
    requires !Masked(id) && !HasLegalHold(t.loans, id, at) && UniqueGstins(EraseRows(sha, t, id, at).vendors)
    ensures var one, other := EraseRows(sha, RetainLoans(sha, t, now, days), id, at),
                              RetainLoans(sha, EraseRows(sha, t, id, at), now, days);
      && SameButAnchorsAndStamps(one, other) && (at == now ==> SameStamps(one, other))
      && (one == other <==> !LoanAtStake(sha, t, id, at, now, days))
  {
    var one, other := EraseRows(sha, RetainLoans(sha, t, now, days), id, at),
                      RetainLoans(sha, EraseRows(sha, t, id, at), now, days);
    forall i | 0 <= i < |t.loans|
      ensures WithoutAnchor(other.loans[i].(updatedAt := one.loans[i].updatedAt)) == WithoutAnchor(one.loans[i])
      ensures at == now ==> other.loans[i].updatedAt == one.loans[i].updatedAt
      ensures one.loans[i] == other.loans[i] <==>
        !(t.loans[i].vendorGstin == id && Expired(t.loans[i], now, days) &&
          (MaskAnchor(sha, t.loans[i]) != t.loans[i] || at != now))
    {
      LoanOrderRow(sha, id, at, now, days, t.loans[i]);
    }
    if !LoanAtStake(sha, t, id, at, now, days) {
      assert one.loans == other.loans;
    }
  }

  // ------------------------------------------------------------------------------------------
  // Order of policies
  // ------------------------------------------------------------------------------------------

  predicate ExpiredBy(l: Loan, step: Enforcement) {
    step.policy.category == "loan_application" && Expired(l, step.now, step.policy.days)
  }

  predicate DormantBy(v: Vendor, loans: seq<Loan>, step: Enforcement) {
    step.policy.category == "vendor_contact" && Dormant(v, loans, step.now, step.policy.days)
  }

  /** The clock reading of the first step that finds the loan expired. */
  function StampOf(steps: seq<Enforcement>, l: Loan): (stamp: Option<int>)
    ensures stamp.Some? <==> exists s :: s in steps && ExpiredBy(l, s)
    ensures stamp.Some? ==> exists s :: s in steps && ExpiredBy(l, s) && stamp.value == s.now
  {
    if steps == [] then None
    else
      var front, last := steps[..|steps| - 1], steps[|steps| - 1];
      assert steps == front + [last];
      var stamp := StampOf(front, l);
      if stamp.None? && ExpiredBy(l, last) then Some(last.now) else stamp
  }

  /** A loan row after a whole pass: masked by the first policy that finds it expired, if any does. */
  function PassedLoan(sha: Sha256, steps: seq<Enforcement>, l: Loan): Loan {
    match StampOf(steps, l)
    case None => l
    case Some(stamp) => MaskAnchor(sha, MaskLoanVendor(sha, l, stamp))
  }

  ghost predicate Asked(steps: seq<Enforcement>, loans: seq<Loan>, v: Vendor) {
    exists s :: s in steps && DormantBy(v, loans, s)
  }

  /** A vendor row after a whole pass: masked if any policy finds it dormant among the loans at the start. */
  ghost function PassedVendor(sha: Sha256, steps: seq<Enforcement>, loans: seq<Loan>, v: Vendor): Vendor {
    if Asked(steps, loans, v) then MaskVendor(sha, v) else v
  }

  ghost function PassedTables(sha: Sha256, steps: seq<Enforcement>, t: Tables): Tables {
    Tables(
      seq(|t.vendors|, i requires 0 <= i < |t.vendors| => PassedVendor(sha, steps, t.loans, t.vendors[i])),
      seq(|t.loans|, i requires 0 <= i < |t.loans| => PassedLoan(sha, steps, t.loans[i])),
      t.consents)
  }

  lemma PolicyCommitsAlways(sha: Sha256, t: Tables, p: Policy, now: int)
    requires DistinctOwners(sha, t.vendors)
    ensures PolicyCommits(sha, t, p, now) && DistinctOwners(sha, ApplyPolicy(sha, t, p, now).vendors)
  {
    AttemptKeepsOwners(sha, t, RetainVendorsOp(p.days, now));
    DistinctOwnersMoveAlong(sha, t, RetainVendors(sha, t, now, p.days));
  }

  lemma PassKeepsActive(sha: Sha256, steps: seq<Enforcement>, t: Tables, gstin: string)
    ensures HasActiveLoan(PassedTables(sha, steps, t).loans, gstin) <==> HasActiveLoan(t.loans, gstin)
  {
    var u := PassedTables(sha, steps, t);
    forall i | 0 <= i < |t.loans| ensures ActiveFor(u.loans[i], gstin) <==> ActiveFor(t.loans[i], gstin) {
    }
    if HasActiveLoan(t.loans, gstin) {
      var i :| 0 <= i < |t.loans| && ActiveFor(t.loans[i], gstin);
      assert ActiveFor(u.loans[i], gstin);
    }
  }

  /** A whole pass masks exactly the rows that some policy asks for at the start, each just once. */
  lemma {:induction false} PassMasksExactly(sha: Sha256, t: Tables, steps: seq<Enforcement>)
    requires DistinctOwners(sha, t.vendors)
    ensures ApplyPolicies(sha, t, steps) == PassedTables(sha, steps, t)
    ensures DistinctOwners(sha, ApplyPolicies(sha, t, steps).vendors)
  {
    if steps == [] {
      assert PassedTables(sha, steps, t) == t;
    } else {
      var front, last := steps[..|steps| - 1], steps[|steps| - 1];
      assert steps == front + [last];
      PassMasksExactly(sha, t, front);
      PolicyCommitsAlways(sha, ApplyPolicies(sha, t, front), last.policy, last.now);
      PassStep(sha, t, front, last);
    }
  }

  lemma PassStep(sha: Sha256, t: Tables, front: seq<Enforcement>, last: Enforcement)
    requires PolicyCommits(sha, PassedTables(sha, front, t), last.policy, last.now)
    ensures ApplyPolicy(sha, PassedTables(sha, front, t), last.policy, last.now)
         == PassedTables(sha, front + [last], t)
  {
    var u, w := PassedTables(sha, front, t), PassedTables(sha, front + [last], t);
    var done := ApplyPolicy(sha, u, last.policy, last.now);
    forall i | 0 <= i < |t.loans| ensures done.loans[i] == w.loans[i] {
      assert (front + [last])[..|front|] == front;
    }
    forall i | 0 <= i < |t.vendors| ensures done.vendors[i] == w.vendors[i] {
      PassKeepsActive(sha, front, t, t.vendors[i].gstin);
      PassedVendorSnoc(sha, front, last, t.loans, t.vendors[i]);
    }
    assert done.loans == w.loans && done.vendors == w.vendors;
  }

  lemma PassedVendorSnoc(sha: Sha256, front: seq<Enforcement>, last: Enforcement, loans: seq<Loan>, v: Vendor)
    ensures PassedVendor(sha, front + [last], loans, v) ==
      if DormantBy(v, loans, last) then MaskVendor(sha, v) else PassedVendor(sha, front, loans, v)
  {
    assert last in front + [last];
    assert forall s :: s in front ==> s in front + [last];
  }

  ghost predicate OneClock(steps: seq<Enforcement>) {
    forall s, q :: s in steps && q in steps ==> s.now == q.now
  }

  ghost predicate SameButStamps(t: Tables, u: Tables) {
    && u.vendors == t.vendors && u.consents == t.consents && |u.loans| == |t.loans|
    && forall i :: 0 <= i < |t.loans| ==> u.loans[i].(updatedAt := t.loans[i].updatedAt) == t.loans[i]
  }

  /**
   The order in which the configuration lists its retention policies does not matter: any
   rearrangement leaves the same rows, up to update stamps, and under one clock reading those as well.
   */
  lemma PolicyOrderIsIrrelevant(
      sha: Sha256, t: Tables, steps: seq<Enforcement>, rearranged: seq<Enforcement>)
    requires DistinctOwners(sha, t.vendors) && multiset(steps) == multiset(rearranged)
    ensures SameButStamps(ApplyPolicies(sha, t, steps), ApplyPolicies(sha, t, rearranged))
    ensures OneClock(steps) ==> ApplyPolicies(sha, t, steps) == ApplyPolicies(sha, t, rearranged)
  {
    PassMasksExactly(sha, t, steps);
    PassMasksExactly(sha, t, rearranged);
    assert forall s :: s in steps <==> s in multiset(steps);
    assert forall s :: s in rearranged <==> s in multiset(rearranged);
    var u, w := PassedTables(sha, steps, t), PassedTables(sha, rearranged, t);
    forall i | 0 <= i < |t.loans|
      ensures w.loans[i].(updatedAt := u.loans[i].updatedAt) == u.loans[i]
      ensures OneClock(steps) ==> w.loans[i] == u.loans[i]
    {
    }
    assert u.vendors == w.vendors;
    if OneClock(steps) {
      assert u.loans == w.loans;
    }
  }

  /** The two passes ask for the same loans, whenever they run, and for the same vendors. */
  ghost predicate AskAlike(t: Tables, steps: seq<Enforcement>, others: seq<Enforcement>) {
    && (forall i :: 0 <= i < |t.loans| ==> (StampOf(steps, t.loans[i]).Some? <==> StampOf(others, t.loans[i]).Some?))
    && (forall i :: 0 <= i < |t.vendors| ==>
          (Asked(steps, t.loans, t.vendors[i]) <==> Asked(others, t.loans, t.vendors[i])))
  }

  /**
   Any two passes over the same tables, with policies and clock readings of their own, leave the same rows
   up to update stamps exactly when they ask for the same rows.
   */
  lemma PassesAgreeExactly(sha: Sha256, t: Tables, steps: seq<Enforcement>, others: seq<Enforcement>)
    requires DistinctOwners(sha, t.vendors)
    ensures SameButStamps(ApplyPolicies(sha, t, steps), ApplyPolicies(sha, t, others)) <==> AskAlike(t, steps, others)
  {
    PassMasksExactly(sha, t, steps);
    PassMasksExactly(sha, t, others);
    var u, w := PassedTables(sha, steps, t), PassedTables(sha, others, t);
    forall i | 0 <= i < |t.loans|
      ensures w.loans[i].(updatedAt := u.loans[i].updatedAt) == u.loans[i] <==>
        (StampOf(steps, t.loans[i]).Some? <==> StampOf(others, t.loans[i]).Some?)
    {
      assert StampOf(steps, t.loans[i]).Some? || StampOf(others, t.loans[i]).Some? ==> !Masked(t.loans[i].vendorGstin);
    }
    forall i | 0 <= i < |t.vendors|
      ensures w.vendors[i] == u.vendors[i] <==>
        (Asked(steps, t.loans, t.vendors[i]) <==> Asked(others, t.loans, t.vendors[i]))
    {
      assert Asked(steps, t.loans, t.vendors[i]) || Asked(others, t.loans, t.vendors[i]) ==>
        !Masked(t.vendors[i].gstin);
    }
    if AskAlike(t, steps, others) {
      assert u.vendors == w.vendors;
    }
  }
}
