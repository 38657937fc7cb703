/**
 The three operations that pseudonymise rows of the platform database: erasure on request, and the
 two retention handlers.  Each is a method that rewrites rows in place, proved against a function on
 the tables.
 */
module PlatformData {
  import opened Wrappers
  import opened Hashing

  const DAY: int := 86400
  /** RBI retention: seven years. */
  const HOLD_DAYS: int := 2555

  datatype Vendor = Vendor(
    id: nat, name: string, gstin: string, udyamNumber: Option<string>, onboardedAt: int,
    nameEnc: Option<string>, gstinEnc: Option<string>, gstinIdx: Option<string>,
    udyamNumberEnc: Option<string>, udyamNumberIdx: Option<string>)

  datatype Loan = Loan(
    id: nat, vendorGstin: string, anchorGstin: string, status: string, createdAt: int, updatedAt: int,
    vendorGstinEnc: Option<string>, vendorGstinIdx: Option<string>,
    anchorGstinEnc: Option<string>, anchorGstinIdx: Option<string>)

  datatype Consent = Consent(id: nat, dataPrincipalId: string, purpose: string, granted: bool)

  datatype Tables = Tables(vendors: seq<Vendor>, loans: seq<Loan>, consents: seq<Consent>)

  /** `LIKE 'V-%'`: the value is a vendor pseudonym already. */
  predicate Masked(gstin: string) {
    |gstin| >= 2 && gstin[0] == 'V' && gstin[1] == '-'
  }

  function Pseudonym(sha: Sha256, gstin: string): (p: string)
    ensures Masked(p) && |p| == 15
  {
    "V-" + sha(gstin)[..13]
  }

  function MaskVendor(sha: Sha256, v: Vendor): Vendor {
    v.(name := "Vendor-" + sha(v.gstin)[..8], gstin := Pseudonym(sha, v.gstin), udyamNumber := None,
       nameEnc := None, gstinEnc := None, gstinIdx := None, udyamNumberEnc := None, udyamNumberIdx := None)
  }

  /** Every update of a loan row also stamps `updated_at`. */
  function MaskLoanVendor(sha: Sha256, l: Loan, now: int): Loan {
    l.(vendorGstin := Pseudonym(sha, l.vendorGstin), vendorGstinEnc := None, vendorGstinIdx := None, updatedAt := now)
  }

  function MaskAnchor(sha: Sha256, l: Loan): Loan {
    l.(anchorGstin := "A-" + sha(l.anchorGstin)[..13], anchorGstinEnc := None, anchorGstinIdx := None)
  }

  // ------------------------------------------------------------------------------------------
  // Erasure
  // ------------------------------------------------------------------------------------------

  predicate Holds(l: Loan, id: string, now: int) {
    l.vendorGstin == id && l.status in ["disbursed", "repaying", "closed"] && l.createdAt > now - HOLD_DAYS * DAY
  }

  predicate HasLegalHold(loans: seq<Loan>, id: string, now: int) {
    exists i :: 0 <= i < |loans| && Holds(loans[i], id, now)
  }

  function EraseVendor(sha: Sha256, id: string, v: Vendor): Vendor {
    if v.gstin == id then MaskVendor(sha, v) else v
  }

  function EraseLoan(sha: Sha256, id: string, now: int, l: Loan): Loan {
    if l.vendorGstin == id then MaskLoanVendor(sha, l, now) else l
  }

  function EraseConsent(sha: Sha256, id: string, c: Consent): Consent {
    if c.dataPrincipalId == id then c.(dataPrincipalId := "P-" + sha(id)[..12]) else c
  }

  function EraseRows(sha: Sha256, t: Tables, id: string, now: int): Tables {
    Tables(
      seq(|t.vendors|, i requires 0 <= i < |t.vendors| => EraseVendor(sha, id, t.vendors[i])),
      seq(|t.loans|, i requires 0 <= i < |t.loans| => EraseLoan(sha, id, now, t.loans[i])),
      seq(|t.consents|, i requires 0 <= i < |t.consents| => EraseConsent(sha, id, t.consents[i])))
  }

  /** What erasure means for the tables when the commit goes through. */
  function Erase(sha: Sha256, t: Tables, id: string, now: int): Tables {
    if HasLegalHold(t.loans, id, now) then t else EraseRows(sha, t, id, now)
  }

  // ------------------------------------------------------------------------------------------
  // Retention
  // ------------------------------------------------------------------------------------------

  predicate Expired(l: Loan, now: int, days: int) {
    l.status == "closed" && l.updatedAt < now - days * DAY && !Masked(l.vendorGstin)
  }

  function RetainLoan(sha: Sha256, now: int, days: int, l: Loan): Loan {
    if Expired(l, now, days) then MaskAnchor(sha, MaskLoanVendor(sha, l, now)) else l
  }

  function ExpiredCount(loans: seq<Loan>, now: int, days: int): nat {
    if loans == [] then 0
    else ExpiredCount(loans[..|loans| - 1], now, days) + if Expired(loans[|loans| - 1], now, days) then 1 else 0
  }

  function RetainLoans(sha: Sha256, t: Tables, now: int, days: int): Tables {
    t.(loans := seq(|t.loans|, i requires 0 <= i < |t.loans| => RetainLoan(sha, now, days, t.loans[i])))
  }

  predicate ActiveFor(l: Loan, gstin: string) {
    l.vendorGstin == gstin && l.status in ["created", "disbursed", "repaying"]
  }

  predicate HasActiveLoan(loans: seq<Loan>, gstin: string) {
    exists i :: 0 <= i < |loans| && ActiveFor(loans[i], gstin)
  }

  predicate Dormant(v: Vendor, loans: seq<Loan>, now: int, days: int) {
    v.onboardedAt < now - days * DAY && !Masked(v.gstin) && !HasActiveLoan(loans, v.gstin)
  }

  function DormantCount(vendors: seq<Vendor>, loans: seq<Loan>, now: int, days: int): nat {
    if vendors == [] then 0
    else
      DormantCount(vendors[..|vendors| - 1], loans, now, days)
      + if Dormant(vendors[|vendors| - 1], loans, now, days) then 1 else 0
  }

  function RetainVendor(sha: Sha256, loans: seq<Loan>, now: int, days: int, v: Vendor): Vendor {
    if Dormant(v, loans, now, days) then MaskVendor(sha, v) else v
  }

  function RetainVendors(sha: Sha256, t: Tables, now: int, days: int): Tables {
    t.(vendors :=
         seq(|t.vendors|, i requires 0 <= i < |t.vendors| => RetainVendor(sha, t.loans, now, days, t.vendors[i])))
  }

  // ------------------------------------------------------------------------------------------
  // What is left of a row, column by column
  // ------------------------------------------------------------------------------------------

  predicate VendorMasked(sha: Sha256, before: Vendor, after: Vendor) {
    && after.id == before.id && after.onboardedAt == before.onboardedAt
    && after.name == "Vendor-" + sha(before.gstin)[..8] && after.gstin == "V-" + sha(before.gstin)[..13]
    && VendorCleared(after)
  }

  /** No registration number, and nothing encrypted or indexed. */
  predicate VendorCleared(v: Vendor) {
    && v.udyamNumber.None? && v.nameEnc.None? && v.gstinEnc.None? && v.gstinIdx.None?
    && v.udyamNumberEnc.None? && v.udyamNumberIdx.None?
  }

  /** The vendor columns of a loan row are masked and its update stamped; the anchor columns are not looked at. */
  predicate LoanVendorMasked(sha: Sha256, before: Loan, after: Loan, now: int) {
    && after.id == before.id && after.status == before.status && after.createdAt == before.createdAt
    && after.updatedAt == now && after.vendorGstin == "V-" + sha(before.vendorGstin)[..13]
    && after.vendorGstinEnc.None? && after.vendorGstinIdx.None?
  }

  predicate SameAnchor(before: Loan, after: Loan) {
    && after.anchorGstin == before.anchorGstin
    && after.anchorGstinEnc == before.anchorGstinEnc && after.anchorGstinIdx == before.anchorGstinIdx
  }

  predicate AnchorMasked(sha: Sha256, before: Loan, after: Loan) {
    && after.anchorGstin == "A-" + sha(before.anchorGstin)[..13]
    && after.anchorGstinEnc.None? && after.anchorGstinIdx.None?
  }

  predicate ConsentMasked(sha: Sha256, before: Consent, after: Consent) {
    && after.id == before.id && after.purpose == before.purpose && after.granted == before.granted
    && after.dataPrincipalId == "P-" + sha(before.dataPrincipalId)[..12]
  }

  /** Onboarded longer ago than the period, not masked yet, and no loan still active. */
  predicate IsDormant(v: Vendor, loans: seq<Loan>, now: int, days: int) {
    && now - v.onboardedAt > days * 86400 && !("V-" <= v.gstin)
    && forall l :: l in loans && l.vendorGstin == v.gstin ==> l.status !in {"created", "disbursed", "repaying"}
  }

  predicate VendorsErased(sha: Sha256, id: string, before: seq<Vendor>, after: seq<Vendor>) {
    |after| == |before| && forall i :: 0 <= i < |before| ==>
      if before[i].gstin == id then VendorMasked(sha, before[i], after[i]) else after[i] == before[i]
  }

  predicate LoansErased(sha: Sha256, id: string, now: int, before: seq<Loan>, after: seq<Loan>) {
    |after| == |before| && forall i :: 0 <= i < |before| ==>
      if before[i].vendorGstin == id then
        LoanVendorMasked(sha, before[i], after[i], now) && SameAnchor(before[i], after[i])
      else after[i] == before[i]
  }

  predicate ConsentsErased(sha: Sha256, id: string, before: seq<Consent>, after: seq<Consent>) {
    |after| == |before| && forall i :: 0 <= i < |before| ==>
      if before[i].dataPrincipalId == id then ConsentMasked(sha, before[i], after[i]) else after[i] == before[i]
  }

  /** The loan is disbursed, repaying or closed, and younger than 2555 days. */
  predicate IsHeld(l: Loan, id: string, now: int) {
    l.vendorGstin == id && l.status in {"disbursed", "repaying", "closed"} && now - l.createdAt < 2555 * 86400
  }

  /** Closed, not updated for longer than the period, and not masked yet. */
  predicate IsExpired(l: Loan, now: int, days: int) {
    l.status == "closed" && now - l.updatedAt > days * 86400 && !("V-" <= l.vendorGstin)
  }

  predicate LoansRetired(sha: Sha256, now: int, days: int, before: seq<Loan>, after: seq<Loan>) {
    |after| == |before| && forall i :: 0 <= i < |before| ==>
      if IsExpired(before[i], now, days) then
        LoanVendorMasked(sha, before[i], after[i], now) && AnchorMasked(sha, before[i], after[i])
      else after[i] == before[i]
  }

  predicate VendorsRetired(
      sha: Sha256, loans: seq<Loan>, now: int, days: int, before: seq<Vendor>, after: seq<Vendor>)
  {
    |after| == |before| && forall i :: 0 <= i < |before| ==>
      if IsDormant(before[i], loans, now, days) then VendorMasked(sha, before[i], after[i]) else after[i] == before[i]
  }

  lemma DormantIs(v: Vendor, loans: seq<Loan>, now: int, days: int)
    ensures Dormant(v, loans, now, days) <==> IsDormant(v, loans, now, days)
  {
    if HasActiveLoan(loans, v.gstin) {
      var i :| 0 <= i < |loans| && ActiveFor(loans[i], v.gstin);
      assert loans[i] in loans;
    }
  }

  // ------------------------------------------------------------------------------------------
  // The database
  // ------------------------------------------------------------------------------------------

  /** The constraint `vendors.gstin` is declared with. */
  predicate UniqueGstins(vendors: seq<Vendor>) {
    forall i, j :: 0 <= i < j < |vendors| ==> vendors[i].gstin != vendors[j].gstin
  }

  /** A transaction whose rows break the constraint is rolled back. */
  function Commit(before: Tables, after: Tables): Tables {
    if UniqueGstins(after.vendors) then after else before
  }

  datatype EraseOutcome = LegalHoldActive | Erased | IntegrityError

  datatype Policy = Policy(category: string, days: int)

  /** A policy together with the clock reading its handler takes. */
  datatype Enforcement = Enforcement(policy: Policy, now: int)

  datatype PolicyResult = PolicyResult(category: string, action: string, recordsAffected: nat)

  function ApplyPolicy(sha: Sha256, t: Tables, p: Policy, now: int): Tables {
    if p.category == "loan_application" then RetainLoans(sha, t, now, p.days)
    else if p.category == "vendor_contact" then Commit(t, RetainVendors(sha, t, now, p.days))
    else t
  }

  predicate PolicyCommits(sha: Sha256, t: Tables, p: Policy, now: int) {
    p.category == "vendor_contact" ==> UniqueGstins(RetainVendors(sha, t, now, p.days).vendors)
  }

  /** How many rows a policy changes; nothing is counted for a category without a handler. */
  function AffectedBy(t: Tables, p: Policy, now: int): nat {
    if p.category == "loan_application" then ExpiredCount(t.loans, now, p.days)
    else if p.category == "vendor_contact" then DormantCount(t.vendors, t.loans, now, p.days)
    else 0
  }

  function ActionFor(category: string, dryRun: bool): string {
    if dryRun then "dry_run"
    else if category == "loan_application" || category == "vendor_contact" then "enforced"
    else "no_handler"
  }

  function ApplyPolicies(sha: Sha256, t: Tables, steps: seq<Enforcement>): Tables {
    if steps == [] then t
    else
      var last := steps[|steps| - 1];
      ApplyPolicy(sha, ApplyPolicies(sha, t, steps[..|steps| - 1]), last.policy, last.now)
  }

  /** The report on step `i` of a pass that starts from `t`. */
  function ResultOf(sha: Sha256, t: Tables, steps: seq<Enforcement>, i: nat, dryRun: bool): PolicyResult
    requires i < |steps|
  {
    var p := steps[i].policy;
    PolicyResult(
      p.category, ActionFor(p.category, dryRun),
      if dryRun then 0 else AffectedBy(ApplyPolicies(sha, t, steps[..i]), p, steps[i].now))
  }

  class PlatformDb {
    const sha: Sha256
    var vendors: seq<Vendor>
    var loans: seq<Loan>
    var consents: seq<Consent>

    ghost function Snapshot(): Tables
      reads this
    {
      Tables(vendors, loans, consents)
    }

    ghost predicate Valid()
      reads this
    {
      UniqueGstins(vendors)
    }

    constructor (sha: Sha256, t: Tables)
      requires UniqueGstins(t.vendors)
      ensures Valid() && Snapshot() == t && this.sha == sha
    {
      this.sha, vendors, loans, consents := sha, t.vendors, t.loans, t.consents;
    }

    method CheckLegalHold(id: string, now: int) returns (hold: bool)
      ensures hold <==> HasLegalHold(loans, id, now)
      ensures hold <==> exists i :: 0 <= i < |loans| && IsHeld(loans[i], id, now)
    {
      for i := 0 to |loans|
        invariant forall k :: 0 <= k < i ==> !Holds(loans[k], id, now)
        invariant forall k :: 0 <= k < i ==> !IsHeld(loans[k], id, now)
      {
        if Holds(loans[i], id, now) {
          return true;
        }
      }
      hold := false;
    }

    method EraseVendorRow(id: string)
      requires Valid()
      modifies this`vendors
      ensures vendors == EraseRows(sha, old(Snapshot()), id, 0).vendors
      ensures VendorsErased(sha, id, old(vendors), vendors)
    {
      for i := 0 to |vendors|
        invariant vendors == old(vendors) && forall k :: 0 <= k < i ==> vendors[k].gstin != id
      {
        if vendors[i].gstin == id {
          vendors := vendors[i := MaskVendor(sha, vendors[i])];
          return;
        }
      }
    }

    method EraseLoanRows(id: string, now: int)
      modifies this`loans
      ensures loans == EraseRows(sha, old(Snapshot()), id, now).loans
      ensures LoansErased(sha, id, now, old(loans), loans)
    {
      for i := 0 to |loans|
        invariant |loans| == |old(loans)| && loans[i..] == old(loans)[i..]
        invariant forall k :: 0 <= k < i ==> loans[k] == EraseLoan(sha, id, now, old(loans)[k])
      {
        if loans[i].vendorGstin == id {
          loans := loans[i := loans[i].(vendorGstin := Pseudonym(sha, id), vendorGstinEnc := None,
                                        vendorGstinIdx := None, updatedAt := now)];
        }
      }
    }

    method EraseConsentRows(id: string)
      modifies this`consents
      ensures consents == EraseRows(sha, old(Snapshot()), id, 0).consents
      ensures ConsentsErased(sha, id, old(consents), consents)
    {
      for i := 0 to |consents|
        invariant |consents| == |old(consents)| && consents[i..] == old(consents)[i..]
        invariant forall k :: 0 <= k < i ==> consents[k] == EraseConsent(sha, id, old(consents)[k])
      {
        if consents[i].dataPrincipalId == id {
          consents := consents[i := consents[i].(dataPrincipalId := "P-" + sha(id)[..12])];
        }
      }
    }

    method EraseSubject(id: string, now: int) returns (outcome: EraseOutcome)
      requires Valid()
      modifies this
      ensures Valid()
      ensures outcome.LegalHoldActive? <==> old(HasLegalHold(loans, id, now))
      ensures outcome.IntegrityError? <==>
                old(!HasLegalHold(loans, id, now) && !UniqueGstins(EraseRows(sha, Snapshot(), id, now).vendors))
      ensures Snapshot() == old(Commit(Snapshot(), Erase(sha, Snapshot(), id, now)))
      ensures !outcome.Erased? ==> Snapshot() == old(Snapshot())
      ensures outcome.Erased? ==>
        VendorsErased(sha, id, old(vendors), vendors) && LoansErased(sha, id, now, old(loans), loans) &&
        ConsentsErased(sha, id, old(consents), consents)
    {
      var hold := CheckLegalHold(id, now);
      if hold {
        return LegalHoldActive;
      }
      var saved := Tables(vendors, loans, consents);
      EraseVendorRow(id);
      EraseLoanRows(id, now);
      EraseConsentRows(id);
      assert Snapshot() == EraseRows(sha, saved, id, now);
      if !UniqueGstins(vendors) {
        vendors, loans, consents := saved.vendors, saved.loans, saved.consents;
        return IntegrityError;
      }
      outcome := Erased;
    }

    method EnforceLoanRetention(days: int, now: int) returns (count: nat)
      requires Valid()
      modifies this`loans
      ensures Valid() && Snapshot() == old(RetainLoans(sha, Snapshot(), now, days))
      ensures count == ExpiredCount(old(loans), now, days)
      ensures LoansRetired(sha, now, days, old(loans), loans)
    {
      count := 0;
      for i := 0 to |loans|
        invariant |loans| == |old(loans)| && loans[i..] == old(loans)[i..]
        invariant forall k :: 0 <= k < i ==> loans[k] == RetainLoan(sha, now, days, old(loans)[k])
        invariant count == ExpiredCount(old(loans)[..i], now, days)
      {
        assert loans[i] == old(loans)[i];
        assert old(loans)[..i + 1][..i] == old(loans)[..i];
        if Expired(loans[i], now, days) {
          loans := loans[i := MaskAnchor(sha, MaskLoanVendor(sha, loans[i], now))];
          count := count + 1;
        }
      }
      assert old(loans)[..|old(loans)|] == old(loans);
    }

    method CheckActiveLoan(gstin: string) returns (active: bool)
      ensures active <==> HasActiveLoan(loans, gstin)
      ensures active <==>
        exists l :: l in loans && l.vendorGstin == gstin && l.status in {"created", "disbursed", "repaying"}
    {
      for i := 0 to |loans|
        invariant forall k :: 0 <= k < i ==> !ActiveFor(loans[k], gstin)
        invariant forall l :: l in loans[..i] && l.vendorGstin == gstin ==>
          l.status !in {"created", "disbursed", "repaying"}
      {
        if ActiveFor(loans[i], gstin) {
          return true;
        }
      }
      active := false;
    }

    method MaskDormantVendors(days: int, now: int) returns (count: nat)
      modifies this`vendors
      ensures vendors == RetainVendors(sha, old(Snapshot()), now, days).vendors
      ensures count == DormantCount(old(vendors), old(loans), now, days)
      ensures VendorsRetired(sha, loans, now, days, old(vendors), vendors)
    {
      count := 0;
      for i := 0 to |vendors|
        invariant |vendors| == |old(vendors)| && vendors[i..] == old(vendors)[i..]
        invariant forall k :: 0 <= k < i ==> vendors[k] == RetainVendor(sha, loans, now, days, old(vendors)[k])
        invariant count == DormantCount(old(vendors)[..i], loans, now, days)
      {
        var row := vendors[i];
        assert row == old(vendors)[i];
        assert old(vendors)[..i + 1][..i] == old(vendors)[..i];
        if row.onboardedAt < now - days * DAY && !Masked(row.gstin) {
          var active := CheckActiveLoan(row.gstin);
          if !active {
            vendors := vendors[i := MaskVendor(sha, row)];
            count := count + 1;
          }
        }
      }
      assert old(vendors)[..|old(vendors)|] == old(vendors);
      forall i | 0 <= i < |vendors| ensures Dormant(old(vendors)[i], loans, now, days) <==>
                                            IsDormant(old(vendors)[i], loans, now, days) {
        DormantIs(old(vendors)[i], loans, now, days);
      }
    }

    method EnforceVendorRetention(days: int, now: int) returns (committed: bool, count: nat)
      requires Valid()
      modifies this`vendors
      ensures Valid() && Snapshot() == old(Commit(Snapshot(), RetainVendors(sha, Snapshot(), now, days)))
      ensures committed <==> UniqueGstins(old(RetainVendors(sha, Snapshot(), now, days)).vendors)
      ensures count == DormantCount(old(vendors), old(loans), now, days)
      ensures if committed then VendorsRetired(sha, loans, now, days, old(vendors), vendors)
              else vendors == old(vendors)
    {
      var saved := vendors;
      count := MaskDormantVendors(days, now);
      committed := UniqueGstins(vendors);
      if !committed {
        vendors := saved;
      }
    }

    method EnforcePolicy(p: Policy, now: int) returns (committed: bool, result: PolicyResult)
      requires Valid()
      modifies this
      ensures Valid() && Snapshot() == ApplyPolicy(sha, old(Snapshot()), p, now)
      ensures committed <==> PolicyCommits(sha, old(Snapshot()), p, now)
      ensures result == PolicyResult(p.category, ActionFor(p.category, false), AffectedBy(old(Snapshot()), p, now))
    {
      committed := true;
      var count := 0;
      if p.category == "loan_application" {
        count := EnforceLoanRetention(p.days, now);
      } else if p.category == "vendor_contact" {
        committed, count := EnforceVendorRetention(p.days, now);
      }
      result := PolicyResult(p.category, ActionFor(p.category, false), count);
    }

    /**
     One pass over the configured policies, each at the clock reading its handler takes.  A failed
     commit raises, which ends the pass there; what earlier policies committed stays.
     */
    method EnforcePolicies(steps: seq<Enforcement>, dryRun: bool) returns (done: nat, results: seq<PolicyResult>)
      requires Valid()
      modifies this
      ensures Valid() && done <= |steps|
      ensures dryRun ==> Snapshot() == old(Snapshot()) && done == |steps|
      ensures !dryRun ==> Snapshot() == ApplyPolicies(sha, old(Snapshot()), steps[..done])
      ensures done < |steps| ==> !PolicyCommits(sha, Snapshot(), steps[done].policy, steps[done].now)
      ensures |results| == done
      ensures forall i :: 0 <= i < done ==> results[i] == ResultOf(sha, old(Snapshot()), steps, i, dryRun)
      ensures forall i :: 0 <= i < done ==>
        results[i].category == steps[i].policy.category &&
        results[i].action ==
          if dryRun then "dry_run"
          else if steps[i].policy.category in {"loan_application", "vendor_contact"} then "enforced" else "no_handler"
    {
      results, done := [], 0;
      assert steps[..0] == [];
      while done < |steps|
        invariant Valid() && |results| == done <= |steps|
        invariant dryRun ==> Snapshot() == old(Snapshot())
        invariant !dryRun ==> Snapshot() == ApplyPolicies(sha, old(Snapshot()), steps[..done])
        invariant forall k :: 0 <= k < done ==> results[k] == ResultOf(sha, old(Snapshot()), steps, k, dryRun)
      {
        var p := steps[done].policy;
        if dryRun {
          results := results + [PolicyResult(p.category, ActionFor(p.category, true), 0)];
        } else {
          ghost var before := Snapshot();
          var committed, result := EnforcePolicy(p, steps[done].now);
          if !committed {
            assert Snapshot() == before;
            return;
          }
          PoliciesSnoc(sha, old(Snapshot()), steps, done);
          results := results + [result];
        }
        done := done + 1;
      }
    }
  }

  lemma PoliciesSnoc(sha: Sha256, t: Tables, steps: seq<Enforcement>, k: nat)
    requires k < |steps|
    ensures ApplyPolicies(sha, t, steps[..k + 1])
         == ApplyPolicy(sha, ApplyPolicies(sha, t, steps[..k]), steps[k].policy, steps[k].now)
  {
    assert steps[..k + 1][..k] == steps[..k];
  }
}
