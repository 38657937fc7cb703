/** Decision receipts: how they are hashed into a chain, and what the chain verifier accepts. */
module Receipts {
  import opened Wrappers
  import opened CanonicalJson
  import opened JsonReader
  import opened Hashing

  type Dict = map<string, Json>

  datatype Receipt = Receipt(
    id: string,
    loanApplicationId: string,
    gate: string,
    outcome: string,
    rulesetHash: string,
    inputHash: string,
    output: Dict,
    engineVersion: string,
    evaluatedAt: string,
    signature: Option<string>,
    chainHash: Option<string>)
  {
    /** The copy the verifier hashes: both fields that are filled in after hashing are empty. */
    function Blank(): Receipt {
      this.(signature := None, chainHash := None)
    }

    function Unsigned(): Receipt {
      this.(signature := None)
    }
  }

  function Text(o: Option<string>): Json {
    match o
    case None => Null
    case Some(s) => Str(s)
  }

  function ToJson(r: Receipt): Json {
    Obj(map[
      "id" := Str(r.id),
      "loan_application_id" := Str(r.loanApplicationId),
      "gate" := Str(r.gate),
      "outcome" := Str(r.outcome),
      "ruleset_hash" := Str(r.rulesetHash),
      "input_hash" := Str(r.inputHash),
      "output" := Obj(r.output),
      "engine_version" := Str(r.engineVersion),
      "evaluated_at" := Str(r.evaluatedAt),
      "signature" := Text(r.signature),
      "chain_hash" := Text(r.chainHash)])
  }

  function ReceiptBytes(r: Receipt): string {
    Serialize(ToJson(r))
  }

  function Link(previous: Option<string>): string {
    match previous
    case None => ""
    case Some(h) => h
  }

  /** The bytes a chain hash covers: the first receipt's alone, a later one's with the hash before it. */
  function ChainInput(r: Receipt, previous: Option<string>): string {
    ReceiptBytes(r.Blank()) + Link(previous)
  }

  function Previous(receipts: seq<Receipt>, i: nat): Option<string>
    requires i < |receipts|
  {
    if i == 0 then None else receipts[i - 1].chainHash
  }

  /** The text whose digest the verifier computes at the i-th receipt. */
  function Hashed(receipts: seq<Receipt>, i: nat): string
    requires i < |receipts|
  {
    ChainInput(receipts[i], Previous(receipts, i))
  }

  predicate Links(sha: Sha256, receipts: seq<Receipt>, i: nat)
    requires i < |receipts|
  {
    receipts[i].chainHash == Some(sha(Hashed(receipts, i)))
  }

  predicate Accepted(sha: Sha256, receipts: seq<Receipt>) {
    forall i :: 0 <= i < |receipts| ==> Links(sha, receipts, i)
  }

  // ------------------------------------------------------------------------------------------
  // Producer and verifier
  // ------------------------------------------------------------------------------------------

  datatype SignError = ModeNotImplemented

  /** Signs in `hmac` mode only; the key-management mode is still to be written in the platform. */
  class ReceiptSigner {
    const key: string
    const mode: string
    const sha: Sha256
    const hmac: (string, string) -> Digest

    constructor (key: string, mode: string, sha: Sha256, hmac: (string, string) -> Digest)
      ensures this.key == key && this.mode == mode && this.sha == sha && this.hmac == hmac
    {
      this.key, this.mode, this.sha, this.hmac := key, mode, sha, hmac;
    }

    method CreateReceipt(
        id: string, now: string, loanApplicationId: string, gate: string, outcome: string, rulesetHash: string,
        ruleInput: Dict, ruleOutput: Dict, engineVersion: string, previousChainHash: Option<string>)
      returns (result: Result<Receipt, SignError>)
      ensures result.Failure? <==> mode != "hmac"
      ensures result.Success? ==>
                var r := result.value;
                && r.Blank() == Receipt(id, loanApplicationId, gate, outcome, rulesetHash,
                                        sha(Serialize(Obj(ruleInput))), ruleOutput, engineVersion, now, None, None)
                && r.signature == Some(hmac(key, ReceiptBytes(r.Blank())))
                && r.chainHash == Some(sha(ChainInput(r, previousChainHash)))
    {
      var inputHash := sha(Serialize(Obj(ruleInput)));
      var receipt := Receipt(id, loanApplicationId, gate, outcome, rulesetHash, inputHash, ruleOutput,
                             engineVersion, now, None, None);
      var receiptBytes := ReceiptBytes(receipt);
      if mode != "hmac" {
        return Failure(ModeNotImplemented);
      }
      receipt := receipt.(signature := Some(hmac(key, receiptBytes)));
      var chainInput := receiptBytes;
      if previousChainHash.Some? && previousChainHash.value != "" {
        chainInput := chainInput + previousChainHash.value;
      }
      assert chainInput == ChainInput(receipt, previousChainHash);
      receipt := receipt.(chainHash := Some(sha(chainInput)));
      result := Success(receipt);
    }
  }

  method VerifyChain(sha: Sha256, receipts: seq<Receipt>) returns (ok: bool)
    ensures ok <==> Accepted(sha, receipts)
  {
    var prevHash: Option<string> := None;
    for i := 0 to |receipts|
      invariant forall k :: 0 <= k < i ==> Links(sha, receipts, k)
      invariant prevHash == if i == 0 then None else receipts[i - 1].chainHash
      invariant prevHash.Some? ==> prevHash.value != ""
    {
      var chainInput := ReceiptBytes(receipts[i].Blank());
      if prevHash.Some? && prevHash.value != "" {
        chainInput := chainInput + prevHash.value;
      }
      var expected := sha(chainInput);
      assert chainInput == ChainInput(receipts[i], Previous(receipts, i));
      if receipts[i].chainHash != Some(expected) {
        assert !Links(sha, receipts, i);
        return false;
      }
      prevHash := receipts[i].chainHash;
    }
    ok := true;
  }

  /** What a producer is asked for, besides the hash of the receipt before. */
  datatype Request = Request(
    id: string, now: string, loanApplicationId: string, gate: string, outcome: string, rulesetHash: string,
    ruleInput: Dict, ruleOutput: Dict, engineVersion: string)

  /** Receipts created one after another, each given its predecessor's chain hash, form an accepted chain. */
  method CreateChain(signer: ReceiptSigner, requests: seq<Request>) returns (receipts: seq<Receipt>)
    requires signer.mode == "hmac"
    ensures |receipts| == |requests| && Accepted(signer.sha, receipts)
    ensures forall i :: 0 <= i < |requests| ==>
      receipts[i].signature == Some(signer.hmac(signer.key, ReceiptBytes(receipts[i].Blank())))
  {
    receipts := [];
    var prevHash: Option<string> := None;
    for i := 0 to |requests|
      invariant |receipts| == i && Accepted(signer.sha, receipts)
      invariant prevHash == if i == 0 then None else receipts[i - 1].chainHash
      invariant forall k :: 0 <= k < i ==>
        receipts[k].signature == Some(signer.hmac(signer.key, ReceiptBytes(receipts[k].Blank())))
    {
      var q := requests[i];
      var created := signer.CreateReceipt(q.id, q.now, q.loanApplicationId, q.gate, q.outcome, q.rulesetHash,
                                          q.ruleInput, q.ruleOutput, q.engineVersion, prevHash);
      AppendKeepsAccepted(signer.sha, receipts, created.value);
      receipts := receipts + [created.value];
      prevHash := created.value.chainHash;
    }
  }

  lemma AppendKeepsAccepted(sha: Sha256, receipts: seq<Receipt>, r: Receipt)
    requires Accepted(sha, receipts)
    requires r.chainHash
          == Some(sha(ChainInput(r, if receipts == [] then None else receipts[|receipts| - 1].chainHash)))
    ensures Accepted(sha, receipts + [r])
  {
    var longer := receipts + [r];
    forall i | 0 <= i < |longer| ensures Links(sha, longer, i) {
      if i < |receipts| {
        assert Links(sha, receipts, i);
      }
    }
  }

  /** Cutting receipts off the end of an accepted chain leaves an accepted chain. */
  lemma PrefixAccepted(sha: Sha256, receipts: seq<Receipt>, k: nat)
    requires Accepted(sha, receipts) && k <= |receipts|
    ensures Accepted(sha, receipts[..k])
  {
    forall i | 0 <= i < k ensures Links(sha, receipts[..k], i) {
      assert Links(sha, receipts, i);
    }
  }

  // ------------------------------------------------------------------------------------------
  // Tamper evidence
  // ------------------------------------------------------------------------------------------

  /** No text of one sequence shares a digest with another text of the other.  Nothing is asked of other texts. */
  predicate CollisionFree(sha: Sha256, a: seq<Receipt>, b: seq<Receipt>) {
    forall i, j :: 0 <= i < |a| && 0 <= j < |b| && sha(Hashed(a, i)) == sha(Hashed(b, j)) ==>
      Hashed(a, i) == Hashed(b, j)
  }

  lemma BytesEnd(r: Receipt)
    ensures ReceiptBytes(r) != "" && ReceiptBytes(r)[|ReceiptBytes(r)| - 1] == '}'
  {
    var j := ToJson(r);
    ObjectTextEnds(j, j.members, true);
  }

  lemma FieldsReadBack(r: Receipt)
    ensures var m := ToJson(r).members;
      && m.Keys == {"chain_hash", "engine_version", "evaluated_at", "gate", "id", "input_hash", "loan_application_id",
                    "outcome", "output", "ruleset_hash", "signature"}
      && m["id"] == Str(r.id)
      && m["loan_application_id"] == Str(r.loanApplicationId)
      && m["gate"] == Str(r.gate)
      && m["outcome"] == Str(r.outcome)
      && m["ruleset_hash"] == Str(r.rulesetHash)
      && m["input_hash"] == Str(r.inputHash)
      && m["output"] == Obj(r.output)
      && m["engine_version"] == Str(r.engineVersion)
      && m["evaluated_at"] == Str(r.evaluatedAt)
      && m["signature"] == (if r.signature.None? then Null else Str(r.signature.value))
      && m["chain_hash"] == (if r.chainHash.None? then Null else Str(r.chainHash.value))
  {
    assert |"id"| == 2 && |"gate"| == 4 && |"output"| == 6 && |"outcome"| == 7 && |"signature"| == 9;
    assert |"input_hash"| == 10 && |"chain_hash"| == 10 && "input_hash"[0] != "chain_hash"[0];
    assert |"evaluated_at"| == 12 && |"ruleset_hash"| == 12 && "evaluated_at"[0] != "ruleset_hash"[0];
    assert |"engine_version"| == 14 && |"loan_application_id"| == 19;
  }

  /**
   What is signed and hashed, letter by letter: the members of the receipt in the one order that their keys
   have, and nothing else.  `FieldsReadBack` says what the members are.
   */
  lemma ReceiptText(r: Receipt) returns (keys: seq<string>)
    ensures InOrder(keys) && forall k :: k in keys <==> k in ToJson(r).members
    ensures ReceiptBytes(r) == "{" + Commas(MemberTexts(ToJson(r).members, keys), true) + "}"
  {
    keys := KeysInOrder(ToJson(r).members);
    ObjectText(ToJson(r).members, keys);
  }

  lemma BytesIdentify(r: Receipt, s: Receipt)
    requires ReceiptBytes(r.Blank()) == ReceiptBytes(s.Blank())
    ensures r.Blank() == s.Blank()
  {
    CanonicalTextIdentifies(ToJson(r.Blank()), ToJson(s.Blank()));
    FieldsReadBack(r.Blank());
    FieldsReadBack(s.Blank());
  }

  /**
   The two layouts cannot be confused: the text of a first link ends in a brace, that of a later one
   in a hexadecimal digit.  So the text determines the receipt and the hash before it.
   */
  lemma ChainInputIdentifies(r: Receipt, p: Option<Digest>, s: Receipt, q: Option<Digest>)
    requires ChainInput(r, p) == ChainInput(s, q)
    ensures r.Blank() == s.Blank() && p == q
  {
    var x, y := ReceiptBytes(r.Blank()), ReceiptBytes(s.Blank());
    BytesEnd(r.Blank());
    BytesEnd(s.Blank());
    var xs, ys := ChainInput(r, p), ChainInput(s, q);
    assert xs[|xs| - 1] == (if p.None? then x[|x| - 1] else p.value[63]);
    assert ys[|ys| - 1] == (if q.None? then y[|y| - 1] else q.value[63]);
    assert p.None? <==> q.None?;
    assert |x| == |y|;
    assert x == xs[..|x|] && y == ys[..|y|];
    assert Link(p) == xs[|x|..] && Link(q) == ys[|y|..];
    BytesIdentify(r, s);
  }

  predicate SameButSignatures(a: seq<Receipt>, b: seq<Receipt>) {
    |a| == |b| && forall i :: 0 <= i < |a| ==> a[i].Unsigned() == b[i].Unsigned()
  }

  /** A digest-valued view of the hash before the i-th receipt of an accepted chain. */
  function PreviousDigest(sha: Sha256, receipts: seq<Receipt>, i: nat): (d: Option<Digest>)
    requires i < |receipts| && Accepted(sha, receipts)
    ensures d == Previous(receipts, i)
  {
    if i == 0 then None
    else
      assert Links(sha, receipts, i - 1);
      Some(sha(ChainInput(receipts[i - 1], Previous(receipts, i - 1))))
  }

  lemma LastLinksMatch(sha: Sha256, a: seq<Receipt>, m: nat, b: seq<Receipt>, n: nat)
    requires Accepted(sha, a) && Accepted(sha, b) && m < |a| && n < |b|
    requires a[m].chainHash == b[n].chainHash
    requires CollisionFree(sha, a, b)
    ensures a[m].Unsigned() == b[n].Unsigned() && Previous(a, m) == Previous(b, n)
    ensures m == 0 <==> n == 0
  {
    assert Links(sha, a, m) && Links(sha, b, n);
    assert Hashed(a, m) == Hashed(b, n);
    var p, q := PreviousDigest(sha, a, m), PreviousDigest(sha, b, n);
    ChainInputIdentifies(a[m], p, b[n], q);
    assert a[m].Blank().(chainHash := a[m].chainHash) == a[m].Unsigned();
    assert b[n].Blank().(chainHash := b[n].chainHash) == b[n].Unsigned();
  }

  /** Equal chain hashes come from equal receipts behind equal hashes. */
  predicate HashesIdentify(a: seq<Receipt>, b: seq<Receipt>) {
    forall m, n :: 0 <= m < |a| && 0 <= n < |b| && a[m].chainHash == b[n].chainHash ==>
      a[m].Unsigned() == b[n].Unsigned() && Previous(a, m) == Previous(b, n) && (m == 0 <==> n == 0)
  }

  lemma AcceptedHashesIdentify(sha: Sha256, a: seq<Receipt>, b: seq<Receipt>)
    requires Accepted(sha, a) && Accepted(sha, b) && CollisionFree(sha, a, b)
    ensures HashesIdentify(a, b)
  {
    forall m, n | 0 <= m < |a| && 0 <= n < |b| && a[m].chainHash == b[n].chainHash
      ensures a[m].Unsigned() == b[n].Unsigned() && Previous(a, m) == Previous(b, n) && (m == 0 <==> n == 0)
    {
      LastLinksMatch(sha, a, m, b, n);
    }
  }

  /** Two such sequences that reach the same chain hash agree up to there, signatures aside. */
  lemma {:induction false} SameEndSameChain(a: seq<Receipt>, m: nat, b: seq<Receipt>, n: nat)
    requires HashesIdentify(a, b) && m < |a| && n < |b| && a[m].chainHash == b[n].chainHash
    ensures m == n && forall i :: 0 <= i <= m ==> a[i].Unsigned() == b[i].Unsigned()
    decreases m
  {
    if m > 0 {
      SameEndSameChain(a, m - 1, b, n - 1);
    }
  }

  lemma SignaturesDoNotMatter(sha: Sha256, a: seq<Receipt>, b: seq<Receipt>)
    requires SameButSignatures(a, b) && Accepted(sha, a)
    ensures Accepted(sha, b)
  {
    forall i | 0 <= i < |b| ensures Links(sha, b, i) {
      assert a[i].Unsigned() == b[i].Unsigned() && a[i].Blank() == b[i].Blank();
      assert i > 0 ==> a[i - 1].Unsigned() == b[i - 1].Unsigned();
      assert Links(sha, a, i);
    }
  }

  lemma ChainsMeet(s: seq<Receipt>, chain: seq<Receipt>, j: nat)
    requires HashesIdentify(s, chain) && s != [] && j < |chain| && s[|s| - 1].chainHash == chain[j].chainHash
    ensures SameButSignatures(s, chain[..j + 1])
  {
    SameEndSameChain(s, |s| - 1, chain, j);
  }

  lemma PrefixMeansAccepted(sha: Sha256, chain: seq<Receipt>, j: nat, s: seq<Receipt>)
    requires Accepted(sha, chain) && j < |chain| && SameButSignatures(s, chain[..j + 1])
    ensures Accepted(sha, s)
  {
    PrefixAccepted(sha, chain, j + 1);
    assert SameButSignatures(chain[..j + 1], s);
    SignaturesDoNotMatter(sha, chain[..j + 1], s);
  }

  /**
   Tamper evidence.  Take an accepted chain and any nonempty sequence that ends in the chain hash of
   its receipt j.  The verifier accepts the sequence exactly when it is the chain's first j + 1
   receipts, signatures aside: nothing before that point can be changed, moved, added or taken out.
   */
  lemma TamperEvidence(sha: Sha256, chain: seq<Receipt>, j: nat, s: seq<Receipt>)
    requires Accepted(sha, chain) && j < |chain| && s != []
    requires s[|s| - 1].chainHash == chain[j].chainHash
    requires CollisionFree(sha, s, chain)
    ensures Accepted(sha, s) <==> SameButSignatures(s, chain[..j + 1])
  {
    if Accepted(sha, s) {
      AcceptedHashesIdentify(sha, s, chain);
      ChainsMeet(s, chain, j);
    } else if SameButSignatures(s, chain[..j + 1]) {
      PrefixMeansAccepted(sha, chain, j, s);
    }
  }

  /** No two receipts of an accepted chain share a chain hash. */
  lemma ChainHashesAreDistinct(sha: Sha256, chain: seq<Receipt>, i: nat, j: nat)
    requires Accepted(sha, chain) && CollisionFree(sha, chain, chain)
    requires i < j < |chain|
    ensures chain[i].chainHash != chain[j].chainHash
  {
    if chain[i].chainHash == chain[j].chainHash {
      AcceptedHashesIdentify(sha, chain, chain);
      SameEndSameChain(chain, i, chain, j);
    }
  }

  /** Taking receipts out of an accepted chain anywhere but at its end is detected. */
  lemma DeletionIsDetected(sha: Sha256, chain: seq<Receipt>, from: nat, to: nat)
    requires Accepted(sha, chain) && from < to < |chain|
    requires CollisionFree(sha, chain[..from] + chain[to..], chain)
    ensures !Accepted(sha, chain[..from] + chain[to..])
  {
    var s := chain[..from] + chain[to..];
    assert |s| == |chain| - (to - from) && s[|s| - 1] == chain[|chain| - 1];
    TamperEvidence(sha, chain, |chain| - 1, s);
  }

  /** Rearranging an accepted chain, by any permutation of its receipts but the identity, is detected. */
  lemma ReorderIsDetected(sha: Sha256, chain: seq<Receipt>, s: seq<Receipt>)
    requires Accepted(sha, chain) && CollisionFree(sha, s, chain) && CollisionFree(sha, chain, chain)
    requires multiset(s) == multiset(chain) && s != chain
    ensures !Accepted(sha, s)
  {
    if Accepted(sha, s) {
      assert |multiset(s)| == |s| && |multiset(chain)| == |chain|;
      var last := s[|s| - 1];
      assert last in multiset(s);
      assert last in multiset(chain);
      var j :| 0 <= j < |chain| && chain[j] == last;
      TamperEvidence(sha, chain, j, s);
      assert j == |chain| - 1;
      forall i | 0 <= i < |s| ensures s[i] == chain[i] {
        assert s[i] in multiset(s);
        assert s[i] in multiset(chain);
        var k :| 0 <= k < |chain| && chain[k] == s[i];
        assert chain[k].chainHash == chain[i].chainHash by {
          assert s[i].Unsigned() == chain[..j + 1][i].Unsigned();
        }
        if k < i {
          ChainHashesAreDistinct(sha, chain, k, i);
        } else if i < k {
          ChainHashesAreDistinct(sha, chain, i, k);
        }
      }
    }
  }
}
