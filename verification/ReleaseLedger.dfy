/** The hash-chained release audit ledger (karsasec/analysis/e16_audit.py). */
module ReleaseLedger {
  import opened Hashing
  import opened Ordering

  /** The hashed fields of a record. */
  datatype Payload = Payload(
    admissionId: string, artifactId: string, decisionId: string, policyId: string, policyVersion: string,
    reasonCodes: seq<string>, sequence: int, schemaVersion: string, status: string)

  datatype AuditRecord = AuditRecord(auditId: string, previousHash: string, auditHash: string, payload: Payload)

  datatype Admission = Admission(
    admissionId: string, artifactId: string, decisionId: string, policyId: string,
    reasonCodes: seq<string>, schemaVersion: string, status: string)

  /** The canonical JSON text of a payload, the digest, and the derived record id. */
  datatype Encoding = Encoding(json: Payload -> string, sha: string -> string, idOf: Payload -> string)

  /** JSON text of an object opens with a brace and determines the object. */
  ghost predicate EncodingOk(e: Encoding) {
    && Digest(e.sha)
    && (forall p :: e.json(p) != "" && e.json(p)[0] == '{')
    && (forall p, q :: e.json(p) == e.json(q) ==> p == q)
  }

  const GENESIS := "E16-AUDIT-GENESIS"

  function HashOf(e: Encoding, previousHash: string, p: Payload): string {
    e.sha(previousHash + e.json(p))
  }

  function LastHash(records: seq<AuditRecord>): string {
    if records == [] then GENESIS else records[|records| - 1].auditHash
  }

  /** Numbered from one, each linked to its predecessor, each hash recomputable. */
  ghost predicate Intact(e: Encoding, records: seq<AuditRecord>) {
    forall i {:trigger LinkOk(e, records, i)} :: 0 <= i < |records| ==> LinkOk(e, records, i)
  }

  ghost predicate LinkOk(e: Encoding, records: seq<AuditRecord>, i: nat)
    requires i < |records|
  {
    && records[i].payload.sequence == i + 1
    && records[i].previousHash == LastHash(records[..i])
    && records[i].auditHash == HashOf(e, records[i].previousHash, records[i].payload)
  }

  class ReleaseAuditLedger {
    const encoding: Encoding
    var records: seq<AuditRecord>

    constructor (encoding: Encoding)
      ensures this.encoding == encoding && records == [] && Intact(encoding, records)
    {
      this.encoding, records := encoding, [];
    }

    method Append(a: Admission, policyVersion: string) returns (record: AuditRecord)
      modifies this
      ensures records == old(records) + [record]
      ensures record.payload == Payload(a.admissionId, a.artifactId, a.decisionId, a.policyId, policyVersion,
                                        SortStrings(a.reasonCodes), |records|, a.schemaVersion, a.status)
      ensures record.previousHash == LastHash(old(records)) && record.auditId == encoding.idOf(record.payload)
      ensures old(Intact(encoding, records)) ==> Intact(encoding, records)
    {
      ghost var before := records;
      var seqNumber := |records| + 1;
      var prevHash := if records != [] then records[|records| - 1].auditHash else GENESIS;
      var payload := Payload(a.admissionId, a.artifactId, a.decisionId, a.policyId, policyVersion,
                             SortStrings(a.reasonCodes), seqNumber, a.schemaVersion, a.status);
      record := AuditRecord(encoding.idOf(payload), prevHash, encoding.sha(prevHash + encoding.json(payload)), payload);
      records := records + [record];
      IntactSnoc(encoding, before, record);
    }

    method VerifyIntegrity() returns (ok: bool)
      ensures ok <==> Intact(encoding, records)
    {
      if records == [] {
        return true;
      }
      var expectedPrev := GENESIS;
      for i := 0 to |records|
        invariant expectedPrev == LastHash(records[..i])
        invariant Intact(encoding, records[..i])
      {
        var record := records[i];
        IntactSnoc(encoding, records[..i], record);
        assert records[..i + 1] == records[..i] + [record];
        if record.payload.sequence != i + 1 || record.previousHash != expectedPrev ||
           record.auditHash != encoding.sha(record.previousHash + encoding.json(record.payload)) {
          IntactPrefix(encoding, records, i + 1);
          return false;
        }
        expectedPrev := record.auditHash;
      }
      assert records[..|records|] == records;
      ok := true;
    }
  }

  lemma LinkPrefix(e: Encoding, records: seq<AuditRecord>, n: nat, i: nat)
    requires i < n <= |records|
    ensures LinkOk(e, records[..n], i) <==> LinkOk(e, records, i)
  {
    assert records[..n][..i] == records[..i];
  }

  lemma IntactSnoc(e: Encoding, records: seq<AuditRecord>, r: AuditRecord)
    ensures Intact(e, records + [r]) <==>
              && Intact(e, records) && r.payload.sequence == |records| + 1 && r.previousHash == LastHash(records)
              && r.auditHash == HashOf(e, r.previousHash, r.payload)
  {
    var all := records + [r];
    assert all[..|records|] == records;
    assert LinkOk(e, all, |records|) <==> r.payload.sequence == |records| + 1 && r.previousHash == LastHash(records)
                                          && r.auditHash == HashOf(e, r.previousHash, r.payload);
    forall i | 0 <= i < |records| ensures LinkOk(e, records, i) <==> LinkOk(e, all, i) {
      LinkPrefix(e, all, |records|, i);
    }
  }

  lemma IntactPrefix(e: Encoding, records: seq<AuditRecord>, n: nat)
    requires n <= |records|
    ensures Intact(e, records) ==> Intact(e, records[..n])
  {
    if Intact(e, records) {
      forall i | 0 <= i < n ensures LinkOk(e, records[..n], i) {
        LinkPrefix(e, records, n, i);
      }
    }
  }

  /** A link never contains the brace that opens the payload, so the hashed text splits in one way. */
  lemma LinksHaveNoBrace(e: Encoding, records: seq<AuditRecord>)
    requires EncodingOk(e) && Intact(e, records)
    ensures '{' !in LastHash(records)
  {
    assert records != [] ==> LinkOk(e, records, |records| - 1);
  }

  lemma GenesisIsNoDigest(e: Encoding, records: seq<AuditRecord>)
    requires EncodingOk(e) && Intact(e, records)
    ensures LastHash(records) == GENESIS <==> records == []
  {
    assert |GENESIS| == 17;
    assert records != [] ==> LinkOk(e, records, |records| - 1);
  }

  lemma HashedTextSplits(e: Encoding, prev: string, p: Payload, prev': string, p': Payload)
    requires EncodingOk(e) && '{' !in prev && '{' !in prev'
    requires prev + e.json(p) == prev' + e.json(p')
    ensures prev == prev' && p == p'
  {
    var s, t := e.json(p)[1..], e.json(p')[1..];
    assert e.json(p) == ['{'] + s && e.json(p') == ['{'] + t;
    assert prev + ['{'] + s == prev + e.json(p) && prev' + ['{'] + t == prev' + e.json(p');
    CutAtFirst('{', prev, s, prev', t);
  }

  /** The same history: as many records, with the same hashed fields, links and hashes. */
  ghost predicate SameHistory(a: seq<AuditRecord>, b: seq<AuditRecord>) {
    |a| == |b| && forall i :: 0 <= i < |a| ==>
      a[i].payload == b[i].payload && a[i].previousHash == b[i].previousHash && a[i].auditHash == b[i].auditHash
  }

  /** The texts that were hashed for some records. */
  ghost function Texts(e: Encoding, records: seq<AuditRecord>): set<string> {
    set r | r in records :: r.previousHash + e.json(r.payload)
  }

  lemma LastRecordsAgree(e: Encoding, a: seq<AuditRecord>, b: seq<AuditRecord>, x: AuditRecord, y: AuditRecord)
    requires EncodingOk(e) && Intact(e, a + [x]) && Intact(e, b + [y]) && x.auditHash == y.auditHash
    ensures Intact(e, a) && Intact(e, b)
    ensures || CollisionAmong(e.sha, Texts(e, a + [x]), Texts(e, b + [y]))
            || (x.payload == y.payload && x.previousHash == y.previousHash && LastHash(a) == LastHash(b))
  {
    IntactSnoc(e, a, x);
    IntactSnoc(e, b, y);
    LinksHaveNoBrace(e, a);
    LinksHaveNoBrace(e, b);
    if x.previousHash + e.json(x.payload) == y.previousHash + e.json(y.payload) {
      HashedTextSplits(e, x.previousHash, x.payload, y.previousHash, y.payload);
    } else {
      assert x in a + [x] && y in b + [y];
    }
  }

  lemma SameHistorySnoc(a: seq<AuditRecord>, b: seq<AuditRecord>, x: AuditRecord, y: AuditRecord)
    requires SameHistory(a, b)
    requires x.payload == y.payload && x.previousHash == y.previousHash && x.auditHash == y.auditHash
    ensures SameHistory(a + [x], b + [y])
  {
  }

  /**
   Tamper evidence: two ledgers that verify and end in the same hash have the same history, unless
   two of the texts hashed for their own records collide.
   */
  lemma {:induction false} LastHashFixesHistory(e: Encoding, a: seq<AuditRecord>, b: seq<AuditRecord>)
    requires EncodingOk(e) && Intact(e, a) && Intact(e, b) && LastHash(a) == LastHash(b)
    ensures SameHistory(a, b) || CollisionAmong(e.sha, Texts(e, a), Texts(e, b))
    decreases |a|
  {
    GenesisIsNoDigest(e, a);
    GenesisIsNoDigest(e, b);
    if a != [] && b != [] {
      var a0, b0, x, y := a[..|a| - 1], b[..|b| - 1], a[|a| - 1], b[|b| - 1];
      assert a == a0 + [x] && b == b0 + [y];
      LastRecordsAgree(e, a0, b0, x, y);
      if !CollisionAmong(e.sha, Texts(e, a), Texts(e, b)) {
        LastHashFixesHistory(e, a0, b0);
        assert Texts(e, a0) <= Texts(e, a) && Texts(e, b0) <= Texts(e, b);
        SameHistorySnoc(a0, b0, x, y);
      }
    }
  }
}
