/** Community state snapshots: construction, replay check, certification, and the uniqueness
    and ordering facts that the snapshot differ relies on. */
module Snapshot {
  import opened Basics
  import opened Order

  datatype ManifestEntry = ManifestEntry(
    entryType: string, entryId: string, effectiveAt: Timestamp, knownAt: Timestamp, fingerprint: string)

  datatype PropertyState = PropertyState(
    propertyId: string, identityFp: string, phaseFp: string, spatialFp: string, intelligenceFp: string,
    freshness: string, exclusionCodes: seq<string>, conflictCodes: seq<string>)

  /** The semantic payload of a snapshot: everything its semantic hash covers. */
  datatype Body = Body(
    communityId: string, observationTime: Timestamp, knowledgeCutoff: Timestamp,
    baselineId: Option<string>, m12Root: string,
    source: seq<ManifestEntry>, policy: seq<ManifestEntry>, runtime: seq<ManifestEntry>,
    properties: seq<PropertyState>, exclusions: seq<string>, conflicts: seq<string>, freshness: string)

  datatype Certification = Draft | Validated | Certified | Rejected

  datatype Blocking = SourceDrift | PolicyDrift | RuntimeDrift | UnresolvedConflict | Nonreproducible

  datatype Snapshot = Snapshot(
    snapshotId: string, body: Body, materializedAt: Timestamp, certification: Certification,
    reproducible: bool, blocking: set<Blocking>, comparisonEligible: bool, semanticHash: Digest<Body>)

  datatype Drift = Drift(source: bool, policy: bool, runtime: bool)

  datatype SnapshotRegistry = SnapshotRegistry(
    certificationRoot: string, allowedFreshness: set<string>, eligibleFreshness: set<string>)

  function EntryIdentity(e: ManifestEntry): Key {
    [e.entryType, e.entryId]
  }

  function EntrySortKey(e: ManifestEntry): Key {
    EntryIdentity(e) + [e.effectiveAt.text, e.knownAt.text, e.fingerprint]
  }

  function PropertyKey(p: PropertyState): Key {
    [p.propertyId]
  }

  function CodeKey(code: string): Key {
    [code]
  }

  /** The hashed form of a snapshot's contents: every part sorted. */
  function SemanticPayload(b: Body): Body {
    b.(source := SortBy(b.source, EntrySortKey), policy := SortBy(b.policy, EntrySortKey),
       runtime := SortBy(b.runtime, EntrySortKey), properties := SortBy(b.properties, PropertyKey),
       exclusions := SortBy(b.exclusions, CodeKey), conflicts := SortBy(b.conflicts, CodeKey))
  }

  /** `sorted(set(codes))` without the blank ones. */
  function KeptCodes(codes: seq<string>): seq<string> {
    SortedStrings(Filter(codes, (code: string) => !Blank(code)))
  }

  /** The contents of a new snapshot: its parts sorted, its codes freed of blanks and repetitions. */
  function Contents(draft: Body): Body {
    SemanticPayload(draft.(exclusions := KeptCodes(draft.exclusions), conflicts := KeptCodes(draft.conflicts)))
  }

  predicate ReplayValid(s: Snapshot) {
    s.semanticHash == Digest(SemanticPayload(s.body))
  }

  function BlockingConditions(drift: Drift, conflicts: seq<string>): set<Blocking> {
    (if drift.source then {SourceDrift} else {}) + (if drift.policy then {PolicyDrift} else {})
    + (if drift.runtime then {RuntimeDrift} else {}) + (if conflicts != [] then {UnresolvedConflict} else {})
    + (if drift.source || drift.policy || drift.runtime then {Nonreproducible} else {})
  }

  predicate TemporallyValid(e: ManifestEntry, b: Body) {
    e.effectiveAt.instant <= b.observationTime.instant && e.knownAt.instant <= b.knowledgeCutoff.instant
  }

  function Rejection(
    snapshotId: string, draft: Body, materializedAt: Timestamp, m12Certified: bool, registry: SnapshotRegistry)
    : Option<string>
  {
    var manifest := draft.source + draft.policy + draft.runtime;
    if snapshotId == "" || draft.communityId == "" then Some("snapshot_id and community_id required")
    else if !m12Certified then Some("released certified M12 baseline required")
    else if draft.m12Root != registry.certificationRoot then Some("M12 release certification root mismatch")
    else if draft.knowledgeCutoff.instant > draft.observationTime.instant then Some("knowledge_cutoff after observation_time")
    else if materializedAt.instant < draft.knowledgeCutoff.instant then Some("materialized_at precedes knowledge_cutoff")
    else if draft.freshness !in registry.allowedFreshness then Some("unsupported snapshot freshness state")
    else if exists e | e in manifest :: !TemporallyValid(e, draft) then Some("manifest temporality violation")
    else if !DistinctKeys(manifest, EntryIdentity) then Some("manifest entry identity must be unique across snapshot")
    else if !DistinctKeys(draft.properties, PropertyKey) then Some("property projection must resolve exactly once per property")
    else None
  }

  /** `draft` carries the constructor's arguments in the order they were given. */
  function BuildSnapshot(
    snapshotId: string, draft: Body, materializedAt: Timestamp, m12Certified: bool, drift: Drift,
    registry: SnapshotRegistry): (r: Result<Snapshot>)
  {
    match Rejection(snapshotId, draft, materializedAt, m12Certified, registry)
    case Some(reason) => Err(reason)
    case None =>
      var body := Contents(draft);
      Ok(Snapshot(snapshotId, body, materializedAt, Draft, drift == Drift(false, false, false),
                  BlockingConditions(drift, body.conflicts), false, Digest(SemanticPayload(body))))
  }

  function CertifySnapshot(s: Snapshot, registry: SnapshotRegistry): (r: Result<Snapshot>)
  {
    if s.certification != Draft && s.certification != Validated then Err("only DRAFT or VALIDATED snapshot may be certified")
    else if !ReplayValid(s) then Err("snapshot is nonreproducible")
    else if s.blocking != {} then Err("snapshot has blocking conditions")
    else Ok(s.(certification := Certified, comparisonEligible := s.body.freshness in registry.eligibleFreshness))
  }

  predicate Comparable(s: Snapshot) {
    s.certification == Certified && s.comparisonEligible && s.blocking == {} && ReplayValid(s)
  }

  ghost predicate ManifestWellFormed(es: seq<ManifestEntry>) {
    StrictlySorted(es, EntrySortKey) && UniqueBy(es, EntryIdentity)
  }

  /** What the differ needs of a snapshot: each part is strictly sorted and resolves each
      identity exactly once. */
  ghost predicate WellFormedBody(b: Body) {
    && StrictlySorted(b.properties, PropertyKey) && UniqueBy(b.properties, PropertyKey)
    && ManifestWellFormed(b.source) && ManifestWellFormed(b.policy) && ManifestWellFormed(b.runtime)
  }

  lemma SameSortKey(x: ManifestEntry, y: ManifestEntry)
    ensures EntrySortKey(x) == EntrySortKey(y) ==> EntryIdentity(x) == EntryIdentity(y)
  {
    assert EntryIdentity(x) == EntrySortKey(x)[..2] && EntryIdentity(y) == EntrySortKey(y)[..2];
  }

  lemma SortedManifest(all: seq<ManifestEntry>, lo: nat, hi: nat)
    requires DistinctKeys(all, EntryIdentity) && lo <= hi <= |all|
    ensures ManifestWellFormed(SortBy(all[lo..hi], EntrySortKey))
  {
    DistinctSlice(all, EntryIdentity, lo, hi);
    forall x, y | EntrySortKey(x) == EntrySortKey(y) ensures EntryIdentity(x) == EntryIdentity(y) { SameSortKey(x, y); }
    SortByFiner(all[lo..hi], EntrySortKey, EntryIdentity);
  }

  lemma SortedBody(draft: Body)
    requires DistinctKeys(draft.source + draft.policy + draft.runtime, EntryIdentity)
    requires DistinctKeys(draft.properties, PropertyKey)
    ensures WellFormedBody(Contents(draft))
  {
    var all := draft.source + draft.policy + draft.runtime;
    var m, n := |draft.source|, |draft.source| + |draft.policy|;
    assert all[0..m] == draft.source && all[m..n] == draft.policy && all[n..|all|] == draft.runtime;
    SortedManifest(all, 0, m);
    SortedManifest(all, m, n);
    SortedManifest(all, n, |all|);
    SortByFiner(draft.properties, PropertyKey, PropertyKey);
  }

  lemma BlockingEmpty(drift: Drift, conflicts: seq<string>)
    ensures BlockingConditions(drift, conflicts) == {} <==> drift == Drift(false, false, false) && conflicts == []
  {
    var b := BlockingConditions(drift, conflicts);
    assert SourceDrift in b <==> drift.source;
    assert PolicyDrift in b <==> drift.policy;
    assert RuntimeDrift in b <==> drift.runtime;
    assert UnresolvedConflict in b <==> conflicts != [];
  }

  lemma DistinctInputs(
    snapshotId: string, draft: Body, materializedAt: Timestamp, m12Certified: bool, registry: SnapshotRegistry)
    requires Rejection(snapshotId, draft, materializedAt, m12Certified, registry) == None
    ensures DistinctKeys(draft.source + draft.policy + draft.runtime, EntryIdentity)
    ensures DistinctKeys(draft.properties, PropertyKey)
  {
  }

  lemma CodesAre(codes: seq<string>)
    ensures forall code :: code in SortBy(KeptCodes(codes), CodeKey) <==> code in codes && !Blank(code)
  {
    var kept := Filter(codes, (code: string) => !Blank(code));
    SortedStringsFacts(kept);
    SortFacts(KeptCodes(codes), CodeKey);
  }

  /** Every snapshot the constructor returns is well formed and holds exactly the codes that are
      not blank; it can be certified exactly when nothing drifted and no conflict is open, and
      certifying keeps its contents. */
  lemma BuiltSnapshotWellFormed(
    snapshotId: string, draft: Body, materializedAt: Timestamp, m12Certified: bool, drift: Drift,
    registry: SnapshotRegistry)
    ensures var r := BuildSnapshot(snapshotId, draft, materializedAt, m12Certified, drift, registry);
      r.Ok? ==>
        && WellFormedBody(r.value.body)
        && (forall code :: code in r.value.body.exclusions <==> code in draft.exclusions && !Blank(code))
        && (forall code :: code in r.value.body.conflicts <==> code in draft.conflicts && !Blank(code))
        && (CertifySnapshot(r.value, registry).Ok? <==>
              drift == Drift(false, false, false) && forall code | code in draft.conflicts :: Blank(code))
        && (CertifySnapshot(r.value, registry).Ok? ==> CertifySnapshot(r.value, registry).value.body == r.value.body)
  {
    if Rejection(snapshotId, draft, materializedAt, m12Certified, registry) == None {
      DistinctInputs(snapshotId, draft, materializedAt, m12Certified, registry);
      SortedBody(draft);
      CodesAre(draft.exclusions);
      CodesAre(draft.conflicts);
      hide KeptCodes, Blank, SortBy, WellFormedBody, Rejection;
      var conflicts := Contents(draft).conflicts;
      BlockingEmpty(drift, conflicts);
      if conflicts != [] { assert conflicts[0] in conflicts; }
    }
  }
}
