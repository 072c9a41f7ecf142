/** The field-by-field difference of two community snapshots. */
module Delta {
  import opened Basics
  import opened Order
  import opened Snapshot

  datatype Classification =
    | Unchanged | Added | Removed | Modified | BecameKnown | BecameUnknown
    | ConflictIntroduced | ConflictResolved | Suppressed | Reactivated | NotComparable

  datatype Domain =
    | CommunityDomain | PropertyDomain | IdentityDomain | PhaseDomain | LocationDnaDomain
    | IntelligenceDomain | GovernanceDomain | SourceDomain | PolicyDomain | RuntimeDomain

  datatype Scope = CommunityScope | PropertyScope | ManifestScope

  datatype Field =
    | FreshnessState | Exclusions | Conflicts
    | IdentityFp | PhaseFp | SpatialFp | IntelligenceFp | ExclusionCodes | ConflictCodes
    | WholeProperty | ManifestRecord

  datatype Kind = SourceKind | PolicyKind | RuntimeKind

  datatype Value = Absent | Text(text: string) | Codes(codes: seq<string>) | Property(p: PropertyState) | Entry(e: ManifestEntry)

  /** A change before it is numbered. */
  datatype Diff = Diff(
    scope: Scope, objectId: string, domain: Domain, field: Field, before: Value, after: Value,
    classification: Classification)

  datatype Change = Change(ordinal: nat, diff: Diff, potentiallyStale: bool)

  datatype ImpactEdge = ImpactEdge(source: Change, affectedId: string)

  datatype DeltaPayload = DeltaPayload(
    deltaId: string, communityId: string, beforeId: string, afterId: string,
    beforeHash: Digest<Body>, afterHash: Digest<Body>, beforeTime: Timestamp, afterTime: Timestamp,
    detectedAt: Timestamp, changes: seq<Change>, edges: seq<ImpactEdge>)

  datatype DeltaFp = DeltaFp(payload: DeltaPayload)

  datatype CommunityDelta = CommunityDelta(payload: DeltaPayload, certification: Certification, fingerprint: DeltaFp)

  const CommunityFields: seq<Field> := [FreshnessState, Exclusions, Conflicts]
  const PropertyFields: seq<Field> :=
    [IdentityFp, PhaseFp, SpatialFp, IntelligenceFp, FreshnessState, ExclusionCodes, ConflictCodes]

  predicate IsCommunityField(f: Field) {
    f.FreshnessState? || f.Exclusions? || f.Conflicts?
  }

  predicate IsPropertyField(f: Field) {
    f.IdentityFp? || f.PhaseFp? || f.SpatialFp? || f.IntelligenceFp? || f.FreshnessState? || f.ExclusionCodes? || f.ConflictCodes?
  }

  function CommunityFieldDomain(f: Field): Domain {
    if f == FreshnessState then CommunityDomain else GovernanceDomain
  }

  function PropertyFieldDomain(f: Field): Domain {
    match f
    case IdentityFp => IdentityDomain
    case PhaseFp => PhaseDomain
    case SpatialFp => LocationDnaDomain
    case ExclusionCodes => GovernanceDomain
    case ConflictCodes => GovernanceDomain
    case _ => IntelligenceDomain
  }

  function KindDomain(k: Kind): Domain {
    match k case SourceKind => SourceDomain case PolicyKind => PolicyDomain case RuntimeKind => RuntimeDomain
  }

  function CommunityValue(b: Body, f: Field): Value {
    match f
    case FreshnessState => Text(b.freshness)
    case Exclusions => Codes(b.exclusions)
    case Conflicts => Codes(b.conflicts)
    case _ => Absent
  }

  function PropertyValue(p: PropertyState, f: Field): Value {
    match f
    case IdentityFp => Text(p.identityFp)
    case PhaseFp => Text(p.phaseFp)
    case SpatialFp => Text(p.spatialFp)
    case IntelligenceFp => Text(p.intelligenceFp)
    case FreshnessState => Text(p.freshness)
    case ExclusionCodes => Codes(p.exclusionCodes)
    case ConflictCodes => Codes(p.conflictCodes)
    case _ => Absent
  }

  function Manifest(b: Body, k: Kind): seq<ManifestEntry> {
    match k case SourceKind => b.source case PolicyKind => b.policy case RuntimeKind => b.runtime
  }

  function CodeSet(v: Value): set<string> {
    match v case Codes(cs) => set c | c in cs case _ => {}
  }

  /** `_classify_value`; the community lists are classified like the property code lists. */
  function Classify(f: Field, before: Value, after: Value): Classification {
    var b, a := CodeSet(before), CodeSet(after);
    if before == after then Unchanged
    else if f == FreshnessState && before == Text("UNKNOWN") then BecameKnown
    else if f == FreshnessState && after == Text("UNKNOWN") then BecameUnknown
    else if (f == Conflicts || f == ConflictCodes) && b == {} && a != {} then ConflictIntroduced
    else if (f == Conflicts || f == ConflictCodes) && b != {} && a == {} then ConflictResolved
    else if (f == Exclusions || f == ExclusionCodes) && a - b != {} && b - a == {} then Suppressed
    else if (f == Exclusions || f == ExclusionCodes) && b - a != {} && a - b == {} then Reactivated
    else Modified
  }

  function CommunityDiff(before: Body, after: Body, f: Field): Diff {
    var b, a := CommunityValue(before, f), CommunityValue(after, f);
    Diff(CommunityScope, before.communityId, CommunityFieldDomain(f), f, b, a, Classify(f, b, a))
  }

  function FieldDiff(bp: PropertyState, ap: PropertyState, f: Field): Diff {
    var b, a := PropertyValue(bp, f), PropertyValue(ap, f);
    Diff(PropertyScope, bp.propertyId, PropertyFieldDomain(f), f, b, a, Classify(f, b, a))
  }

  function AddedDiff(ap: PropertyState): Diff {
    Diff(PropertyScope, ap.propertyId, PropertyDomain, WholeProperty, Absent, Property(ap), Added)
  }

  function RemovedDiff(bp: PropertyState): Diff {
    Diff(PropertyScope, bp.propertyId, PropertyDomain, WholeProperty, Property(bp), Absent, Removed)
  }

  /** A source entry that appears although it was already effective at the earlier observation
      is a fact that only became known after the earlier cutoff. */
  predicate NewlyObserved(k: Kind, ae: ManifestEntry, before: Body) {
    k == SourceKind && ae.knownAt.instant > before.knowledgeCutoff.instant
    && ae.effectiveAt.instant <= before.observationTime.instant
  }

  function ManifestDiff(k: Kind, be: Option<ManifestEntry>, ae: Option<ManifestEntry>, before: Body): Diff
    requires be.Some? || ae.Some?
  {
    var e := if ae.Some? then ae.value else be.value;
    var classification :=
      if be.None? then (if NewlyObserved(k, ae.value, before) then BecameKnown else Added)
      else if ae.None? then Removed
      else if be.value == ae.value then Unchanged else Modified;
    Diff(ManifestScope, e.entryType + ":" + e.entryId, KindDomain(k), ManifestRecord,
         if be.Some? then Entry(be.value) else Absent, if ae.Some? then Entry(ae.value) else Absent, classification)
  }

  function Find<T>(m: map<Key, T>, k: Key): Option<T> {
    if k in m then Some(m[k]) else None
  }

  function PropertyDict(b: Body): map<Key, PropertyState> {
    Dict(b.properties, PropertyKey)
  }

  function ManifestDict(b: Body, k: Kind): map<Key, ManifestEntry> {
    Dict(Manifest(b, k), EntryIdentity)
  }

  function FieldDiffs(bp: PropertyState, ap: PropertyState, fields: seq<Field>): seq<Diff> {
    if fields == [] then [] else [FieldDiff(bp, ap, fields[0])] + FieldDiffs(bp, ap, fields[1..])
  }

  function CommunityDiffs(before: Body, after: Body, fields: seq<Field>): seq<Diff> {
    if fields == [] then [] else [CommunityDiff(before, after, fields[0])] + CommunityDiffs(before, after, fields[1..])
  }

  function PropertyDiffs(bp: Option<PropertyState>, ap: Option<PropertyState>): seq<Diff> {
    match (bp, ap)
    case (None, None) => []
    case (None, Some(a)) => [AddedDiff(a)]
    case (Some(b), None) => [RemovedDiff(b)]
    case (Some(b), Some(a)) => FieldDiffs(b, a, PropertyFields)
  }

  type PropertyMap = map<Key, PropertyState>
  type EntryMap = map<Key, ManifestEntry>

  function AllPropertyDiffs(bm: PropertyMap, am: PropertyMap, keys: seq<Key>): seq<Diff> {
    if keys == [] then [] else
      PropertyDiffs(Find(bm, keys[0]), Find(am, keys[0])) + AllPropertyDiffs(bm, am, keys[1..])
  }

  function AllManifestDiffs(k: Kind, bm: EntryMap, am: EntryMap, before: Body, keys: seq<Key>): seq<Diff>
    requires forall key | key in keys :: key in bm || key in am
  {
    if keys == [] then [] else
      [ManifestDiff(k, Find(bm, keys[0]), Find(am, keys[0]), before)] + AllManifestDiffs(k, bm, am, before, keys[1..])
  }

  function UnionKeys<T>(bm: map<Key, T>, am: map<Key, T>): (keys: seq<Key>)
    ensures forall key :: key in keys <==> key in bm || key in am
  {
    SortedKeysFacts(bm.Keys + am.Keys);
    SortedKeys(bm.Keys + am.Keys)
  }

  function CommunityPart(before: Body, after: Body): seq<Diff> {
    CommunityDiffs(before, after, CommunityFields)
  }

  function PropertyPart(before: Body, after: Body): seq<Diff> {
    var bm, am := PropertyDict(before), PropertyDict(after);
    AllPropertyDiffs(bm, am, UnionKeys(bm, am))
  }

  function KindPart(before: Body, after: Body, k: Kind): seq<Diff> {
    var bm, am := ManifestDict(before, k), ManifestDict(after, k);
    AllManifestDiffs(k, bm, am, before, UnionKeys(bm, am))
  }

  /** Every difference, in the order the differ emits them. */
  function Diffs(before: Body, after: Body): seq<Diff> {
    CommunityPart(before, after) + PropertyPart(before, after)
    + KindPart(before, after, SourceKind) + KindPart(before, after, PolicyKind) + KindPart(before, after, RuntimeKind)
  }

  function MakeChange(ordinal: nat, d: Diff, staleDomains: set<Domain>): Change {
    Change(ordinal, d, d.classification != Unchanged && d.domain in staleDomains)
  }

  function Number(ds: seq<Diff>, staleDomains: set<Domain>): seq<Change> {
    seq(|ds|, i requires 0 <= i < |ds| => MakeChange(i + 1, ds[i], staleDomains))
  }

  function ScopeName(s: Scope): string {
    match s case CommunityScope => "COMMUNITY" case PropertyScope => "PROPERTY" case ManifestScope => "MANIFEST"
  }

  function ObjectType(d: Diff): string {
    match d.domain
    case SourceDomain => "SOURCE_MANIFEST_ENTRY"
    case PolicyDomain => "POLICY_MANIFEST_ENTRY"
    case RuntimeDomain => "RUNTIME_MANIFEST_ENTRY"
    case _ => ScopeName(d.scope)
  }

  function FieldName(f: Field): string {
    match f
    case FreshnessState => "freshness_state"
    case Exclusions => "exclusions"
    case Conflicts => "conflicts"
    case IdentityFp => "identity_fingerprint"
    case PhaseFp => "phase_fingerprint"
    case SpatialFp => "spatial_fingerprint"
    case IntelligenceFp => "intelligence_fingerprint"
    case ExclusionCodes => "exclusion_codes"
    case ConflictCodes => "conflict_codes"
    case WholeProperty => "property"
    case ManifestRecord => "manifest_entry"
  }

  function ChangeKey(c: Change): Key {
    [ScopeName(c.diff.scope), ObjectType(c.diff), c.diff.objectId, FieldName(c.diff.field)]
  }

  function EdgesOf(cs: seq<Change>): seq<ImpactEdge> {
    if cs == [] then []
    else if cs[0].potentiallyStale then
      [ImpactEdge(cs[0], if cs[0].diff.scope == PropertyScope then cs[0].diff.objectId else "COMMUNITY")] + EdgesOf(cs[1..])
    else EdgesOf(cs[1..])
  }

  function DeltaRejection(deltaId: string, before: Snapshot, after: Snapshot, detectedAt: Timestamp): Option<string> {
    if deltaId == "" then Some("delta_id required")
    else if !Comparable(before) || !Comparable(after) then Some("comparison requires certified eligible snapshots")
    else if before.body.communityId != after.body.communityId then Some("snapshot community mismatch")
    else if before.body.m12Root != after.body.m12Root then Some("snapshot M12 lineage mismatch")
    else if after.body.observationTime.instant <= before.body.observationTime.instant then
      Some("after snapshot must be chronologically later")
    else if detectedAt.instant < after.body.observationTime.instant then Some("detected_at cannot precede after observation_time")
    else None
  }

  function DeltaOf(
    deltaId: string, before: Snapshot, after: Snapshot, detectedAt: Timestamp, changes: seq<Change>): CommunityDelta
  {
    var payload := DeltaPayload(
      deltaId, before.body.communityId, before.snapshotId, after.snapshotId, before.semanticHash, after.semanticHash,
      before.body.observationTime, after.body.observationTime, detectedAt, changes, EdgesOf(changes));
    CommunityDelta(payload, Draft, DeltaFp(payload))
  }

  function BuildDelta(
    deltaId: string, before: Snapshot, after: Snapshot, detectedAt: Timestamp, staleDomains: set<Domain>)
    : Result<CommunityDelta>
  {
    match DeltaRejection(deltaId, before, after, detectedAt)
    case Some(reason) => Err(reason)
    case None =>
      Ok(DeltaOf(deltaId, before, after, detectedAt,
                 SortBy(Number(Diffs(before.body, after.body), staleDomains), ChangeKey)))
  }

  predicate DeltaReplayValid(d: CommunityDelta) {
    d.fingerprint == DeltaFp(d.payload)
  }

  function CertifyDelta(d: CommunityDelta): Result<CommunityDelta> {
    if d.certification != Draft then Err("only DRAFT delta may be certified")
    else if !DeltaReplayValid(d) then Err("delta is nonreproducible")
    else if exists c | c in d.payload.changes :: c.diff.classification == NotComparable then
      Err("NOT_COMPARABLE change blocks delta certification")
    else Ok(d.(certification := Certified))
  }

  /** The differ's accumulator: `add_change` numbers each change as it appends it. */
  class ChangeLog {
    var changes: seq<Change>
    const staleDomains: set<Domain>
    ghost var diffs: seq<Diff>

    ghost predicate Valid()
      reads this
    {
      changes == Number(diffs, staleDomains)
    }

    constructor (staleDomains: set<Domain>)
      ensures Valid() && diffs == [] && this.staleDomains == staleDomains
    {
      this.staleDomains := staleDomains;
      changes := [];
      diffs := [];
    }

    method AddChange(d: Diff)
      requires Valid()
      modifies this
      ensures Valid() && diffs == old(diffs) + [d]
    {
      changes := changes + [MakeChange(|changes| + 1, d, staleDomains)];
      diffs := diffs + [d];
    }

    method AddCommunity(before: Body, after: Body)
      requires Valid()
      modifies this
      ensures Valid() && diffs == old(diffs) + CommunityPart(before, after)
    {
      hide CommunityDiff, Number, MakeChange;
      for i := 0 to |CommunityFields|
        invariant Valid()
        invariant diffs + CommunityDiffs(before, after, CommunityFields[i..])
               == old(diffs) + CommunityDiffs(before, after, CommunityFields)
      {
        AddChange(CommunityDiff(before, after, CommunityFields[i]));
        assert CommunityFields[i..][1..] == CommunityFields[i+1..];
      }
    }

    method AddFields(bp: PropertyState, ap: PropertyState)
      requires Valid()
      modifies this
      ensures Valid() && diffs == old(diffs) + FieldDiffs(bp, ap, PropertyFields)
    {
      hide FieldDiff, Number, MakeChange;
      for i := 0 to |PropertyFields|
        invariant Valid()
        invariant diffs + FieldDiffs(bp, ap, PropertyFields[i..]) == old(diffs) + FieldDiffs(bp, ap, PropertyFields)
      {
        AddChange(FieldDiff(bp, ap, PropertyFields[i]));
        assert PropertyFields[i..][1..] == PropertyFields[i+1..];
      }
    }

    method AddProperties(bm: PropertyMap, am: PropertyMap, keys: seq<Key>)
      requires Valid()
      modifies this
      ensures Valid() && diffs == old(diffs) + AllPropertyDiffs(bm, am, keys)
    {
      hide FieldDiffs, AddedDiff, RemovedDiff, Number, MakeChange;
      for i := 0 to |keys|
        invariant Valid()
        invariant diffs + AllPropertyDiffs(bm, am, keys[i..]) == old(diffs) + AllPropertyDiffs(bm, am, keys)
      {
        ghost var start := diffs;
        var bp, ap := Find(bm, keys[i]), Find(am, keys[i]);
        if bp.None? && ap.Some? {
          AddChange(AddedDiff(ap.value));
        } else if bp.Some? && ap.None? {
          AddChange(RemovedDiff(bp.value));
        } else if bp.Some? && ap.Some? {
          AddFields(bp.value, ap.value);
        }
        assert keys[i..][1..] == keys[i+1..];
        Associative(start, PropertyDiffs(bp, ap), AllPropertyDiffs(bm, am, keys[i+1..]));
      }
    }

    method AddKind(k: Kind, bm: EntryMap, am: EntryMap, before: Body, keys: seq<Key>)
      requires Valid()
      requires forall key | key in keys :: key in bm || key in am
      modifies this
      ensures Valid() && diffs == old(diffs) + AllManifestDiffs(k, bm, am, before, keys)
    {
      hide ManifestDiff, Number, MakeChange;
      for i := 0 to |keys|
        invariant Valid()
        invariant diffs + AllManifestDiffs(k, bm, am, before, keys[i..]) == old(diffs) + AllManifestDiffs(k, bm, am, before, keys)
      {
        ghost var start := diffs;
        var d := ManifestDiff(k, Find(bm, keys[i]), Find(am, keys[i]), before);
        AddChange(d);
        assert keys[i..][1..] == keys[i+1..];
        Associative(start, [d], AllManifestDiffs(k, bm, am, before, keys[i+1..]));
      }
    }

    method AddManifest(before: Body, after: Body, k: Kind)
      requires Valid()
      modifies this
      ensures Valid() && diffs == old(diffs) + KindPart(before, after, k)
    {
      var bm, am := ManifestDict(before, k), ManifestDict(after, k);
      AddKind(k, bm, am, before, UnionKeys(bm, am));
    }

    method AddPropertyPart(before: Body, after: Body)
      requires Valid()
      modifies this
      ensures Valid() && diffs == old(diffs) + PropertyPart(before, after)
    {
      var bm, am := PropertyDict(before), PropertyDict(after);
      AddProperties(bm, am, UnionKeys(bm, am));
    }

    method AddAll(before: Body, after: Body)
      requires Valid()
      modifies this
      ensures Valid()
      ensures diffs == old(diffs) + CommunityPart(before, after) + PropertyPart(before, after)
                       + KindPart(before, after, SourceKind) + KindPart(before, after, PolicyKind)
                       + KindPart(before, after, RuntimeKind)
    {
      AddCommunity(before, after);
      AddPropertyPart(before, after);
      AddManifest(before, after, SourceKind);
      AddManifest(before, after, PolicyKind);
      AddManifest(before, after, RuntimeKind);
    }
  }

  method BuildCommunityDelta(
    deltaId: string, before: Snapshot, after: Snapshot, detectedAt: Timestamp, staleDomains: set<Domain>)
    returns (r: Result<CommunityDelta>)
    ensures r == BuildDelta(deltaId, before, after, detectedAt, staleDomains)
  {
    var rejection := DeltaRejection(deltaId, before, after, detectedAt);
    if rejection.Some? { return Err(rejection.value); }
    var log := new ChangeLog(staleDomains);
    log.AddAll(before.body, after.body);
    assert [] + CommunityPart(before.body, after.body) == CommunityPart(before.body, after.body);
    return Ok(DeltaOf(deltaId, before, after, detectedAt, SortBy(log.changes, ChangeKey)));
  }
}
