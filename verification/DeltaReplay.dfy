/** A delta read as a patch: replaying its after-values on the earlier snapshot gives the later
    one, replaying its before-values undoes it, and nothing it touches is left unexplained. */
module DeltaReplay {
  import opened Basics
  import opened Order
  import opened Snapshot
  import opened Delta

  /** An elementary piece of snapshot state. */
  datatype Slot =
    | CommunitySlot(field: Field)
    | PropertySlot(propertyId: string, field: Field)
    | ManifestSlot(kind: Kind, entryType: string, entryId: string)

  type State = map<Slot, Value>

  ghost function Lookup(b: Body, slot: Slot): Value {
    match slot
    case CommunitySlot(f) => CommunityValue(b, f)
    case PropertySlot(id, f) => if [id] in PropertyDict(b) then PropertyValue(PropertyDict(b)[[id]], f) else Absent
    case ManifestSlot(k, t, i) => if [t, i] in ManifestDict(b, k) then Entry(ManifestDict(b, k)[[t, i]]) else Absent
  }

  ghost function Slots(b: Body): set<Slot> {
    (set f | IsCommunityField(f) :: CommunitySlot(f))
    + (set p, f | p in b.properties && IsPropertyField(f) :: PropertySlot(p.propertyId, f))
    + (set e | e in b.source :: ManifestSlot(SourceKind, e.entryType, e.entryId))
    + (set e | e in b.policy :: ManifestSlot(PolicyKind, e.entryType, e.entryId))
    + (set e | e in b.runtime :: ManifestSlot(RuntimeKind, e.entryType, e.entryId))
  }

  /** The freshness, exclusions, conflicts, property fields and manifests of a snapshot. */
  ghost function StateOf(b: Body): State {
    map slot | slot in Slots(b) :: Lookup(b, slot)
  }

  /** The slots a change speaks about, read off the change alone. */
  ghost function Touched(d: Diff): set<Slot> {
    match d.scope
    case CommunityScope => {CommunitySlot(d.field)}
    case PropertyScope =>
      if d.field == WholeProperty then set f | IsPropertyField(f) :: PropertySlot(d.objectId, f)
      else {PropertySlot(d.objectId, d.field)}
    case ManifestScope =>
      var v := if d.after.Entry? then d.after else d.before;
      if v.Entry? then {ManifestSlot(DomainKind(d.domain), v.e.entryType, v.e.entryId)} else {}
  }

  ghost function DomainKind(d: Domain): Kind {
    match d case SourceDomain => SourceKind case PolicyDomain => PolicyKind case _ => RuntimeKind
  }

  /** The value a recorded before- or after-value gives one touched slot. */
  ghost function Image(v: Value, slot: Slot): Value {
    match v
    case Property(p) => if slot.PropertySlot? then PropertyValue(p, slot.field) else Absent
    case _ => v
  }

  ghost function Step(s: State, d: Diff): State {
    (s - Touched(d)) + (map slot | slot in Touched(d) && Image(d.after, slot) != Absent :: Image(d.after, slot))
  }

  ghost function Replay(s: State, cs: seq<Change>): State
    decreases |cs|
  {
    if cs == [] then s else Replay(Step(s, cs[0].diff), cs[1..])
  }

  /** The same change read backwards. */
  ghost function Swap(d: Diff): Diff {
    d.(before := d.after, after := d.before)
  }

  ghost function SwapAll(cs: seq<Change>): (r: seq<Change>)
    ensures |r| == |cs| && forall i | 0 <= i < |cs| :: r[i] == cs[i].(diff := Swap(cs[i].diff))
  {
    seq(|cs|, i requires 0 <= i < |cs| => cs[i].(diff := Swap(cs[i].diff)))
  }

  ghost predicate InState(s: State, slot: Slot, v: Value) {
    if v == Absent then slot !in s else slot in s && s[slot] == v
  }

  // ---- snapshots as states ----

  ghost predicate Meaningful(slot: Slot) {
    match slot
    case CommunitySlot(f) => IsCommunityField(f)
    case PropertySlot(_, f) => IsPropertyField(f)
    case ManifestSlot(_, _, _) => true
  }

  lemma PropertyLookup(b: Body, id: string)
    ensures [id] in PropertyDict(b) <==> exists p :: p in b.properties && p.propertyId == id
    ensures [id] in PropertyDict(b) ==> PropertyDict(b)[[id]].propertyId == id
  {
    if [id] in PropertyDict(b) {
      var p := PropertyDict(b)[[id]];
      assert p in b.properties && PropertyKey(p) == [id];
      assert p.propertyId == PropertyKey(p)[0];
    }
    if p :| p in b.properties && p.propertyId == id { assert PropertyKey(p) in PropertyDict(b); }
  }

  lemma ManifestLookup(b: Body, k: Kind, t: string, i: string)
    ensures [t, i] in ManifestDict(b, k) <==> exists e :: e in Manifest(b, k) && e.entryType == t && e.entryId == i
    ensures [t, i] in ManifestDict(b, k) ==>
      ManifestDict(b, k)[[t, i]].entryType == t && ManifestDict(b, k)[[t, i]].entryId == i
  {
    if [t, i] in ManifestDict(b, k) {
      var e := ManifestDict(b, k)[[t, i]];
      assert e in Manifest(b, k) && EntryIdentity(e) == [t, i];
      assert e.entryType == EntryIdentity(e)[0] && e.entryId == EntryIdentity(e)[1];
    }
    if e :| e in Manifest(b, k) && e.entryType == t && e.entryId == i { assert EntryIdentity(e) in ManifestDict(b, k); }
  }

  lemma SlotPresent(b: Body, slot: Slot)
    requires Meaningful(slot)
    ensures slot in Slots(b) <==> Lookup(b, slot) != Absent
  {
    if slot.PropertySlot? {
      hide Slots, PropertyDict;
      PropertyLookup(b, slot.propertyId);
      PropertySlotPresent(b, slot.propertyId, slot.field);
    } else if slot.ManifestSlot? {
      hide Slots, ManifestDict;
      ManifestLookup(b, slot.kind, slot.entryType, slot.entryId);
      ManifestSlotPresent(b, slot.kind, slot.entryType, slot.entryId);
    }
  }

  lemma PropertySlotPresent(b: Body, id: string, f: Field)
    requires IsPropertyField(f)
    ensures PropertySlot(id, f) in Slots(b) <==> exists p :: p in b.properties && p.propertyId == id
  {
  }

  lemma ManifestSlotPresent(b: Body, k: Kind, t: string, i: string)
    ensures ManifestSlot(k, t, i) in Slots(b) <==> exists e :: e in Manifest(b, k) && e.entryType == t && e.entryId == i
  {
  }

  lemma StateLookup(b: Body, slot: Slot)
    requires Meaningful(slot)
    ensures InState(StateOf(b), slot, Lookup(b, slot))
  {
    SlotPresent(b, slot);
  }

  lemma MeaninglessSlot(b: Body, slot: Slot)
    requires !Meaningful(slot)
    ensures slot !in StateOf(b)
  {
  }

  // ---- what the differ emits ----

  /** Where a change comes from: a community field, a property that appeared or vanished, a
      field of a property in both snapshots, or a manifest identity. */
  datatype Origin =
    | FromCommunity(f: Field) | FromAdded(id: string) | FromRemoved(id: string)
    | FromField(id: string, f: Field) | FromManifest(k: Kind, t: string, i: string)

  ghost predicate Present(b: Body, id: string) {
    [id] in PropertyDict(b)
  }

  ghost predicate Listed(b: Body, k: Kind, t: string, i: string) {
    [t, i] in ManifestDict(b, k)
  }

  ghost predicate Occurs(o: Origin, before: Body, after: Body) {
    match o
    case FromCommunity(f) => IsCommunityField(f)
    case FromAdded(id) => !Present(before, id) && Present(after, id)
    case FromRemoved(id) => Present(before, id) && !Present(after, id)
    case FromField(id, f) => Present(before, id) && Present(after, id) && IsPropertyField(f)
    case FromManifest(k, t, i) => Listed(before, k, t, i) || Listed(after, k, t, i)
  }

  ghost function DiffAt(o: Origin, before: Body, after: Body): Diff
    requires Occurs(o, before, after)
  {
    match o
    case FromCommunity(f) => CommunityDiff(before, after, f)
    case FromAdded(id) => AddedDiff(PropertyDict(after)[[id]])
    case FromRemoved(id) => RemovedDiff(PropertyDict(before)[[id]])
    case FromField(id, f) => FieldDiff(PropertyDict(before)[[id]], PropertyDict(after)[[id]], f)
    case FromManifest(k, t, i) => ManifestDiff(k, Find(ManifestDict(before, k), [t, i]), Find(ManifestDict(after, k), [t, i]), before)
  }

  lemma {:induction false} CommunityDiffsMember(before: Body, after: Body, fields: seq<Field>)
    ensures forall d | d in CommunityDiffs(before, after, fields) :: exists f :: f in fields && d == CommunityDiff(before, after, f)
    ensures forall f | f in fields :: CommunityDiff(before, after, f) in CommunityDiffs(before, after, fields)
  {
    if fields != [] { CommunityDiffsMember(before, after, fields[1..]); }
  }

  lemma {:induction false} FieldDiffsMember(bp: PropertyState, ap: PropertyState, fields: seq<Field>)
    ensures forall d | d in FieldDiffs(bp, ap, fields) :: exists f :: f in fields && d == FieldDiff(bp, ap, f)
    ensures forall f | f in fields :: FieldDiff(bp, ap, f) in FieldDiffs(bp, ap, fields)
  {
    if fields != [] { FieldDiffsMember(bp, ap, fields[1..]); }
  }

  lemma {:induction false} AllPropertyDiffsMember(bm: PropertyMap, am: PropertyMap, keys: seq<Key>)
    ensures forall d | d in AllPropertyDiffs(bm, am, keys) ::
      exists k :: k in keys && d in PropertyDiffs(Find(bm, k), Find(am, k))
    ensures forall k, d | k in keys && d in PropertyDiffs(Find(bm, k), Find(am, k)) :: d in AllPropertyDiffs(bm, am, keys)
  {
    if keys != [] { AllPropertyDiffsMember(bm, am, keys[1..]); }
  }

  lemma {:induction false} AllManifestDiffsMember(k: Kind, bm: EntryMap, am: EntryMap, before: Body, keys: seq<Key>)
    requires forall key | key in keys :: key in bm || key in am
    ensures forall d | d in AllManifestDiffs(k, bm, am, before, keys) ::
      exists key :: key in keys && d == ManifestDiff(k, Find(bm, key), Find(am, key), before)
    ensures forall key | key in keys :: ManifestDiff(k, Find(bm, key), Find(am, key), before) in AllManifestDiffs(k, bm, am, before, keys)
  {
    if keys != [] { AllManifestDiffsMember(k, bm, am, before, keys[1..]); }
  }

  lemma ListedFields(f: Field)
    ensures f in CommunityFields <==> IsCommunityField(f)
    ensures f in PropertyFields <==> IsPropertyField(f)
  {
    assert CommunityFields[0] == FreshnessState && CommunityFields[1] == Exclusions && CommunityFields[2] == Conflicts;
    assert PropertyFields[0] == IdentityFp && PropertyFields[1] == PhaseFp && PropertyFields[2] == SpatialFp;
    assert PropertyFields[3] == IntelligenceFp && PropertyFields[4] == FreshnessState;
    assert PropertyFields[5] == ExclusionCodes && PropertyFields[6] == ConflictCodes;
  }

  lemma PropertyKeyed(b: Body, key: Key)
    requires key in PropertyDict(b)
    ensures |key| == 1 && key == [key[0]] && PropertyDict(b)[key].propertyId == key[0]
  {
    assert PropertyKey(PropertyDict(b)[key]) == key;
  }

  lemma EntryKeyed(b: Body, k: Kind, key: Key)
    requires key in ManifestDict(b, k)
    ensures |key| == 2 && key == [key[0], key[1]]
    ensures ManifestDict(b, k)[key].entryType == key[0] && ManifestDict(b, k)[key].entryId == key[1]
  {
    assert EntryIdentity(ManifestDict(b, k)[key]) == key;
  }

  lemma PropertyPartOrigin(before: Body, after: Body, d: Diff) returns (o: Origin)
    requires d in PropertyPart(before, after)
    ensures Occurs(o, before, after) && d == DiffAt(o, before, after)
  {
    hide AllPropertyDiffs, UnionKeys, FieldDiffs, FieldDiff, AddedDiff, RemovedDiff, PropertyDict;
    var bm, am := PropertyDict(before), PropertyDict(after);
    AllPropertyDiffsMember(bm, am, UnionKeys(bm, am));
    var key :| key in UnionKeys(bm, am) && d in PropertyDiffs(Find(bm, key), Find(am, key));
    if key in bm { PropertyKeyed(before, key); } else { PropertyKeyed(after, key); }
    if key in bm && key in am {
      FieldDiffsMember(bm[key], am[key], PropertyFields);
      var f :| f in PropertyFields && d == FieldDiff(bm[key], am[key], f);
      ListedFields(f);
      o := FromField(key[0], f);
    } else if key in am {
      o := FromAdded(key[0]);
    } else {
      o := FromRemoved(key[0]);
    }
  }

  lemma CommunityPartOrigin(before: Body, after: Body, d: Diff) returns (o: Origin)
    requires d in CommunityPart(before, after)
    ensures Occurs(o, before, after) && d == DiffAt(o, before, after)
  {
    CommunityDiffsMember(before, after, CommunityFields);
    var f :| f in CommunityFields && d == CommunityDiff(before, after, f);
    ListedFields(f);
    o := FromCommunity(f);
  }

  lemma KindPartOrigin(before: Body, after: Body, k: Kind, d: Diff) returns (o: Origin)
    requires d in KindPart(before, after, k)
    ensures Occurs(o, before, after) && d == DiffAt(o, before, after)
  {
    var bm, am := ManifestDict(before, k), ManifestDict(after, k);
    AllManifestDiffsMember(k, bm, am, before, UnionKeys(bm, am));
    var key :| key in UnionKeys(bm, am) && d == ManifestDiff(k, Find(bm, key), Find(am, key), before);
    if key in bm { EntryKeyed(before, k, key); } else { EntryKeyed(after, k, key); }
    o := FromManifest(k, key[0], key[1]);
  }

  lemma DiffsContain(before: Body, after: Body, d: Diff)
    ensures d in Diffs(before, after) <==>
      d in CommunityPart(before, after) || d in PropertyPart(before, after) || d in KindPart(before, after, SourceKind)
      || d in KindPart(before, after, PolicyKind) || d in KindPart(before, after, RuntimeKind)
  {
  }

  /** Every emitted change has an origin ... */
  lemma OriginOf(before: Body, after: Body, d: Diff) returns (o: Origin)
    requires d in Diffs(before, after)
    ensures Occurs(o, before, after) && d == DiffAt(o, before, after)
  {
    DiffsContain(before, after, d);
    if d in CommunityPart(before, after) { o := CommunityPartOrigin(before, after, d); }
    else if d in PropertyPart(before, after) { o := PropertyPartOrigin(before, after, d); }
    else if d in KindPart(before, after, SourceKind) { o := KindPartOrigin(before, after, SourceKind, d); }
    else if d in KindPart(before, after, PolicyKind) { o := KindPartOrigin(before, after, PolicyKind, d); }
    else { o := KindPartOrigin(before, after, RuntimeKind, d); }
  }

  lemma PropertyEmitted(before: Body, after: Body, o: Origin)
    requires Occurs(o, before, after) && !o.FromCommunity? && !o.FromManifest?
    ensures DiffAt(o, before, after) in Diffs(before, after)
  {
    var bm, am, key := PropertyDict(before), PropertyDict(after), [o.id];
    AllPropertyDiffsMember(bm, am, UnionKeys(bm, am));
    if o.FromField? {
      ListedFields(o.f);
      FieldDiffsMember(bm[key], am[key], PropertyFields);
    }
    var d := DiffAt(o, before, after);
    assert d in PropertyDiffs(Find(bm, key), Find(am, key));
    assert d in PropertyPart(before, after);
    DiffsContain(before, after, d);
  }

  lemma CommunityEmitted(before: Body, after: Body, f: Field)
    requires IsCommunityField(f)
    ensures CommunityDiff(before, after, f) in Diffs(before, after)
  {
    ListedFields(f);
    CommunityDiffsMember(before, after, CommunityFields);
    DiffsContain(before, after, CommunityDiff(before, after, f));
  }

  lemma ManifestListed(before: Body, after: Body, k: Kind, key: Key)
    requires key in ManifestDict(before, k) || key in ManifestDict(after, k)
    ensures ManifestDiff(k, Find(ManifestDict(before, k), key), Find(ManifestDict(after, k), key), before)
         in KindPart(before, after, k)
  {
    var bm, am := ManifestDict(before, k), ManifestDict(after, k);
    AllManifestDiffsMember(k, bm, am, before, UnionKeys(bm, am));
    assert key in UnionKeys(bm, am);
  }

  lemma KindContained(before: Body, after: Body, k: Kind, d: Diff)
    requires d in KindPart(before, after, k)
    ensures d in Diffs(before, after)
  {
    DiffsContain(before, after, d);
    match k case SourceKind => case PolicyKind => case RuntimeKind =>
  }

  lemma ManifestEmitted(before: Body, after: Body, o: Origin)
    requires Occurs(o, before, after) && o.FromManifest?
    ensures DiffAt(o, before, after) in Diffs(before, after)
  {
    ManifestListed(before, after, o.k, [o.t, o.i]);
    KindContained(before, after, o.k, DiffAt(o, before, after));
  }

  /** ... and every origin emits its change. */
  lemma Emitted(before: Body, after: Body, o: Origin)
    requires Occurs(o, before, after)
    ensures DiffAt(o, before, after) in Diffs(before, after)
  {
    if o.FromCommunity? { CommunityEmitted(before, after, o.f); }
    else if o.FromManifest? { ManifestEmitted(before, after, o); }
    else { PropertyEmitted(before, after, o); }
  }

  /** `d` records, for every slot it touches, the value before and the value after; it is
      UNCHANGED exactly when its two values agree; read backwards it touches the same slots. */
  ghost predicate Faithful(d: Diff, before: Body, after: Body) {
    && (forall slot | slot in Touched(d) ::
          Meaningful(slot) && Image(d.before, slot) == Lookup(before, slot) && Image(d.after, slot) == Lookup(after, slot))
    && (d.classification == Unchanged <==> d.before == d.after)
    && Touched(Swap(d)) == Touched(d)
  }

  lemma OriginKeyed(before: Body, after: Body, o: Origin)
    requires Occurs(o, before, after)
    ensures o.FromAdded? || o.FromField? ==> PropertyDict(after)[[o.id]].propertyId == o.id
    ensures o.FromRemoved? || o.FromField? ==> PropertyDict(before)[[o.id]].propertyId == o.id
    ensures o.FromManifest? && Listed(before, o.k, o.t, o.i) ==>
      ManifestDict(before, o.k)[[o.t, o.i]].entryType == o.t && ManifestDict(before, o.k)[[o.t, o.i]].entryId == o.i
    ensures o.FromManifest? && Listed(after, o.k, o.t, o.i) ==>
      ManifestDict(after, o.k)[[o.t, o.i]].entryType == o.t && ManifestDict(after, o.k)[[o.t, o.i]].entryId == o.i
  {
    if o.FromAdded? || o.FromField? { PropertyKeyed(after, [o.id]); }
    if o.FromRemoved? || o.FromField? { PropertyKeyed(before, [o.id]); }
    if o.FromManifest? && Listed(before, o.k, o.t, o.i) { EntryKeyed(before, o.k, [o.t, o.i]); }
    if o.FromManifest? && Listed(after, o.k, o.t, o.i) { EntryKeyed(after, o.k, [o.t, o.i]); }
  }

  lemma OriginFaithful(before: Body, after: Body, o: Origin)
    requires Occurs(o, before, after)
    ensures Faithful(DiffAt(o, before, after), before, after)
  {
    hide Faithful, Occurs, DiffAt;
    match o
    case FromCommunity(_) => CommunityFaithful(before, after, o);
    case FromField(_, _) => FieldFaithful(before, after, o);
    case FromManifest(_, _, _) => ManifestFaithful(before, after, o);
    case _ => WholeFaithful(before, after, o);
  }

  lemma CommunityFaithful(before: Body, after: Body, o: Origin)
    requires Occurs(o, before, after) && o.FromCommunity?
    ensures Faithful(DiffAt(o, before, after), before, after)
  {
  }

  lemma UnchangedExactly(f: Field, before: Value, after: Value)
    ensures Classify(f, before, after) == Unchanged <==> before == after
  {
  }

  lemma FieldFaithful(before: Body, after: Body, o: Origin)
    requires Occurs(o, before, after) && o.FromField?
    ensures Faithful(DiffAt(o, before, after), before, after)
  {
    hide PropertyDict, Classify;
    OriginKeyed(before, after, o);
    var d := DiffAt(o, before, after);
    UnchangedExactly(o.f, d.before, d.after);
  }

  lemma WholeFaithful(before: Body, after: Body, o: Origin)
    requires Occurs(o, before, after) && (o.FromAdded? || o.FromRemoved?)
    ensures Faithful(DiffAt(o, before, after), before, after)
  {
    OriginKeyed(before, after, o);
    hide PropertyDict;
  }

  lemma ManifestDiffShape(k: Kind, be: Option<ManifestEntry>, ae: Option<ManifestEntry>, before: Body, t: string, i: string)
    requires be.Some? || ae.Some?
    requires be.Some? ==> be.value.entryType == t && be.value.entryId == i
    requires ae.Some? ==> ae.value.entryType == t && ae.value.entryId == i
    ensures var d := ManifestDiff(k, be, ae, before);
      && Touched(d) == {ManifestSlot(k, t, i)} == Touched(Swap(d))
      && d.before == (if be.Some? then Entry(be.value) else Absent) && d.after == (if ae.Some? then Entry(ae.value) else Absent)
      && (d.classification == Unchanged <==> d.before == d.after)
      && d.domain == KindDomain(k) && d.scope == ManifestScope && d.classification != NotComparable
  {
  }

  lemma ManifestFaithful(before: Body, after: Body, o: Origin)
    requires Occurs(o, before, after) && o.FromManifest?
    ensures Faithful(DiffAt(o, before, after), before, after)
    ensures Touched(DiffAt(o, before, after)) == {ManifestSlot(o.k, o.t, o.i)}
  {
    OriginKeyed(before, after, o);
    var be, ae := Find(ManifestDict(before, o.k), [o.t, o.i]), Find(ManifestDict(after, o.k), [o.t, o.i]);
    ManifestDiffShape(o.k, be, ae, before, o.t, o.i);
  }

  lemma DiffsFaithful(before: Body, after: Body)
    ensures forall d | d in Diffs(before, after) :: Faithful(d, before, after)
  {
    forall d | d in Diffs(before, after) ensures Faithful(d, before, after) {
      var o := OriginOf(before, after, d);
      OriginFaithful(before, after, o);
    }
  }

  /** The origin of the change that reports a slot present in either snapshot. */
  ghost function OriginFor(before: Body, after: Body, slot: Slot): Origin {
    match slot
    case CommunitySlot(f) => FromCommunity(f)
    case PropertySlot(id, f) =>
      if !Present(before, id) then FromAdded(id) else if !Present(after, id) then FromRemoved(id) else FromField(id, f)
    case ManifestSlot(k, t, i) => FromManifest(k, t, i)
  }

  lemma OriginForTouches(before: Body, after: Body, slot: Slot)
    requires Meaningful(slot) && (Lookup(before, slot) != Absent || Lookup(after, slot) != Absent)
    ensures Occurs(OriginFor(before, after, slot), before, after)
    ensures slot in Touched(DiffAt(OriginFor(before, after, slot), before, after))
  {
    var o := OriginFor(before, after, slot);
    OriginKeyed(before, after, o);
    if o.FromManifest? { ManifestFaithful(before, after, o); }
  }

  /** Every slot present in either snapshot is touched by some change. */
  lemma DiffsComplete(before: Body, after: Body, slot: Slot) returns (d: Diff)
    requires Meaningful(slot) && (Lookup(before, slot) != Absent || Lookup(after, slot) != Absent)
    ensures d in Diffs(before, after) && slot in Touched(d)
  {
    var o := OriginFor(before, after, slot);
    OriginForTouches(before, after, slot);
    Emitted(before, after, o);
    d := DiffAt(o, before, after);
  }

  // ---- replay ----

  /** Replaying changes that all carry values of `target` gives `target` on everything they
      touch and leaves the rest alone, in whatever order they come. */
  lemma {:induction false} ReplaySlot(s: State, cs: seq<Change>, target: Body, slot: Slot)
    requires forall c | c in cs :: forall t | t in Touched(c.diff) :: Image(c.diff.after, t) == Lookup(target, t)
    ensures if (exists c :: c in cs && slot in Touched(c.diff)) then InState(Replay(s, cs), slot, Lookup(target, slot))
            else (slot in Replay(s, cs) <==> slot in s) && (slot in s ==> Replay(s, cs)[slot] == s[slot])
    decreases |cs|
  {
    if cs != [] {
      var s' := Step(s, cs[0].diff);
      assert cs[0] in cs && cs == [cs[0]] + cs[1..];
      ReplaySlot(s', cs[1..], target, slot);
      if exists c :: c in cs[1..] && slot in Touched(c.diff) {
        var c :| c in cs[1..] && slot in Touched(c.diff);
        assert c in cs;
      } else if slot in Touched(cs[0].diff) {
        assert InState(s', slot, Lookup(target, slot));
      }
    }
  }

  ghost predicate SameChanges(cs: seq<Change>, ds: seq<Diff>) {
    (forall c | c in cs :: c.diff in ds) && (forall d | d in ds :: exists c :: c in cs && c.diff == d)
  }

  lemma DeltaChanges(before: Body, after: Body, staleDomains: set<Domain>)
    ensures SameChanges(SortBy(Number(Diffs(before, after), staleDomains), ChangeKey), Diffs(before, after))
  {
    hide Diffs, SortBy;
    var ds := Diffs(before, after);
    var numbered := Number(ds, staleDomains);
    SortFacts(numbered, ChangeKey);
    forall d | d in ds ensures exists c :: c in SortBy(numbered, ChangeKey) && c.diff == d {
      var i :| 0 <= i < |ds| && ds[i] == d;
      assert numbered[i] in numbered;
    }
    forall c | c in SortBy(numbered, ChangeKey) ensures c.diff in ds {
      assert c in numbered;
    }
  }

  lemma PatchSlot(before: Body, after: Body, cs: seq<Change>, slot: Slot)
    requires SameChanges(cs, Diffs(before, after))
    ensures Meaningful(slot) ==> InState(Replay(StateOf(before), cs), slot, Lookup(after, slot))
    ensures !Meaningful(slot) ==> slot !in Replay(StateOf(before), cs)
  {
    DiffsFaithful(before, after);
    forall c | c in cs ensures Faithful(c.diff, before, after) { assert c.diff in Diffs(before, after); }
    ReplaySlot(StateOf(before), cs, after, slot);
    if Meaningful(slot) {
      StateLookup(before, slot);
      if Lookup(before, slot) != Absent || Lookup(after, slot) != Absent {
        var d := DiffsComplete(before, after, slot);
        var c :| c in cs && c.diff == d;
      }
    } else {
      MeaninglessSlot(before, slot);
    }
  }

  lemma {:induction false} SwappedSlot(before: Body, after: Body, cs: seq<Change>, slot: Slot)
    requires SameChanges(cs, Diffs(before, after))
    ensures Meaningful(slot) ==> InState(Replay(StateOf(after), SwapAll(cs)), slot, Lookup(before, slot))
    ensures !Meaningful(slot) ==> slot !in Replay(StateOf(after), SwapAll(cs))
  {
    DiffsFaithful(before, after);
    var rs := SwapAll(cs);
    forall c | c in rs ensures exists o :: o in cs && c.diff == Swap(o.diff) && Faithful(o.diff, before, after) {
      var i :| 0 <= i < |rs| && rs[i] == c;
      assert cs[i] in cs && cs[i].diff in Diffs(before, after);
    }
    ReplaySlot(StateOf(after), rs, before, slot);
    if Meaningful(slot) {
      StateLookup(after, slot);
      if Lookup(before, slot) != Absent || Lookup(after, slot) != Absent {
        var d := DiffsComplete(before, after, slot);
        var i :| 0 <= i < |cs| && cs[i].diff == d;
        assert rs[i] in rs;
      }
    } else {
      MeaninglessSlot(after, slot);
    }
  }

  lemma PatchGivesAfter(b: Body, a: Body, cs: seq<Change>)
    requires SameChanges(cs, Diffs(b, a))
    ensures Replay(StateOf(b), cs) == StateOf(a)
  {
    hide Diffs, Replay, StateOf, Lookup, Meaningful, SameChanges;
    var r := Replay(StateOf(b), cs);
    forall slot ensures (slot in r <==> slot in StateOf(a)) && (slot in r ==> r[slot] == StateOf(a)[slot]) {
      PatchSlot(b, a, cs, slot);
      if Meaningful(slot) { StateLookup(a, slot); } else { MeaninglessSlot(a, slot); }
    }
  }

  lemma SwappedGivesBefore(b: Body, a: Body, cs: seq<Change>)
    requires SameChanges(cs, Diffs(b, a))
    ensures Replay(StateOf(a), SwapAll(cs)) == StateOf(b)
  {
    hide Diffs, Replay, StateOf, Lookup, Meaningful, SameChanges, SwapAll;
    var r := Replay(StateOf(a), SwapAll(cs));
    forall slot ensures (slot in r <==> slot in StateOf(b)) && (slot in r ==> r[slot] == StateOf(b)[slot]) {
      SwappedSlot(b, a, cs, slot);
      if Meaningful(slot) { StateLookup(b, slot); } else { MeaninglessSlot(b, slot); }
    }
  }

  /** Replaying a delta on the earlier snapshot gives the later one; replaying its swapped
      changes on the later snapshot gives the earlier one back. */
  lemma DeltaIsInvertiblePatch(
    deltaId: string, before: Snapshot, after: Snapshot, detectedAt: Timestamp, staleDomains: set<Domain>)
    ensures var r := BuildDelta(deltaId, before, after, detectedAt, staleDomains);
      r.Ok? ==>
        && Replay(StateOf(before.body), r.value.payload.changes) == StateOf(after.body)
        && Replay(StateOf(after.body), SwapAll(r.value.payload.changes)) == StateOf(before.body)
  {
    var r := BuildDelta(deltaId, before, after, detectedAt, staleDomains);
    if r.Ok? {
      DeltaChanges(before.body, after.body, staleDomains);
      PatchGivesAfter(before.body, after.body, r.value.payload.changes);
      SwappedGivesBefore(before.body, after.body, r.value.payload.changes);
    }
  }

  // ---- the state determines the snapshot's parts ----

  ghost predicate SameParts(b: Body, a: Body) {
    && b.freshness == a.freshness && b.exclusions == a.exclusions && b.conflicts == a.conflicts
    && b.properties == a.properties && b.source == a.source && b.policy == a.policy && b.runtime == a.runtime
  }

  lemma PropertyCarriedOver(b: Body, a: Body, p: PropertyState)
    requires WellFormedBody(b) && WellFormedBody(a) && StateOf(b) == StateOf(a) && p in b.properties
    ensures p in a.properties
  {
    DictLookup(b.properties, PropertyKey, p);
    forall f | IsPropertyField(f) ensures Lookup(a, PropertySlot(p.propertyId, f)) == PropertyValue(p, f) {
      StateLookup(b, PropertySlot(p.propertyId, f));
      StateLookup(a, PropertySlot(p.propertyId, f));
    }
    var q := Find(PropertyDict(a), [p.propertyId]);
    assert Lookup(a, PropertySlot(p.propertyId, IdentityFp)) == Text(p.identityFp);
    PropertyLookup(a, p.propertyId);
    forall f | IsPropertyField(f) ensures PropertyValue(q.value, f) == PropertyValue(p, f) {
      assert Lookup(a, PropertySlot(p.propertyId, f)) == PropertyValue(p, f);
    }
    SamePropertyFields(p, q.value);
  }

  lemma SamePropertyFields(p: PropertyState, q: PropertyState)
    requires p.propertyId == q.propertyId && forall f | IsPropertyField(f) :: PropertyValue(q, f) == PropertyValue(p, f)
    ensures p == q
  {
    assert PropertyValue(q, IdentityFp) == PropertyValue(p, IdentityFp);
    assert PropertyValue(q, PhaseFp) == PropertyValue(p, PhaseFp);
    assert PropertyValue(q, SpatialFp) == PropertyValue(p, SpatialFp);
    assert PropertyValue(q, IntelligenceFp) == PropertyValue(p, IntelligenceFp);
    assert PropertyValue(q, FreshnessState) == PropertyValue(p, FreshnessState);
    assert PropertyValue(q, ExclusionCodes) == PropertyValue(p, ExclusionCodes);
    assert PropertyValue(q, ConflictCodes) == PropertyValue(p, ConflictCodes);
  }

  lemma EntryCarriedOver(b: Body, a: Body, k: Kind, e: ManifestEntry)
    requires WellFormedBody(b) && StateOf(b) == StateOf(a) && e in Manifest(b, k)
    ensures e in Manifest(a, k)
  {
    DictLookup(Manifest(b, k), EntryIdentity, e);
    var slot := ManifestSlot(k, e.entryType, e.entryId);
    StateLookup(b, slot);
    StateLookup(a, slot);
  }

  lemma SameManifest(b: Body, a: Body, k: Kind)
    requires WellFormedBody(b) && WellFormedBody(a) && StateOf(b) == StateOf(a)
    ensures Manifest(b, k) == Manifest(a, k)
  {
    forall e | e in Manifest(b, k) ensures e in Manifest(a, k) { EntryCarriedOver(b, a, k, e); }
    forall e | e in Manifest(a, k) ensures e in Manifest(b, k) { EntryCarriedOver(a, b, k, e); }
    StrictlySortedUnique(Manifest(b, k), Manifest(a, k), EntrySortKey);
  }

  lemma SameCommunity(b: Body, a: Body)
    requires StateOf(b) == StateOf(a)
    ensures b.freshness == a.freshness && b.exclusions == a.exclusions && b.conflicts == a.conflicts
  {
    forall f | IsCommunityField(f) ensures CommunityValue(b, f) == CommunityValue(a, f) {
      StateLookup(b, CommunitySlot(f));
      StateLookup(a, CommunitySlot(f));
    }
    assert CommunityValue(b, FreshnessState) == CommunityValue(a, FreshnessState);
    assert CommunityValue(b, Exclusions) == CommunityValue(a, Exclusions);
    assert CommunityValue(b, Conflicts) == CommunityValue(a, Conflicts);
  }

  lemma SameProperties(b: Body, a: Body)
    requires WellFormedBody(b) && WellFormedBody(a) && StateOf(b) == StateOf(a)
    ensures b.properties == a.properties
  {
    hide StateOf, Lookup;
    forall p | p in b.properties ensures p in a.properties { PropertyCarriedOver(b, a, p); }
    forall p | p in a.properties ensures p in b.properties { PropertyCarriedOver(a, b, p); }
    StrictlySortedUnique(b.properties, a.properties, PropertyKey);
  }

  lemma SamePartsSameState(b: Body, a: Body)
    requires SameParts(b, a)
    ensures StateOf(b) == StateOf(a)
  {
    assert Slots(b) == Slots(a);
    forall slot | slot in Slots(b) ensures Lookup(b, slot) == Lookup(a, slot) {
      hide Slots;
      match slot
      case CommunitySlot(f) =>
      case PropertySlot(id, f) => assert PropertyDict(b) == PropertyDict(a);
      case ManifestSlot(k, t, i) => assert Manifest(b, k) == Manifest(a, k);
    }
  }

  lemma StateDeterminesParts(b: Body, a: Body)
    requires WellFormedBody(b) && WellFormedBody(a)
    ensures StateOf(b) == StateOf(a) <==> SameParts(b, a)
  {
    hide StateOf, WellFormedBody;
    if StateOf(b) == StateOf(a) {
      SameCommunity(b, a);
      SameProperties(b, a);
      SameManifest(b, a, SourceKind);
      SameManifest(b, a, PolicyKind);
      SameManifest(b, a, RuntimeKind);
    }
    if SameParts(b, a) { SamePartsSameState(b, a); }
  }

  // ---- UNCHANGED ----

  lemma {:induction false} ReplayNothing(s: State, b: Body, cs: seq<Change>)
    requires s == StateOf(b)
    requires forall c | c in cs :: forall t | t in Touched(c.diff) :: Meaningful(t) && Image(c.diff.after, t) == Lookup(b, t)
    ensures Replay(s, cs) == s
    decreases |cs|
  {
    if cs != [] {
      assert cs[0] in cs;
      forall t | t in Touched(cs[0].diff) ensures InState(s, t, Image(cs[0].diff.after, t)) { StateLookup(b, t); }
      assert Step(s, cs[0].diff) == s;
      ReplayNothing(s, b, cs[1..]);
    }
  }

  /** All changes are UNCHANGED exactly when the two snapshots have the same parts. */
  lemma UnchangedMeansSameParts(
    deltaId: string, before: Snapshot, after: Snapshot, detectedAt: Timestamp, staleDomains: set<Domain>)
    requires WellFormedBody(before.body) && WellFormedBody(after.body)
    ensures var r := BuildDelta(deltaId, before, after, detectedAt, staleDomains);
      r.Ok? ==>
        ((forall c | c in r.value.payload.changes :: c.diff.classification == Unchanged) <==> SameParts(before.body, after.body))
  {
    var r := BuildDelta(deltaId, before, after, detectedAt, staleDomains);
    if r.Ok? {
      var b, a, cs := before.body, after.body, r.value.payload.changes;
      DeltaChanges(b, a, staleDomains);
      DiffsFaithful(b, a);
      StateDeterminesParts(b, a);
      if forall c | c in cs :: c.diff.classification == Unchanged {
        forall c | c in cs ensures forall t | t in Touched(c.diff) :: Meaningful(t) && Image(c.diff.after, t) == Lookup(b, t) {
          assert Faithful(c.diff, b, a);
        }
        ReplayNothing(StateOf(b), b, cs);
        DeltaIsInvertiblePatch(deltaId, before, after, detectedAt, staleDomains);
      } else if SameParts(b, a) {
        SamePartsUnchanged(b, a);
      }
    }
  }

  lemma SamePartsOrigin(b: Body, a: Body, o: Origin)
    requires SameParts(b, a) && Occurs(o, b, a)
    ensures DiffAt(o, b, a).before == DiffAt(o, b, a).after
  {
    assert PropertyDict(b) == PropertyDict(a);
    if o.FromManifest? { assert Manifest(b, o.k) == Manifest(a, o.k); }
  }

  lemma SamePartsUnchanged(b: Body, a: Body)
    requires SameParts(b, a)
    ensures forall d | d in Diffs(b, a) :: d.before == d.after
  {
    forall d | d in Diffs(b, a) ensures d.before == d.after {
      var o := OriginOf(b, a, d);
      SamePartsOrigin(b, a, o);
    }
  }

  /** Reading a change of one field backwards gives the dual class. */
  function Dual(c: Classification): Classification {
    match c
    case BecameKnown => BecameUnknown
    case BecameUnknown => BecameKnown
    case ConflictIntroduced => ConflictResolved
    case ConflictResolved => ConflictIntroduced
    case Suppressed => Reactivated
    case Reactivated => Suppressed
    case Added => Removed
    case Removed => Added
    case _ => c
  }

  lemma ClassifyBackwards(f: Field, before: Value, after: Value)
    ensures Classify(f, after, before) == Dual(Classify(f, before, after))
  {
  }
}
