/** What a selective refresh plan may be trusted with: exactly which artifacts are refreshed
    whenever something they read has changed. */
module RefreshSoundness {
  import opened Basics
  import opened Order
  import opened Snapshot
  import opened Delta
  import opened DeltaReplay
  import opened ImpactRefresh

  /** The properties whose state an artifact is computed from. */
  type Reach = (Artifact, string) -> bool

  predicate Own(a: Artifact, id: string) {
    a.scope == PropertyRecord && a.scopeId == id
  }

  /** A property record that reads its own property only ... */
  const OwnProperty: Reach := (a, id) => Own(a, id)

  /** ... and an artifact that reads whatever is in the domains its type depends on. */
  const EveryProperty: Reach := (a, id) => true

  /** The slots whose domain the artifact's type depends on, of the properties it reaches. */
  ghost predicate Reads(rules: Rules, reach: Reach, a: Artifact, slot: Slot) {
    Meaningful(slot) &&
    match slot
    case CommunitySlot(f) => a.artifactType in DependsOn(rules, CommunityFieldDomain(f))
    case ManifestSlot(k, _, _) => a.artifactType in DependsOn(rules, KindDomain(k))
    case PropertySlot(id, f) => reach(a, id) && a.artifactType in DependsOn(rules, PropertyFieldDomain(f))
  }

  /** A type listed under PROPERTY is told which properties there are. */
  ghost predicate SeesPresence(rules: Rules, reach: Reach, a: Artifact, id: string) {
    reach(a, id) && a.artifactType in DependsOn(rules, PropertyDomain)
  }

  /** Two snapshots look the same to an artifact. */
  ghost predicate SameView(rules: Rules, reach: Reach, a: Artifact, before: Body, after: Body) {
    && (forall slot | Reads(rules, reach, a, slot) :: Lookup(before, slot) == Lookup(after, slot))
    && (forall id | SeesPresence(rules, reach, a, id) :: Present(before, id) <==> Present(after, id))
  }

  /** The type reads something of properties. */
  ghost predicate ReadsProperties(rules: Rules, t: string) {
    || t in DependsOn(rules, PropertyDomain)
    || exists f :: IsPropertyField(f) && t in DependsOn(rules, PropertyFieldDomain(f))
  }

  /** If its type reads anything of properties, the artifact reaches no property but the one it
      is the record of, and its type is listed under PROPERTY. */
  ghost predicate WellScoped(rules: Rules, reach: Reach, a: Artifact) {
    ReadsProperties(rules, a.artifactType) ==>
      forall id | reach(a, id) :: Own(a, id) && a.artifactType in DependsOn(rules, PropertyDomain)
  }

  ghost predicate RefreshesEveryChange(registry: RefreshRegistry) {
    forall c :: c in registry.refreshRequired <==> c != Unchanged && c != NotComparable
  }

  ghost predicate MustRefresh(registry: RefreshRegistry, a: Artifact, ds: seq<Diff>) {
    exists d :: d in ds && d.classification in registry.refreshRequired && Targets(d, a, registry.dependencyRules)
  }

  // ---- the changes a plan acts on ----

  ghost function OriginDomain(o: Origin): Domain {
    match o
    case FromCommunity(f) => CommunityFieldDomain(f)
    case FromField(_, f) => PropertyFieldDomain(f)
    case FromManifest(k, _, _) => KindDomain(k)
    case _ => PropertyDomain
  }

  ghost predicate AboutProperty(o: Origin) {
    o.FromAdded? || o.FromRemoved? || o.FromField?
  }

  lemma OriginShape(before: Body, after: Body, o: Origin)
    requires Occurs(o, before, after)
    ensures var d := DiffAt(o, before, after);
      && d.domain == OriginDomain(o) && d.classification != NotComparable
      && (d.scope == PropertyScope <==> AboutProperty(o)) && (AboutProperty(o) ==> d.objectId == o.id)
  {
    OriginKeyed(before, after, o);
    if o.FromManifest? {
      ManifestDiffShape(o.k, Find(ManifestDict(before, o.k), [o.t, o.i]), Find(ManifestDict(after, o.k), [o.t, o.i]), before, o.t, o.i);
    }
  }

  lemma OriginTargets(before: Body, after: Body, o: Origin, a: Artifact, rules: Rules)
    requires Occurs(o, before, after)
    ensures DiffAt(o, before, after).classification != NotComparable
    ensures Targets(DiffAt(o, before, after), a, rules) <==>
      a.artifactType in DependsOn(rules, OriginDomain(o)) && (AboutProperty(o) ==> Own(a, o.id))
  {
    OriginShape(before, after, o);
  }

  /** The slot a change of one value speaks about. */
  ghost function OriginSlot(o: Origin): Slot {
    match o
    case FromCommunity(f) => CommunitySlot(f)
    case FromField(id, f) => PropertySlot(id, f)
    case FromManifest(k, t, i) => ManifestSlot(k, t, i)
    case FromAdded(id) => PropertySlot(id, IdentityFp)
    case FromRemoved(id) => PropertySlot(id, IdentityFp)
  }

  lemma OriginValues(before: Body, after: Body, o: Origin)
    requires Occurs(o, before, after) && !o.FromAdded? && !o.FromRemoved?
    ensures var d := DiffAt(o, before, after);
      d.before == Lookup(before, OriginSlot(o)) && d.after == Lookup(after, OriginSlot(o))
  {
    OriginKeyed(before, after, o);
  }

  /** A matching change is visible to the artifact, so nothing is refreshed without cause. */
  lemma MatchIsVisible(registry: RefreshRegistry, reach: Reach, a: Artifact, before: Body, after: Body, o: Origin)
    requires RefreshesEveryChange(registry) && Occurs(o, before, after)
    requires a.scope == PropertyRecord ==> reach(a, a.scopeId)
    requires DiffAt(o, before, after).classification in registry.refreshRequired
    requires Targets(DiffAt(o, before, after), a, registry.dependencyRules)
    ensures !SameView(registry.dependencyRules, reach, a, before, after)
  {
    OriginTargets(before, after, o, a, registry.dependencyRules);
    OriginFaithful(before, after, o);
    if !o.FromAdded? && !o.FromRemoved? {
      OriginValues(before, after, o);
      assert Reads(registry.dependencyRules, reach, a, OriginSlot(o));
    } else {
      assert SeesPresence(registry.dependencyRules, reach, a, o.id);
    }
  }

  /** A slot the artifact reads and whose value changed is reported by a matching change. */
  lemma ChangedSlotMatches(registry: RefreshRegistry, reach: Reach, a: Artifact, before: Body, after: Body, slot: Slot)
    requires RefreshesEveryChange(registry) && WellScoped(registry.dependencyRules, reach, a)
    requires Reads(registry.dependencyRules, reach, a, slot) && Lookup(before, slot) != Lookup(after, slot)
    ensures MustRefresh(registry, a, Diffs(before, after))
  {
    hide Diffs, DiffAt, Lookup, Touched, Targets, PropertyDict, ManifestDict;
    var o := OriginFor(before, after, slot);
    OriginForTouches(before, after, slot);
    OriginFaithful(before, after, o);
    OriginTargets(before, after, o, a, registry.dependencyRules);
    Emitted(before, after, o);
  }

  lemma ChangedPresenceMatches(
    registry: RefreshRegistry, reach: Reach, a: Artifact, before: Body, after: Body, id: string)
    requires RefreshesEveryChange(registry) && WellScoped(registry.dependencyRules, reach, a)
    requires SeesPresence(registry.dependencyRules, reach, a, id) && (Present(before, id) <==> !Present(after, id))
    ensures MustRefresh(registry, a, Diffs(before, after))
  {
    hide Diffs, Lookup, Touched, Targets, PropertyDict, ManifestDict;
    var o := if Present(before, id) then FromRemoved(id) else FromAdded(id);
    OriginTargets(before, after, o, a, registry.dependencyRules);
    Emitted(before, after, o);
  }

  lemma ChangeIsSeen(registry: RefreshRegistry, reach: Reach, a: Artifact, before: Body, after: Body)
    requires RefreshesEveryChange(registry) && WellScoped(registry.dependencyRules, reach, a)
    requires !SameView(registry.dependencyRules, reach, a, before, after)
    ensures MustRefresh(registry, a, Diffs(before, after))
  {
    hide Diffs, Lookup, Present, WellScoped, MustRefresh, SeesPresence, Reads;
    var rules := registry.dependencyRules;
    if slot :| Reads(rules, reach, a, slot) && Lookup(before, slot) != Lookup(after, slot) {
      ChangedSlotMatches(registry, reach, a, before, after, slot);
    } else {
      var id :| SeesPresence(rules, reach, a, id) && (Present(before, id) <==> !Present(after, id));
      ChangedPresenceMatches(registry, reach, a, before, after, id);
    }
  }

  /** A well-scoped artifact that reads its own property is refreshed exactly when its view
      changed. */
  lemma RefreshExactlyWhenViewChanged(registry: RefreshRegistry, reach: Reach, a: Artifact, before: Body, after: Body)
    requires RefreshesEveryChange(registry) && WellScoped(registry.dependencyRules, reach, a)
    requires a.scope == PropertyRecord ==> reach(a, a.scopeId)
    ensures MustRefresh(registry, a, Diffs(before, after)) <==> !SameView(registry.dependencyRules, reach, a, before, after)
  {
    hide SameView, WellScoped, Diffs;
    if d :| d in Diffs(before, after) && d.classification in registry.refreshRequired && Targets(d, a, registry.dependencyRules) {
      var o := OriginOf(before, after, d);
      MatchIsVisible(registry, reach, a, before, after, o);
    }
    if !SameView(registry.dependencyRules, reach, a, before, after) {
      ChangeIsSeen(registry, reach, a, before, after);
    }
  }

  /** The verdict a plan records is whether some emitted change must refresh the artifact. */
  lemma VerdictMeaning(before: Body, after: Body, staleDomains: set<Domain>, r: Record, registry: RefreshRegistry)
    ensures Decide(r, SortBy(Number(Diffs(before, after), staleDomains), ChangeKey), registry).verdict == RefreshRequired
      <==> MustRefresh(registry, r.artifact, Diffs(before, after))
  {
    var changes := SortBy(Number(Diffs(before, after), staleDomains), ChangeKey);
    DeltaChanges(before, after, staleDomains);
    var matching := set c | c in changes && Matches(c, r.artifact, registry);
    if MustRefresh(registry, r.artifact, Diffs(before, after)) {
      var d :| d in Diffs(before, after) && d.classification in registry.refreshRequired
               && Targets(d, r.artifact, registry.dependencyRules);
      var c :| c in changes && c.diff == d;
      assert c in matching;
    }
    if matching != {} {
      var c :| c in matching;
      assert c.diff in Diffs(before, after);
    }
  }

  // ---- which artifacts the plan is right about ----

  /** Bodies of two snapshots the differ accepts one after the other. */
  ghost predicate Consecutive(before: Body, after: Body) {
    && WellFormedBody(before) && WellFormedBody(after) && before.communityId == after.communityId
    && before.m12Root == after.m12Root && before.observationTime.instant < after.observationTime.instant
  }

  /** Over all snapshots, the plan refreshes the artifact whenever its view changed. */
  ghost predicate MissesNothing(registry: RefreshRegistry, reach: Reach, a: Artifact) {
    forall before, after | Consecutive(before, after) && !SameView(registry.dependencyRules, reach, a, before, after) ::
      MustRefresh(registry, a, Diffs(before, after))
  }

  ghost function WitnessBody(properties: seq<PropertyState>, at: int): Body {
    Body("c", Timestamp("t", at), Timestamp("t", 0), None, "m12", [], [], [], properties, [], [], "CURRENT")
  }

  ghost function WitnessProperty(id: string, identity: string): PropertyState {
    PropertyState(id, identity, "ph", "s", "n", "CURRENT", [], [])
  }

  lemma OnlyPropertiesChanged(before: seq<PropertyState>, after: seq<PropertyState>, o: Origin)
    requires Occurs(o, WitnessBody(before, 0), WitnessBody(after, 1))
    ensures AboutProperty(o) || DiffAt(o, WitnessBody(before, 0), WitnessBody(after, 1)).classification == Unchanged
  {
  }

  /** A property that appears is missed by an artifact that reaches it without being its record,
      or whose type reads one of its fields but is not listed under PROPERTY. */
  lemma AddedPropertyMissed(
    registry: RefreshRegistry, reach: Reach, a: Artifact, id: string) returns (before: Body, after: Body)
    requires RefreshesEveryChange(registry) && ReadsProperties(registry.dependencyRules, a.artifactType)
    requires reach(a, id) && !(Own(a, id) && a.artifactType in DependsOn(registry.dependencyRules, PropertyDomain))
    ensures Consecutive(before, after) && !SameView(registry.dependencyRules, reach, a, before, after)
    ensures !MustRefresh(registry, a, Diffs(before, after))
  {
    hide Diffs, WellFormedBody;
    var p := WitnessProperty(id, "i");
    before, after := WitnessBody([], 0), WitnessBody([p], 1);
    AddedVisible(registry.dependencyRules, reach, a, p, before, after);
    assert Consecutive(before, after) by { WitnessWellFormed(p); }
    forall d | d in Diffs(before, after) && Targets(d, a, registry.dependencyRules)
      ensures d.classification !in registry.refreshRequired
    {
      var o := OriginOf(before, after, d);
      OriginTargets(before, after, o, a, registry.dependencyRules);
      OnlyPropertiesChanged([], [p], o);
      if AboutProperty(o) { OnlyAdded(p, o); }
    }
  }

  lemma WitnessWellFormed(p: PropertyState)
    ensures WellFormedBody(WitnessBody([], 0)) && WellFormedBody(WitnessBody([p], 1))
  {
  }

  lemma OnlyAdded(p: PropertyState, o: Origin)
    requires Occurs(o, WitnessBody([], 0), WitnessBody([p], 1)) && AboutProperty(o)
    ensures o == FromAdded(p.propertyId)
  {
    PropertyLookup(WitnessBody([p], 1), o.id);
  }

  lemma AddedVisible(rules: Rules, reach: Reach, a: Artifact, p: PropertyState, before: Body, after: Body)
    requires before == WitnessBody([], 0) && after == WitnessBody([p], 1)
    requires reach(a, p.propertyId) && ReadsProperties(rules, a.artifactType)
    ensures !SameView(rules, reach, a, before, after)
  {
    var id := p.propertyId;
    DictLookup(after.properties, PropertyKey, p);
    assert Present(after, id) && !Present(before, id);
    if a.artifactType in DependsOn(rules, PropertyDomain) {
      assert SeesPresence(rules, reach, a, id);
    } else {
      var f :| IsPropertyField(f) && a.artifactType in DependsOn(rules, PropertyFieldDomain(f));
      assert Reads(rules, reach, a, PropertySlot(id, f));
      assert Lookup(before, PropertySlot(id, f)) != Lookup(after, PropertySlot(id, f));
    }
  }

  /** Over all snapshots the plan misses no change that the artifact reads if and only if the
      artifact is well scoped. */
  lemma MissesNothingIff(registry: RefreshRegistry, reach: Reach, a: Artifact)
    requires RefreshesEveryChange(registry)
    ensures MissesNothing(registry, reach, a) <==> WellScoped(registry.dependencyRules, reach, a)
  {
    hide SameView, MustRefresh, Consecutive, Diffs, ReadsProperties;
    if WellScoped(registry.dependencyRules, reach, a) {
      forall before, after | Consecutive(before, after) && !SameView(registry.dependencyRules, reach, a, before, after)
        ensures MustRefresh(registry, a, Diffs(before, after))
      {
        hide WellScoped;
        ChangeIsSeen(registry, reach, a, before, after);
      }
    } else {
      var id :| reach(a, id) && !(Own(a, id) && a.artifactType in DependsOn(registry.dependencyRules, PropertyDomain));
      var before, after := AddedPropertyMissed(registry, reach, a, id);
    }
  }

  /** Reading whatever is in the domains of its type, an artifact of either scope is safe if and
      only if its type reads nothing of properties. */
  lemma DomainReadersMissNothingIff(registry: RefreshRegistry, a: Artifact)
    requires RefreshesEveryChange(registry)
    ensures MissesNothing(registry, EveryProperty, a) <==> !ReadsProperties(registry.dependencyRules, a.artifactType)
  {
    hide MissesNothing, ReadsProperties, RefreshesEveryChange;
    MissesNothingIff(registry, EveryProperty, a);
    assert !Own(a, a.scopeId + "x") && EveryProperty(a, a.scopeId + "x");
  }

  /** An added or removed property is reported in the PROPERTY domain only, so a type that reads
      any property field must depend on PROPERTY too. */
  ghost predicate PropertyCovered(rules: Rules) {
    forall f, t | IsPropertyField(f) && t in DependsOn(rules, PropertyFieldDomain(f)) :: t in DependsOn(rules, PropertyDomain)
  }

  /** Artifacts that read no property but their own are all safe if and only if every type that
      reads a property field is also listed under PROPERTY. */
  lemma OwnReadersMissNothingIff(registry: RefreshRegistry)
    requires RefreshesEveryChange(registry)
    ensures (forall a :: MissesNothing(registry, OwnProperty, a)) <==> PropertyCovered(registry.dependencyRules)
  {
    hide MissesNothing, RefreshesEveryChange, IsPropertyField, PropertyFieldDomain;
    var rules := registry.dependencyRules;
    if PropertyCovered(rules) {
      forall a ensures MissesNothing(registry, OwnProperty, a) { MissesNothingIff(registry, OwnProperty, a); }
    } else {
      var f, t :| IsPropertyField(f) && t in DependsOn(rules, PropertyFieldDomain(f)) && t !in DependsOn(rules, PropertyDomain);
      var a := Artifact("a", t, PropertyRecord, "p");
      assert OwnProperty(a, "p") && ReadsProperties(rules, t);
      MissesNothingIff(registry, OwnProperty, a);
      assert !MissesNothing(registry, OwnProperty, a);
    }
  }

  // ---- payloads ----

  /** What a full rebuild would put in an artifact's payload. */
  type Rebuild = (Artifact, Body) -> string

  /** The rebuild depends only on what the artifact reads. */
  ghost predicate Governed(rebuild: Rebuild, rules: Rules, reach: Reach) {
    forall a, before, after | SameView(rules, reach, a, before, after) :: rebuild(a, before) == rebuild(a, after)
  }

  /** Whatever is computed from what the artifact reads is still right when the plan keeps it. */
  ghost predicate KeptIsRight(registry: RefreshRegistry, reach: Reach, a: Artifact) {
    forall rebuild: Rebuild, before, after
      | Governed(rebuild, registry.dependencyRules, reach) && Consecutive(before, after) && !MustRefresh(registry, a, Diffs(before, after)) ::
      rebuild(a, before) == rebuild(a, after)
  }

  /** Every payload kept by every plan is the one a rebuild would give if and only if the artifact
      is well scoped; otherwise some kept payload is stale. */
  lemma KeptIsRightIff(registry: RefreshRegistry, reach: Reach, a: Artifact)
    requires RefreshesEveryChange(registry)
    ensures KeptIsRight(registry, reach, a) <==> WellScoped(registry.dependencyRules, reach, a)
  {
    hide MustRefresh, Consecutive, Diffs, ReadsProperties, SameView;
    var rules := registry.dependencyRules;
    if WellScoped(rules, reach, a) {
      forall rebuild: Rebuild, before, after
        | Governed(rebuild, rules, reach) && Consecutive(before, after) && !MustRefresh(registry, a, Diffs(before, after))
        ensures rebuild(a, before) == rebuild(a, after)
      {
        if !SameView(rules, reach, a, before, after) { ChangeIsSeen(registry, reach, a, before, after); }
      }
    } else {
      var id :| reach(a, id) && !(Own(a, id) && a.artifactType in DependsOn(rules, PropertyDomain));
      var before, after := AddedPropertyMissed(registry, reach, a, id);
      var rebuild := TellsApart(rules, reach, a, before, after);
    }
  }

  /** A governed rebuild that gives an artifact different payloads for two views. */
  lemma TellsApart(rules: Rules, reach: Reach, a: Artifact, before: Body, after: Body) returns (rebuild: Rebuild)
    requires !SameView(rules, reach, a, before, after)
    ensures Governed(rebuild, rules, reach) && rebuild(a, before) != rebuild(a, after)
  {
    rebuild := (x, b) => if SameView(rules, reach, x, before, b) then "same" else "changed";
  }

  // ---- the frozen registry ----

  const AllTypes: set<string> :=
    {"COMPARABLE_STRENGTH", "BUYER_DEPTH", "SCARCITY", "RESALE_COMPETITION", "NEW_CONSTRUCTION_COMPETITION", "SELLER_INTELLIGENCE"}

  /** The frozen registry; it has no rule for the INTELLIGENCE domain. */
  const ShippedRegistry := RefreshRegistry(
    {Added, Removed, Modified, BecameKnown, BecameUnknown, ConflictIntroduced, ConflictResolved, Suppressed, Reactivated},
    map[IdentityDomain := AllTypes,
        PhaseDomain := {"COMPARABLE_STRENGTH", "BUYER_DEPTH", "SCARCITY", "SELLER_INTELLIGENCE"},
        LocationDnaDomain := {"COMPARABLE_STRENGTH", "SCARCITY", "SELLER_INTELLIGENCE"},
        SourceDomain := AllTypes, PolicyDomain := AllTypes, RuntimeDomain := AllTypes,
        GovernanceDomain := {"SELLER_INTELLIGENCE"}, PropertyDomain := AllTypes,
        CommunityDomain := {"RESALE_COMPETITION", "NEW_CONSTRUCTION_COMPETITION", "SELLER_INTELLIGENCE"}],
    {Certified}, {Certified})

  lemma ShippedTypes(t: string)
    ensures ReadsProperties(ShippedRegistry.dependencyRules, t) <==> t in AllTypes
    ensures t in DependsOn(ShippedRegistry.dependencyRules, PropertyDomain) <==> t in AllTypes
  {
    if f :| IsPropertyField(f) && t in DependsOn(ShippedRegistry.dependencyRules, PropertyFieldDomain(f)) {
      assert t in AllTypes;
    }
  }

  /** Under the frozen registry the plan is right about exactly the artifacts of no listed type
      and those that read no property but their own. */
  lemma ShippedRegistryMissesNothingIff(reach: Reach, a: Artifact)
    ensures RefreshesEveryChange(ShippedRegistry)
    ensures MissesNothing(ShippedRegistry, reach, a) <==> a.artifactType !in AllTypes || forall id | reach(a, id) :: Own(a, id)
  {
    assert RefreshesEveryChange(ShippedRegistry);
    hide MissesNothing, ReadsProperties, RefreshesEveryChange, DependsOn;
    ShippedTypes(a.artifactType);
    MissesNothingIff(ShippedRegistry, reach, a);
  }

  const CommunityArtifact := Artifact("A-4", "RESALE_COMPETITION", CommunityRecord, "SAN-TAN-HEIGHTS")

  /** The frozen registry lists resale competition under IDENTITY, yet a community record of that
      type gets NO_IMPACT when the identity of a property changes. */
  lemma IdentityChangeMissed(r: Record, staleDomains: set<Domain>) returns (before: Body, after: Body)
    requires r.artifact == CommunityArtifact
    ensures before == WitnessBody([WitnessProperty("P-1", "1"), WitnessProperty("P-2", "2")], 0)
    ensures after == WitnessBody([WitnessProperty("P-1", "5"), WitnessProperty("P-2", "2")], 1)
    ensures Consecutive(before, after) && "RESALE_COMPETITION" in DependsOn(ShippedRegistry.dependencyRules, IdentityDomain)
    ensures !SameView(ShippedRegistry.dependencyRules, EveryProperty, CommunityArtifact, before, after)
    ensures Decide(r, SortBy(Number(Diffs(before, after), staleDomains), ChangeKey), ShippedRegistry).verdict == NoImpact
  {
    hide Decide, Number, SortBy, Diffs, SameView, MustRefresh, WellFormedBody, WitnessProperty, Consecutive;
    before := WitnessBody([WitnessProperty("P-1", "1"), WitnessProperty("P-2", "2")], 0);
    after := WitnessBody([WitnessProperty("P-1", "5"), WitnessProperty("P-2", "2")], 1);
    PairWellFormed("1", "2", 0);
    PairWellFormed("5", "2", 1);
    WitnessConsecutive(before.properties, after.properties);
    IdentityVisible(before, after);
    PropertyChangesSpareCommunity(ShippedRegistry, CommunityArtifact, before.properties, after.properties);
    VerdictMeaning(before, after, staleDomains, r, ShippedRegistry);
  }

  lemma WitnessConsecutive(before: seq<PropertyState>, after: seq<PropertyState>)
    requires WellFormedBody(WitnessBody(before, 0)) && WellFormedBody(WitnessBody(after, 1))
    ensures Consecutive(WitnessBody(before, 0), WitnessBody(after, 1))
    ensures WitnessBody(before, 0).properties == before && WitnessBody(after, 1).properties == after
  {
    hide WellFormedBody;
  }

  lemma IdentityVisible(before: Body, after: Body)
    requires before == WitnessBody([WitnessProperty("P-1", "1"), WitnessProperty("P-2", "2")], 0)
    requires after == WitnessBody([WitnessProperty("P-1", "5"), WitnessProperty("P-2", "2")], 1)
    ensures !SameView(ShippedRegistry.dependencyRules, EveryProperty, CommunityArtifact, before, after)
  {
    var slot := PropertySlot("P-1", IdentityFp);
    IdentityLookup("1", "2", 0);
    IdentityLookup("5", "2", 1);
    hide Lookup, WitnessBody, WitnessProperty;
    assert Reads(ShippedRegistry.dependencyRules, EveryProperty, CommunityArtifact, slot);
  }

  lemma IdentityLookup(i: string, j: string, at: int)
    ensures Lookup(WitnessBody([WitnessProperty("P-1", i), WitnessProperty("P-2", j)], at), PropertySlot("P-1", IdentityFp)) == Text(i)
  {
    PairWellFormed(i, j, at);
    hide WellFormedBody;
    var s := [WitnessProperty("P-1", i), WitnessProperty("P-2", j)];
    DictLookup(s, PropertyKey, s[0]);
    assert PropertyKey(s[0]) == ["P-1"];
  }

  /** Changes of properties alone refresh no community record. */
  lemma PropertyChangesSpareCommunity(
    registry: RefreshRegistry, a: Artifact, ps: seq<PropertyState>, qs: seq<PropertyState>)
    requires RefreshesEveryChange(registry) && a.scope == CommunityRecord
    ensures !MustRefresh(registry, a, Diffs(WitnessBody(ps, 0), WitnessBody(qs, 1)))
  {
    hide Diffs, WitnessBody, Targets, DiffAt;
    var before, after := WitnessBody(ps, 0), WitnessBody(qs, 1);
    forall d | d in Diffs(before, after) && Targets(d, a, registry.dependencyRules)
      ensures d.classification !in registry.refreshRequired
    {
      var o := OriginOf(before, after, d);
      OriginTargets(before, after, o, a, registry.dependencyRules);
      OnlyPropertiesChanged(ps, qs, o);
    }
  }

  lemma PairWellFormed(i: string, j: string, at: int)
    ensures WellFormedBody(WitnessBody([WitnessProperty("P-1", i), WitnessProperty("P-2", j)], at))
    ensures UniqueBy([WitnessProperty("P-1", i), WitnessProperty("P-2", j)], PropertyKey)
  {
    var s := [WitnessProperty("P-1", i), WitnessProperty("P-2", j)];
    assert "P-1"[0] == "P-2"[0] && "P-1"[1] == "P-2"[1] && "P-1"[2] < "P-2"[2];
    assert "P-1"[1..][1..] == "1" && "P-2"[1..][1..] == "2";
    assert StringLe("P-1"[1..], "P-2"[1..]);
    assert StringLe("P-1", "P-2");
    assert KeyLt(PropertyKey(s[0]), PropertyKey(s[1]));
    DistinctUnique(s, PropertyKey);
  }

  // ---- the scope rules ----

  /** The record scope that the registry's scope rules give for a change. */
  function TargetScope(s: Scope): RecordScope {
    match s case PropertyScope => PropertyRecord case CommunityScope => CommunityRecord case ManifestScope => CommunityRecord
  }

  /** A change targets only records of the scope its scope rule names if and only if it is about a
      property or no type depends on its domain: the planner reads no scope rule. */
  lemma ScopeRuleKeptIff(rules: Rules, d: Diff)
    ensures (forall a | Targets(d, a, rules) :: a.scope == TargetScope(d.scope))
       <==> d.scope == PropertyScope || DependsOn(rules, d.domain) == {}
  {
    if d.scope != PropertyScope && DependsOn(rules, d.domain) != {} {
      var t :| t in DependsOn(rules, d.domain);
      assert Targets(d, Artifact("a", t, PropertyRecord, "p"), rules);
    }
  }
}
