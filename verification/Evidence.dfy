/** Scenario evidence: a governed query over the temporal ledger, entry by entry. */
module Evidence {
  import opened Basics
  import opened Order
  import opened History

  datatype EvidenceQuery = EvidenceQuery(
    queryId: string, contextFp: string, communityId: string, subjectId: string,
    scopes: set<string>, factKeys: set<string>, validFrom: Timestamp, validTo: Timestamp, cutoff: Timestamp,
    includeSubject: bool, includeCommunity: bool)

  datatype EvidenceRegistry = EvidenceRegistry(
    allowedScopes: set<string>, allowedTruthStates: set<string>, requireFactKeys: bool, requireLineage: bool)

  datatype Context = Context(contextFp: string, communityId: string, subjectId: string)

  datatype Reason =
    | CommunityMismatch
    | ScopeNotRequested
    | FactKeyNotRequested
    | OutsideValidWindow
    | KnownAfterCutoff
    | SubjectHistoryDisabled
    | SubjectMismatch
    | CommunityHistoryDisabled
    | TruthStateNotAllowed
    | SourceLineageMissing
    | GovernedQueryMatch

  datatype Record = Record(entry: Entry, included: bool, reasons: set<Reason>)

  datatype EvidenceSet = EvidenceSet(
    ledgerFp: LedgerFp, included: seq<Record>, excluded: seq<Record>, sources: set<string>, nothingMatched: bool)

  function BuildQuery(q: EvidenceQuery, registry: EvidenceRegistry): (r: Result<EvidenceQuery>)
    ensures r.Ok? ==> r.value == q && q.validFrom.instant <= q.validTo.instant && q.validFrom.instant <= q.cutoff.instant
  {
    if q.queryId == "" then Err("query_id required")
    else if q.scopes == {} || !(q.scopes <= registry.allowedScopes) then Err("query scopes must be explicit and governed")
    else if registry.requireFactKeys && q.factKeys == {} then Err("explicit fact keys required")
    else if q.validTo.instant < q.validFrom.instant then Err("valid_to cannot precede valid_from")
    else if q.cutoff.instant < q.validFrom.instant then Err("knowledge_cutoff cannot precede valid_from")
    else Ok(q)
  }

  /** When an entry is excluded for a reason. */
  predicate Excludes(r: Reason, e: Entry, q: EvidenceQuery, registry: EvidenceRegistry) {
    match r
    case CommunityMismatch => e.p.communityId != q.communityId
    case ScopeNotRequested => e.p.scope !in q.scopes
    case FactKeyNotRequested => e.p.factKey !in q.factKeys
    case OutsideValidWindow =>
      e.p.validFrom.instant < q.validFrom.instant || e.p.validFrom.instant > q.validTo.instant
    case KnownAfterCutoff => e.p.knownAt.instant > q.cutoff.instant
    case SubjectHistoryDisabled => e.p.scope == "PROPERTY" && !q.includeSubject
    case SubjectMismatch => e.p.scope == "PROPERTY" && q.includeSubject && e.p.scopeId != q.subjectId
    case CommunityHistoryDisabled => e.p.scope == "COMMUNITY" && !q.includeCommunity
    case TruthStateNotAllowed => e.p.truthState !in registry.allowedTruthStates
    case SourceLineageMissing => registry.requireLineage && e.p.sources == {}
    case GovernedQueryMatch => false
  }

  function ExclusionReasons(e: Entry, q: EvidenceQuery, registry: EvidenceRegistry): set<Reason> {
    set r: Reason | Excludes(r, e, q, registry)
  }

  function RecordOf(e: Entry, q: EvidenceQuery, registry: EvidenceRegistry): Record {
    var reasons := ExclusionReasons(e, q, registry);
    Record(e, reasons == {}, if reasons == {} then {GovernedQueryMatch} else reasons)
  }

  predicate Admitted(e: Entry, q: EvidenceQuery, registry: EvidenceRegistry) {
    RecordOf(e, q, registry).included
  }

  method ScopeReasons(e: Entry, q: EvidenceQuery, registry: EvidenceRegistry) returns (reasons: set<Reason>)
    ensures forall r: Reason :: r in reasons <==> OfScope(r) && Excludes(r, e, q, registry)
  {
    reasons := {};
    if e.p.communityId != q.communityId { reasons := reasons + {CommunityMismatch}; }
    if e.p.scope !in q.scopes { reasons := reasons + {ScopeNotRequested}; }
    if e.p.factKey !in q.factKeys { reasons := reasons + {FactKeyNotRequested}; }
    if e.p.scope == "PROPERTY" {
      if !q.includeSubject { reasons := reasons + {SubjectHistoryDisabled}; }
      else if e.p.scopeId != q.subjectId { reasons := reasons + {SubjectMismatch}; }
    }
    if e.p.scope == "COMMUNITY" && !q.includeCommunity { reasons := reasons + {CommunityHistoryDisabled}; }
  }

  /** Reasons about what the query asked for, as opposed to time, truth state and lineage. */
  predicate OfScope(r: Reason) {
    r == CommunityMismatch || r == ScopeNotRequested || r == FactKeyNotRequested
    || r == SubjectHistoryDisabled || r == SubjectMismatch || r == CommunityHistoryDisabled
  }

  method EntryDecision(e: Entry, q: EvidenceQuery, registry: EvidenceRegistry) returns (r: Record)
    ensures r == RecordOf(e, q, registry)
  {
    var reasons := ScopeReasons(e, q, registry);
    if e.p.validFrom.instant < q.validFrom.instant || e.p.validFrom.instant > q.validTo.instant {
      reasons := reasons + {OutsideValidWindow};
    }
    if e.p.knownAt.instant > q.cutoff.instant { reasons := reasons + {KnownAfterCutoff}; }
    if e.p.truthState !in registry.allowedTruthStates { reasons := reasons + {TruthStateNotAllowed}; }
    if registry.requireLineage && e.p.sources == {} { reasons := reasons + {SourceLineageMissing}; }
    assert reasons == ExclusionReasons(e, q, registry);
    r := Record(e, reasons == {}, if reasons == {} then {GovernedQueryMatch} else reasons);
  }

  // ---- retrieval ----

  function RecordKey(r: Record): Key {
    EntryKey(r.entry)
  }

  /** The records of the entries that are admitted, or of those that are not, in ledger order. */
  function Records(entries: seq<Entry>, q: EvidenceQuery, registry: EvidenceRegistry, admitted: bool): seq<Record> {
    if entries == [] then [] else
      var n := |entries| - 1;
      Records(entries[..n], q, registry, admitted)
      + if Admitted(entries[n], q, registry) == admitted then [RecordOf(entries[n], q, registry)] else []
  }

  function SourcesOf(rs: seq<Record>): set<string> {
    set r, fp | r in rs && fp in r.entry.p.sources :: fp
  }

  method RetrieveScenarioEvidence(
    evidenceSetId: string, context: Context, l: Ledger, q: EvidenceQuery, registry: EvidenceRegistry)
    returns (r: Result<EvidenceSet>)
    ensures r.Ok? <==> evidenceSetId != "" && ReplayValid(l) && l.communityId == context.communityId
                       && q.communityId == context.communityId && q.contextFp == context.contextFp
    ensures r.Ok? ==> r.value == EvidenceOf(l, q, registry)
  {
    if evidenceSetId == "" { return Err("evidence_set_id required"); }
    if !ReplayValid(l) { return Err("reproducible temporal ledger required"); }
    if l.communityId != context.communityId || q.communityId != context.communityId {
      return Err("community lineage mismatch");
    }
    if q.contextFp != context.contextFp { return Err("scenario context fingerprint mismatch"); }
    var included: seq<Record> := [];
    var excluded: seq<Record> := [];
    for i := 0 to |l.entries|
      invariant included == Records(l.entries[..i], q, registry, true)
      invariant excluded == Records(l.entries[..i], q, registry, false)
    {
      assert l.entries[..i + 1][..i] == l.entries[..i];
      var record := EntryDecision(l.entries[i], q, registry);
      if record.included { included := included + [record]; } else { excluded := excluded + [record]; }
    }
    assert l.entries[..|l.entries|] == l.entries;
    var rows := SortBy(included, RecordKey);
    r := Ok(EvidenceSet(l.fp, rows, SortBy(excluded, RecordKey), SourcesOf(rows), rows == []));
  }

  function EvidenceOf(l: Ledger, q: EvidenceQuery, registry: EvidenceRegistry): EvidenceSet {
    var rows := SortBy(Records(l.entries, q, registry, true), RecordKey);
    EvidenceSet(l.fp, rows, SortBy(Records(l.entries, q, registry, false), RecordKey), SourcesOf(rows), rows == [])
  }

  // ---- what evidence promises ----

  lemma {:induction false} RecordsFacts(entries: seq<Entry>, q: EvidenceQuery, registry: EvidenceRegistry, admitted: bool)
    ensures forall r :: r in Records(entries, q, registry, admitted)
                        <==> r.entry in entries && r == RecordOf(r.entry, q, registry) && r.included == admitted
    ensures DistinctKeys(entries, EntryKey) ==> DistinctKeys(Records(entries, q, registry, admitted), RecordKey)
  {
    hide RecordOf, EntryKey;
    if entries != [] {
      var n := |entries| - 1;
      var init := entries[..n];
      RecordsFacts(init, q, registry, admitted);
      assert entries == init + [entries[n]];
      RecordEntry(entries[n], q, registry);
      if DistinctKeys(entries, EntryKey) {
        assert entries[0..n] == init;
        DistinctSlice(entries, EntryKey, 0, n);
        var rs := Records(init, q, registry, admitted);
        forall i | 0 <= i < |rs| ensures RecordKey(rs[i]) != RecordKey(RecordOf(entries[n], q, registry)) {
          assert rs[i] in rs;
          var k :| 0 <= k < n && init[k] == rs[i].entry;
          assert EntryKey(entries[k]) != EntryKey(entries[n]);
        }
      }
    }
  }

  lemma RecordEntry(e: Entry, q: EvidenceQuery, registry: EvidenceRegistry)
    ensures RecordOf(e, q, registry).entry == e
  {
  }

  lemma LedgerKeysDistinct(l: Ledger)
    requires LedgerOk(l)
    ensures DistinctKeys(l.entries, EntryKey)
  {
    forall i, j | 0 <= i < j < |l.entries| ensures EntryKey(l.entries[i]) != EntryKey(l.entries[j]) {
      assert KeyLt(EntryKey(l.entries[i]), EntryKey(l.entries[j]));
    }
  }

  /** Every entry is accounted for exactly once: admitted entries are included, the others
      excluded with the reasons that hold of them. */
  lemma EveryEntryAccounted(l: Ledger, q: EvidenceQuery, registry: EvidenceRegistry, e: Entry)
    requires LedgerOk(l)
    ensures var s := EvidenceOf(l, q, registry); var r := RecordOf(e, q, registry);
            && (r in s.included <==> e in l.entries && Admitted(e, q, registry))
            && (r in s.excluded <==> e in l.entries && !Admitted(e, q, registry))
            && StrictlySorted(s.included, RecordKey) && StrictlySorted(s.excluded, RecordKey)
  {
    hide LedgerOk, ExclusionReasons;
    LedgerKeysDistinct(l);
    forall admitted: bool
      ensures var rs := SortBy(Records(l.entries, q, registry, admitted), RecordKey);
              && StrictlySorted(rs, RecordKey)
              && (RecordOf(e, q, registry) in rs <==> e in l.entries && Admitted(e, q, registry) == admitted)
    {
      var rs := Records(l.entries, q, registry, admitted);
      RecordsFacts(l.entries, q, registry, admitted);
      SortStrict(rs, RecordKey);
      SortFacts(rs, RecordKey);
    }
  }

  /** The included evidence is unmoved by whatever became known after the cutoff. */
  lemma EvidenceReproducible(l: Ledger, ops: seq<Op>, history: HistoryRegistry, hash: Hash, q: EvidenceQuery, registry: EvidenceRegistry)
    requires LedgerOk(l) && forall op | op in ops :: OpKnownAfter(op, q.cutoff)
    ensures EvidenceOf(Run(l, ops, history, hash), q, registry).included == EvidenceOf(l, q, registry).included
    ensures EvidenceOf(Run(l, ops, history, hash), q, registry).sources == EvidenceOf(l, q, registry).sources
  {
    var m := Run(l, ops, history, hash);
    RunIsOk(l, ops, history, hash);
    ArrivalsKnownAfter(l, ops, history, hash, q.cutoff);
    LedgerKeysDistinct(l);
    LedgerKeysDistinct(m);
    RecordsFacts(l.entries, q, registry, true);
    RecordsFacts(m.entries, q, registry, true);
    hide LedgerOk, Run, DistinctKeys, SortBy, RecordOf;
    var rs, ss := Records(l.entries, q, registry, true), Records(m.entries, q, registry, true);
    forall r: Record | r.included && r == RecordOf(r.entry, q, registry) ensures r.entry in l.entries <==> r.entry in m.entries {
      AdmittedKnown(r.entry, q, registry);
      assert r.entry in l.entries + Arrivals(l, ops, history, hash) <==> r.entry in m.entries;
    }
    assert SameElements(rs, ss);
    SortSameElements(rs, ss, RecordKey);
  }

  /** Admission, spelled out. */
  lemma AdmittedKnown(e: Entry, q: EvidenceQuery, registry: EvidenceRegistry)
    ensures Admitted(e, q, registry) <==> forall r: Reason :: !Excludes(r, e, q, registry)
    ensures Admitted(e, q, registry) ==>
              q.validFrom.instant <= e.p.validFrom.instant <= q.validTo.instant && e.p.knownAt.instant <= q.cutoff.instant
  {
    var reasons := ExclusionReasons(e, q, registry);
    if forall r: Reason :: !Excludes(r, e, q, registry) {
      assert reasons == {};
    }
    if Admitted(e, q, registry) {
      assert reasons == {};
      forall r: Reason ensures !Excludes(r, e, q, registry) { assert r !in reasons; }
      assert !Excludes(OutsideValidWindow, e, q, registry) && !Excludes(KnownAfterCutoff, e, q, registry);
    }
  }

  /** The view an entry belongs to, at the query's end of validity and knowledge cutoff. */
  function OwnView(e: Entry, q: EvidenceQuery): Query {
    Query(KnownThen, e.p.scope, e.p.scopeId, Some(q.validTo), Some(q.cutoff))
  }

  /** Included evidence is what the KNOWN_THEN view of its own scope shows and nothing else
      excludes: no evidence from beyond either cutoff. */
  lemma EvidenceWasKnown(l: Ledger, q: EvidenceQuery, registry: EvidenceRegistry, e: Entry)
    requires LedgerOk(l)
    ensures HistoricalView(l, OwnView(e, q)).Ok?
    ensures RecordOf(e, q, registry) in EvidenceOf(l, q, registry).included <==>
            && e in HistoricalView(l, OwnView(e, q)).value.entries
            && q.validFrom.instant <= e.p.validFrom.instant
            && (forall r: Reason | !r.KnownAfterCutoff? && !r.OutsideValidWindow? :: !Excludes(r, e, q, registry))
  {
    EveryEntryAccounted(l, q, registry, e);
    AdmittedKnown(e, q, registry);
    assert HistoricalView(l, OwnView(e, q)).Ok?;
    hide SortBy, StrictlySorted, UniqueBy;
    ViewLists(l, OwnView(e, q));
    hide HistoricalView, LedgerOk, EvidenceOf, RecordOf;
    if forall r: Reason | !r.KnownAfterCutoff? && !r.OutsideValidWindow? :: !Excludes(r, e, q, registry) {
      if e in HistoricalView(l, OwnView(e, q)).value.entries && q.validFrom.instant <= e.p.validFrom.instant {
        assert !Excludes(OutsideValidWindow, e, q, registry) && !Excludes(KnownAfterCutoff, e, q, registry);
      }
    }
  }
}
