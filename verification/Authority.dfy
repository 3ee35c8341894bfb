/** Authority vectors and their comparison (src/authority.cpp, include/tef/authority.hpp). */
module Authority {

  /** Identities are canonical ranks and generations are counters; zero is the absent value of either. */
  datatype Ref = Ref(id: nat, generation: nat) {
    predicate Valid() { id > 0 && generation > 0 }
  }

  /** The exact inputs a plan was computed from. A digest of zero is the absent digest. */
  datatype AuthorityVector = AuthorityVector(
    fabricEpoch: nat,
    topology: nat,
    linkState: nat,
    pathAuthority: nat,
    failureDomain: nat,
    capacity: Ref,
    reservations: Ref,
    policy: Ref,
    objective: Ref,
    candidateSet: Ref,
    demandSetDigest: nat,
    candidateSetDigest: nat,
    resourceCatalogDigest: nat,
    reservationSetDigest: nat,
    policyDigest: nat,
    objectiveDigest: nat
  ) {
    predicate Valid() {
      && fabricEpoch > 0 && topology > 0 && linkState > 0 && pathAuthority > 0 && failureDomain > 0
      && capacity.Valid() && reservations.Valid() && policy.Valid() && objective.Valid() && candidateSet.Valid()
    }
  }

  datatype AuthorityField =
    | FabricEpoch | TopologyGeneration | LinkStateGeneration | PathAuthorityGeneration | FailureDomainGeneration
    | CapacitySnapshot | CapacityGeneration | ReservationSnapshot | ReservationGeneration
    | PolicyId | PolicyGeneration | ObjectiveProfile | ObjectiveGeneration | CandidateSet | CandidateSetGeneration
    | DemandSetContent | CandidateSetContent | ResourceCatalog | ReservationSet | PolicyContent | ObjectiveContent

  /** The three field lists of a comparison, which the source sorts and deduplicates. */
  datatype Delta = Delta(advanced: set<AuthorityField>, regressed: set<AuthorityField>,
    conflicting: set<AuthorityField>) {
    predicate Identical() { advanced == {} && regressed == {} && conflicting == {} }
    predicate Stale() { advanced != {} }
    predicate Contradictory() { regressed != {} || conflicting != {} }
  }

  const NO_DELTA := Delta({}, {}, {})

  function CompareGeneration(live: nat, bound: nat, field: AuthorityField, delta: Delta): Delta {
    if live > 0 && bound > 0 && bound < live then delta.(advanced := delta.advanced + {field})
    else if live > 0 && bound > 0 && live < bound then delta.(regressed := delta.regressed + {field})
    else delta
  }

  function CompareRef(live: Ref, bound: Ref, idField: AuthorityField, generationField: AuthorityField,
                      delta: Delta): Delta {
    if !bound.Valid() then delta
    else if !live.Valid() then delta.(conflicting := delta.conflicting + {idField})
    else
      var compared := if live.id == bound.id then delta else delta.(conflicting := delta.conflicting + {idField});
      CompareGeneration(live.generation, bound.generation, generationField, compared)
  }

  function CompareDigest(live: nat, bound: nat, field: AuthorityField, delta: Delta): Delta {
    if live == 0 && bound == 0 then delta
    else if live != bound then delta.(conflicting := delta.conflicting + {field})
    else delta
  }

  function CompareGenerations(bound: AuthorityVector, live: AuthorityVector, delta: Delta): Delta {
    var d1 := CompareGeneration(live.fabricEpoch, bound.fabricEpoch, FabricEpoch, delta);
    var d2 := CompareGeneration(live.topology, bound.topology, TopologyGeneration, d1);
    var d3 := CompareGeneration(live.linkState, bound.linkState, LinkStateGeneration, d2);
    var d4 := CompareGeneration(live.pathAuthority, bound.pathAuthority, PathAuthorityGeneration, d3);
    CompareGeneration(live.failureDomain, bound.failureDomain, FailureDomainGeneration, d4)
  }

  function CompareRefs(bound: AuthorityVector, live: AuthorityVector, delta: Delta): Delta {
    var d1 := CompareRef(live.capacity, bound.capacity, CapacitySnapshot, CapacityGeneration, delta);
    var d2 := CompareRef(live.reservations, bound.reservations, ReservationSnapshot, ReservationGeneration, d1);
    var d3 := CompareRef(live.policy, bound.policy, PolicyId, PolicyGeneration, d2);
    var d4 := CompareRef(live.objective, bound.objective, ObjectiveProfile, ObjectiveGeneration, d3);
    CompareRef(live.candidateSet, bound.candidateSet, CandidateSet, CandidateSetGeneration, d4)
  }

  function CompareDigests(bound: AuthorityVector, live: AuthorityVector, delta: Delta): Delta {
    var d1 := CompareDigest(live.demandSetDigest, bound.demandSetDigest, DemandSetContent, delta);
    var d2 := CompareDigest(live.candidateSetDigest, bound.candidateSetDigest, CandidateSetContent, d1);
    var d3 := CompareDigest(live.resourceCatalogDigest, bound.resourceCatalogDigest, ResourceCatalog, d2);
    var d4 := CompareDigest(live.reservationSetDigest, bound.reservationSetDigest, ReservationSet, d3);
    var d5 := CompareDigest(live.policyDigest, bound.policyDigest, PolicyContent, d4);
    CompareDigest(live.objectiveDigest, bound.objectiveDigest, ObjectiveContent, d5)
  }

  /** compare_authority */
  function CompareAuthority(bound: AuthorityVector, live: AuthorityVector): Delta {
    CompareDigests(bound, live, CompareRefs(bound, live, CompareGenerations(bound, live, NO_DELTA)))
  }

  /** The generation counter that a field reports on; 0 for the fields that report on content. */
  function Generation(a: AuthorityVector, field: AuthorityField): nat {
    match field
    case FabricEpoch => a.fabricEpoch
    case TopologyGeneration => a.topology
    case LinkStateGeneration => a.linkState
    case PathAuthorityGeneration => a.pathAuthority
    case FailureDomainGeneration => a.failureDomain
    case CapacityGeneration => a.capacity.generation
    case ReservationGeneration => a.reservations.generation
    case PolicyGeneration => a.policy.generation
    case ObjectiveGeneration => a.objective.generation
    case CandidateSetGeneration => a.candidateSet.generation
    case _ => 0
  }

  /** The identity or digest that a field reports on; 0 for the fields that report on generations. */
  function Content(a: AuthorityVector, field: AuthorityField): nat {
    match field
    case CapacitySnapshot => a.capacity.id
    case ReservationSnapshot => a.reservations.id
    case PolicyId => a.policy.id
    case ObjectiveProfile => a.objective.id
    case CandidateSet => a.candidateSet.id
    case DemandSetContent => a.demandSetDigest
    case CandidateSetContent => a.candidateSetDigest
    case ResourceCatalog => a.resourceCatalogDigest
    case ReservationSet => a.reservationSetDigest
    case PolicyContent => a.policyDigest
    case ObjectiveContent => a.objectiveDigest
    case _ => 0
  }

  /** Restricted to the given fields, the lists say exactly what advanced, went back, and differs in content. */
  predicate Exact(bound: AuthorityVector, live: AuthorityVector, fields: set<AuthorityField>, delta: Delta) {
    forall f: AuthorityField ::
      && (f in delta.advanced <==> f in fields && Generation(bound, f) < Generation(live, f))
      && (f in delta.regressed <==> f in fields && Generation(live, f) < Generation(bound, f))
      && (f in delta.conflicting <==> f in fields && Content(bound, f) != Content(live, f))
  }

  lemma GenerationStep(bound: AuthorityVector, live: AuthorityVector, fields: set<AuthorityField>, f: AuthorityField,
                       delta: Delta)
    requires Exact(bound, live, fields, delta) && Generation(live, f) > 0 && Generation(bound, f) > 0
    requires Content(live, f) == Content(bound, f) == 0
    ensures Exact(bound, live, fields + {f}, CompareGeneration(Generation(live, f), Generation(bound, f), f, delta))
  {
    hide Generation, Content;
  }

  lemma RefStep(bound: AuthorityVector, live: AuthorityVector, fields: set<AuthorityField>, id: AuthorityField,
                g: AuthorityField,
                delta: Delta)
    requires Exact(bound, live, fields, delta) && Generation(live, g) > 0 && Generation(bound, g) > 0
    requires Content(live, id) > 0 && Content(bound, id) > 0 && id != g
    requires Generation(live, id) == Generation(bound, id) == 0 && Content(live, g) == Content(bound, g) == 0
    ensures Exact(bound, live, fields + {id, g},
      CompareRef(Ref(Content(live, id), Generation(live, g)), Ref(Content(bound, id), Generation(bound, g)), id, g,
        delta))
  {
    hide Generation, Content;
  }

  lemma DigestStep(bound: AuthorityVector, live: AuthorityVector, fields: set<AuthorityField>, f: AuthorityField,
                   delta: Delta)
    requires Exact(bound, live, fields, delta) && Generation(live, f) == Generation(bound, f) == 0
    ensures Exact(bound, live, fields + {f}, CompareDigest(Content(live, f), Content(bound, f), f, delta))
  {
    hide Generation, Content;
  }

  lemma GenerationsExact(bound: AuthorityVector, live: AuthorityVector)
    requires bound.Valid() && live.Valid()
    ensures Exact(bound, live, {FabricEpoch, TopologyGeneration, LinkStateGeneration, PathAuthorityGeneration,
      FailureDomainGeneration},
                  CompareGenerations(bound, live, NO_DELTA))
  {
    var d1 := CompareGeneration(live.fabricEpoch, bound.fabricEpoch, FabricEpoch, NO_DELTA);
    var d2 := CompareGeneration(live.topology, bound.topology, TopologyGeneration, d1);
    var d3 := CompareGeneration(live.linkState, bound.linkState, LinkStateGeneration, d2);
    var d4 := CompareGeneration(live.pathAuthority, bound.pathAuthority, PathAuthorityGeneration, d3);
    hide Exact, CompareGeneration;
    assert Exact(bound, live, {}, NO_DELTA) by { NothingCompared(bound, live); }
    GenerationStep(bound, live, {}, FabricEpoch, NO_DELTA);
    GenerationStep(bound, live, {} + {FabricEpoch}, TopologyGeneration, d1);
    GenerationStep(bound, live, {} + {FabricEpoch} + {TopologyGeneration}, LinkStateGeneration, d2);
    var three := {} + {FabricEpoch} + {TopologyGeneration} + {LinkStateGeneration};
    GenerationStep(bound, live, three, PathAuthorityGeneration, d3);
    GenerationStep(bound, live, three + {PathAuthorityGeneration}, FailureDomainGeneration, d4);
    assert three + {PathAuthorityGeneration} + {FailureDomainGeneration}
      == {FabricEpoch, TopologyGeneration, LinkStateGeneration, PathAuthorityGeneration, FailureDomainGeneration};
  }

  lemma NothingCompared(bound: AuthorityVector, live: AuthorityVector)
    ensures Exact(bound, live, {}, NO_DELTA)
  {
  }

  lemma RefsExact(bound: AuthorityVector, live: AuthorityVector, fields: set<AuthorityField>, delta: Delta)
    requires bound.Valid() && live.Valid() && Exact(bound, live, fields, delta)
    ensures Exact(bound, live,
      fields + {CapacitySnapshot, CapacityGeneration} + {ReservationSnapshot, ReservationGeneration} + {PolicyId,
        PolicyGeneration}
      + {ObjectiveProfile, ObjectiveGeneration} + {CandidateSet, CandidateSetGeneration}, CompareRefs(bound, live,
        delta))
  {
    var d1 := CompareRef(live.capacity, bound.capacity, CapacitySnapshot, CapacityGeneration, delta);
    var d2 := CompareRef(live.reservations, bound.reservations, ReservationSnapshot, ReservationGeneration, d1);
    var d3 := CompareRef(live.policy, bound.policy, PolicyId, PolicyGeneration, d2);
    var d4 := CompareRef(live.objective, bound.objective, ObjectiveProfile, ObjectiveGeneration, d3);
    var f1 := fields + {CapacitySnapshot, CapacityGeneration};
    var f2 := f1 + {ReservationSnapshot, ReservationGeneration};
    var f3 := f2 + {PolicyId, PolicyGeneration};
    var f4 := f3 + {ObjectiveProfile, ObjectiveGeneration};
    hide Exact, CompareRef;
    RefStep(bound, live, fields, CapacitySnapshot, CapacityGeneration, delta);
    RefStep(bound, live, f1, ReservationSnapshot, ReservationGeneration, d1);
    RefStep(bound, live, f2, PolicyId, PolicyGeneration, d2);
    RefStep(bound, live, f3, ObjectiveProfile, ObjectiveGeneration, d3);
    RefStep(bound, live, f4, CandidateSet, CandidateSetGeneration, d4);
  }

  lemma DigestsExact(bound: AuthorityVector, live: AuthorityVector, fields: set<AuthorityField>, delta: Delta)
    requires Exact(bound, live, fields, delta)
    ensures Exact(bound, live,
      fields + {DemandSetContent} + {CandidateSetContent} + {ResourceCatalog} + {ReservationSet} + {PolicyContent}
        + {ObjectiveContent},
      CompareDigests(bound, live, delta))
  {
    var d1 := CompareDigest(live.demandSetDigest, bound.demandSetDigest, DemandSetContent, delta);
    var d2 := CompareDigest(live.candidateSetDigest, bound.candidateSetDigest, CandidateSetContent, d1);
    var d3 := CompareDigest(live.resourceCatalogDigest, bound.resourceCatalogDigest, ResourceCatalog, d2);
    var d4 := CompareDigest(live.reservationSetDigest, bound.reservationSetDigest, ReservationSet, d3);
    var d5 := CompareDigest(live.policyDigest, bound.policyDigest, PolicyContent, d4);
    hide Exact, CompareDigest;
    var f1 := fields + {DemandSetContent};
    var f2 := f1 + {CandidateSetContent};
    var f3 := f2 + {ResourceCatalog};
    var f4 := f3 + {ReservationSet};
    DigestStep(bound, live, fields, DemandSetContent, delta);
    DigestStep(bound, live, f1, CandidateSetContent, d1);
    DigestStep(bound, live, f2, ResourceCatalog, d2);
    DigestStep(bound, live, f3, ReservationSet, d3);
    DigestStep(bound, live, f4, PolicyContent, d4);
    DigestStep(bound, live, f4 + {PolicyContent}, ObjectiveContent, d5);
  }

  /**
   The three lists say, for every field, exactly which generations advanced or went back and which content differs.
   */
  lemma DeltaIsExact(bound: AuthorityVector, live: AuthorityVector, field: AuthorityField)
    requires bound.Valid() && live.Valid()
    ensures var delta := CompareAuthority(bound, live);
      && (field in delta.advanced <==> Generation(bound, field) < Generation(live, field))
      && (field in delta.regressed <==> Generation(live, field) < Generation(bound, field))
      && (field in delta.conflicting <==> Content(bound, field) != Content(live, field))
  {
    hide CompareGenerations, CompareRefs, CompareDigests, Generation, Content;
    var generations := CompareGenerations(bound, live, NO_DELTA);
    var first := {FabricEpoch, TopologyGeneration, LinkStateGeneration, PathAuthorityGeneration,
      FailureDomainGeneration};
    GenerationsExact(bound, live);
    RefsExact(bound, live, first, generations);
    var refs := first + {CapacitySnapshot, CapacityGeneration} + {ReservationSnapshot, ReservationGeneration}
      + {PolicyId, PolicyGeneration} + {ObjectiveProfile, ObjectiveGeneration} + {CandidateSet, CandidateSetGeneration};
    DigestsExact(bound, live, refs, CompareRefs(bound, live, generations));
  }

  predicate Agree(a: AuthorityVector, b: AuthorityVector, field: AuthorityField) {
    Generation(a, field) == Generation(b, field) && Content(a, field) == Content(b, field)
  }

  /** Vectors are determined by their fields. */
  lemma Extensional(a: AuthorityVector, b: AuthorityVector)
    requires forall field :: Agree(a, b, field)
    ensures a == b
  {
    assert Agree(a, b, FabricEpoch) && Agree(a, b, TopologyGeneration) && Agree(a, b, LinkStateGeneration);
    assert Agree(a, b, PathAuthorityGeneration) && Agree(a, b, FailureDomainGeneration);
    assert Agree(a, b, CapacitySnapshot) && Agree(a, b, CapacityGeneration);
    assert Agree(a, b, ReservationSnapshot) && Agree(a, b, ReservationGeneration);
    assert Agree(a, b, PolicyId) && Agree(a, b, PolicyGeneration);
    assert Agree(a, b, ObjectiveProfile) && Agree(a, b, ObjectiveGeneration);
    assert Agree(a, b, CandidateSet) && Agree(a, b, CandidateSetGeneration);
    assert Agree(a, b, DemandSetContent) && Agree(a, b, CandidateSetContent) && Agree(a, b, ResourceCatalog);
    assert Agree(a, b, ReservationSet) && Agree(a, b, PolicyContent) && Agree(a, b, ObjectiveContent);
  }

  /** The comparison reports nothing exactly when the plan is bound to the live authority itself. */
  lemma IdenticalMeansEqual(bound: AuthorityVector, live: AuthorityVector)
    requires bound.Valid() && live.Valid()
    ensures CompareAuthority(bound, live).Identical() <==> bound == live
  {
    hide CompareAuthority;
    forall field: AuthorityField
      ensures CompareAuthority(bound, live).Identical() ==> Agree(bound, live, field)
      ensures bound == live ==> NotReported(field, CompareAuthority(bound, live))
    {
      DeltaIsExact(bound, live, field);
    }
    var delta := CompareAuthority(bound, live);
    if delta.Identical() { Extensional(bound, live); }
    if bound == live {
      forall field: AuthorityField
        ensures field !in delta.advanced && field !in delta.regressed && field !in delta.conflicting
      {
        assert NotReported(field, delta);
      }
    }
  }

  predicate NotReported(field: AuthorityField, delta: Delta) {
    field !in delta.advanced && field !in delta.regressed && field !in delta.conflicting
  }
}
