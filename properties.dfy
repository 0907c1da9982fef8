/** What the model-graph builder guarantees, stated over the specification
    functions of `ModelGraphBuilder` and proved. */
module ModelGraphProperties {
  import opened ModelGraph
  import opened ModelGraphBuilder

  // ---------------------------------------------------------------------
  // Phase 1: one vertex per imported entity, and nothing else
  // ---------------------------------------------------------------------

  /** Phase 1 adds exactly as many vertices as entities were imported. */
  lemma {:induction false} VertexCount(types: seq<MetamodelVertex>, c: Collaborators)
    requires Identified(types, c)
    ensures |VerticesOf(types, c)| == ImportedCount(types, c)
  {
    if types != [] {
      VertexCount(types[..|types| - 1], c);
    }
  }

  /** The `j`-th entity imported for the `i`-th type becomes the vertex at
      position (entities of the earlier types) + `j`. */
  lemma {:induction false} VertexAt(types: seq<MetamodelVertex>, c: Collaborators, i: nat, j: nat)
    requires Identified(types, c)
    requires i < |types| && j < |c.importEntities(types[i])|
    ensures c.importEntities(types[i])[j] in c.importEntities(types[i])
    ensures ImportedCount(types[..i], c) + j < |VerticesOf(types, c)|
    ensures VerticesOf(types, c)[ImportedCount(types[..i], c) + j] ==
      NewVertex(types[i], c.importEntities(types[i])[j], c)
  {
    var n := |types| - 1;
    var prefix := types[..n];
    VertexCount(prefix, c);
    if i == n {
      assert types[..i] == prefix;
    } else {
      assert types[..i] == prefix[..i];
      VertexAt(prefix, c, i, j);
    }
  }

  /** Every vertex phase 1 adds comes from one imported entity. */
  lemma {:induction false} VertexOrigin(types: seq<MetamodelVertex>, c: Collaborators, p: nat)
    requires Identified(types, c) && p < |VerticesOf(types, c)|
    ensures exists i, j :: (0 <= i < |types| && 0 <= j < |c.importEntities(types[i])| &&
      p == ImportedCount(types[..i], c) + j &&
      c.importEntities(types[i])[j] in c.importEntities(types[i]) &&
      VerticesOf(types, c)[p] == NewVertex(types[i], c.importEntities(types[i])[j], c))
  {
    var n := |types| - 1;
    var prefix := types[..n];
    VertexCount(prefix, c);
    if p < |VerticesOf(prefix, c)| {
      VertexOrigin(prefix, c, p);
      var i, j :| 0 <= i < |prefix| && 0 <= j < |c.importEntities(prefix[i])| &&
        p == ImportedCount(prefix[..i], c) + j &&
        c.importEntities(prefix[i])[j] in c.importEntities(prefix[i]) &&
        VerticesOf(prefix, c)[p] == NewVertex(prefix[i], c.importEntities(prefix[i])[j], c);
      assert types[..i] == prefix[..i];
      assert VerticesOf(types, c)[p] == VerticesOf(prefix, c)[p];
    } else {
      var j := p - |VerticesOf(prefix, c)|;
      assert types[..n] == prefix;
      assert c.importEntities(types[n])[j] in c.importEntities(types[n]);
    }
  }

  /** Each imported entity has its vertex: labelled with the type name,
      carrying the entity's id, the entity, its metamodel vertex and its
      additional properties, and no `field` yet. */
  lemma EntityHasVertex(types: seq<MetamodelVertex>, c: Collaborators, t: MetamodelVertex, e: Entity)
    requires Identified(types, c) && t in types && e in c.importEntities(t)
    ensures exists v :: (v in VerticesOf(types, c) &&
      v.typeName == t.typeName && Some(v.id) == c.entityId(e, t) && v.entity == e &&
      v.metamodelVertex == t && v.properties == c.additionalProperties(t, e) && v.field == None)
  {
    var i :| 0 <= i < |types| && types[i] == t;
    var j :| 0 <= j < |c.importEntities(t)| && c.importEntities(t)[j] == e;
    VertexAt(types, c, i, j);
    var v := VerticesOf(types, c)[ImportedCount(types[..i], c) + j];
    assert v in VerticesOf(types, c);
  }

  /** Conversely, every vertex of phase 1 is the vertex of an imported
      entity of one of the types. */
  lemma VertexHasEntity(types: seq<MetamodelVertex>, c: Collaborators, v: ModelVertex)
    requires Identified(types, c) && v in VerticesOf(types, c)
    ensures v.metamodelVertex in types && v.entity in c.importEntities(v.metamodelVertex)
    ensures v.typeName == v.metamodelVertex.typeName
    ensures c.entityId(v.entity, v.metamodelVertex) == Some(v.id)
    ensures v.properties == c.additionalProperties(v.metamodelVertex, v.entity)
    ensures v.field == None
  {
    var p :| 0 <= p < |VerticesOf(types, c)| && VerticesOf(types, c)[p] == v;
    VertexOrigin(types, c, p);
  }

  /** Phase 1 does not check for duplicates: two entities of one type with
      the same id give two vertices, at two positions, that a lookup by
      (type name, id) both matches. */
  lemma DuplicateIdsKept(types: seq<MetamodelVertex>, c: Collaborators, i: nat, j1: nat, j2: nat)
    requires Identified(types, c)
    requires i < |types| && j1 < j2 < |c.importEntities(types[i])|
    requires c.entityId(c.importEntities(types[i])[j1], types[i]) ==
             c.entityId(c.importEntities(types[i])[j2], types[i])
    ensures var vs := VerticesOf(types, c);
      var p1 := ImportedCount(types[..i], c) + j1;
      var p2 := ImportedCount(types[..i], c) + j2;
      p1 < p2 < |vs| && vs[p1].typeName == vs[p2].typeName == types[i].typeName &&
      vs[p1].id == vs[p2].id
  {
    VertexAt(types, c, i, j1);
    VertexAt(types, c, i, j2);
  }

  // ---------------------------------------------------------------------
  // Phase 2, one field: from a relationship value to target vertices
  // ---------------------------------------------------------------------

  /** The number of related entities whose target id is null. */
  ghost function NullIdCount(f: FieldEdge, es: seq<Entity>, c: Collaborators): nat {
    if es == [] then 0
    else (if TargetEntityId(f, es[0], c).None? then 1 else 0) + NullIdCount(f, es[1..], c)
  }

  /** Dropping the null ids leaves one id per remaining related entity. */
  lemma {:induction false} TargetIdsCount(f: FieldEdge, es: seq<Entity>, c: Collaborators)
    ensures |TargetIds(f, es, c)| == |es| - NullIdCount(f, es, c)
    ensures NullIdCount(f, es, c) <= |es|
  {
    if es != [] {
      TargetIdsCount(f, es[1..], c);
    }
  }

  /** The lookups of one field succeed exactly when every non-null related
      id has a vertex of the target type; then there is one target per
      non-null id, in order, each the first vertex with that type and id.
      A failure names a non-null id that has no such vertex, and the
      vertices looked up before it are the first matches of the ids before
      that one. */
  lemma ResolveMembersSpec(vs: seq<ModelVertex>, f: FieldEdge, es: seq<Entity>, c: Collaborators)
    ensures var r := ResolveMembers(vs, f, es, c);
      var ids := TargetIds(f, es, c);
      (r.Resolved? ==> (|r.targets| == |ids| &&
        forall k :: 0 <= k < |ids| ==> Some(r.targets[k]) == FirstMatch(vs, f.target.typeName, ids[k]))) &&
      (r.Failed? <==> exists x :: x in ids && FirstMatch(vs, f.target.typeName, x).None?) &&
      (r.Failed? ==> (r.error.typeName == f.target.typeName && r.error.id in ids &&
        FirstMatch(vs, f.target.typeName, r.error.id).None?)) &&
      (r.Failed? ==> (|r.found| < |ids| && ids[|r.found|] == r.error.id &&
        forall k :: 0 <= k < |r.found| ==> Some(r.found[k]) == FirstMatch(vs, f.target.typeName, ids[k])))
  {
    ResolvedTargets(vs, f, es, c);
    ResolveFails(vs, f, es, c);
    ResolveFailureNamed(vs, f, es, c);
    ResolveFailedPrefix(vs, f, es, c);
  }

  /** One step of the lookups, with the non-null ids spelled out. */
  lemma ResolveStep(vs: seq<ModelVertex>, f: FieldEdge, es: seq<Entity>, c: Collaborators)
    requires es != []
    ensures var id := TargetEntityId(f, es[0], c);
      var rest := ResolveMembers(vs, f, es[1..], c);
      var r := ResolveMembers(vs, f, es, c);
      (id.None? ==> TargetIds(f, es, c) == TargetIds(f, es[1..], c) && r == rest) &&
      (id.Some? ==> (TargetIds(f, es, c) == [id.value] + TargetIds(f, es[1..], c) &&
        r == match FirstMatch(vs, f.target.typeName, id.value)
          case None => Failed([], NoSuchTargetVertex(f.target.typeName, id.value))
          case Some(t) => Prepend([t], rest)))
  {
  }

  lemma {:induction false} ResolvedTargets(vs: seq<ModelVertex>, f: FieldEdge, es: seq<Entity>, c: Collaborators)
    ensures var r := ResolveMembers(vs, f, es, c);
      var ids := TargetIds(f, es, c);
      r.Resolved? ==> (|r.targets| == |ids| &&
        forall k :: 0 <= k < |ids| ==> Some(r.targets[k]) == FirstMatch(vs, f.target.typeName, ids[k]))
  {
    if es != [] {
      ResolveStep(vs, f, es, c);
      ResolvedTargets(vs, f, es[1..], c);
      var id := TargetEntityId(f, es[0], c);
      var rest := ResolveMembers(vs, f, es[1..], c);
      if id.Some? && rest.Resolved? {
        var ids := TargetIds(f, es, c);
        var restIds := TargetIds(f, es[1..], c);
        match FirstMatch(vs, f.target.typeName, id.value)
        case None =>
        case Some(t) =>
          var ts := [t] + rest.targets;
          assert ResolveMembers(vs, f, es, c) == Resolved(ts);
          forall k | 0 <= k < |ids|
            ensures Some(ts[k]) == FirstMatch(vs, f.target.typeName, ids[k])
          {
            if k > 0 {
              assert ts[k] == rest.targets[k - 1] && ids[k] == restIds[k - 1];
            }
          }
      }
    }
  }

  lemma {:induction false} ResolveFails(vs: seq<ModelVertex>, f: FieldEdge, es: seq<Entity>, c: Collaborators)
    ensures ResolveMembers(vs, f, es, c).Failed? <==>
      exists x :: x in TargetIds(f, es, c) && FirstMatch(vs, f.target.typeName, x).None?
  {
    if es != [] {
      ResolveStep(vs, f, es, c);
      ResolveFails(vs, f, es[1..], c);
      var id := TargetEntityId(f, es[0], c);
      if id.Some? {
        var restIds := TargetIds(f, es[1..], c);
        if FirstMatch(vs, f.target.typeName, id.value).None? {
          assert id.value in [id.value] + restIds;
        } else {
          forall y | y in [id.value] + restIds && FirstMatch(vs, f.target.typeName, y).None?
            ensures y in restIds
          {
          }
        }
      }
    }
  }

  lemma {:induction false} ResolveFailureNamed(vs: seq<ModelVertex>, f: FieldEdge, es: seq<Entity>, c: Collaborators)
    ensures var r := ResolveMembers(vs, f, es, c);
      r.Failed? ==> (r.error.typeName == f.target.typeName && r.error.id in TargetIds(f, es, c) &&
        FirstMatch(vs, f.target.typeName, r.error.id).None?)
  {
    if es != [] {
      ResolveStep(vs, f, es, c);
      ResolveFailureNamed(vs, f, es[1..], c);
    }
  }

  /** A failure stops at the first id without a vertex: the vertices found
      before it are the first matches of the ids before it, in order. */
  lemma {:induction false} ResolveFailedPrefix(vs: seq<ModelVertex>, f: FieldEdge, es: seq<Entity>, c: Collaborators)
    ensures var r := ResolveMembers(vs, f, es, c);
      var ids := TargetIds(f, es, c);
      r.Failed? ==> (|r.found| < |ids| && ids[|r.found|] == r.error.id &&
        forall k :: 0 <= k < |r.found| ==> Some(r.found[k]) == FirstMatch(vs, f.target.typeName, ids[k]))
  {
    if es != [] {
      ResolveStep(vs, f, es, c);
      ResolveFailedPrefix(vs, f, es[1..], c);
      var id := TargetEntityId(f, es[0], c);
      var rest := ResolveMembers(vs, f, es[1..], c);
      if id.Some? && rest.Failed? {
        var ids := TargetIds(f, es, c);
        var restIds := TargetIds(f, es[1..], c);
        match FirstMatch(vs, f.target.typeName, id.value)
        case None =>
        case Some(t) =>
          var found := [t] + rest.found;
          assert ResolveMembers(vs, f, es, c) == Failed(found, rest.error);
          assert ids[|found|] == restIds[|rest.found|];
          forall k | 0 <= k < |found|
            ensures Some(found[k]) == FirstMatch(vs, f.target.typeName, ids[k])
          {
            if k > 0 {
              assert found[k] == rest.found[k - 1] && ids[k] == restIds[k - 1];
            }
          }
      }
    }
  }

  /** Every vertex looked up for a field, whether or not all the lookups
      succeed, has the field's target type and one of its non-null related
      ids. */
  lemma {:induction false} LookedUpMatch(vs: seq<ModelVertex>, f: FieldEdge, es: seq<Entity>, c: Collaborators)
    ensures forall t :: t in ResolveMembers(vs, f, es, c).LookedUp() ==>
      t < |vs| && vs[t].typeName == f.target.typeName && vs[t].id in TargetIds(f, es, c)
  {
    if es != [] {
      ResolveStep(vs, f, es, c);
      LookedUpMatch(vs, f, es[1..], c);
    }
  }

  /** On success, a collection of n related entities yields n minus the
      number of null ids targets; one null id costs one target only. */
  lemma RelatedVerticesCount(vs: seq<ModelVertex>, f: FieldEdge, entity: Entity, c: Collaborators)
    ensures var es := Members(c.relationshipValue(entity, f));
      var r := RelatedVertices(vs, f, entity, c);
      r.Resolved? ==> |r.targets| == |es| - NullIdCount(f, es, c)
  {
    var es := Members(c.relationshipValue(entity, f));
    ResolveMembersSpec(vs, f, es, c);
    TargetIdsCount(f, es, c);
  }

  /** A related entity that phase 1 imported under the field edge's target
      type has a non-null target id, and its lookup finds a vertex. */
  lemma ImportedTargetResolves(types: seq<MetamodelVertex>, c: Collaborators, f: FieldEdge, e: Entity)
    requires Identified(types, c) && f.target in types && e in c.importEntities(f.target)
    ensures TargetEntityId(f, e, c).Some?
    ensures FirstMatch(VerticesOf(types, c), f.target.typeName, TargetEntityId(f, e, c).value).Some?
  {
    EntityHasVertex(types, c, f.target, e);
    var v :| v in VerticesOf(types, c) && v.typeName == f.target.typeName &&
      Some(v.id) == c.entityId(e, f.target);
    var k :| 0 <= k < |VerticesOf(types, c)| && VerticesOf(types, c)[k] == v;
    assert Matches(VerticesOf(types, c)[k], f.target.typeName, TargetEntityId(f, e, c).value);
  }

  /** The three shapes of a relationship value: nothing gives no target; one
      entity gives no target when its id is null, otherwise the first vertex
      with the target type and that id, or a failure when there is none. */
  lemma RelatedVerticesByShape(vs: seq<ModelVertex>, f: FieldEdge, entity: Entity, c: Collaborators)
    ensures c.relationshipValue(entity, f).Unset? ==> RelatedVertices(vs, f, entity, c) == Resolved([])
    ensures c.relationshipValue(entity, f).Single? ==>
      var id := TargetEntityId(f, c.relationshipValue(entity, f).entity, c);
      var r := RelatedVertices(vs, f, entity, c);
      (id.None? ==> r == Resolved([])) &&
      (id.Some? ==> match FirstMatch(vs, f.target.typeName, id.value)
        case None => r == Failed([], NoSuchTargetVertex(f.target.typeName, id.value))
        case Some(t) => r == Resolved([t]))
    ensures c.relationshipValue(entity, f).Collection? ==>
      RelatedVertices(vs, f, entity, c) == ResolveMembers(vs, f, c.relationshipValue(entity, f).members, c)
  {
    var value := c.relationshipValue(entity, f);
    if value.Single? {
      var es := [value.entity];
      assert Members(value) == es && es[1..] == [];
      assert ResolveMembers(vs, f, es[1..], c) == Resolved([]);
    }
  }

  /** A related entity whose id is null is dropped without affecting the
      lookups of the others. */
  lemma {:induction false} NullIdMemberDropped(vs: seq<ModelVertex>, f: FieldEdge, es: seq<Entity>, k: nat, c: Collaborators)
    requires k < |es| && TargetEntityId(f, es[k], c).None?
    ensures ResolveMembers(vs, f, es, c) == ResolveMembers(vs, f, es[..k] + es[k + 1..], c)
  {
    var dropped := es[..k] + es[k + 1..];
    if k == 0 {
      assert dropped == es[1..];
    } else {
      assert dropped[0] == es[0];
      assert dropped[1..] == es[1..][..k - 1] + es[1..][k..];
      NullIdMemberDropped(vs, f, es[1..], k - 1, c);
    }
  }

  // ---------------------------------------------------------------------
  // Phase 2, whole graph: a reference definition of the edges
  // ---------------------------------------------------------------------

  /** The first vertex with type `typeName` for each id of `ids` that has
      one, in order. */
  ghost function FoundTargets(vs: seq<ModelVertex>, typeName: TypeName, ids: seq<EntityId>): seq<nat> {
    if ids == [] then []
    else
      (match FirstMatch(vs, typeName, ids[0]) case None => [] case Some(t) => [t]) +
      FoundTargets(vs, typeName, ids[1..])
  }

  /** The non-null target ids of field `f` of vertex `i`. */
  ghost function FieldIds(vs: seq<ModelVertex>, i: nat, f: FieldEdge, c: Collaborators): seq<EntityId>
    requires i < |vs|
  {
    TargetIds(f, Members(c.relationshipValue(vs[i].entity, f)), c)
  }

  /** The edges field `f` of vertex `i` calls for: one per non-null related
      id, to the first vertex of the target type with that id. */
  ghost function FieldEdges(vs: seq<ModelVertex>, i: nat, f: FieldEdge, c: Collaborators): seq<ModelEdge>
    requires i < |vs|
  {
    EdgesFor(i, f, FoundTargets(vs, f.target.typeName, FieldIds(vs, i, f, c)))
  }

  ghost function VertexEdgesFrom(vs: seq<ModelVertex>, i: nat, fs: seq<FieldEdge>, j: nat, c: Collaborators): seq<ModelEdge>
    requires i < |vs| && j <= |fs|
    decreases |fs| - j
  {
    if j == |fs| then [] else FieldEdges(vs, i, fs[j], c) + VertexEdgesFrom(vs, i, fs, j + 1, c)
  }

  ghost function IntendedEdgesFrom(vs: seq<ModelVertex>, i: nat, c: Collaborators): seq<ModelEdge>
    requires i <= |vs|
    decreases |vs| - i
  {
    if i == |vs| then []
    else VertexEdgesFrom(vs, i, c.outboundFieldEdges(vs[i].metamodelVertex), 0, c) + IntendedEdgesFrom(vs, i + 1, c)
  }

  /** Every edge the vertices `vs` call for, vertex by vertex and field by
      field. */
  ghost function IntendedEdges(vs: seq<ModelVertex>, c: Collaborators): seq<ModelEdge> {
    IntendedEdgesFrom(vs, 0, c)
  }

  ghost predicate FieldTargetsPresent(vs: seq<ModelVertex>, i: nat, f: FieldEdge, c: Collaborators)
    requires i < |vs|
  {
    forall x :: x in FieldIds(vs, i, f, c) ==> FirstMatch(vs, f.target.typeName, x).Some?
  }

  ghost predicate VertexTargetsPresentFrom(vs: seq<ModelVertex>, i: nat, fs: seq<FieldEdge>, j: nat, c: Collaborators)
    requires i < |vs|
  {
    forall k :: j <= k < |fs| ==> FieldTargetsPresent(vs, i, fs[k], c)
  }

  ghost predicate TargetsPresentFrom(vs: seq<ModelVertex>, i: nat, c: Collaborators) {
    forall k :: i <= k < |vs| ==> VertexTargetsPresentFrom(vs, k, c.outboundFieldEdges(vs[k].metamodelVertex), 0, c)
  }

  /** Every non-null related id of every vertex has a vertex of the field's
      target type. */
  ghost predicate AllTargetsPresent(vs: seq<ModelVertex>, c: Collaborators) {
    TargetsPresentFrom(vs, 0, c)
  }

  /** `e` runs from a vertex, along one of its type's outbound field edges,
      to a vertex of the field's target type whose id is a non-null related
      id of that field. */
  ghost predicate EdgeOfField(vs: seq<ModelVertex>, c: Collaborators, e: ModelEdge) {
    e.source < |vs| &&
    exists f :: f in c.outboundFieldEdges(vs[e.source].metamodelVertex) && EdgeAlong(vs, c, e, f)
  }

  /** `e` carries the name and metamodel field of `f` and runs to a vertex
      of `f`'s target type whose id is a non-null related id of `f` for
      the source vertex. */
  ghost predicate EdgeAlong(vs: seq<ModelVertex>, c: Collaborators, e: ModelEdge, f: FieldEdge) {
    e.source < |vs| && e.target < |vs| &&
    e.fieldName == f.fieldName && e.field == f.metamodelField &&
    vs[e.target].typeName == f.target.typeName &&
    vs[e.target].id in FieldIds(vs, e.source, f, c)
  }

  /** The error names a non-null related id of some vertex and field that
      no vertex of the field's target type carries. */
  ghost predicate DanglingReference(vs: seq<ModelVertex>, c: Collaborators, error: BuildError) {
    FirstMatch(vs, error.typeName, error.id).None? &&
    exists k, f :: 0 <= k < |vs| && f in c.outboundFieldEdges(vs[k].metamodelVertex) &&
      f.target.typeName == error.typeName && error.id in FieldIds(vs, k, f, c)
  }

  // Helper facts: marks do not matter to the reference definitions.

  lemma {:induction false} FoundTargetsIgnoreField(vs: seq<ModelVertex>, ws: seq<ModelVertex>, typeName: TypeName, ids: seq<EntityId>)
    requires SameButField(vs, ws)
    ensures FoundTargets(vs, typeName, ids) == FoundTargets(ws, typeName, ids)
  {
    if ids != [] {
      FirstMatchIgnoresField(vs, ws, typeName, ids[0]);
      FoundTargetsIgnoreField(vs, ws, typeName, ids[1..]);
    }
  }

  lemma {:induction false} VertexEdgesIgnoreField(vs: seq<ModelVertex>, ws: seq<ModelVertex>, i: nat, fs: seq<FieldEdge>, j: nat, c: Collaborators)
    requires SameButField(vs, ws) && i < |vs| && j <= |fs|
    ensures VertexEdgesFrom(vs, i, fs, j, c) == VertexEdgesFrom(ws, i, fs, j, c)
    decreases |fs| - j
  {
    if j < |fs| {
      SameButFieldAt(vs, ws, i);
      FoundTargetsIgnoreField(vs, ws, fs[j].target.typeName, FieldIds(vs, i, fs[j], c));
      VertexEdgesIgnoreField(vs, ws, i, fs, j + 1, c);
    }
  }

  lemma {:induction false} IntendedEdgesIgnoreField(vs: seq<ModelVertex>, ws: seq<ModelVertex>, i: nat, c: Collaborators)
    requires SameButField(vs, ws) && i <= |vs|
    ensures IntendedEdgesFrom(vs, i, c) == IntendedEdgesFrom(ws, i, c)
    decreases |vs| - i
  {
    if i < |vs| {
      SameButFieldAt(vs, ws, i);
      VertexEdgesIgnoreField(vs, ws, i, c.outboundFieldEdges(vs[i].metamodelVertex), 0, c);
      IntendedEdgesIgnoreField(vs, ws, i + 1, c);
    }
  }

  lemma VertexTargetsPresentIgnoreField(vs: seq<ModelVertex>, ws: seq<ModelVertex>, i: nat, fs: seq<FieldEdge>, j: nat, c: Collaborators)
    requires SameButField(vs, ws) && i < |vs|
    ensures VertexTargetsPresentFrom(vs, i, fs, j, c) == VertexTargetsPresentFrom(ws, i, fs, j, c)
  {
    SameButFieldAt(vs, ws, i);
    forall k, x | j <= k < |fs| && x in FieldIds(vs, i, fs[k], c) {
      FirstMatchIgnoresField(vs, ws, fs[k].target.typeName, x);
    }
  }

  lemma TargetsPresentIgnoreField(vs: seq<ModelVertex>, ws: seq<ModelVertex>, i: nat, c: Collaborators)
    requires SameButField(vs, ws)
    ensures TargetsPresentFrom(vs, i, c) == TargetsPresentFrom(ws, i, c)
  {
    forall k | i <= k < |vs|
      ensures VertexTargetsPresentFrom(vs, k, c.outboundFieldEdges(vs[k].metamodelVertex), 0, c) ==
        VertexTargetsPresentFrom(ws, k, c.outboundFieldEdges(ws[k].metamodelVertex), 0, c)
    {
      SameButFieldAt(vs, ws, k);
      VertexTargetsPresentIgnoreField(vs, ws, k, c.outboundFieldEdges(vs[k].metamodelVertex), 0, c);
    }
  }

  lemma MarkTargetsAppend(vs: seq<ModelVertex>, a: seq<ModelEdge>, b: seq<ModelEdge>)
    ensures MarkTargets(MarkTargets(vs, a), b) == MarkTargets(vs, a + b)
  {
    MarkPrefixAppend(vs, a, b, |b|);
  }

  lemma {:induction false} MarkPrefixAppend(vs: seq<ModelVertex>, a: seq<ModelEdge>, b: seq<ModelEdge>, n: nat)
    requires n <= |b|
    ensures MarkPrefix(MarkTargets(vs, a), b, n) == MarkPrefix(vs, a + b, |a| + n)
  {
    if n == 0 {
      MarkPrefixAgree(vs, a, a + b, |a|);
    } else {
      MarkPrefixAppend(vs, a, b, n - 1);
      assert (a + b)[|a| + n - 1] == b[n - 1];
    }
  }

  /** After marking the targets of `es`, a vertex that no edge of `es`
      targets keeps its `field` property, and any other vertex carries the
      label of the last edge of `es` into it. */
  lemma MarkTargetsField(vs: seq<ModelVertex>, es: seq<ModelEdge>, k: nat)
    requires k < |vs|
    ensures (forall e :: e in es ==> e.target != k) ==> MarkTargets(vs, es)[k].field == vs[k].field
    ensures forall n :: (0 <= n < |es| && es[n].target == k &&
      (forall m :: n < m < |es| ==> es[m].target != k)) ==> MarkTargets(vs, es)[k].field == Some(es[n].fieldName)
  {
    MarkPrefixUntouched(vs, es, |es|, k);
    forall n | 0 <= n < |es| && es[n].target == k && (forall m :: n < m < |es| ==> es[m].target != k)
      ensures MarkTargets(vs, es)[k].field == Some(es[n].fieldName)
    {
      MarkPrefixLast(vs, es, |es|, k, n);
    }
  }

  /** A vertex that none of the first `n` edges targets keeps its `field`. */
  lemma {:induction false} MarkPrefixUntouched(vs: seq<ModelVertex>, es: seq<ModelEdge>, n: nat, k: nat)
    requires n <= |es| && k < |vs|
    ensures (forall j :: 0 <= j < n ==> es[j].target != k) ==> MarkPrefix(vs, es, n)[k].field == vs[k].field
  {
    if n > 0 {
      MarkPrefixUntouched(vs, es, n - 1, k);
    }
  }

  /** A vertex last targeted, among the first `n` edges, by edge `l`
      carries the label of `l`. */
  lemma {:induction false} MarkPrefixLast(vs: seq<ModelVertex>, es: seq<ModelEdge>, n: nat, k: nat, l: nat)
    requires l < n <= |es| && k < |vs| && es[l].target == k
    requires forall m :: l < m < n ==> es[m].target != k
    ensures MarkPrefix(vs, es, n)[k].field == Some(es[l].fieldName)
  {
    if l < n - 1 {
      MarkPrefixLast(vs, es, n - 1, k, l);
    }
  }

  /** On success, the targets of a field are the found targets of its
      non-null ids. */
  lemma {:induction false} ResolvedIsFoundTargets(vs: seq<ModelVertex>, f: FieldEdge, es: seq<Entity>, c: Collaborators)
    ensures ResolveMembers(vs, f, es, c).Resolved? ==>
      ResolveMembers(vs, f, es, c).targets == FoundTargets(vs, f.target.typeName, TargetIds(f, es, c))
  {
    if es != [] {
      ResolvedIsFoundTargets(vs, f, es[1..], c);
    }
  }

  /** A field's lookups succeed exactly when its targets are present, and
      then they produce the field's edges of the reference definition. */
  lemma FieldOutcome(vs: seq<ModelVertex>, i: nat, f: FieldEdge, c: Collaborators)
    requires i < |vs|
    ensures var r := RelatedVertices(vs, f, vs[i].entity, c);
      (r.Resolved? <==> FieldTargetsPresent(vs, i, f, c)) &&
      (r.Resolved? ==> EdgesFor(i, f, r.targets) == FieldEdges(vs, i, f, c))
  {
    var members := Members(c.relationshipValue(vs[i].entity, f));
    ResolveMembersSpec(vs, f, members, c);
    ResolvedIsFoundTargets(vs, f, members, c);
  }

  lemma VertexTargetsPresentStep(vs: seq<ModelVertex>, i: nat, fs: seq<FieldEdge>, j: nat, c: Collaborators)
    requires i < |vs| && j < |fs|
    ensures VertexTargetsPresentFrom(vs, i, fs, j, c) <==>
      FieldTargetsPresent(vs, i, fs[j], c) && VertexTargetsPresentFrom(vs, i, fs, j + 1, c)
  {
  }

  lemma TargetsPresentStep(vs: seq<ModelVertex>, i: nat, c: Collaborators)
    requires i < |vs|
    ensures TargetsPresentFrom(vs, i, c) <==>
      VertexTargetsPresentFrom(vs, i, c.outboundFieldEdges(vs[i].metamodelVertex), 0, c) &&
      TargetsPresentFrom(vs, i + 1, c)
  {
  }

  /** Appending `now` and then `later` appends their concatenation. */
  lemma AppendTwice<T>(e0: seq<T>, now: seq<T>, e1: seq<T>, later: seq<T>, e2: seq<T>)
    requires e1 == e0 + now && e2 == e1 + later
    ensures e2 == e0 + (now + later)
  {
  }

  /** Marking `now` and then `later` marks their concatenation. */
  lemma MarkTwice(vs: seq<ModelVertex>, now: seq<ModelEdge>, ws: seq<ModelVertex>, later: seq<ModelEdge>, us: seq<ModelVertex>)
    requires ws == MarkTargets(vs, now) && us == MarkTargets(ws, later)
    ensures us == MarkTargets(vs, now + later)
  {
    MarkTargetsAppend(vs, now, later);
  }

  /** One step of edge creation over the fields: when the targets of
      field `fs[j]` are all found, its edges are added and their targets
      marked before the next field. */
  lemma FieldsStep(g: Graph, i: nat, fs: seq<FieldEdge>, j: nat, c: Collaborators)
    requires i < |g.vertices| && j < |fs|
    ensures var vs := g.vertices;
      var now := FieldEdges(vs, i, fs[j], c);
      var r := EdgesFromFields(g, i, fs, j, c);
      if RelatedVertices(vs, fs[j], vs[i].entity, c).Resolved?
      then r == EdgesFromFields(Graph(MarkTargets(vs, now), g.edges + now), i, fs, j + 1, c)
      else r.Aborted?
  {
    FieldOutcome(g.vertices, i, fs[j], c);
  }

  /** One step of the reference definition over the fields. */
  lemma VertexEdgesStep(vs: seq<ModelVertex>, i: nat, fs: seq<FieldEdge>, j: nat, c: Collaborators)
    requires i < |vs| && j < |fs|
    ensures VertexEdgesFrom(vs, i, fs, j, c) == FieldEdges(vs, i, fs[j], c) + VertexEdgesFrom(vs, i, fs, j + 1, c)
  {
  }

  /** Edge creation for the fields `fs[j..]` of vertex `i` succeeds exactly
      when every non-null related id has a target vertex. */
  lemma {:induction false} FieldsSucceed(g: Graph, i: nat, fs: seq<FieldEdge>, j: nat, c: Collaborators)
    requires i < |g.vertices| && j <= |fs|
    ensures EdgesFromFields(g, i, fs, j, c).Built? <==> VertexTargetsPresentFrom(g.vertices, i, fs, j, c)
    decreases |fs| - j
  {
    if j < |fs| {
      var vs := g.vertices;
      FieldOutcome(vs, i, fs[j], c);
      FieldsStep(g, i, fs, j, c);
      VertexTargetsPresentStep(vs, i, fs, j, c);
      if RelatedVertices(vs, fs[j], vs[i].entity, c).Resolved? {
        var now := FieldEdges(vs, i, fs[j], c);
        var g' := Graph(MarkTargets(vs, now), g.edges + now);
        FieldsSucceed(g', i, fs, j + 1, c);
        VertexTargetsPresentIgnoreField(vs, g'.vertices, i, fs, j + 1, c);
      }
    }
  }

  /** One step of edge creation over the fields, with the edges of field
      `fs[j]` read off vertices `ws` that differ from the current ones only
      in their marks. */
  lemma FieldsStepFrom(g: Graph, ws: seq<ModelVertex>, i: nat, fs: seq<FieldEdge>, j: nat, c: Collaborators)
    requires SameButField(ws, g.vertices) && i < |ws| && j < |fs|
    ensures var now := FieldEdges(ws, i, fs[j], c);
      var r := EdgesFromFields(g, i, fs, j, c);
      r.Built? ==> r == EdgesFromFields(Graph(MarkTargets(g.vertices, now), g.edges + now), i, fs, j + 1, c)
  {
    FieldsStep(g, i, fs, j, c);
    SameButFieldAt(ws, g.vertices, i);
    FoundTargetsIgnoreField(ws, g.vertices, fs[j].target.typeName, FieldIds(ws, i, fs[j], c));
  }

  /** Edge creation for the fields `fs[j..]` of vertex `i`, when it
      succeeds, appends the edges of the reference definition read off
      `ws`. */
  ghost predicate FieldsAppendIntended(g: Graph, ws: seq<ModelVertex>, i: nat, fs: seq<FieldEdge>, j: nat, c: Collaborators)
    requires i < |g.vertices| && i < |ws| && j <= |fs|
  {
    var r := EdgesFromFields(g, i, fs, j, c);
    r.Built? ==> r.graph.edges == g.edges + VertexEdgesFrom(ws, i, fs, j, c)
  }

  /** When edge creation for the fields `fs[j..]` of vertex `i` succeeds,
      it appends exactly the edges of the reference definition, read off
      vertices `ws` that differ from the current ones only in their marks. */
  lemma {:induction false} FieldsEdges(g: Graph, ws: seq<ModelVertex>, i: nat, fs: seq<FieldEdge>, j: nat, c: Collaborators)
    requires SameButField(ws, g.vertices) && i < |ws| && j <= |fs|
    ensures FieldsAppendIntended(g, ws, i, fs, j, c)
    decreases |fs| - j
  {
    if j == |fs| {
      assert g.edges + [] == g.edges;
    } else {
      var now := FieldEdges(ws, i, fs[j], c);
      var g' := Graph(MarkTargets(g.vertices, now), g.edges + now);
      SameButFieldThen(ws, g.vertices, g'.vertices);
      FieldsEdges(g', ws, i, fs, j + 1, c);
      FieldsEdgesStep(g, ws, i, fs, j, c);
    }
  }

  /** One step of `FieldsEdges`: its claim for the fields after `j` gives
      its claim for `j`. */
  lemma FieldsEdgesStep(g: Graph, ws: seq<ModelVertex>, i: nat, fs: seq<FieldEdge>, j: nat, c: Collaborators)
    requires SameButField(ws, g.vertices) && i < |ws| && j < |fs|
    ensures var now := FieldEdges(ws, i, fs[j], c);
      FieldsAppendIntended(Graph(MarkTargets(g.vertices, now), g.edges + now), ws, i, fs, j + 1, c) ==>
      FieldsAppendIntended(g, ws, i, fs, j, c)
  {
    var now := FieldEdges(ws, i, fs[j], c);
    var g' := Graph(MarkTargets(g.vertices, now), g.edges + now);
    if FieldsAppendIntended(g', ws, i, fs, j + 1, c) && EdgesFromFields(g, i, fs, j, c).Built? {
      FieldsStepFrom(g, ws, i, fs, j, c);
      VertexEdgesStep(ws, i, fs, j, c);
      var later := VertexEdgesFrom(ws, i, fs, j + 1, c);
      AppendTwice(g.edges, now, g'.edges, later, EdgesFromFields(g', i, fs, j + 1, c).graph.edges);
      assert EdgesFromFields(g, i, fs, j, c) == EdgesFromFields(g', i, fs, j + 1, c);
      assert EdgesFromFields(g, i, fs, j, c).graph.edges == g.edges + (now + later);
    }
  }

  /** Edge creation for the fields `fs[j..]` of vertex `i`, when it
      succeeds, marks the targets of the edges of the reference definition
      read off `ws`. */
  ghost predicate FieldsMarkIntended(g: Graph, ws: seq<ModelVertex>, i: nat, fs: seq<FieldEdge>, j: nat, c: Collaborators)
    requires i < |g.vertices| && i < |ws| && j <= |fs|
  {
    var r := EdgesFromFields(g, i, fs, j, c);
    r.Built? ==> r.graph.vertices == MarkTargets(g.vertices, VertexEdgesFrom(ws, i, fs, j, c))
  }

  /** When edge creation for the fields `fs[j..]` of vertex `i` succeeds,
      it marks the targets of exactly the edges of the reference
      definition, read off vertices `ws` that differ from the current ones
      only in their marks. */
  lemma {:induction false} FieldsVertices(g: Graph, ws: seq<ModelVertex>, i: nat, fs: seq<FieldEdge>, j: nat, c: Collaborators)
    requires SameButField(ws, g.vertices) && i < |ws| && j <= |fs|
    ensures FieldsMarkIntended(g, ws, i, fs, j, c)
    decreases |fs| - j
  {
    if j < |fs| {
      var now := FieldEdges(ws, i, fs[j], c);
      var g' := Graph(MarkTargets(g.vertices, now), g.edges + now);
      SameButFieldThen(ws, g.vertices, g'.vertices);
      FieldsVertices(g', ws, i, fs, j + 1, c);
      FieldsVerticesStep(g, ws, i, fs, j, c);
    }
  }

  /** One step of `FieldsVertices`: its claim for the fields after `j`
      gives its claim for `j`. */
  lemma FieldsVerticesStep(g: Graph, ws: seq<ModelVertex>, i: nat, fs: seq<FieldEdge>, j: nat, c: Collaborators)
    requires SameButField(ws, g.vertices) && i < |ws| && j < |fs|
    ensures var now := FieldEdges(ws, i, fs[j], c);
      FieldsMarkIntended(Graph(MarkTargets(g.vertices, now), g.edges + now), ws, i, fs, j + 1, c) ==>
      FieldsMarkIntended(g, ws, i, fs, j, c)
  {
    var now := FieldEdges(ws, i, fs[j], c);
    var g' := Graph(MarkTargets(g.vertices, now), g.edges + now);
    if FieldsMarkIntended(g', ws, i, fs, j + 1, c) && EdgesFromFields(g, i, fs, j, c).Built? {
      FieldsStepFrom(g, ws, i, fs, j, c);
      VertexEdgesStep(ws, i, fs, j, c);
      var later := VertexEdgesFrom(ws, i, fs, j + 1, c);
      MarkTwice(g.vertices, now, g'.vertices, later, EdgesFromFields(g', i, fs, j + 1, c).graph.vertices);
      assert EdgesFromFields(g, i, fs, j, c) == EdgesFromFields(g', i, fs, j + 1, c);
      assert EdgesFromFields(g, i, fs, j, c).graph.vertices == MarkTargets(g.vertices, now + later);
    }
  }

  /** When edge creation for the fields `fs[j..]` of vertex `i` succeeds,
      it adds the edges of the reference definition and marks their
      targets. */
  lemma FieldsGraph(g: Graph, i: nat, fs: seq<FieldEdge>, j: nat, c: Collaborators)
    requires i < |g.vertices| && j <= |fs|
    ensures var r := EdgesFromFields(g, i, fs, j, c);
      var es := VertexEdgesFrom(g.vertices, i, fs, j, c);
      r.Built? ==> r.graph == Graph(MarkTargets(g.vertices, es), g.edges + es)
  {
    FieldsEdges(g, g.vertices, i, fs, j, c);
    FieldsVertices(g, g.vertices, i, fs, j, c);
  }

  /** Edge creation for the fields `fs[j..]` of vertex `i` succeeds exactly
      when every non-null related id has a target vertex, and then adds the
      edges of the reference definition and marks their targets. */
  lemma FieldsResult(g: Graph, i: nat, fs: seq<FieldEdge>, j: nat, c: Collaborators)
    requires i < |g.vertices| && j <= |fs|
    ensures var r := EdgesFromFields(g, i, fs, j, c);
      var es := VertexEdgesFrom(g.vertices, i, fs, j, c);
      (r.Built? <==> VertexTargetsPresentFrom(g.vertices, i, fs, j, c)) &&
      (r.Built? ==> r.graph == Graph(MarkTargets(g.vertices, es), g.edges + es))
  {
    FieldsSucceed(g, i, fs, j, c);
    FieldsGraph(g, i, fs, j, c);
  }

  /** One step of edge creation over the vertex list: the fields of
      vertex `i`, then the vertices after it unless that step aborted. */
  lemma EdgesFromStep(g: Graph, i: nat, c: Collaborators)
    requires i < |g.vertices|
    ensures var r := EdgesFromFields(g, i, c.outboundFieldEdges(g.vertices[i].metamodelVertex), 0, c);
      EdgesFrom(g, i, c) == if r.Built? then EdgesFrom(r.graph, i + 1, c) else r
  {
  }

  /** Edge creation for the vertices from `i` on succeeds exactly when
      every non-null related id has a target vertex. */
  ghost predicate SucceedsIffPresent(g: Graph, i: nat, c: Collaborators)
    requires i <= |g.vertices|
  {
    EdgesFrom(g, i, c).Built? <==> TargetsPresentFrom(g.vertices, i, c)
  }

  lemma {:induction false} EdgePhaseSucceeds(g: Graph, i: nat, c: Collaborators)
    requires i <= |g.vertices|
    ensures SucceedsIffPresent(g, i, c)
    decreases |g.vertices| - i
  {
    if i < |g.vertices| {
      var r := EdgesFromFields(g, i, c.outboundFieldEdges(g.vertices[i].metamodelVertex), 0, c);
      EdgePhaseSucceeds(r.graph, i + 1, c);
      EdgePhaseSucceedsStep(g, i, c);
    }
  }

  /** One step of `EdgePhaseSucceeds`: its claim for the vertices after `i`
      gives its claim for `i`. */
  lemma EdgePhaseSucceedsStep(g: Graph, i: nat, c: Collaborators)
    requires i < |g.vertices|
    ensures var r := EdgesFromFields(g, i, c.outboundFieldEdges(g.vertices[i].metamodelVertex), 0, c);
      SucceedsIffPresent(r.graph, i + 1, c) ==> SucceedsIffPresent(g, i, c)
  {
    var vs := g.vertices;
    var fs := c.outboundFieldEdges(vs[i].metamodelVertex);
    var r := EdgesFromFields(g, i, fs, 0, c);
    if SucceedsIffPresent(r.graph, i + 1, c) {
      FieldsSucceed(g, i, fs, 0, c);
      TargetsPresentStep(vs, i, c);
      EdgesFromStep(g, i, c);
      if r.Built? {
        TargetsPresentIgnoreField(vs, r.graph.vertices, i + 1, c);
      }
    }
  }

  /** One step of the reference definition: the edges of vertex `i`, then
      those of the vertices after it. */
  lemma IntendedEdgesStep(vs: seq<ModelVertex>, i: nat, c: Collaborators)
    requires i < |vs|
    ensures IntendedEdgesFrom(vs, i, c) ==
      VertexEdgesFrom(vs, i, c.outboundFieldEdges(vs[i].metamodelVertex), 0, c) + IntendedEdgesFrom(vs, i + 1, c)
  {
  }

  /** Edge creation for the vertices from `i` on, when it succeeds, appends
      the edges of the reference definition read off `ws`. */
  ghost predicate AppendsIntendedEdges(g: Graph, ws: seq<ModelVertex>, i: nat, c: Collaborators)
    requires i <= |g.vertices| && i <= |ws|
  {
    EdgesFrom(g, i, c).Built? ==> EdgesFrom(g, i, c).graph.edges == g.edges + IntendedEdgesFrom(ws, i, c)
  }

  /** When edge creation for the vertices from `i` on succeeds, it appends
      exactly the edges of the reference definition, read off vertices
      `ws` that differ from the current ones only in their marks. */
  lemma {:induction false} EdgePhaseEdges(g: Graph, ws: seq<ModelVertex>, i: nat, c: Collaborators)
    requires SameButField(ws, g.vertices) && i <= |ws|
    ensures AppendsIntendedEdges(g, ws, i, c)
    decreases |ws| - i
  {
    if i == |ws| {
      assert g.edges + [] == g.edges;
    } else {
      var r := EdgesFromFields(g, i, c.outboundFieldEdges(g.vertices[i].metamodelVertex), 0, c);
      SameButFieldThen(ws, g.vertices, r.graph.vertices);
      EdgePhaseEdges(r.graph, ws, i + 1, c);
      EdgePhaseEdgesStep(g, ws, i, c);
    }
  }

  /** One step of `EdgePhaseEdges`: its claim for the vertices after `i`
      gives its claim for `i`. */
  lemma EdgePhaseEdgesStep(g: Graph, ws: seq<ModelVertex>, i: nat, c: Collaborators)
    requires SameButField(ws, g.vertices) && i < |ws|
    ensures var r := EdgesFromFields(g, i, c.outboundFieldEdges(g.vertices[i].metamodelVertex), 0, c);
      AppendsIntendedEdges(r.graph, ws, i + 1, c) ==> AppendsIntendedEdges(g, ws, i, c)
  {
    var r := EdgesFromFields(g, i, c.outboundFieldEdges(g.vertices[i].metamodelVertex), 0, c);
    if AppendsIntendedEdges(r.graph, ws, i + 1, c) && EdgesFrom(g, i, c).Built? {
      SameButFieldAt(ws, g.vertices, i);
      var fs := c.outboundFieldEdges(ws[i].metamodelVertex);
      EdgesFromStep(g, i, c);
      FieldsEdges(g, ws, i, fs, 0, c);
      IntendedEdgesStep(ws, i, c);
      var now := VertexEdgesFrom(ws, i, fs, 0, c);
      var later := IntendedEdgesFrom(ws, i + 1, c);
      AppendTwice(g.edges, now, r.graph.edges, later, EdgesFrom(r.graph, i + 1, c).graph.edges);
      assert EdgesFrom(g, i, c) == EdgesFrom(r.graph, i + 1, c);
      assert EdgesFrom(g, i, c).graph.edges == g.edges + (now + later);
    }
  }

  /** Edge creation for the vertices from `i` on, when it succeeds, marks
      the targets of the edges of the reference definition read off `ws`. */
  ghost predicate MarksIntendedTargets(g: Graph, ws: seq<ModelVertex>, i: nat, c: Collaborators)
    requires i <= |g.vertices| && i <= |ws|
  {
    EdgesFrom(g, i, c).Built? ==>
      EdgesFrom(g, i, c).graph.vertices == MarkTargets(g.vertices, IntendedEdgesFrom(ws, i, c))
  }

  /** When edge creation for the vertices from `i` on succeeds, it marks
      the targets of exactly the edges of the reference definition, read
      off vertices `ws` that differ from the current ones only in their
      marks. */
  lemma {:induction false} EdgePhaseVertices(g: Graph, ws: seq<ModelVertex>, i: nat, c: Collaborators)
    requires SameButField(ws, g.vertices) && i <= |ws|
    ensures MarksIntendedTargets(g, ws, i, c)
    decreases |ws| - i
  {
    if i < |ws| {
      var r := EdgesFromFields(g, i, c.outboundFieldEdges(g.vertices[i].metamodelVertex), 0, c);
      SameButFieldThen(ws, g.vertices, r.graph.vertices);
      EdgePhaseVertices(r.graph, ws, i + 1, c);
      EdgePhaseVerticesStep(g, ws, i, c);
    }
  }

  /** One step of `EdgePhaseVertices`: its claim for the vertices after `i`
      gives its claim for `i`. */
  lemma EdgePhaseVerticesStep(g: Graph, ws: seq<ModelVertex>, i: nat, c: Collaborators)
    requires SameButField(ws, g.vertices) && i < |ws|
    ensures var r := EdgesFromFields(g, i, c.outboundFieldEdges(g.vertices[i].metamodelVertex), 0, c);
      MarksIntendedTargets(r.graph, ws, i + 1, c) ==> MarksIntendedTargets(g, ws, i, c)
  {
    var r := EdgesFromFields(g, i, c.outboundFieldEdges(g.vertices[i].metamodelVertex), 0, c);
    if MarksIntendedTargets(r.graph, ws, i + 1, c) && EdgesFrom(g, i, c).Built? {
      SameButFieldAt(ws, g.vertices, i);
      var fs := c.outboundFieldEdges(ws[i].metamodelVertex);
      EdgesFromStep(g, i, c);
      FieldsVertices(g, ws, i, fs, 0, c);
      IntendedEdgesStep(ws, i, c);
      var now := VertexEdgesFrom(ws, i, fs, 0, c);
      var later := IntendedEdgesFrom(ws, i + 1, c);
      MarkTwice(g.vertices, now, r.graph.vertices, later, EdgesFrom(r.graph, i + 1, c).graph.vertices);
      assert EdgesFrom(g, i, c) == EdgesFrom(r.graph, i + 1, c);
      assert EdgesFrom(g, i, c).graph.vertices == MarkTargets(g.vertices, now + later);
    }
  }

  /** When edge creation for the vertices from `i` on succeeds, it adds the
      edges of the reference definition and marks their targets. */
  lemma EdgePhaseGraph(g: Graph, i: nat, c: Collaborators)
    requires i <= |g.vertices|
    ensures var r := EdgesFrom(g, i, c);
      var es := IntendedEdgesFrom(g.vertices, i, c);
      r.Built? ==> r.graph == Graph(MarkTargets(g.vertices, es), g.edges + es)
  {
    EdgePhaseEdges(g, g.vertices, i, c);
    EdgePhaseVertices(g, g.vertices, i, c);
  }

  /** Edge creation for the vertices from `i` on succeeds exactly when
      every non-null related id has a target vertex, and then adds the
      edges of the reference definition and marks their targets. */
  lemma EdgePhaseResult(g: Graph, i: nat, c: Collaborators)
    requires i <= |g.vertices|
    ensures var r := EdgesFrom(g, i, c);
      var es := IntendedEdgesFrom(g.vertices, i, c);
      (r.Built? <==> TargetsPresentFrom(g.vertices, i, c)) &&
      (r.Built? ==> r.graph == Graph(MarkTargets(g.vertices, es), g.edges + es))
  {
    EdgePhaseSucceeds(g, i, c);
    EdgePhaseGraph(g, i, c);
  }

  /** An abort in the fields `fs[j..]` of vertex `i` names a non-null
      related id of one of them that has no target vertex. */
  lemma {:induction false} FieldsAbortCause(g: Graph, i: nat, fs: seq<FieldEdge>, j: nat, c: Collaborators)
    requires i < |g.vertices| && j <= |fs|
    ensures var r := EdgesFromFields(g, i, fs, j, c);
      r.Aborted? ==>
        FirstMatch(g.vertices, r.error.typeName, r.error.id).None? &&
        exists k :: j <= k < |fs| && fs[k].target.typeName == r.error.typeName &&
          r.error.id in FieldIds(g.vertices, i, fs[k], c)
    decreases |fs| - j
  {
    if j < |fs| {
      var vs := g.vertices;
      var f := fs[j];
      var members := Members(c.relationshipValue(vs[i].entity, f));
      ResolveMembersSpec(vs, f, members, c);
      match ResolveMembers(vs, f, members, c)
      case Resolved(ts) =>
        var now := EdgesFor(i, f, ts);
        var g' := Graph(MarkTargets(vs, now), g.edges + now);
        FieldsAbortCause(g', i, fs, j + 1, c);
        var r := EdgesFromFields(g', i, fs, j + 1, c);
        if r.Aborted? {
          FirstMatchIgnoresField(vs, g'.vertices, r.error.typeName, r.error.id);
          SameButFieldAt(vs, g'.vertices, i);
          var k :| j + 1 <= k < |fs| && fs[k].target.typeName == r.error.typeName &&
            r.error.id in FieldIds(g'.vertices, i, fs[k], c);
          assert r.error.id in FieldIds(vs, i, fs[k], c);
        }
      case Failed(_, _) =>
    }
  }

  /** Marks do not change which references dangle. */
  lemma DanglingReferenceIgnoresField(vs: seq<ModelVertex>, ws: seq<ModelVertex>, c: Collaborators, error: BuildError)
    requires SameButField(vs, ws)
    ensures DanglingReference(ws, c, error) ==> DanglingReference(vs, c, error)
  {
    if DanglingReference(ws, c, error) {
      FirstMatchIgnoresField(vs, ws, error.typeName, error.id);
      var k, f :| 0 <= k < |ws| && f in c.outboundFieldEdges(ws[k].metamodelVertex) &&
        f.target.typeName == error.typeName && error.id in FieldIds(ws, k, f, c);
      SameButFieldAt(ws, vs, k);
      assert f in c.outboundFieldEdges(vs[k].metamodelVertex);
      assert error.id in FieldIds(vs, k, f, c);
    }
  }

  /** An abort while creating the edges of vertex `i` names a dangling
      reference. */
  lemma VertexAbortDangles(g: Graph, i: nat, c: Collaborators)
    requires i < |g.vertices|
    ensures var r := EdgesFromFields(g, i, c.outboundFieldEdges(g.vertices[i].metamodelVertex), 0, c);
      r.Aborted? ==> DanglingReference(g.vertices, c, r.error)
  {
    var fs := c.outboundFieldEdges(g.vertices[i].metamodelVertex);
    var r := EdgesFromFields(g, i, fs, 0, c);
    FieldsAbortCause(g, i, fs, 0, c);
    if r.Aborted? {
      var l :| 0 <= l < |fs| && fs[l].target.typeName == r.error.typeName &&
        r.error.id in FieldIds(g.vertices, i, fs[l], c);
      assert fs[l] in fs;
    }
  }

  /** An abort of edge creation for the vertices from `i` on names a
      dangling reference: a non-null related id of some vertex and field
      with no vertex of the target type. */
  ghost predicate AbortDangles(g: Graph, i: nat, c: Collaborators)
    requires i <= |g.vertices|
  {
    EdgesFrom(g, i, c).Aborted? ==> DanglingReference(g.vertices, c, EdgesFrom(g, i, c).error)
  }

  lemma {:induction false} AbortCause(g: Graph, i: nat, c: Collaborators)
    requires i <= |g.vertices|
    ensures AbortDangles(g, i, c)
    decreases |g.vertices| - i
  {
    if i < |g.vertices| {
      var r := EdgesFromFields(g, i, c.outboundFieldEdges(g.vertices[i].metamodelVertex), 0, c);
      AbortCause(r.graph, i + 1, c);
      AbortCauseStep(g, i, c);
    }
  }

  /** One step of `AbortCause`: its claim for the vertices after `i` gives
      its claim for `i`. */
  lemma AbortCauseStep(g: Graph, i: nat, c: Collaborators)
    requires i < |g.vertices|
    ensures var r := EdgesFromFields(g, i, c.outboundFieldEdges(g.vertices[i].metamodelVertex), 0, c);
      AbortDangles(r.graph, i + 1, c) ==> AbortDangles(g, i, c)
  {
    var r := EdgesFromFields(g, i, c.outboundFieldEdges(g.vertices[i].metamodelVertex), 0, c);
    if AbortDangles(r.graph, i + 1, c) {
      VertexAbortDangles(g, i, c);
      EdgesFromStep(g, i, c);
      if r.Built? {
        var rest := EdgesFrom(r.graph, i + 1, c);
        if rest.Aborted? {
          DanglingReferenceIgnoresField(g.vertices, r.graph.vertices, c, rest.error);
        }
      }
    }
  }

  /** The found targets are vertices of the given type with one of the
      given ids. */
  lemma {:induction false} FoundTargetsMatch(vs: seq<ModelVertex>, typeName: TypeName, ids: seq<EntityId>)
    ensures forall t :: t in FoundTargets(vs, typeName, ids) ==>
      t < |vs| && vs[t].typeName == typeName && vs[t].id in ids
  {
    if ids != [] {
      FoundTargetsMatch(vs, typeName, ids[1..]);
    }
  }

  /** Every edge the reference definition calls for from vertex `i`
      follows one of its type's outbound field edges. */
  lemma {:induction false} VertexEdgesOfField(vs: seq<ModelVertex>, i: nat, j: nat, c: Collaborators)
    requires i < |vs| && j <= |c.outboundFieldEdges(vs[i].metamodelVertex)|
    ensures forall e :: e in VertexEdgesFrom(vs, i, c.outboundFieldEdges(vs[i].metamodelVertex), j, c) ==>
      e.source == i && EdgeOfField(vs, c, e)
    decreases |c.outboundFieldEdges(vs[i].metamodelVertex)| - j
  {
    var fs := c.outboundFieldEdges(vs[i].metamodelVertex);
    if j < |fs| {
      var f := fs[j];
      var ts := FoundTargets(vs, f.target.typeName, FieldIds(vs, i, f, c));
      FoundTargetsMatch(vs, f.target.typeName, FieldIds(vs, i, f, c));
      VertexEdgesOfField(vs, i, j + 1, c);
      forall e | e in FieldEdges(vs, i, f, c)
        ensures e.source == i && EdgeOfField(vs, c, e)
      {
        var k :| 0 <= k < |ts| && e == EdgesFor(i, f, ts)[k];
        assert ts[k] in ts;
        assert EdgeAlong(vs, c, e, f);
      }
    }
  }

  /** Every edge the reference definition calls for from the vertices from
      `i` on follows an outbound field edge of its source's type. */
  lemma {:induction false} IntendedEdgesOfField(vs: seq<ModelVertex>, i: nat, c: Collaborators)
    requires i <= |vs|
    ensures forall e :: e in IntendedEdgesFrom(vs, i, c) ==> i <= e.source && EdgeOfField(vs, c, e)
    decreases |vs| - i
  {
    if i < |vs| {
      VertexEdgesOfField(vs, i, 0, c);
      IntendedEdgesOfField(vs, i + 1, c);
    }
  }

  // ---------------------------------------------------------------------
  // Phase 2, aborted or not: every edge and every mark comes from a field
  // ---------------------------------------------------------------------

  /** Every edge of `es` follows an outbound field edge of its source's type. */
  ghost predicate EdgesOfFields(vs: seq<ModelVertex>, c: Collaborators, es: seq<ModelEdge>) {
    forall e :: e in es ==> EdgeOfField(vs, c, e)
  }

  /** `mark` is the name of an outbound field `f` of vertex `src` whose
      related ids include that of vertex `k`, of `f`'s target type: the
      label an edge from `src` along `f` into `k` sets on it. */
  ghost predicate MarkFromVertex(vs: seq<ModelVertex>, c: Collaborators, src: nat, k: nat, mark: Option<FieldName>) {
    src < |vs| &&
    exists f :: f in c.outboundFieldEdges(vs[src].metamodelVertex) &&
      mark == Some(f.fieldName) && EdgeAlong(vs, c, ModelEdge(src, k, f.fieldName, f.metamodelField), f)
  }

  /** `mark` is the name of an outbound field of some vertex that relates
      to vertex `k`. */
  ghost predicate MarkOfField(vs: seq<ModelVertex>, c: Collaborators, k: nat, mark: Option<FieldName>) {
    exists src :: 0 <= src < |vs| && MarkFromVertex(vs, c, src, k, mark)
  }

  /** The label an edge that follows a field sets on its target names
      that field of the edge's source. */
  lemma MarkOfEdge(vs: seq<ModelVertex>, c: Collaborators, e: ModelEdge)
    requires EdgeOfField(vs, c, e)
    ensures MarkFromVertex(vs, c, e.source, e.target, Some(e.fieldName))
  {
    var f :| f in c.outboundFieldEdges(vs[e.source].metamodelVertex) && EdgeAlong(vs, c, e, f);
    assert ModelEdge(e.source, e.target, f.fieldName, f.metamodelField) == e;
  }

  /** `ws` is `vs` where a vertex whose `field` changed carries the name of
      a field that some vertex of `vs` relates to it. */
  ghost predicate MarksOfFields(vs: seq<ModelVertex>, ws: seq<ModelVertex>, c: Collaborators) {
    |ws| == |vs| &&
    forall k :: 0 <= k < |vs| ==> ws[k].field == vs[k].field || MarkOfField(vs, c, k, ws[k].field)
  }

  /** Going from graph `g` to graph `h`, the edges added each follow a
      field and the marks changed each name a field, both read off `g`. */
  ghost predicate FollowsFields(g: Graph, h: Graph, c: Collaborators) {
    |g.edges| <= |h.edges| &&
    EdgesOfFields(g.vertices, c, h.edges[|g.edges|..]) && MarksOfFields(g.vertices, h.vertices, c)
  }

  /** Every edge of `es` starts at vertex `i` and follows one of its
      type's outbound field edges. */
  ghost predicate EdgesOfVertex(vs: seq<ModelVertex>, c: Collaborators, i: nat, es: seq<ModelEdge>) {
    forall e :: e in es ==> e.source == i && EdgeOfField(vs, c, e)
  }

  /** `ws` is `vs` where a vertex whose `field` changed carries the name of
      an outbound field of vertex `i` that relates `i` to it. */
  ghost predicate MarksOfVertex(vs: seq<ModelVertex>, ws: seq<ModelVertex>, c: Collaborators, i: nat) {
    |ws| == |vs| &&
    forall k :: 0 <= k < |vs| ==> ws[k].field == vs[k].field || MarkFromVertex(vs, c, i, k, ws[k].field)
  }

  /** Going from graph `g` to graph `h`, the edges added each start at
      vertex `i` and follow one of its fields, and the marks changed each
      name one of its fields, all read off `g`. */
  ghost predicate FollowsVertexFields(g: Graph, h: Graph, c: Collaborators, i: nat) {
    |g.edges| <= |h.edges| &&
    EdgesOfVertex(g.vertices, c, i, h.edges[|g.edges|..]) && MarksOfVertex(g.vertices, h.vertices, c, i)
  }

  /** Following the fields of vertex `i` is following fields. */
  lemma VertexFollowsFields(g: Graph, h: Graph, c: Collaborators, i: nat)
    requires FollowsVertexFields(g, h, c, i)
    ensures FollowsFields(g, h, c)
  {
    forall k | 0 <= k < |g.vertices| && h.vertices[k].field != g.vertices[k].field
      ensures MarkOfField(g.vertices, c, k, h.vertices[k].field)
    {
      assert MarkFromVertex(g.vertices, c, i, k, h.vertices[k].field);
    }
  }

  /** Marks do not change which edges follow a field. */
  lemma EdgeOfFieldIgnoresField(vs: seq<ModelVertex>, ws: seq<ModelVertex>, c: Collaborators, e: ModelEdge)
    requires SameButField(vs, ws)
    ensures EdgeOfField(ws, c, e) ==> EdgeOfField(vs, c, e)
  {
    if EdgeOfField(ws, c, e) {
      var f :| f in c.outboundFieldEdges(ws[e.source].metamodelVertex) && EdgeAlong(ws, c, e, f);
      SameButFieldAt(vs, ws, e.source);
      SameButFieldAt(vs, ws, e.target);
      assert FieldIds(ws, e.source, f, c) == FieldIds(vs, e.source, f, c);
      assert EdgeAlong(vs, c, e, f);
    }
  }

  /** Marks do not change which fields a mark may name. */
  lemma MarkFromVertexIgnoresField(vs: seq<ModelVertex>, ws: seq<ModelVertex>, c: Collaborators, src: nat, k: nat, mark: Option<FieldName>)
    requires SameButField(vs, ws)
    ensures MarkFromVertex(ws, c, src, k, mark) ==> MarkFromVertex(vs, c, src, k, mark)
  {
    if MarkFromVertex(ws, c, src, k, mark) {
      var f :| f in c.outboundFieldEdges(ws[src].metamodelVertex) &&
        mark == Some(f.fieldName) && EdgeAlong(ws, c, ModelEdge(src, k, f.fieldName, f.metamodelField), f);
      var e := ModelEdge(src, k, f.fieldName, f.metamodelField);
      assert EdgeOfField(ws, c, e);
      EdgeOfFieldIgnoresField(vs, ws, c, e);
      MarkOfEdge(vs, c, e);
    }
  }

  /** Marks made while following fields name fields of the unmarked vertices. */
  lemma MarksOfFieldsThen(vs: seq<ModelVertex>, ws: seq<ModelVertex>, us: seq<ModelVertex>, c: Collaborators)
    requires SameButField(vs, ws) && MarksOfFields(vs, ws, c) && MarksOfFields(ws, us, c)
    ensures MarksOfFields(vs, us, c)
  {
    forall k | 0 <= k < |vs|
      ensures us[k].field == vs[k].field || MarkOfField(vs, c, k, us[k].field)
    {
      if us[k].field != ws[k].field {
        var src :| 0 <= src < |ws| && MarkFromVertex(ws, c, src, k, us[k].field);
        MarkFromVertexIgnoresField(vs, ws, c, src, k, us[k].field);
      }
    }
  }

  /** Marks made while following the fields of vertex `i` name fields of
      `i` in the unmarked vertices. */
  lemma MarksOfVertexThen(vs: seq<ModelVertex>, ws: seq<ModelVertex>, us: seq<ModelVertex>, c: Collaborators, i: nat)
    requires SameButField(vs, ws) && MarksOfVertex(vs, ws, c, i) && MarksOfVertex(ws, us, c, i)
    ensures MarksOfVertex(vs, us, c, i)
  {
    forall k | 0 <= k < |vs|
      ensures us[k].field == vs[k].field || MarkFromVertex(vs, c, i, k, us[k].field)
    {
      if us[k].field != ws[k].field {
        MarkFromVertexIgnoresField(vs, ws, c, i, k, us[k].field);
      }
    }
  }

  /** Following fields from `g` to `m` and from `m` to `h` follows fields
      from `g` to `h`. */
  lemma FollowsFieldsThen(g: Graph, m: Graph, h: Graph, c: Collaborators)
    requires SameButField(g.vertices, m.vertices)
    requires |g.edges| <= |m.edges| && m.edges[..|g.edges|] == g.edges
    requires |m.edges| <= |h.edges| && h.edges[..|m.edges|] == m.edges
    requires FollowsFields(g, m, c) && FollowsFields(m, h, c)
    ensures FollowsFields(g, h, c)
  {
    MarksOfFieldsThen(g.vertices, m.vertices, h.vertices, c);
    forall e | e in h.edges[|g.edges|..]
      ensures EdgeOfField(g.vertices, c, e)
    {
      var k :| |g.edges| <= k < |h.edges| && e == h.edges[k];
      if k < |m.edges| {
        assert e == m.edges[|g.edges|..][k - |g.edges|];
      } else {
        assert e == h.edges[|m.edges|..][k - |m.edges|];
        EdgeOfFieldIgnoresField(g.vertices, m.vertices, c, e);
      }
    }
  }

  /** Following the fields of vertex `i` from `g` to `m` and from `m` to
      `h` follows them from `g` to `h`. */
  lemma FollowsVertexFieldsThen(g: Graph, m: Graph, h: Graph, c: Collaborators, i: nat)
    requires SameButField(g.vertices, m.vertices)
    requires |g.edges| <= |m.edges| && m.edges[..|g.edges|] == g.edges
    requires |m.edges| <= |h.edges| && h.edges[..|m.edges|] == m.edges
    requires FollowsVertexFields(g, m, c, i) && FollowsVertexFields(m, h, c, i)
    ensures FollowsVertexFields(g, h, c, i)
  {
    MarksOfVertexThen(g.vertices, m.vertices, h.vertices, c, i);
    forall e | e in h.edges[|g.edges|..]
      ensures e.source == i && EdgeOfField(g.vertices, c, e)
    {
      var k :| |g.edges| <= k < |h.edges| && e == h.edges[k];
      if k < |m.edges| {
        assert e == m.edges[|g.edges|..][k - |g.edges|];
      } else {
        assert e == h.edges[|m.edges|..][k - |m.edges|];
        EdgeOfFieldIgnoresField(g.vertices, m.vertices, c, e);
      }
    }
  }

  /** Marking the targets of edges from vertex `i` that follow its fields
      makes only marks that name its fields. */
  lemma {:induction false} MarkPrefixOfVertex(vs: seq<ModelVertex>, c: Collaborators, i: nat, es: seq<ModelEdge>, n: nat)
    requires n <= |es| && EdgesOfVertex(vs, c, i, es)
    ensures MarksOfVertex(vs, MarkPrefix(vs, es, n), c, i)
  {
    if n > 0 {
      MarkPrefixOfVertex(vs, c, i, es, n - 1);
      var e := es[n - 1];
      assert e.source == i && EdgeOfField(vs, c, e);
      MarkOfEdge(vs, c, e);
      var prev := MarkPrefix(vs, es, n - 1);
      var ws := MarkTarget(prev, e);
      assert MarkPrefix(vs, es, n) == ws;
      forall k | 0 <= k < |vs|
        ensures ws[k].field == vs[k].field || MarkFromVertex(vs, c, i, k, ws[k].field)
      {
        if k != e.target {
          assert ws[k].field == prev[k].field;
        }
      }
    }
  }

  /** The edges from vertex `i` to vertices looked up for its field `f`
      follow that field. */
  lemma LookedUpEdgesOfField(vs: seq<ModelVertex>, c: Collaborators, i: nat, f: FieldEdge, ts: seq<nat>)
    requires i < |vs| && f in c.outboundFieldEdges(vs[i].metamodelVertex)
    requires forall t :: t in ts ==>
      t < |vs| && vs[t].typeName == f.target.typeName && vs[t].id in FieldIds(vs, i, f, c)
    ensures EdgesOfVertex(vs, c, i, EdgesFor(i, f, ts))
  {
    forall e | e in EdgesFor(i, f, ts)
      ensures e.source == i && EdgeOfField(vs, c, e)
    {
      var k :| 0 <= k < |ts| && e == EdgesFor(i, f, ts)[k];
      assert ts[k] in ts;
      assert EdgeAlong(vs, c, e, f);
    }
  }

  /** The lookups of field `fs[j]` of vertex `i`, whether or not they all
      succeed, and the edges to the vertices found follow that field. */
  lemma FieldLookupsFollow(g: Graph, i: nat, fs: seq<FieldEdge>, j: nat, c: Collaborators)
    requires i < |g.vertices| && j < |fs| && fs == c.outboundFieldEdges(g.vertices[i].metamodelVertex)
    ensures var vs := g.vertices;
      var now := EdgesFor(i, fs[j], RelatedVertices(vs, fs[j], vs[i].entity, c).LookedUp());
      EdgesOfVertex(vs, c, i, now) && MarksOfVertex(vs, MarkTargets(vs, now), c, i)
  {
    var vs := g.vertices;
    var f := fs[j];
    var ts := RelatedVertices(vs, f, vs[i].entity, c).LookedUp();
    LookedUpMatch(vs, f, Members(c.relationshipValue(vs[i].entity, f)), c);
    assert f in fs;
    LookedUpEdgesOfField(vs, c, i, f, ts);
    MarkPrefixOfVertex(vs, c, i, EdgesFor(i, f, ts), |ts|);
  }

  /** Edge creation for the fields `fs[j..]` of vertex `i` follows the
      fields of `i`, whether it succeeds or aborts. */
  ghost predicate FieldsFollowFields(g: Graph, i: nat, fs: seq<FieldEdge>, j: nat, c: Collaborators)
    requires i < |g.vertices| && j <= |fs|
  {
    FollowsVertexFields(g, EdgesFromFields(g, i, fs, j, c).graph, c, i)
  }

  /** Whether edge creation for the outbound fields `fs[j..]` of vertex `i`
      succeeds or aborts, every edge it adds starts at `i` and follows an
      outbound field of `i` to a vertex of the target type with a related
      id, and every `field` it changes names such a field of `i`. */
  lemma {:induction false} FieldsLeaveFields(g: Graph, i: nat, fs: seq<FieldEdge>, j: nat, c: Collaborators)
    requires i < |g.vertices| && j <= |fs| && fs == c.outboundFieldEdges(g.vertices[i].metamodelVertex)
    ensures FieldsFollowFields(g, i, fs, j, c)
    decreases |fs| - j
  {
    if j == |fs| {
      assert g.edges[|g.edges|..] == [];
    } else {
      var vs := g.vertices;
      var res := RelatedVertices(vs, fs[j], vs[i].entity, c);
      if res.Resolved? {
        var now := EdgesFor(i, fs[j], res.targets);
        var g' := Graph(MarkTargets(vs, now), g.edges + now);
        SameButFieldAt(vs, g'.vertices, i);
        FieldsLeaveFields(g', i, fs, j + 1, c);
      }
      FieldsLeaveFieldsStep(g, i, fs, j, c);
    }
  }

  /** One step of `FieldsLeaveFields`: its claim for the fields after `j`
      gives its claim for `j`; an abort at field `j` needs no more. */
  lemma FieldsLeaveFieldsStep(g: Graph, i: nat, fs: seq<FieldEdge>, j: nat, c: Collaborators)
    requires i < |g.vertices| && j < |fs| && fs == c.outboundFieldEdges(g.vertices[i].metamodelVertex)
    ensures var vs := g.vertices;
      var res := RelatedVertices(vs, fs[j], vs[i].entity, c);
      var now := EdgesFor(i, fs[j], res.LookedUp());
      var g' := Graph(MarkTargets(vs, now), g.edges + now);
      (res.Resolved? ==> FieldsFollowFields(g', i, fs, j + 1, c)) ==> FieldsFollowFields(g, i, fs, j, c)
  {
    var vs := g.vertices;
    var res := RelatedVertices(vs, fs[j], vs[i].entity, c);
    var now := EdgesFor(i, fs[j], res.LookedUp());
    var g' := Graph(MarkTargets(vs, now), g.edges + now);
    if res.Resolved? ==> FieldsFollowFields(g', i, fs, j + 1, c) {
      FieldLookupsFollow(g, i, fs, j, c);
      var r := EdgesFromFields(g, i, fs, j, c);
      if res.Resolved? {
        assert r == EdgesFromFields(g', i, fs, j + 1, c);
        assert g'.edges[|g.edges|..] == now;
        assert g'.edges[..|g.edges|] == g.edges;
        FollowsVertexFieldsThen(g, g', r.graph, c, i);
      } else {
        assert r.graph == Graph(MarkTargets(vs, now), g.edges);
        assert g.edges[|g.edges|..] == [];
      }
    }
  }

  /** Edge creation for the vertices from `i` on follows fields, whether it
      succeeds or aborts. */
  ghost predicate EdgePhaseFollowsFields(g: Graph, i: nat, c: Collaborators)
    requires i <= |g.vertices|
  {
    FollowsFields(g, EdgesFrom(g, i, c).graph, c)
  }

  /** Every edge edge creation adds runs from a vertex, along one of its
      type's outbound field edges, to a vertex of the target type whose id
      is a related id; every `field` it changes names such a field of a
      vertex relating to the one changed. This holds for the graph an abort
      leaves behind as well. */
  lemma EdgePhaseLeavesFields(g: Graph, i: nat, c: Collaborators)
    requires i <= |g.vertices|
    ensures var r := EdgesFrom(g, i, c);
      (forall e :: e in r.graph.edges[|g.edges|..] ==> EdgeOfField(g.vertices, c, e)) &&
      (forall k :: 0 <= k < |g.vertices| && r.graph.vertices[k].field != g.vertices[k].field ==>
        MarkOfField(g.vertices, c, k, r.graph.vertices[k].field))
  {
    EdgePhaseFollows(g, i, c);
  }

  lemma {:induction false} EdgePhaseFollows(g: Graph, i: nat, c: Collaborators)
    requires i <= |g.vertices|
    ensures EdgePhaseFollowsFields(g, i, c)
    decreases |g.vertices| - i
  {
    if i == |g.vertices| {
      assert g.edges[|g.edges|..] == [];
    } else {
      var r := EdgesFromFields(g, i, c.outboundFieldEdges(g.vertices[i].metamodelVertex), 0, c);
      EdgePhaseFollows(r.graph, i + 1, c);
      EdgePhaseLeavesFieldsStep(g, i, c);
    }
  }

  /** One step of `EdgePhaseFollows`: its claim for the vertices after `i`
      gives its claim for `i`. */
  lemma EdgePhaseLeavesFieldsStep(g: Graph, i: nat, c: Collaborators)
    requires i < |g.vertices|
    ensures var r := EdgesFromFields(g, i, c.outboundFieldEdges(g.vertices[i].metamodelVertex), 0, c);
      EdgePhaseFollowsFields(r.graph, i + 1, c) ==> EdgePhaseFollowsFields(g, i, c)
  {
    var fs := c.outboundFieldEdges(g.vertices[i].metamodelVertex);
    var r := EdgesFromFields(g, i, fs, 0, c);
    if EdgePhaseFollowsFields(r.graph, i + 1, c) {
      FieldsLeaveFields(g, i, fs, 0, c);
      VertexFollowsFields(g, r.graph, c, i);
      EdgesFromStep(g, i, c);
      if r.Built? {
        FollowsFieldsThen(g, r.graph, EdgesFrom(r.graph, i + 1, c).graph, c);
      }
    }
  }

  // ---------------------------------------------------------------------
  // The whole build
  // ---------------------------------------------------------------------

  /** A build into an empty store: one vertex per imported entity; phase 2
      adds no vertex and changes only `field` properties; it succeeds
      exactly when every non-null related id has a vertex of the target
      type, and then the edges are exactly those of the reference
      definition, with every target marked; otherwise it aborts on a
      dangling reference. Either way, every edge in the store follows an
      outbound field edge and every `field` set names such a field. */
  lemma BuildIntoEmptyStore(types: seq<MetamodelVertex>, c: Collaborators)
    requires Identified(types, c)
    ensures var r := Build(Graph([], []), types, c);
      var vs := VerticesOf(types, c);
      var es := IntendedEdges(vs, c);
      |r.graph.vertices| == ImportedCount(types, c) &&
      SameButField(vs, r.graph.vertices) &&
      (r.Built? <==> AllTargetsPresent(vs, c)) &&
      (r.Built? ==> r.graph == Graph(MarkTargets(vs, es), es)) &&
      (forall e :: e in r.graph.edges ==> EdgeOfField(vs, c, e)) &&
      (forall k :: 0 <= k < |vs| && r.graph.vertices[k].field != None ==>
        MarkOfField(vs, c, k, r.graph.vertices[k].field)) &&
      (r.Aborted? ==> DanglingReference(vs, c, r.error))
  {
    var vs := VerticesOf(types, c);
    var g := Graph([] + vs, []);
    assert [] + vs == vs;
    VertexCount(types, c);
    EdgePhaseResult(g, 0, c);
    AbortCause(g, 0, c);
    EdgePhaseLeavesFields(g, 0, c);
    var r := EdgesFrom(g, 0, c);
    assert r.graph.edges[|g.edges|..] == r.graph.edges;
    forall k | 0 <= k < |vs|
      ensures vs[k].field == None
    {
      VertexHasEntity(types, c, vs[k]);
    }
  }
}
