/** The model-graph builder: phase 1 adds one vertex per imported entity,
    phase 2 walks the vertices captured after phase 1 and adds one edge per
    related entity whose id is non-null. Each step is given twice: as a
    function on graph values (the specification) and as a method on a
    `GraphStore` that is proved to follow it. */
module ModelGraphBuilder {
  import opened ModelGraph

  // ---------------------------------------------------------------------
  // Phase 1: vertex creation
  // ---------------------------------------------------------------------

  /** Every entity imported for a type reports a non-null id for it. The
      builder does not check this itself. */
  ghost predicate Identified(types: seq<MetamodelVertex>, c: Collaborators) {
    forall t, e :: t in types && e in c.importEntities(t) ==> c.entityId(e, t).Some?
  }

  /** The vertex materialised for entity `e` of type `t`. */
  function NewVertex(t: MetamodelVertex, e: Entity, c: Collaborators): ModelVertex
    requires c.entityId(e, t).Some?
  {
    ModelVertex(t.typeName, c.entityId(e, t).value, t, e, c.additionalProperties(t, e), None)
  }

  /** The vertices of the entities `es` of type `t`, in import order. */
  function TypeVertices(t: MetamodelVertex, es: seq<Entity>, c: Collaborators): seq<ModelVertex>
    requires forall e :: e in es ==> c.entityId(e, t).Some?
  {
    seq(|es|, k requires 0 <= k < |es| => NewVertex(t, es[k], c))
  }

  /** The vertices phase 1 adds, for the types in their enumeration order. */
  function VerticesOf(types: seq<MetamodelVertex>, c: Collaborators): seq<ModelVertex>
    requires Identified(types, c)
  {
    if types == [] then []
    else
      var t := types[|types| - 1];
      VerticesOf(types[..|types| - 1], c) + TypeVertices(t, c.importEntities(t), c)
  }

  /** The number of entities imported over all the types. */
  function ImportedCount(types: seq<MetamodelVertex>, c: Collaborators): nat {
    if types == [] then 0
    else ImportedCount(types[..|types| - 1], c) + |c.importEntities(types[|types| - 1])|
  }

  /** Builds the vertex for one entity, copying the additional properties
      one key at a time. */
  method MaterializeVertex(t: MetamodelVertex, e: Entity, c: Collaborators) returns (v: ModelVertex)
    requires c.entityId(e, t).Some?
    ensures v == NewVertex(t, e, c)
  {
    var extra := c.additionalProperties(t, e);
    var properties: map<string, PropertyValue> := map[];
    var pending := extra.Keys;
    while pending != {}
      invariant pending <= extra.Keys
      invariant properties == map k | k in extra.Keys && k !in pending :: extra[k]
      decreases pending
    {
      var k :| k in pending;
      properties := properties[k := extra[k]];
      pending := pending - {k};
    }
    assert properties == extra;
    v := ModelVertex(t.typeName, c.entityId(e, t).value, t, e, properties, None);
  }

  /** Phase 1: for each type, imports its entities and adds one vertex per
      entity. */
  method CreateVertices(g: GraphStore, types: seq<MetamodelVertex>, c: Collaborators)
    requires Identified(types, c)
    modifies g
    ensures g.vertices == old(g.vertices) + VerticesOf(types, c)
    ensures g.edges == old(g.edges)
  {
    var i := 0;
    while i < |types|
      invariant 0 <= i <= |types|
      invariant g.vertices == old(g.vertices) + VerticesOf(types[..i], c)
      invariant g.edges == old(g.edges)
    {
      var t := types[i];
      var entities := c.importEntities(t);
      var j := 0;
      while j < |entities|
        invariant 0 <= j <= |entities|
        invariant g.vertices == old(g.vertices) + VerticesOf(types[..i], c) + TypeVertices(t, entities[..j], c)
        invariant g.edges == old(g.edges)
      {
        var v := MaterializeVertex(t, entities[j], c);
        assert TypeVertices(t, entities[..j + 1], c) == TypeVertices(t, entities[..j], c) + [v];
        var _ := g.AddVertex(v);
        j := j + 1;
      }
      assert entities[..j] == entities;
      assert types[..i + 1][..i] == types[..i];
      i := i + 1;
    }
    assert types[..i] == types;
  }

  // ---------------------------------------------------------------------
  // Phase 2: edge creation
  // ---------------------------------------------------------------------

  /** The related entities of a relationship value: none, one, or the
      members of the collection. */
  function Members(value: RelationshipValue): (r: seq<Entity>)
    ensures value.Unset? ==> r == []
    ensures value.Single? ==> r == [value.entity]
    ensures value.Collection? ==> r == value.members
  {
    match value
    case Unset => []
    case Single(e) => [e]
    case Collection(es) => es
  }

  /** The id of a related entity, as the field edge's target type reads it. */
  function TargetEntityId(f: FieldEdge, e: Entity, c: Collaborators): Option<EntityId> {
    c.entityId(e, f.target)
  }

  /** The non-null target ids of `es`, in order. */
  ghost function TargetIds(f: FieldEdge, es: seq<Entity>, c: Collaborators): seq<EntityId> {
    if es == [] then []
    else
      match TargetEntityId(f, es[0], c)
      case None => TargetIds(f, es[1..], c)
      case Some(x) => [x] + TargetIds(f, es[1..], c)
  }

  /** No vertex for a null id; otherwise the lookup of the target vertex,
      which fails when no vertex of the target type has that id. */
  function TargetEdgeVertexOrEmpty(vs: seq<ModelVertex>, f: FieldEdge, id: Option<EntityId>): (r: Result<Option<nat>>)
    ensures id.None? ==> r == Ok(None)
    ensures r.Ok? && id.Some? ==>
      r.value.Some? && r.value.value < |vs| && Matches(vs[r.value.value], f.target.typeName, id.value)
    ensures r.Ok? && id.Some? ==> r.value == FirstMatch(vs, f.target.typeName, id.value)
    ensures r.Err? <==> id.Some? && forall k :: 0 <= k < |vs| ==> !Matches(vs[k], f.target.typeName, id.value)
    ensures r.Err? ==> r.error == NoSuchTargetVertex(f.target.typeName, id.value)
  {
    match id
    case None => Ok(None)
    case Some(x) =>
      match FirstMatch(vs, f.target.typeName, x)
      case None => Err(NoSuchTargetVertex(f.target.typeName, x))
      case Some(t) => Ok(Some(t))
  }

  /** The outcome of looking up the targets of one field: all found, or a
      failure after the vertices in `found` were looked up. */
  datatype Resolution =
    | Resolved(targets: seq<nat>)
    | Failed(found: seq<nat>, error: BuildError)
  {
    /** The vertices looked up (and so marked) before the outcome. */
    function LookedUp(): seq<nat> {
      if Resolved? then targets else found
    }
  }

  /** `r` after the lookups of `ts` that came before it. */
  function Prepend(ts: seq<nat>, r: Resolution): (r': Resolution)
    ensures r'.Resolved? == r.Resolved? && r'.LookedUp() == ts + r.LookedUp()
  {
    match r
    case Resolved(us) => Resolved(ts + us)
    case Failed(us, e) => Failed(ts + us, e)
  }

  /** Looks up the target vertex of each related entity in turn, dropping
      null ids and stopping at the first id that has no vertex. */
  function ResolveMembers(vs: seq<ModelVertex>, f: FieldEdge, es: seq<Entity>, c: Collaborators): (r: Resolution)
    ensures forall t :: t in r.LookedUp() ==> t < |vs|
  {
    if es == [] then Resolved([])
    else
      match TargetEdgeVertexOrEmpty(vs, f, TargetEntityId(f, es[0], c))
      case Err(e) => Failed([], e)
      case Ok(None) => ResolveMembers(vs, f, es[1..], c)
      case Ok(Some(t)) => Prepend([t], ResolveMembers(vs, f, es[1..], c))
  }

  /** The target vertices of field `f` of an entity. */
  function RelatedVertices(vs: seq<ModelVertex>, f: FieldEdge, entity: Entity, c: Collaborators): Resolution {
    ResolveMembers(vs, f, Members(c.relationshipValue(entity, f)), c)
  }

  /** The edges from vertex `i` to the vertices `ts`, labelled by `f`. */
  function EdgesFor(i: nat, f: FieldEdge, ts: seq<nat>): seq<ModelEdge> {
    seq(|ts|, k requires 0 <= k < |ts| => ModelEdge(i, ts[k], f.fieldName, f.metamodelField))
  }

  /** The outcome of a build step: the graph it leaves, and on failure the
      error that aborted it. */
  datatype Outcome =
    | Built(graph: Graph)
    | Aborted(graph: Graph, error: BuildError)

  /** Edge creation for the field edges `fs[j..]` of vertex `i`: look up the
      targets (marking them), then add one edge per target. */
  function EdgesFromFields(g: Graph, i: nat, fs: seq<FieldEdge>, j: nat, c: Collaborators): (r: Outcome)
    requires i < |g.vertices| && j <= |fs|
    ensures SameButField(g.vertices, r.graph.vertices)
    ensures |g.edges| <= |r.graph.edges| && r.graph.edges[..|g.edges|] == g.edges
    decreases |fs| - j
  {
    if j == |fs| then Built(g)
    else
      var f := fs[j];
      match RelatedVertices(g.vertices, f, g.vertices[i].entity, c)
      case Resolved(ts) =>
        var g' := Graph(MarkTargets(g.vertices, EdgesFor(i, f, ts)), g.edges + EdgesFor(i, f, ts));
        EdgesFromFields(g', i, fs, j + 1, c)
      case Failed(found, e) =>
        Aborted(Graph(MarkTargets(g.vertices, EdgesFor(i, f, found)), g.edges), e)
  }

  /** Edge creation for the vertices from position `i` on. */
  function EdgesFrom(g: Graph, i: nat, c: Collaborators): (r: Outcome)
    requires i <= |g.vertices|
    ensures SameButField(g.vertices, r.graph.vertices)
    ensures |g.edges| <= |r.graph.edges| && r.graph.edges[..|g.edges|] == g.edges
    decreases |g.vertices| - i
  {
    if i == |g.vertices| then Built(g)
    else
      match EdgesFromFields(g, i, c.outboundFieldEdges(g.vertices[i].metamodelVertex), 0, c)
      case Built(g') => EdgesFrom(g', i + 1, c)
      case Aborted(g', e) => Aborted(g', e)
  }

  /** The whole build on a store holding `g0`: phase 1, then phase 2 over
      every vertex of the store. */
  function Build(g0: Graph, types: seq<MetamodelVertex>, c: Collaborators): Outcome
    requires Identified(types, c)
  {
    EdgesFrom(Graph(g0.vertices + VerticesOf(types, c), g0.edges), 0, c)
  }

  /** A lookup only reads labels and ids, so marks do not change which
      targets are found. */
  lemma {:induction false} ResolveIgnoresField(vs: seq<ModelVertex>, ws: seq<ModelVertex>, f: FieldEdge, es: seq<Entity>, c: Collaborators)
    requires SameButField(vs, ws)
    ensures ResolveMembers(vs, f, es, c) == ResolveMembers(ws, f, es, c)
  {
    if es != [] {
      var id := TargetEntityId(f, es[0], c);
      if id.Some? {
        FirstMatchIgnoresField(vs, ws, f.target.typeName, id.value);
      }
      ResolveIgnoresField(vs, ws, f, es[1..], c);
    }
  }

  lemma PrependTwice(ts: seq<nat>, us: seq<nat>, r: Resolution)
    ensures Prepend(ts, Prepend(us, r)) == Prepend(ts + us, r)
  {
    match r
    case Resolved(xs) => assert ts + (us + xs) == (ts + us) + xs;
    case Failed(xs, e) => assert ts + (us + xs) == (ts + us) + xs;
  }

  /** One step of `ResolveMembers` over the suffix `es[k..]`. */
  lemma ResolveUnfold(vs: seq<ModelVertex>, f: FieldEdge, es: seq<Entity>, k: nat, c: Collaborators)
    requires k < |es|
    ensures ResolveMembers(vs, f, es[k..], c) ==
      match TargetEdgeVertexOrEmpty(vs, f, TargetEntityId(f, es[k], c))
      case Err(e) => Failed([], e)
      case Ok(None) => ResolveMembers(vs, f, es[k + 1..], c)
      case Ok(Some(t)) => Prepend([t], ResolveMembers(vs, f, es[k + 1..], c))
  {
    assert es[k..][0] == es[k];
    assert es[k..][1..] == es[k + 1..];
  }

  lemma MarkOneMore(vs: seq<ModelVertex>, i: nat, f: FieldEdge, found: seq<nat>, t: nat)
    ensures MarkTargets(vs, EdgesFor(i, f, found + [t])) ==
      MarkTarget(MarkTargets(vs, EdgesFor(i, f, found)), ModelEdge(i, t, f.fieldName, f.metamodelField))
  {
    MarkPrefixAgree(vs, EdgesFor(i, f, found + [t]), EdgesFor(i, f, found), |found|);
  }

  /** `V().has(target type, "id", id).property("field", name).next()`:
      finds the first vertex of the target type with that id and sets its
      `field` property; fails when there is none. */
  method TargetEdgeVertex(g: GraphStore, f: FieldEdge, id: EntityId) returns (r: Result<nat>)
    modifies g
    ensures r.Ok? ==> Some(r.value) == FirstMatch(old(g.vertices), f.target.typeName, id)
    ensures r.Err? <==> FirstMatch(old(g.vertices), f.target.typeName, id).None?
    ensures r.Err? ==> r.error == NoSuchTargetVertex(f.target.typeName, id)
    ensures r.Err? ==> g.vertices == old(g.vertices)
    ensures r.Ok? ==> g.vertices == old(g.vertices)[r.value := old(g.vertices)[r.value].(field := Some(f.fieldName))]
    ensures g.edges == old(g.edges)
  {
    var t := g.FindVertex(f.target.typeName, id);
    if t.None? {
      return Err(NoSuchTargetVertex(f.target.typeName, id));
    }
    g.SetField(t.value, f.fieldName);
    return Ok(t.value);
  }

  /** The lookups for field `f` of vertex `i`, whose entity is `entity`:
      the related entities are taken one by one, a null id is dropped, and
      any other id is looked up, which marks the vertex found. */
  method RelatedVerticesOf(g: GraphStore, i: nat, f: FieldEdge, entity: Entity, c: Collaborators) returns (res: Resolution)
    modifies g
    ensures res == RelatedVertices(old(g.vertices), f, entity, c)
    ensures g.vertices == MarkTargets(old(g.vertices), EdgesFor(i, f, res.LookedUp()))
    ensures g.edges == old(g.edges)
  {
    var members := Members(c.relationshipValue(entity, f));
    ghost var vs := g.vertices;
    assert RelatedVertices(vs, f, entity, c) == ResolveMembers(vs, f, members, c);
    var found: seq<nat> := [];
    var k := 0;
    while k < |members|
      invariant 0 <= k <= |members|
      invariant g.vertices == MarkTargets(vs, EdgesFor(i, f, found))
      invariant g.edges == old(g.edges)
      invariant ResolveMembers(vs, f, members, c) == Prepend(found, ResolveMembers(vs, f, members[k..], c))
    {
      ResolveUnfold(vs, f, members, k, c);
      var id := TargetEntityId(f, members[k], c);
      if id.Some? {
        FirstMatchIgnoresField(vs, g.vertices, f.target.typeName, id.value);
        var r := TargetEdgeVertex(g, f, id.value);
        if r.Err? {
          assert TargetEdgeVertexOrEmpty(vs, f, id) == Err(r.error);
          assert ResolveMembers(vs, f, members, c) == Failed(found, r.error);
          return Failed(found, r.error);
        }
        assert TargetEdgeVertexOrEmpty(vs, f, id) == Ok(Some(r.value));
        MarkOneMore(vs, i, f, found, r.value);
        PrependTwice(found, [r.value], ResolveMembers(vs, f, members[k + 1..], c));
        found := found + [r.value];
      }
      k := k + 1;
    }
    assert members[k..] == [];
    res := Resolved(found);
  }

  /** Adds one edge from vertex `i` to each vertex of `ts`. */
  method AddEdges(g: GraphStore, i: nat, f: FieldEdge, ts: seq<nat>)
    requires i < |g.vertices| && forall t :: t in ts ==> t < |g.vertices|
    modifies g
    ensures g.edges == old(g.edges) + EdgesFor(i, f, ts)
    ensures g.vertices == old(g.vertices)
  {
    var k := 0;
    while k < |ts|
      invariant 0 <= k <= |ts|
      invariant g.edges == old(g.edges) + EdgesFor(i, f, ts[..k])
      invariant g.vertices == old(g.vertices)
    {
      assert ts[k] in ts;
      g.AddEdge(i, ts[k], f.fieldName, f.metamodelField);
      assert EdgesFor(i, f, ts[..k + 1]) == EdgesFor(i, f, ts[..k]) + [ModelEdge(i, ts[k], f.fieldName, f.metamodelField)];
      k := k + 1;
    }
    assert ts[..k] == ts;
  }

  /** The edges of vertex `i`: for each outbound field edge in turn, the
      lookups of its targets, then one edge per target. */
  method CreateVertexEdges(g: GraphStore, i: nat, entity: Entity, fs: seq<FieldEdge>, c: Collaborators)
    returns (error: Option<BuildError>)
    requires i < |g.vertices| && g.vertices[i].entity == entity
    modifies g
    ensures var r := EdgesFromFields(old(g.State()), i, fs, 0, c);
      g.State() == r.graph && error == if r.Aborted? then Some(r.error) else None
  {
    ghost var start := g.State();
    var j := 0;
    while j < |fs|
      invariant 0 <= j <= |fs|
      invariant SameButField(start.vertices, g.vertices)
      invariant EdgesFromFields(g.State(), i, fs, j, c) == EdgesFromFields(start, i, fs, 0, c)
    {
      SameButFieldAt(start.vertices, g.vertices, i);
      var f := fs[j];
      ghost var before := g.State();
      var res := RelatedVerticesOf(g, i, f, entity, c);
      if res.Failed? {
        assert EdgesFromFields(before, i, fs, j, c) == Aborted(g.State(), res.error);
        return Some(res.error);
      }
      AddEdges(g, i, f, res.targets);
      assert EdgesFromFields(before, i, fs, j, c) == EdgesFromFields(g.State(), i, fs, j + 1, c);
      j := j + 1;
    }
    return None;
  }

  /** Phase 2: for every vertex in the list captured when it starts, the
      edges of that vertex. */
  method CreateEdges(g: GraphStore, c: Collaborators) returns (error: Option<BuildError>)
    modifies g
    ensures var r := EdgesFrom(old(g.State()), 0, c);
      g.State() == r.graph && error == if r.Aborted? then Some(r.error) else None
  {
    ghost var spec := EdgesFrom(g.State(), 0, c);
    var vertexList := g.vertices;
    var i := 0;
    while i < |vertexList|
      invariant 0 <= i <= |vertexList|
      invariant SameButField(vertexList, g.vertices)
      invariant EdgesFrom(g.State(), i, c) == spec
    {
      var v := vertexList[i];
      SameButFieldAt(vertexList, g.vertices, i);
      ghost var before := g.State();
      var failure := CreateVertexEdges(g, i, v.entity, c.outboundFieldEdges(v.metamodelVertex), c);
      if failure.Some? {
        return failure;
      }
      i := i + 1;
    }
    return None;
  }

  /** Builds the model graph of a metamodel into the store `g`: phase 1
      completes before phase 2 starts. */
  method ModelGraphFromMetamodelGraph(g: GraphStore, types: seq<MetamodelVertex>, c: Collaborators)
    returns (error: Option<BuildError>)
    requires Identified(types, c)
    modifies g
    ensures var r := Build(old(g.State()), types, c);
      g.State() == r.graph && error == if r.Aborted? then Some(r.error) else None
  {
    CreateVertices(g, types, c);
    error := CreateEdges(g, c);
  }
}
