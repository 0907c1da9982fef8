/** The data the model-graph builder works on: the metamodel it reads, the
    collaborators it calls, the vertex and edge records it produces, and the
    in-memory graph store it fills. */
module ModelGraph {

  datatype Option<+T> = None | Some(value: T)

  /** The one way a build fails: a related entity with a non-null id that
      no vertex of the target type carries. */
  datatype BuildError = NoSuchTargetVertex(typeName: TypeName, id: EntityId)

  datatype Result<+T> = Ok(value: T) | Err(error: BuildError)

  type TypeName = string
  type FieldName = string

  /** A raw entity of the source store (a model element). */
  type Entity(==)

  /** The identifier an entity reports for a given metamodel vertex. */
  type EntityId(==)

  /** The value of an additional scalar property carried onto a vertex. */
  type PropertyValue

  /** The reflective field a field edge stands for; it is copied onto edges. */
  type MetamodelField

  /** An entity type of the metamodel, identified by its type name. */
  datatype MetamodelVertex = MetamodelVertex(typeName: TypeName)

  /** One relationship field of the metamodel, from `source` to `target`. */
  datatype FieldEdge = FieldEdge(
    source: MetamodelVertex,
    target: MetamodelVertex,
    fieldName: FieldName,
    metamodelField: MetamodelField)

  /** What evaluating a relationship field on an entity yields: nothing
      (null), one related entity, or a collection of related entities. */
  datatype RelationshipValue =
    | Unset
    | Single(entity: Entity)
    | Collection(members: seq<Entity>)

  /** The external collaborators of the builder, as plain functions:
      the entity importer, the id extractor, the additional-properties
      extractor, the metamodel's outbound field edges of a type, and the
      relationship evaluator. */
  datatype Collaborators = Collaborators(
    importEntities: MetamodelVertex -> seq<Entity>,
    entityId: (Entity, MetamodelVertex) -> Option<EntityId>,
    additionalProperties: (MetamodelVertex, Entity) -> map<string, PropertyValue>,
    outboundFieldEdges: MetamodelVertex -> seq<FieldEdge>,
    relationshipValue: (Entity, FieldEdge) -> RelationshipValue)

  /** A vertex of the model graph: its label (the type name) and the
      properties `id`, `metamodelVertex`, `entity`, the additional
      properties, and the `field` property that edge creation may set. */
  datatype ModelVertex = ModelVertex(
    typeName: TypeName,
    id: EntityId,
    metamodelVertex: MetamodelVertex,
    entity: Entity,
    properties: map<string, PropertyValue>,
    field: Option<FieldName>)

  /** An edge of the model graph between two vertices, given by their
      positions in the store, labelled with the field name and carrying
      the metamodel field as its `field` property. */
  datatype ModelEdge = ModelEdge(
    source: nat,
    target: nat,
    fieldName: FieldName,
    field: MetamodelField)

  /** The contents of a graph store as a value. */
  datatype Graph = Graph(vertices: seq<ModelVertex>, edges: seq<ModelEdge>)

  /** The filter `has(label, "id", id)` of a vertex lookup. */
  predicate Matches(v: ModelVertex, typeName: TypeName, id: EntityId) {
    v.typeName == typeName && v.id == id
  }

  /** The vertex a lookup by (label, id) yields: the first matching one in
      store order, or none. */
  function FirstMatch(vs: seq<ModelVertex>, typeName: TypeName, id: EntityId): (r: Option<nat>)
    ensures r.Some? ==> r.value < |vs| && Matches(vs[r.value], typeName, id)
    ensures r.Some? ==> forall k {:trigger Matches(vs[k], typeName, id)} :: 0 <= k < r.value ==> !Matches(vs[k], typeName, id)
    ensures r.None? ==> forall k {:trigger Matches(vs[k], typeName, id)} :: 0 <= k < |vs| ==> !Matches(vs[k], typeName, id)
  {
    FirstMatchFrom(vs, typeName, id, 0)
  }

  /** The scan of a lookup from position `start` on. */
  function FirstMatchFrom(vs: seq<ModelVertex>, typeName: TypeName, id: EntityId, start: nat): (r: Option<nat>)
    requires start <= |vs|
    ensures r.Some? ==> start <= r.value < |vs| && Matches(vs[r.value], typeName, id)
    ensures r.Some? ==> forall k {:trigger Matches(vs[k], typeName, id)} :: start <= k < r.value ==> !Matches(vs[k], typeName, id)
    ensures r.None? ==> forall k {:trigger Matches(vs[k], typeName, id)} :: start <= k < |vs| ==> !Matches(vs[k], typeName, id)
    decreases |vs| - start
  {
    if start == |vs| then None
    else if Matches(vs[start], typeName, id) then Some(start)
    else FirstMatchFrom(vs, typeName, id, start + 1)
  }

  /** The vertex with its `field` property cleared. */
  function Unmark(v: ModelVertex): ModelVertex {
    v.(field := None)
  }

  /** `ws` is `vs` with at most the `field` property of some vertices changed. */
  ghost predicate SameButField(vs: seq<ModelVertex>, ws: seq<ModelVertex>) {
    |vs| == |ws| &&
    forall k {:trigger Unmark(vs[k])} {:trigger Unmark(ws[k])} :: 0 <= k < |vs| ==> Unmark(vs[k]) == Unmark(ws[k])
  }

  /** What `SameButField` keeps, position by position. */
  lemma SameButFieldAt(vs: seq<ModelVertex>, ws: seq<ModelVertex>, k: nat)
    requires SameButField(vs, ws) && k < |vs|
    ensures |ws| == |vs|
    ensures ws[k].typeName == vs[k].typeName && ws[k].id == vs[k].id
    ensures ws[k].metamodelVertex == vs[k].metamodelVertex && ws[k].entity == vs[k].entity
    ensures ws[k].properties == vs[k].properties
  {
    assert Unmark(vs[k]) == Unmark(ws[k]);
  }

  /** Marks changed twice are marks changed. */
  lemma SameButFieldThen(vs: seq<ModelVertex>, ws: seq<ModelVertex>, us: seq<ModelVertex>)
    requires SameButField(vs, ws) && SameButField(ws, us)
    ensures SameButField(vs, us)
  {
    forall k | 0 <= k < |vs|
      ensures Unmark(vs[k]) == Unmark(us[k])
    {
      assert Unmark(vs[k]) == Unmark(ws[k]) == Unmark(us[k]);
    }
  }

  /** Setting the `field` property of an edge's target vertex to the edge's
      label, as a lookup for that edge does. */
  function MarkTarget(vs: seq<ModelVertex>, e: ModelEdge): (ws: seq<ModelVertex>)
    ensures SameButField(vs, ws)
    ensures forall k :: 0 <= k < |vs| ==>
      ws[k].field == if k == e.target then Some(e.fieldName) else vs[k].field
  {
    if e.target < |vs| then vs[e.target := vs[e.target].(field := Some(e.fieldName))] else vs
  }

  /** The vertices after the target of every edge of `es` has been marked,
      in order (a later mark overwrites an earlier one). */
  function MarkTargets(vs: seq<ModelVertex>, es: seq<ModelEdge>): (ws: seq<ModelVertex>)
    ensures SameButField(vs, ws)
  {
    MarkPrefix(vs, es, |es|)
  }

  /** The vertices after the targets of the first `n` edges of `es` have
      been marked. */
  function MarkPrefix(vs: seq<ModelVertex>, es: seq<ModelEdge>, n: nat): (ws: seq<ModelVertex>)
    requires n <= |es|
    ensures SameButField(vs, ws)
  {
    if n == 0 then vs else MarkTarget(MarkPrefix(vs, es, n - 1), es[n - 1])
  }

  /** Marking depends only on the edges marked so far. */
  lemma {:induction false} MarkPrefixAgree(vs: seq<ModelVertex>, es: seq<ModelEdge>, fs: seq<ModelEdge>, n: nat)
    requires n <= |es| && n <= |fs|
    requires forall j :: 0 <= j < n ==> es[j] == fs[j]
    ensures MarkPrefix(vs, es, n) == MarkPrefix(vs, fs, n)
  {
    if n > 0 {
      MarkPrefixAgree(vs, es, fs, n - 1);
    }
  }

  /** A lookup only reads labels and ids, so changed `field` properties do
      not change its result. */
  lemma FirstMatchIgnoresField(vs: seq<ModelVertex>, ws: seq<ModelVertex>, typeName: TypeName, id: EntityId)
    requires SameButField(vs, ws)
    ensures FirstMatch(vs, typeName, id) == FirstMatch(ws, typeName, id)
  {
    FirstMatchFromIgnoresField(vs, ws, typeName, id, 0);
  }

  lemma {:induction false} FirstMatchFromIgnoresField(vs: seq<ModelVertex>, ws: seq<ModelVertex>, typeName: TypeName, id: EntityId, start: nat)
    requires SameButField(vs, ws) && start <= |vs|
    ensures FirstMatchFrom(vs, typeName, id, start) == FirstMatchFrom(ws, typeName, id, start)
    decreases |vs| - start
  {
    if start < |vs| {
      SameButFieldAt(vs, ws, start);
      FirstMatchFromIgnoresField(vs, ws, typeName, id, start + 1);
    }
  }

  /** The in-memory property graph the builder fills: vertices and edges in
      insertion order; a vertex is referred to by its position. */
  class GraphStore {
    var vertices: seq<ModelVertex>
    var edges: seq<ModelEdge>

    function State(): Graph
      reads this
    {
      Graph(vertices, edges)
    }

    constructor ()
      ensures vertices == [] && edges == []
    {
      vertices := [];
      edges := [];
    }

    /** `addV(...)...next()`: appends a vertex; no duplicate check. */
    method AddVertex(v: ModelVertex) returns (ref: nat)
      modifies this
      ensures vertices == old(vertices) + [v] && edges == old(edges)
      ensures ref == |old(vertices)| && vertices[ref] == v
    {
      ref := |vertices|;
      vertices := vertices + [v];
    }

    /** `source.addEdge(label, target).property("field", field)`. */
    method AddEdge(source: nat, target: nat, name: FieldName, field: MetamodelField)
      requires source < |vertices| && target < |vertices|
      modifies this
      ensures edges == old(edges) + [ModelEdge(source, target, name, field)]
      ensures vertices == old(vertices)
    {
      edges := edges + [ModelEdge(source, target, name, field)];
    }

    /** `property("field", name)` applied to the vertex at `ref`. */
    method SetField(ref: nat, name: FieldName)
      requires ref < |vertices|
      modifies this
      ensures vertices == old(vertices)[ref := old(vertices)[ref].(field := Some(name))]
      ensures edges == old(edges)
    {
      vertices := vertices[ref := vertices[ref].(field := Some(name))];
    }

    /** `V().has(label, "id", id)`, pulling the first vertex it yields. */
    method FindVertex(typeName: TypeName, id: EntityId) returns (r: Option<nat>)
      ensures r == FirstMatch(vertices, typeName, id)
    {
      var k := 0;
      while k < |vertices|
        invariant 0 <= k <= |vertices|
        invariant FirstMatchFrom(vertices, typeName, id, k) == FirstMatch(vertices, typeName, id)
      {
        if vertices[k].typeName == typeName && vertices[k].id == id {
          return Some(k);
        }
        k := k + 1;
      }
      return None;
    }
  }
}
