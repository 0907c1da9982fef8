# Model-graph builder of data-migrator, in Dafny

data-migrator copies entities from a source database to a sink. The part
modelled here is `ModelGraphBuilder`. It turns a metamodel (entity types and
the relationship fields between them) and the entities of the source store
into an in-memory property graph. It works in two phases.

1. **Vertices.** For each metamodel vertex (entity type), the builder imports
   that type's entities. It adds one vertex per entity, labelled with the type
   name. Each vertex carries the properties `id`, `metamodelVertex` and
   `entity`, plus the type's additional properties. No duplicate check is
   made.
2. **Edges.** The builder captures the list of vertices once phase 1 is
   done. For every vertex in that list, it takes each outbound field edge of
   the vertex's type and evaluates the relationship on the entity. The value
   can be nothing, one entity or a collection. For every related entity with
   a non-null id, it looks up the first vertex that has the field's target
   type and that id. The lookup also sets that vertex's `field` property to
   the field name. The builder then adds one edge per target found, labelled
   with the field name and carrying the metamodel field as its `field`
   property. When a non-null id has no vertex, the lookup fails and the whole
   build stops.

The files:

- `model_graph.dfy` (module `ModelGraph`) holds the records and the store:
  - vertex and edge records, the metamodel types, the collaborators as
    functions, and the build error;
  - the lookup `FirstMatch` and the marking of targets `MarkTargets`;
  - the `GraphStore` class, which the builder fills in place.
- `builder.dfy` (module `ModelGraphBuilder`) gives each operation twice:
  - as a function on graph values, which is its specification;
  - as a method on a `GraphStore`, proved to leave the store exactly as the
    function says and to return the same error.
- `properties.dfy` (module `ModelGraphProperties`) defines the intended
  result independently of the loops:
  - one vertex per imported entity;
  - the edges each (vertex, field) pair calls for (`IntendedEdges`);
  - when every target is present (`AllTargetsPresent`);
  - what an error means (`DanglingReference`).

  It proves that the builder's functions agree with these definitions.

Vertices and edges are kept in insertion order. A vertex is referred to by
its position in the store.

## Model

| member | source | states |
|---|---|---|
| ModelGraph.FirstMatch | core/src/main/java/net/osgiliath/migrator/core/modelgraph/ModelGraphBuilder.java:119-124 | The vertex a (label, id) lookup yields is a matching vertex with no matching vertex before it. None means no vertex matches. |
| ModelGraph.MarkTarget | core/src/main/java/net/osgiliath/migrator/core/modelgraph/ModelGraphBuilder.java:123 | Setting the `field` property changes that property on the looked-up vertex only. Every other vertex and every other property keeps its value. |
| ModelGraph.MarkTargets | core/src/main/java/net/osgiliath/migrator/core/modelgraph/ModelGraphBuilder.java:119-124 | Marking any number of targets changes no label, id, metamodel vertex, entity or additional property. |
| ModelGraph.FirstMatchIgnoresField | core/src/main/java/net/osgiliath/migrator/core/modelgraph/ModelGraphBuilder.java:119-122 | The lookup filters on label and id only, so marks left by earlier lookups never change which vertex a later lookup finds. |
| ModelGraph.GraphStore.constructor | core/src/main/java/net/osgiliath/migrator/core/modelgraph/ModelGraphBuilder.java:62 | A fresh store holds no vertices and no edges. |
| ModelGraph.GraphStore.AddVertex | core/src/main/java/net/osgiliath/migrator/core/modelgraph/ModelGraphBuilder.java:134-140 | Appends the vertex and returns its position. There is no duplicate check, and the edges are unchanged. |
| ModelGraph.GraphStore.AddEdge | core/src/main/java/net/osgiliath/migrator/core/modelgraph/ModelGraphBuilder.java:84 | Appends exactly one edge with the given ends, label and field. The vertices are unchanged. |
| ModelGraph.GraphStore.SetField | core/src/main/java/net/osgiliath/migrator/core/modelgraph/ModelGraphBuilder.java:123 | Only the `field` property of the given vertex changes. |
| ModelGraph.GraphStore.FindVertex | core/src/main/java/net/osgiliath/migrator/core/modelgraph/ModelGraphBuilder.java:119-124 | The linear scan returns exactly `FirstMatch`: the first vertex in store order with that label and id, or none. |
| ModelGraphBuilder.MaterializeVertex | core/src/main/java/net/osgiliath/migrator/core/modelgraph/ModelGraphBuilder.java:133-139 | Copying the additional properties key by key gives the vertex labelled with the type name and carrying the entity's id, the metamodel vertex, the entity and exactly the additional properties. |
| ModelGraphBuilder.CreateVertices | core/src/main/java/net/osgiliath/migrator/core/modelgraph/ModelGraphBuilder.java:127-142 | Phase 1 appends `VerticesOf(types)` (one vertex per imported entity, type by type, in import order) and adds no edge. |
| ModelGraphBuilder.TargetEdgeVertexOrEmpty | core/src/main/java/net/osgiliath/migrator/core/modelgraph/ModelGraphBuilder.java:109-114 | A null id gives no vertex. A non-null id gives a vertex of the target type with that id. It fails with `NoSuchTargetVertex(target type, id)` exactly when no such vertex exists. |
| ModelGraphBuilder.ResolveMembers | core/src/main/java/net/osgiliath/migrator/core/modelgraph/ModelGraphBuilder.java:93-95 | Every vertex looked up for a field is a position in the store. |
| ModelGraphBuilder.ResolveIgnoresField | core/src/main/java/net/osgiliath/migrator/core/modelgraph/ModelGraphBuilder.java:119-122 | Resolving a field's targets gives the same outcome whatever `field` marks the vertices carry. |
| ModelGraphBuilder.EdgesFromFields | core/src/main/java/net/osgiliath/migrator/core/modelgraph/ModelGraphBuilder.java:76-85 | Edge creation for one vertex only adds edges and only changes `field` properties, even when it aborts. |
| ModelGraphBuilder.EdgesFrom | core/src/main/java/net/osgiliath/migrator/core/modelgraph/ModelGraphBuilder.java:69-86 | Edge creation for the vertex list only adds edges and only changes `field` properties, even when it aborts. |
| ModelGraphBuilder.TargetEdgeVertex | core/src/main/java/net/osgiliath/migrator/core/modelgraph/ModelGraphBuilder.java:116-125 | Returns the first vertex with the target type and the id, and sets that vertex's `field` to the field name. It fails, with the store untouched, exactly when no such vertex exists. |
| ModelGraphBuilder.RelatedVerticesOf | core/src/main/java/net/osgiliath/migrator/core/modelgraph/ModelGraphBuilder.java:88-103 | Normalises nothing, one entity or a collection, drops null ids and looks up the rest in order. Its result equals `RelatedVertices`, and exactly the vertices it looked up are marked. |
| ModelGraphBuilder.AddEdges | core/src/main/java/net/osgiliath/migrator/core/modelgraph/ModelGraphBuilder.java:82-85 | Appends one edge per target, in order, from the source vertex, labelled with the field name and carrying the metamodel field. |
| ModelGraphBuilder.CreateVertexEdges | core/src/main/java/net/osgiliath/migrator/core/modelgraph/ModelGraphBuilder.java:72-85 | For each outbound field edge in turn, it resolves the targets and then adds the edges. The resulting store and error are those of `EdgesFromFields`, including the partial state on abort. |
| ModelGraphBuilder.CreateEdges | core/src/main/java/net/osgiliath/migrator/core/modelgraph/ModelGraphBuilder.java:69-86 | Phase 2 runs over the vertex list captured at its start. The resulting store and error are those of `EdgesFrom`. |
| ModelGraphBuilder.ModelGraphFromMetamodelGraph | core/src/main/java/net/osgiliath/migrator/core/modelgraph/ModelGraphBuilder.java:59-67 | Phase 1 completes before phase 2 starts, over all the vertices in the store. The store and error are those of `Build`. |
| ModelGraphProperties.VertexCount | core/src/main/java/net/osgiliath/migrator/core/modelgraph/ModelGraphBuilder.java:127-142 | Phase 1 adds exactly as many vertices as entities were imported. |
| ModelGraphProperties.VertexAt | core/src/main/java/net/osgiliath/migrator/core/modelgraph/ModelGraphBuilder.java:128-140 | The j-th entity of the i-th type becomes the vertex at position (entities of earlier types) + j. |
| ModelGraphProperties.VertexOrigin | core/src/main/java/net/osgiliath/migrator/core/modelgraph/ModelGraphBuilder.java:128-140 | Every position phase 1 fills holds the vertex of one imported entity. |
| ModelGraphProperties.EntityHasVertex | core/src/main/java/net/osgiliath/migrator/core/modelgraph/ModelGraphBuilder.java:133-139 | Every imported entity has a vertex with its type's label, its id, the entity, its metamodel vertex, its additional properties and no `field`. |
| ModelGraphProperties.VertexHasEntity | core/src/main/java/net/osgiliath/migrator/core/modelgraph/ModelGraphBuilder.java:133-139 | Every phase-1 vertex is the vertex of an imported entity of one of the types, and its properties are that entity's. |
| ModelGraphProperties.ImportedTargetResolves | core/src/main/java/net/osgiliath/migrator/core/modelgraph/ModelGraphBuilder.java:105-107 | The target id of a related entity is read with the field edge's target type. For an entity that phase 1 imported under that type, the id is non-null and its lookup finds a vertex. |
| ModelGraphProperties.DuplicateIdsKept | core/src/main/java/net/osgiliath/migrator/core/modelgraph/ModelGraphBuilder.java:131-141 | Two entities of one type with the same id give two distinct vertices with equal label and id. Nothing rejects them. |
| ModelGraphProperties.TargetIdsCount | core/src/main/java/net/osgiliath/migrator/core/modelgraph/ModelGraphBuilder.java:93-95 | Dropping null ids leaves one id per related entity whose id is non-null. |
| ModelGraphProperties.ResolveMembersSpec | core/src/main/java/net/osgiliath/migrator/core/modelgraph/ModelGraphBuilder.java:93-124 | A field resolves exactly when every non-null related id has a vertex of the target type. Then there is one target per non-null id, in order, each the first matching vertex. A failure names a non-null id with no vertex, and the vertices looked up before it are the first matches of the ids before that one, in order. |
| ModelGraphProperties.LookedUpMatch | core/src/main/java/net/osgiliath/migrator/core/modelgraph/ModelGraphBuilder.java:116-124 | Every vertex looked up for a field, whether or not all the lookups succeed, has the field's target type and one of its non-null related ids. |
| ModelGraphProperties.RelatedVerticesCount | core/src/main/java/net/osgiliath/migrator/core/modelgraph/ModelGraphBuilder.java:92-95 | A resolved field with n related entities yields n targets minus the number of null ids. |
| ModelGraphProperties.RelatedVerticesByShape | core/src/main/java/net/osgiliath/migrator/core/modelgraph/ModelGraphBuilder.java:88-107 | No value gives no targets. A single entity gives no target when its target-type id is null. Otherwise it gives the first matching vertex, or fails when there is none. A collection is resolved member by member. |
| ModelGraphProperties.NullIdMemberDropped | core/src/main/java/net/osgiliath/migrator/core/modelgraph/ModelGraphBuilder.java:109-114 | Removing a related entity whose id is null leaves the field's outcome unchanged. |
| ModelGraphProperties.MarkTargetsField | core/src/main/java/net/osgiliath/migrator/core/modelgraph/ModelGraphBuilder.java:123 | After marking, a vertex that no edge targets keeps its `field`. Any other vertex carries the label of the last edge into it. |
| ModelGraphProperties.ResolvedIsFoundTargets | core/src/main/java/net/osgiliath/migrator/core/modelgraph/ModelGraphBuilder.java:93-95 | A resolved field's targets are the first matching vertices of its non-null ids, in order. |
| ModelGraphProperties.FieldOutcome | core/src/main/java/net/osgiliath/migrator/core/modelgraph/ModelGraphBuilder.java:76-80 | A field resolves exactly when its targets are present, and its edges are then those of the reference definition. |
| ModelGraphProperties.FieldsSucceed | core/src/main/java/net/osgiliath/migrator/core/modelgraph/ModelGraphBuilder.java:72-85 | Edge creation over a vertex's remaining fields succeeds exactly when every non-null related id of those fields has a vertex of the target type. |
| ModelGraphProperties.FieldsResult | core/src/main/java/net/osgiliath/migrator/core/modelgraph/ModelGraphBuilder.java:72-85 | One vertex's edge creation succeeds exactly when all its fields' targets are present. Then it adds `VertexEdgesFrom` and marks their targets. |
| ModelGraphProperties.EdgePhaseSucceeds | core/src/main/java/net/osgiliath/migrator/core/modelgraph/ModelGraphBuilder.java:69-86 | Edge creation over the remaining vertices succeeds exactly when every non-null related id of their fields has a vertex of the target type. |
| ModelGraphProperties.EdgePhaseResult | core/src/main/java/net/osgiliath/migrator/core/modelgraph/ModelGraphBuilder.java:69-86 | Phase 2 succeeds exactly when every target is present. Then it adds exactly `IntendedEdges` and marks their targets. |
| ModelGraphProperties.FieldsAbortCause | core/src/main/java/net/osgiliath/migrator/core/modelgraph/ModelGraphBuilder.java:116-124 | An abort in one vertex's fields names a non-null related id of one of them that has no vertex of the target type. |
| ModelGraphProperties.AbortCause | core/src/main/java/net/osgiliath/migrator/core/modelgraph/ModelGraphBuilder.java:69-86 | An abort of phase 2 names a dangling reference: a non-null related id of some vertex and field with no vertex of the target type. |
| ModelGraphProperties.FieldsLeaveFields | core/src/main/java/net/osgiliath/migrator/core/modelgraph/ModelGraphBuilder.java:72-85 | Whether one vertex's edge creation succeeds or aborts, every edge it adds starts at that vertex and follows one of its outbound field edges to a vertex of the target type with a related id. Every `field` it changes names an outbound field of that vertex whose related ids include the changed vertex's id. |
| ModelGraphProperties.EdgePhaseLeavesFields | core/src/main/java/net/osgiliath/migrator/core/modelgraph/ModelGraphBuilder.java:69-86 | Whether phase 2 succeeds or aborts, every edge it adds runs from a vertex along one of its type's outbound field edges to a vertex of the target type with a related id. Every `field` it changes names an outbound field of some vertex that relates to the vertex changed. |
| ModelGraphProperties.FoundTargetsMatch | core/src/main/java/net/osgiliath/migrator/core/modelgraph/ModelGraphBuilder.java:119-122 | Every found target has the field's target type and one of the looked-up ids. |
| ModelGraphProperties.VertexEdgesOfField | core/src/main/java/net/osgiliath/migrator/core/modelgraph/ModelGraphBuilder.java:76-85 | Every intended edge of a vertex starts at that vertex and follows an outbound field edge of its type, to a vertex of the target type whose id is a related id. |
| ModelGraphProperties.IntendedEdgesOfField | core/src/main/java/net/osgiliath/migrator/core/modelgraph/ModelGraphBuilder.java:82-85 | Every intended edge follows an outbound field edge of its source's type. Its label is the field name, its `field` is the metamodel field, and it ends at a vertex of the target type whose id is a related id. |
| ModelGraphProperties.BuildIntoEmptyStore | core/src/main/java/net/osgiliath/migrator/core/modelgraph/ModelGraphBuilder.java:59-67 | A build into an empty store gives one vertex per imported entity and changes only `field` properties in phase 2. It succeeds exactly when every target is present, and then its edges are exactly `IntendedEdges`. Otherwise it aborts on a dangling reference. Either way, every edge in the store follows an outbound field edge to a vertex of the target type with a related id, and every `field` set names such a field. |

Behaviour of the code that the model keeps:

- A related entity whose non-null id has no vertex is not skipped.
  `.next()` on the empty traversal (ModelGraphBuilder.java:124) throws and
  ends the build. The model returns `NoSuchTargetVertex` and aborts. The
  vertices looked up before the failure keep their marks, and the edges
  already added stay.
- Phase 1 makes no duplicate check (lines 131-141). Two entities of one
  type with the same id give two vertices (`DuplicateIdsKept`), and a
  lookup then yields the first of them in store order.
- The lookup of a target also sets the target vertex's `field` property to
  the field name (line 123). A vertex targeted by several edges keeps the
  label of the last one (`MarkTargetsField`).

## Left out

- The collaborators are parameters (`Collaborators`): the entity importer,
  `getId`, `getAdditionalModelVertexProperties`, `getOutboundFieldEdges`
  and the relationship evaluator. Their code is not part of this model.
- The relationship evaluator receives the graph traversal source in the
  code (line 91). The model passes it only the entity and the field edge,
  so an evaluator that reads the graph is not modelled.
- A null id of an imported entity in phase 1 (line 133) is excluded by the
  `Identified` precondition. The behaviour of the graph library on a null
  property value is not modelled.
- Additional properties whose keys clash with `id`, `metamodelVertex`,
  `entity` or `field` would overwrite those properties in the code. The
  model keeps the additional properties in their own map.
- Every iteration order is taken to be one fixed sequence order: the
  metamodel's vertex set (line 128), the importer's results (line 129),
  the outbound field edges of a type (a set of graph edges, line 76) and
  the members of a collection value (which may be a `Set`, line 93). The
  graph's vertex order is taken to be insertion order: `AddVertex` appends,
  and `FindVertex` and `CreateEdges` scan that sequence, whereas the graph
  library's `V()` does not promise insertion order. These orders decide
  which of two same-id vertices a lookup yields, which `field` mark a
  vertex keeps and which dangling reference the error names. The model
  does not cover other orders.
- Logging, the read-only source transaction (line 59) and the graph
  traversal provider are not modelled.
- A collection value with a null member: `getId` on the null member
  (line 106) throws a null-pointer exception that ends the build. The
  model's collection members are entities, never null, so this error path
  is not modelled.
- Edge identity and the graph library's element ids are not modelled:
  vertices are positions and edges are records.
- The constant `field_name` (line 50) is declared but never used by
  the builder, so it has no counterpart.
