/**
 * What the World accepts and how it treats it: bare meshes and CSS3D objects are
 * added as themselves, world elements through their world object; only elements
 * exposing `clickHandler` are routed through the Intersector. Also the lighting
 * pass `updateAllMaterials` applies to each node.
 */
module SceneGraph {
  import opened Sequences
  import opened Three
  import opened Gltf
  import opened Intersection

  /**
   * Any other object implementing WorldElement: a fixed world object, and a `clickHandler`
   * it may or may not define. It is an object, so two of them are the same element only
   * when they are the same reference, as `includes` and `indexOf` compare.
   */
  class WorldElement {
    const root: Object3D
    const clickHandler: bool

    constructor (root: Object3D, clickHandler: bool)
      ensures this.root == root && this.clickHandler == clickHandler
    {
      this.root := root;
      this.clickHandler := clickHandler;
    }
  }

  /**
   * Something passed to World.add / World.remove: a bare THREE.Mesh, a bare
   * CSS3DObject, a GltfModel, or another world element. Every case wraps a
   * reference, so equality of elements is identity of objects.
   */
  datatype Element =
    | Mesh(node: Object3D)
    | Css3d(node: Object3D)
    | Model(model: GltfModel)
    | Widget(element: WorldElement)

  /** `'clickHandler' in e`: a GltfModel always defines it, bare nodes never do. */
  predicate HasClickHandler(e: Element) {
    e.Model? || (e.Widget? && e.element.clickHandler)
  }

  /**
   * The tag agrees with the node: `Mesh` wraps a node that is `instanceof THREE.Mesh`, and
   * a CSS3D object is not one.
   */
  predicate WellFormed(e: Element) {
    (e.Mesh? ==> e.node.isMesh) && (e.Css3d? ==> !e.node.isMesh)
  }

  /** `'getWorldObject' in e`. */
  predicate HasGetWorldObject(e: Element) {
    e.Model? || e.Widget?
  }

  function GetWorldObject(e: Element): Object3D
    requires HasGetWorldObject(e)
    reads if e.Model? then {e.model} else {}
  {
    if e.Model? then e.model.object3D else e.element.root
  }

  /** The node src/world/world.ts:156 adds: the world object if there is one, else the thing itself. */
  function InsertedNode(e: Element): Object3D
    reads if e.Model? then {e.model} else {}
  {
    if HasGetWorldObject(e) then GetWorldObject(e) else e.node
  }

  /** The node `object instanceof THREE.Mesh ? object : object.getWorldObject()` selects. */
  function MeshOrWorldObject(e: Element): Object3D
    requires !e.Css3d?
    reads if e.Model? then {e.model} else {}
  {
    if e.Mesh? then e.node else GetWorldObject(e)
  }

  /** The two ways the sources pick an element's node agree wherever both apply. */
  lemma NodeSelectionsAgree(e: Element)
    requires !e.Css3d?
    ensures InsertedNode(e) == MeshOrWorldObject(e)
    ensures e.Mesh? ==> InsertedNode(e) == e.node
    ensures HasGetWorldObject(e) ==> InsertedNode(e) == GetWorldObject(e)
  {
  }

  /** What the lighting pass makes of a node's shading: environment map and shadows on standard meshes. */
  function Relit(standardMesh: bool, s: Shading): (r: Shading)
    ensures standardMesh ==> r.envMapped && r.castShadow && r.receiveShadow
    ensures !standardMesh ==> r == s
  {
    if standardMesh then Shading(true, true, true) else s
  }

  /** Running the lighting pass twice is the same as running it once. */
  lemma RelitIdempotent(standardMesh: bool, s: Shading)
    ensures Relit(standardMesh, Relit(standardMesh, s)) == Relit(standardMesh, s)
  {
  }

  /** `child instanceof THREE.Mesh && child.material instanceof THREE.MeshStandardMaterial`. */
  predicate StandardMesh(n: Object3D) {
    n.isMesh && n.standardMaterial
  }

  /**
   * Adding an element that is neither in the scene nor registered, then removing it, leaves
   * both the scene and the Intersector's registry as they were.
   */
  lemma AddRemoveRestores(scene: set<Object3D>, observers: seq<Element>, e: Element, node: Object3D)
    requires node !in scene && e !in observers
    ensures (scene + {node}) - {node} == scene
    ensures RemoveFirst(if HasClickHandler(e) then Attached(observers, e) else observers,
                        e) == observers
  {
    if HasClickHandler(e) {
      DetachUndoesAttach(observers, e);
    }
  }
}
