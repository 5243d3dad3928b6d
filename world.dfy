/**
 * The second World (src/world/world.ts): the same scene coordinator, except
 * that `add` also accepts CSS3D objects and the gizmo is driven through a
 * TransformController it delegates to.
 */
module ControllerWorld {
  import opened Wrappers
  import opened Sequences
  import opened Three
  import opened Host
  import opened Intersection
  import opened SceneGraph
  import opened TransformController

  class World {
    /** The scene root's children. Lights and the gizmo's own node are not modelled. */
    var scene: set<Object3D>
    const transformController: TransformController
    /** The Intersector singleton slot `add` and `remove` consult. */
    const intersectors: IntersectorSingleton<Element>

    ghost predicate Valid()
      reads this, intersectors, intersectors.instance
    {
      intersectors.Valid()
    }

    /** The parts of the constructor that matter here: an empty scene and a fresh controller. */
    constructor (intersectors: IntersectorSingleton<Element>)
      ensures this.intersectors == intersectors && scene == {}
      ensures fresh(transformController) && fresh(transformController.transformControl)
      ensures transformController.transformControl.State() == InitialGizmo
    {
      this.intersectors := intersectors;
      scene := {};
      transformController := new TransformController();
    }

    /**
     * The lighting pass over the nodes the scene traversal visits: every standard-material mesh
     * gets the environment map and casts and receives shadows; no other node and no other
     * attribute changes.
     */
    method UpdateAllMaterials(nodes: seq<Object3D>)
      modifies nodes
      ensures forall n :: n in nodes ==> n.shading == Relit(StandardMesh(n), old(n.shading))
      ensures forall n :: n in nodes ==> n.position == old(n.position) && n.scale == old(n.scale)
    {
      for i := 0 to |nodes|
        invariant forall n :: n in nodes[..i] ==> n.shading == Relit(StandardMesh(n), old(n.shading))
        invariant forall n :: n in nodes && n !in nodes[..i] ==> n.shading == old(n.shading)
        invariant forall n :: n in nodes ==> n.position == old(n.position) && n.scale == old(n.scale)
      {
        var child := nodes[i];
        if child.isMesh && child.standardMaterial {
          child.shading := Shading(true, true, true);
        }
        assert nodes[..i + 1] == nodes[..i] + [child];
      }
      assert nodes[..|nodes|] == nodes;
    }

    /**
     * Puts the element's world object, or the mesh or CSS3D object itself, into the scene;
     * registers the element with the Intersector exactly when it exposes `clickHandler`; then
     * relights `traversal`, the nodes `scene.traverse` visits, which include every child of the
     * scene and the new node. Only the registry changes in the Intersector: its hover list and
     * callbacks stay.
     */
    method Add(e: Element, traversal: seq<Object3D>)
      requires Valid() && WellFormed(e)
      requires forall n :: n in scene + {InsertedNode(e)} ==> n in traversal
      modifies this`scene, intersectors.Repr(), traversal
      ensures Valid() && fresh(intersectors.Repr() - old(intersectors.Repr()))
      ensures scene == old(scene) + {old(InsertedNode(e))}
      ensures intersectors.Observers()
           == if HasClickHandler(e) then Attached(old(intersectors.Observers()), e) else old(intersectors.Observers())
      ensures old(intersectors.instance) != null ==>
        intersectors.instance == old(intersectors.instance)
        && intersectors.instance.intercepted == old(intersectors.instance.intercepted)
        && intersectors.instance.trace == old(intersectors.instance.trace)
      ensures old(intersectors.instance) == null && !HasClickHandler(e) ==> intersectors.instance == null
      ensures old(intersectors.instance) == null && HasClickHandler(e) ==>
        intersectors.instance != null && fresh(intersectors.instance)
        && intersectors.instance.intercepted == [] && intersectors.instance.trace == []
        && intersectors.instance.camera == None
      ensures forall n :: n in old(scene) + {old(InsertedNode(e))} ==> n.shading == Relit(StandardMesh(n), old(n.shading))
      ensures forall n :: n in traversal ==> n.shading == Relit(StandardMesh(n), old(n.shading))
      ensures forall n :: n in traversal ==> n.position == old(n.position) && n.scale == old(n.scale)
    {
      var node := InsertedNode(e);
      scene := scene + {node};

      if HasClickHandler(e) {
        var intersector := intersectors.GetInstance(None);
        intersector.Attach(e);
        assert intersectors.instance == intersector;
      }
      UpdateAllMaterials(traversal);
    }

    /** Unregisters the element exactly when it exposes `clickHandler`, then takes its node out of the scene. */
    method Remove(e: Element)
      requires Valid() && WellFormed(e) && !e.Css3d?
      modifies this`scene, intersectors.Repr()
      ensures Valid() && fresh(intersectors.Repr() - old(intersectors.Repr()))
      ensures intersectors.Observers()
           == if HasClickHandler(e) then RemoveFirst(old(intersectors.Observers()), e) else old(intersectors.Observers())
      ensures old(intersectors.instance) != null ==>
        intersectors.instance == old(intersectors.instance)
        && intersectors.instance.intercepted == old(intersectors.instance.intercepted)
        && intersectors.instance.trace == old(intersectors.instance.trace)
      ensures old(intersectors.instance) == null && !HasClickHandler(e) ==> intersectors.instance == null
      ensures old(intersectors.instance) == null && HasClickHandler(e) ==>
        intersectors.instance != null && fresh(intersectors.instance)
        && intersectors.instance.intercepted == [] && intersectors.instance.trace == []
        && intersectors.instance.camera == None
      ensures scene == old(scene) - {old(MeshOrWorldObject(e))}
    {
      var node := MeshOrWorldObject(e);
      if HasClickHandler(e) {
        var intersector := intersectors.GetInstance(None);
        intersector.Detach(e);
        assert intersectors.instance == intersector;
      }

      scene := scene - {node};
    }

    /** Hands the element to the controller; the World's own state does not change. */
    method ToggleTransformControl(e: Element, host: Host)
      requires HasGetWorldObject(e)
      modifies transformController.transformControl, host`cursor
      ensures unchanged(this)
      ensures transformController.transformControl.State()
           == Toggled(old(transformController.transformControl.State()), GetWorldObject(e))
      ensures host.cursor == Default
    {
      transformController.ToggleTransformControl(e, host);
    }

    /** Hands the element to the controller; the World's own state does not change. */
    method RemoveTransformControl(e: Element)
      requires HasGetWorldObject(e)
      modifies transformController.transformControl
      ensures unchanged(this)
      ensures transformController.transformControl.State()
           == Removed(old(transformController.transformControl.State()), GetWorldObject(e))
    {
      transformController.RemoveTransformControl(e);
    }
  }

  /** The static `World.instance` slot and `getInstance`. */
  class WorldSingleton {
    var instance: World?
    const intersectors: IntersectorSingleton<Element>

    constructor (intersectors: IntersectorSingleton<Element>)
      ensures instance == null && this.intersectors == intersectors
    {
      instance := null;
      this.intersectors := intersectors;
    }

    /** Creates the World on the first call and returns that same World on every later one. */
    method GetInstance() returns (w: World)
      modifies this`instance
      ensures instance == w
      ensures old(instance) != null ==> w == old(instance)
      ensures old(instance) == null ==> fresh(w) && w.scene == {} && w.intersectors == intersectors
      ensures old(instance) == null ==>
        fresh(w.transformController) && fresh(w.transformController.transformControl)
        && w.transformController.transformControl.State() == InitialGizmo
    {
      if instance == null {
        instance := new World(intersectors);
      }
      w := instance;
    }
  }

  /** Adding then removing an element in neither the scene nor the registry restores both. */
  method AddThenRemove(w: World, e: Element, traversal: seq<Object3D>)
    requires w.Valid() && WellFormed(e) && !e.Css3d?
    requires MeshOrWorldObject(e) !in w.scene && e !in w.intersectors.Observers()
    requires forall n :: n in w.scene + {MeshOrWorldObject(e)} ==> n in traversal
    modifies w`scene, w.intersectors.Repr(), traversal
    ensures w.Valid()
    ensures w.scene == old(w.scene)
    ensures w.intersectors.Observers() == old(w.intersectors.Observers())
  {
    NodeSelectionsAgree(e);
    ghost var node := MeshOrWorldObject(e);
    AddRemoveRestores(w.scene, w.intersectors.Observers(), e, node);
    w.Add(e, traversal);
    assert MeshOrWorldObject(e) == node;
    w.Remove(e);
  }
}
