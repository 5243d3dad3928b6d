/**
 * The few pieces of three.js the core touches, with the minimal semantics it relies on:
 * scene-graph nodes (Object3D) with the attributes the core reads or writes, and the
 * TransformControls gizmo as a record with attach/detach.
 */
module Three {
  import opened Wrappers

  datatype Vec3 = Vec3(x: real, y: real, z: real)

  /** The lighting-related attributes `updateAllMaterials` writes: envMap, castShadow, receiveShadow. */
  datatype Shading = Shading(envMapped: bool, castShadow: bool, receiveShadow: bool)

  /** three.js defaults: no environment map, no shadows. */
  const Unlit := Shading(false, false, false)

  /** An opaque camera handle. */
  datatype Camera = Camera(id: nat)

  /**
   * A scene-graph node: whether it is a THREE.Mesh whose material is a
   * MeshStandardMaterial never changes; its position, scale and shading do.
   * Children are not modelled (see README).
   */
  class Object3D {
    const isMesh: bool
    const standardMaterial: bool
    var position: Vec3
    var scale: Vec3
    var shading: Shading

    /** `new THREE.Object3D()`: an empty group at the origin with unit scale. */
    constructor Empty()
      ensures !isMesh && !standardMaterial
      ensures position == Vec3(0.0, 0.0, 0.0) && scale == Vec3(1.0, 1.0, 1.0) && shading == Unlit
    {
      isMesh, standardMaterial := false, false;
      position, scale, shading := Vec3(0.0, 0.0, 0.0), Vec3(1.0, 1.0, 1.0), Unlit;
    }

    /** `object.clone()`: a new node with the same attributes (a mesh shares its material, so its shading too). */
    constructor Copy(src: Object3D)
      ensures isMesh == src.isMesh && standardMaterial == src.standardMaterial
      ensures position == src.position && scale == src.scale && shading == src.shading
    {
      isMesh, standardMaterial := src.isMesh, src.standardMaterial;
      position, scale, shading := src.position, src.scale, src.shading;
    }
  }

  /** TransformControls modes; the core only ever sets Translate and Rotate. */
  datatype Mode = Translate | Rotate | Scale

  /** The observable state of a TransformControls gizmo. */
  datatype Gizmo = Gizmo(attached: Option<Object3D>, mode: Mode,
                         showX: bool, showY: bool, showZ: bool, dragging: bool)

  /** The gizmo's own `attach(o)` and `detach()`. */
  function AttachTo(g: Gizmo, o: Object3D): Gizmo { g.(attached := Some(o)) }
  function Detached(g: Gizmo): Gizmo { g.(attached := None) }

  /** The shared manipulation gizmo, as a record whose fields the core updates. */
  class TransformControls {
    var attached: Option<Object3D>  // `object` in three.js
    var mode: Mode
    var showX: bool
    var showY: bool
    var showZ: bool
    var dragging: bool

    function State(): Gizmo
      reads this
    {
      Gizmo(attached, mode, showX, showY, showZ, dragging)
    }

    /** A new gizmo: attached to nothing, translating, all axes shown, not dragging. */
    constructor ()
      ensures State() == Gizmo(None, Translate, true, true, true, false)
    {
      attached, mode := None, Translate;
      showX, showY, showZ, dragging := true, true, true, false;
    }

    method Attach(o: Object3D)
      modifies this`attached
      ensures State() == AttachTo(old(State()), o)
    {
      attached := Some(o);
    }

    method Detach()
      modifies this`attached
      ensures State() == Detached(old(State()))
    {
      attached := None;
    }

    method SetMode(m: Mode)
      modifies this`mode
      ensures State() == old(State()).(mode := m)
    {
      mode := m;
    }

    /** The gizmo's own pointer interaction starting or ending a drag (the `dragging-changed` event). */
    method SetDragging(d: bool)
      modifies this`dragging
      ensures State() == old(State()).(dragging := d)
    {
      dragging := d;
    }
  }
}
