/**
 * GltfModel: a placeable model. It owns a world object (a scene-graph node the
 * asynchronous loader later replaces), an optional `onClick` and `onClickOut`
 * supplied by the caller, and handlers that set the cursor or run those callbacks.
 */
module Gltf {
  import opened Wrappers
  import opened Three
  import opened Host

  class GltfModel {
    const model: string
    var object3D: Object3D  // `object` in the source
    var onClick: Option<Handler>
    var onClickOut: Option<Handler>

    /** A model with the given identifier, a fresh empty world object and no callbacks. */
    constructor (model: string)
      ensures GetModel() == model
      ensures fresh(object3D) && !object3D.isMesh && !object3D.standardMaterial && object3D.shading == Unlit
      ensures object3D.position == Vec3(0.0, 0.0, 0.0) && object3D.scale == Vec3(1.0, 1.0, 1.0)
      ensures onClick == None && onClickOut == None
    {
      this.model := model;
      object3D := new Object3D.Empty();
      onClick, onClickOut := None, None;
    }

    function GetWorldObject(): Object3D
      reads this
    {
      object3D
    }

    /** `getModel`: the constructor's identifier; no method changes it, since it is a constant. */
    function GetModel(): string {
      model
    }

    method SetWorldObject(o: Object3D)
      modifies this`object3D
      ensures GetWorldObject() == o
    {
      object3D := o;
    }

    /** Moves the current world object; the model's own fields stay as they are. */
    method SetPosition(p: Vec3)
      modifies object3D`position
      ensures object3D.position == p
    {
      object3D.position := Vec3(p.x, p.y, p.z);
    }

    /** Scales the current world object uniformly. */
    method SetScale(s: real)
      modifies object3D`scale
      ensures object3D.scale == Vec3(s, s, s)
    {
      object3D.scale := Vec3(s, s, s);
    }

    /** Hover-enter: the pointer cursor, but only for a clickable model. */
    method MouseEnterHandler(host: Host)
      modifies host`cursor
      ensures host.cursor == if onClick == None then old(host.cursor) else Pointer
    {
      if onClick == None {
        return;
      }
      host.cursor := Pointer;
    }

    /** Hover-out: the default cursor, but only for a clickable model. */
    method MouseOutHandler(host: Host)
      modifies host`cursor
      ensures host.cursor == if onClick == None then old(host.cursor) else Default
    {
      if onClick == None {
        return;
      }
      host.cursor := Default;
    }

    /** Runs `onClick` when there is one, and nothing otherwise. */
    method ClickHandler(host: Host)
      modifies host`invoked
      ensures onClick.Some? ==> host.invoked == old(host.invoked) + [onClick.value]
      ensures onClick.None? ==> host.invoked == old(host.invoked)
    {
      if onClick.Some? {
        host.invoked := host.invoked + [onClick.value];
      }
    }

    /** Runs `onClickOut` when there is one, and nothing otherwise. */
    method ClickOutHandler(host: Host)
      modifies host`invoked
      ensures onClickOut.Some? ==> host.invoked == old(host.invoked) + [onClickOut.value]
      ensures onClickOut.None? ==> host.invoked == old(host.invoked)
    {
      if onClickOut.Some? {
        host.invoked := host.invoked + [onClickOut.value];
      }
    }

    /**
     * A new model with the same identifier and a copy of the world object, sharing no
     * mutable state with this one; the callbacks are not copied.
     */
    method Clone() returns (c: GltfModel)
      ensures fresh(c) && fresh(c.object3D)
      ensures c.GetModel() == GetModel() && c.onClick == None && c.onClickOut == None
      ensures c.object3D.isMesh == object3D.isMesh && c.object3D.standardMaterial == object3D.standardMaterial
      ensures c.object3D.position == object3D.position && c.object3D.scale == object3D.scale
      ensures c.object3D.shading == object3D.shading
    {
      c := new GltfModel(GetModel());
      c.object3D := new Object3D.Copy(object3D);
    }
  }

  /** Moving a clone leaves the original model's world object where it was. */
  method MoveClone(m: GltfModel, p: Vec3) returns (c: GltfModel)
    ensures fresh(c) && c.object3D.position == p
    ensures m.object3D == old(m.object3D) && m.object3D.position == old(m.object3D.position)
  {
    c := m.Clone();
    c.SetPosition(p);
  }
}
