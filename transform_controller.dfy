/**
 * The transform controller: the one shared manipulation gizmo and the rule that
 * decides its mode and axes when an element asks for it (toggle) or lets it go
 * (remove). The rule is stated once, on gizmo states, by Toggled and Removed; the
 * controller's methods, and the copy of them inlined in src/world.ts, are proved
 * to follow it.
 */
module TransformController {
  import opened Wrappers
  import opened Three
  import opened Host
  import opened SceneGraph

  /**
   * `toggleTransformControl` for the target whose world object is `o`: on `o` in translate
   * mode it switches to rotate about Y only; on `o` in rotate mode, or on anything other
   * than `o`, it switches to translate in X and Z only; in both cases it detaches and then
   * attaches `o`. On `o` in scale mode (which the core itself never sets) it only attaches.
   */
  function Toggled(g: Gizmo, o: Object3D): (r: Gizmo)
    ensures r.attached == Some(o) && r.dragging == g.dragging
    ensures g.attached == Some(o) && g.mode == Translate ==>
      r.mode == Rotate && !r.showX && r.showY && !r.showZ
    ensures (g.attached == Some(o) && g.mode == Rotate) || g.attached != Some(o) ==>
      r.mode == Translate && r.showX && !r.showY && r.showZ
    ensures g.attached == Some(o) && g.mode == Scale ==> r == g
  {
    if g.attached == Some(o) && g.mode == Translate then
      AttachTo(Detached(g.(mode := Rotate, showX := false, showY := true, showZ := false)), o)
    else if (g.attached == Some(o) && g.mode == Rotate) || g.attached != Some(o) then
      AttachTo(Detached(g.(mode := Translate, showX := true, showY := false, showZ := true)), o)
    else
      AttachTo(g, o)
  }

  /**
   * `removeTransformControl` for the target whose world object is `o`: detaches exactly when
   * the gizmo is on `o` and no drag is in progress; nothing else ever changes.
   */
  function Removed(g: Gizmo, o: Object3D): (r: Gizmo)
    ensures r.attached == None <==> g.attached == None || (g.attached == Some(o) && !g.dragging)
    ensures r.attached != None ==> r.attached == g.attached
    ensures r.mode == g.mode && r.showX == g.showX && r.showY == g.showY && r.showZ == g.showZ
    ensures r.dragging == g.dragging
  {
    if g.attached == Some(o) && !g.dragging then Detached(g) else g
  }

  /** Mid-drag, removing leaves the gizmo exactly as it is, whatever the target. */
  lemma RemoveIsDragSafe(g: Gizmo, o: Object3D)
    requires g.dragging
    ensures Removed(g, o) == g
  {
  }

  /** Removing on behalf of an element the gizmo is not on changes nothing. */
  lemma RemoveOtherIsNoOp(g: Gizmo, o: Object3D)
    requires g.attached != Some(o)
    ensures Removed(g, o) == g
  {
  }

  /**
   * Toggling the same target again alternates translate and rotate; coming from another
   * target (or none) the first toggle gives translate, the second rotate, the third translate.
   */
  lemma ToggleCycles(g: Gizmo, o: Object3D)
    requires g.mode != Scale
    ensures Toggled(Toggled(g, o), o).mode != Toggled(g, o).mode
    ensures Toggled(Toggled(Toggled(g, o), o), o).mode == Toggled(g, o).mode
    ensures g.attached != Some(o) ==>
      Toggled(g, o).mode == Translate && Toggled(Toggled(g, o), o).mode == Rotate
  {
  }

  /** The gizmo's history: toggles and removals by elements, and drags started or ended on the gizmo. */
  datatype Op = Toggle(target: Object3D) | Remove(target: Object3D) | Drag(on: bool)

  function Step(g: Gizmo, op: Op): Gizmo {
    match op
    case Toggle(o) => Toggled(g, o)
    case Remove(o) => Removed(g, o)
    case Drag(on) => g.(dragging := on)
  }

  /** The gizmo after a history of operations, first to last. */
  function Run(g: Gizmo, ops: seq<Op>): Gizmo
    decreases |ops|
  {
    if ops == [] then g else Run(Step(g, ops[0]), ops[1..])
  }

  lemma {:induction false} RunSnoc(g: Gizmo, ops: seq<Op>, op: Op)
    ensures Run(g, ops + [op]) == Step(Run(g, ops), op)
    decreases |ops|
  {
    if ops == [] {
      assert [] + [op] == [op];
      assert [op][1..] == [];
    } else {
      RunSnoc(Step(g, ops[0]), ops[1..], op);
      assert (ops + [op])[1..] == ops[1..] + [op];
    }
  }

  /** After any history, the last toggle's target is the one attached, if the history ends in a toggle. */
  lemma LastToggleWins(g: Gizmo, ops: seq<Op>, o: Object3D)
    ensures Run(g, ops + [Toggle(o)]).attached == Some(o)
  {
    RunSnoc(g, ops, Toggle(o));
  }

  /** Only the initial target or a toggled one can ever be attached: removal and drags attach nothing. */
  lemma {:induction false} AttachedWasToggled(g: Gizmo, ops: seq<Op>, x: Object3D)
    requires Run(g, ops).attached == Some(x)
    ensures g.attached == Some(x) || Toggle(x) in ops
    decreases |ops|
  {
    if ops != [] {
      AttachedWasToggled(Step(g, ops[0]), ops[1..], x);
      if Step(g, ops[0]).attached == Some(x) && !ops[0].Toggle? {
        assert g.attached == Some(x);
      }
    }
  }

  /** Started in translate or rotate mode, the gizmo never gets into scale mode. */
  lemma {:induction false} ModeStaysTranslateOrRotate(g: Gizmo, ops: seq<Op>)
    requires g.mode != Scale
    ensures Run(g, ops).mode != Scale
    decreases |ops|
  {
    if ops != [] {
      ModeStaysTranslateOrRotate(Step(g, ops[0]), ops[1..]);
    }
  }

  /** A new TransformControls: attached to nothing, translating, all axes shown, not dragging. */
  const InitialGizmo := Gizmo(None, Translate, true, true, true, false)

  class TransformController {
    const transformControl: TransformControls

    /** The camera and DOM element the gizmo is bound to are not modelled. */
    constructor ()
      ensures fresh(transformControl) && transformControl.State() == InitialGizmo
    {
      transformControl := new TransformControls();
    }

    method GetTransformControl() returns (c: TransformControls)
      ensures c == transformControl
    {
      c := transformControl;
    }

    method ToggleTransformControl(e: Element, host: Host)
      requires HasGetWorldObject(e)
      modifies transformControl, host`cursor
      ensures transformControl.State() == Toggled(old(transformControl.State()), GetWorldObject(e))
      ensures host.cursor == Default
    {
      var worldObject := GetWorldObject(e);
      if transformControl.attached == Some(worldObject) && transformControl.mode == Translate {
        transformControl.SetMode(Rotate);
        transformControl.showX := false;
        transformControl.showY := true;
        transformControl.showZ := false;

        transformControl.Detach();
      } else if (transformControl.attached == Some(worldObject) && transformControl.mode == Rotate)
             || transformControl.attached != Some(worldObject) {
        transformControl.SetMode(Translate);
        transformControl.showX := true;
        transformControl.showY := false;
        transformControl.showZ := true;

        transformControl.Detach();
      }

      transformControl.Attach(worldObject);
      host.cursor := Default;
    }

    method RemoveTransformControl(e: Element)
      requires HasGetWorldObject(e)
      modifies transformControl
      ensures transformControl.State() == Removed(old(transformControl.State()), GetWorldObject(e))
    {
      var worldObject := GetWorldObject(e);
      if transformControl.attached == Some(worldObject) && !transformControl.dragging {
        transformControl.Detach();
      }
    }
  }

  /** Two toggles in a row on the same element: translate, then rotate, then translate. */
  method ToggleTwice(c: TransformController, e: Element, host: Host)
    requires HasGetWorldObject(e)
    requires c.transformControl.attached == Some(GetWorldObject(e)) && c.transformControl.mode == Translate
    modifies c.transformControl, host`cursor
    ensures c.transformControl.attached == Some(GetWorldObject(e)) && c.transformControl.mode == Translate
    ensures c.transformControl.dragging == old(c.transformControl.dragging)
  {
    c.ToggleTransformControl(e, host);
    assert c.transformControl.mode == Rotate;
    c.ToggleTransformControl(e, host);
  }
}
