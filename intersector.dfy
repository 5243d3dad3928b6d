/**
 * The Intersector: the process-wide registry of pointer observers and its two
 * event handlers. Hit-testing (the ray cast through the pointer position) is
 * abstracted to the set `hits` of observers the ray meets for one event, and
 * an observer's optional `onClickOut` to the set `withClickOut` of observers
 * that define it. Every callback the handlers make is appended to `trace`.
 */
module Intersection {
  import opened Wrappers
  import opened Sequences
  import opened Three

  /** One callback into an observer. */
  datatype Callback<O> = Click(o: O) | ClickOut(o: O) | MouseEnter(o: O) | MouseOut(o: O)

  // ---------------------------------------------------------------- attach

  /** `attach`: a registered observer is left alone, a new one goes at the end. */
  function Attached<O(==)>(observers: seq<O>, o: O): (r: seq<O>)
    ensures o in r
    ensures observers <= r && |r| <= |observers| + 1
    ensures forall y :: y in r ==> y in observers || y == o
    ensures NoDup(observers) ==> NoDup(r)
  {
    if o in observers then observers else observers + [o]
  }

  /** Attaching twice is the same as attaching once. */
  lemma AttachIdempotent<O>(observers: seq<O>, o: O)
    ensures Attached(Attached(observers, o), o) == Attached(observers, o)
  {
  }

  /** Detaching an observer that was just attached for the first time restores the registry. */
  lemma DetachUndoesAttach<O>(observers: seq<O>, o: O)
    requires o !in observers
    ensures RemoveFirst(Attached(observers, o), o) == observers
  {
    RemoveFirstAppended(observers, o);
  }

  // ----------------------------------------------------------------- click

  /** What one observer receives on pointer-down: `onClick` if hit, else `onClickOut` if it defines one. */
  function ClickReaction<O>(o: O, hits: set<O>, withClickOut: set<O>): seq<Callback<O>> {
    if o in hits then [Click(o)]
    else if o in withClickOut then [ClickOut(o)]
    else []
  }

  /** The callbacks of one pointer-down, observer by observer in registration order. */
  function ClickTrace<O>(observers: seq<O>, hits: set<O>, withClickOut: set<O>): seq<Callback<O>> {
    if observers == [] then []
    else
      ClickTrace(observers[..|observers| - 1], hits, withClickOut)
        + ClickReaction(observers[|observers| - 1], hits, withClickOut)
  }

  /** Taking one more observer of the registry adds that observer's reaction at the end. */
  lemma ClickTracePrefix<O>(observers: seq<O>, i: nat, hits: set<O>, withClickOut: set<O>)
    requires i < |observers|
    ensures ClickTrace(observers[..i + 1], hits, withClickOut)
         == ClickTrace(observers[..i], hits, withClickOut) + ClickReaction(observers[i], hits, withClickOut)
  {
    assert observers[..i + 1][..i] == observers[..i];
  }

  /** The callbacks of a concatenation of registries are those of the first followed by those of the second. */
  lemma {:induction false} ClickTraceConcat<O>(a: seq<O>, b: seq<O>, hits: set<O>, withClickOut: set<O>)
    ensures ClickTrace(a + b, hits, withClickOut) == ClickTrace(a, hits, withClickOut) + ClickTrace(b, hits, withClickOut)
  {
    if b == [] {
      assert a + b == a;
    } else {
      var n := |b| - 1;
      ClickTraceConcat(a, b[..n], hits, withClickOut);
      SplitLast(a, b);
    }
  }

  /** The callbacks for the first `k` observers all come before those for the later ones. */
  lemma ClickTraceSplit<O>(observers: seq<O>, k: nat, hits: set<O>, withClickOut: set<O>)
    requires k <= |observers|
    ensures ClickTrace(observers, hits, withClickOut)
         == ClickTrace(observers[..k], hits, withClickOut) + ClickTrace(observers[k..], hits, withClickOut)
  {
    assert observers == observers[..k] + observers[k..];
    ClickTraceConcat(observers[..k], observers[k..], hits, withClickOut);
  }

  /**
   * Who gets what on pointer-down: `onClick` exactly for the registered observers that are hit,
   * `onClickOut` exactly for the registered ones that are missed and define it, and no hover callback.
   */
  lemma {:induction false} ClickTraceFires<O>(observers: seq<O>, hits: set<O>, withClickOut: set<O>, o: O)
    ensures Click(o) in ClickTrace(observers, hits, withClickOut) <==> o in observers && o in hits
    ensures ClickOut(o) in ClickTrace(observers, hits, withClickOut)
        <==> o in observers && o !in hits && o in withClickOut
    ensures MouseEnter(o) !in ClickTrace(observers, hits, withClickOut)
    ensures MouseOut(o) !in ClickTrace(observers, hits, withClickOut)
  {
    if observers != [] {
      var n := |observers| - 1;
      ClickTraceFires(observers[..n], hits, withClickOut, o);
      assert observers == observers[..n] + [observers[n]];
    }
  }

  /** No observer receives both `onClick` and `onClickOut` from the same pointer-down. */
  lemma ClickNeverBoth<O>(observers: seq<O>, hits: set<O>, withClickOut: set<O>, o: O)
    ensures !(Click(o) in ClickTrace(observers, hits, withClickOut)
              && ClickOut(o) in ClickTrace(observers, hits, withClickOut))
  {
    ClickTraceFires(observers, hits, withClickOut, o);
  }

  /** Overlapping hits are not exclusive: every registered observer that is hit gets `onClick`. */
  lemma ClickNotExclusive<O>(observers: seq<O>, hits: set<O>, withClickOut: set<O>, a: O, b: O)
    requires a in observers && b in observers && a in hits && b in hits
    ensures Click(a) in ClickTrace(observers, hits, withClickOut)
    ensures Click(b) in ClickTrace(observers, hits, withClickOut)
  {
    ClickTraceFires(observers, hits, withClickOut, a);
    ClickTraceFires(observers, hits, withClickOut, b);
  }

  /** Two observers A and B, registered in that order: a click on A only, then a click on neither. */
  lemma ClickScenario<O>(a: O, b: O)
    requires a != b
    ensures ClickTrace([a, b], {a}, {a, b}) == [Click(a), ClickOut(b)]
    ensures ClickTrace([a, b], {}, {a, b}) == [ClickOut(a), ClickOut(b)]
    ensures ClickTrace([a, b], {a}, {}) == [Click(a)]
  {
    assert [a, b][..1] == [a];
    assert [a][..0] == [];
    assert ClickTrace([a], {a}, {a, b}) == [Click(a)];
    assert ClickTrace([a], {}, {a, b}) == [ClickOut(a)];
    assert ClickTrace([a], {a}, {}) == [Click(a)];
  }

  // ------------------------------------------------------------------ hover

  /** The hover list and the callbacks made so far. */
  datatype Hover<O> = Hover(intercepted: seq<O>, trace: seq<Callback<O>>)

  /**
   * What one observer's hit-test does on pointer-move: a hit pushes another copy of the observer
   * and fires `onMouseEnter`, even when it is already in the list; a miss removes one copy and
   * fires `onMouseOut` when there is one, and otherwise does nothing.
   */
  function MoveReaction<O(==)>(h: Hover<O>, o: O, hits: set<O>): (r: Hover<O>)
    ensures o in hits ==>
      multiset(r.intercepted) == multiset(h.intercepted) + multiset{o}
      && r.trace == h.trace + [MouseEnter(o)]
    ensures o !in hits && o in h.intercepted ==>
      multiset(r.intercepted) == multiset(h.intercepted) - multiset{o}
      && r.trace == h.trace + [MouseOut(o)]
    ensures o !in hits && o !in h.intercepted ==> r == h
  {
    if o in hits then Hover(h.intercepted + [o], h.trace + [MouseEnter(o)])
    else if o in h.intercepted then Hover(RemoveFirst(h.intercepted, o), h.trace + [MouseOut(o)])
    else h
  }

  /** One pointer-move: the observers' reactions in registration order. */
  function MoveTrace<O(==)>(h: Hover<O>, observers: seq<O>, hits: set<O>): Hover<O> {
    if observers == [] then h
    else MoveReaction(MoveTrace(h, observers[..|observers| - 1], hits), observers[|observers| - 1], hits)
  }

  /**
   * Taking one more observer of the registry adds that observer's reaction at the end.
   */
  lemma MoveTracePrefix<O>(h: Hover<O>, observers: seq<O>, i: nat, hits: set<O>)
    requires i < |observers|
    ensures MoveTrace(h, observers[..i + 1], hits) == MoveReaction(MoveTrace(h, observers[..i], hits), observers[i], hits)
  {
    assert observers[..i + 1][..i] == observers[..i];
  }

  /** How the last element of a concatenation and the rest of it split between the two parts. */
  lemma SplitLast<T>(a: seq<T>, b: seq<T>)
    requires b != []
    ensures (a + b)[..|a + b| - 1] == a + b[..|b| - 1]
    ensures (a + b)[|a + b| - 1] == b[|b| - 1]
  {
  }

  /** The observer a callback enters, or none. */
  function EnterOf<O>(c: Callback<O>): multiset<O> {
    if c.MouseEnter? then multiset{c.o} else multiset{}
  }

  /** The observer a callback leaves, or none. */
  function LeaveOf<O>(c: Callback<O>): multiset<O> {
    if c.MouseOut? then multiset{c.o} else multiset{}
  }

  /** The observers sent `onMouseEnter` in a trace, with multiplicity. */
  function Entered<O>(t: seq<Callback<O>>): multiset<O> {
    if t == [] then multiset{} else Entered(t[..|t| - 1]) + EnterOf(t[|t| - 1])
  }

  /** The observers sent `onMouseOut` in a trace, with multiplicity. */
  function Left<O>(t: seq<Callback<O>>): multiset<O> {
    if t == [] then multiset{} else Left(t[..|t| - 1]) + LeaveOf(t[|t| - 1])
  }

  lemma {:induction false} EnteredConcat<O>(a: seq<Callback<O>>, b: seq<Callback<O>>)
    ensures Entered(a + b) == Entered(a) + Entered(b)
  {
    if b == [] {
      assert a + b == a;
    } else {
      var n := |b| - 1;
      EnteredConcat(a, b[..n]);
      SplitLast(a, b);
      calc {
        Entered(a + b);
        Entered(a + b[..n]) + EnterOf(b[n]);
        Entered(a) + Entered(b[..n]) + EnterOf(b[n]);
        Entered(a) + Entered(b);
      }
    }
  }

  lemma {:induction false} LeftConcat<O>(a: seq<Callback<O>>, b: seq<Callback<O>>)
    ensures Left(a + b) == Left(a) + Left(b)
  {
    if b == [] {
      assert a + b == a;
    } else {
      var n := |b| - 1;
      LeftConcat(a, b[..n]);
      SplitLast(a, b);
      calc {
        Left(a + b);
        Left(a + b[..n]) + LeaveOf(b[n]);
        Left(a) + Left(b[..n]) + LeaveOf(b[n]);
        Left(a) + Left(b);
      }
    }
  }

  /**
   * The hover bookkeeping invariant: an observer occurs in the hover list exactly as often as it
   * has been sent `onMouseEnter` minus the times it has been sent `onMouseOut`.
   */
  ghost predicate Balanced<O>(intercepted: seq<O>, trace: seq<Callback<O>>) {
    multiset(intercepted) + Left(trace) == Entered(trace)
  }

  lemma MoveReactionBalanced<O>(h: Hover<O>, o: O, hits: set<O>)
    requires Balanced(h.intercepted, h.trace)
    ensures Balanced(MoveReaction(h, o, hits).intercepted, MoveReaction(h, o, hits).trace)
  {
    var r := MoveReaction(h, o, hits);
    if o in hits {
      assert r.trace[..|r.trace| - 1] == h.trace;
    } else if o in h.intercepted {
      assert r.trace[..|r.trace| - 1] == h.trace;
      assert multiset(h.intercepted)[o] >= 1;
    }
  }

  /** Every pointer-move keeps the hover list balanced against the callbacks. */
  lemma {:induction false} MoveTraceBalanced<O>(h: Hover<O>, observers: seq<O>, hits: set<O>)
    requires Balanced(h.intercepted, h.trace)
    ensures Balanced(MoveTrace(h, observers, hits).intercepted, MoveTrace(h, observers, hits).trace)
  {
    if observers != [] {
      var n := |observers| - 1;
      MoveTraceBalanced(h, observers[..n], hits);
      MoveReactionBalanced(MoveTrace(h, observers[..n], hits), observers[n], hits);
    }
  }

  lemma ClickReactionNoHover<O>(o: O, hits: set<O>, withClickOut: set<O>)
    ensures Entered(ClickReaction(o, hits, withClickOut)) == multiset{}
    ensures Left(ClickReaction(o, hits, withClickOut)) == multiset{}
  {
    var r := ClickReaction(o, hits, withClickOut);
    if r != [] {
      assert r[..0] == [];
    }
  }

  /** A pointer-down makes no hover callbacks. */
  lemma {:induction false} ClickTraceNoHover<O>(observers: seq<O>, hits: set<O>, withClickOut: set<O>)
    ensures Entered(ClickTrace(observers, hits, withClickOut)) == multiset{}
    ensures Left(ClickTrace(observers, hits, withClickOut)) == multiset{}
  {
    if observers != [] {
      var n := |observers| - 1;
      ClickTraceNoHover(observers[..n], hits, withClickOut);
      ClickReactionNoHover(observers[n], hits, withClickOut);
      EnteredConcat(ClickTrace(observers[..n], hits, withClickOut), ClickReaction(observers[n], hits, withClickOut));
      LeftConcat(ClickTrace(observers[..n], hits, withClickOut), ClickReaction(observers[n], hits, withClickOut));
    }
  }

  /** So a pointer-down keeps the hover list balanced. */
  lemma ClickKeepsBalanced<O>(intercepted: seq<O>, trace: seq<Callback<O>>, observers: seq<O>,
                              hits: set<O>, withClickOut: set<O>)
    requires Balanced(intercepted, trace)
    ensures Balanced(intercepted, trace + ClickTrace(observers, hits, withClickOut))
  {
    ClickTraceNoHover(observers, hits, withClickOut);
    EnteredConcat(trace, ClickTrace(observers, hits, withClickOut));
    LeftConcat(trace, ClickTrace(observers, hits, withClickOut));
  }

  /** A hit pushes another copy and enters again, whether or not the observer is already hovered. */
  lemma HitEntersAgain<O>(h: Hover<O>, o: O, hits: set<O>)
    requires o in hits
    ensures MoveTrace(h, [o], hits) == Hover(h.intercepted + [o], h.trace + [MouseEnter(o)])
  {
    assert [o][..0] == [];
  }

  /** A miss removes only the first of several copies, and leaves once. */
  lemma MissLeavesOnce<O>(h: Hover<O>, o: O, rest: seq<O>, hits: set<O>)
    requires o !in hits && h.intercepted == [o] + rest
    ensures MoveTrace(h, [o], hits) == Hover(rest, h.trace + [MouseOut(o)])
  {
    assert [o][..0] == [];
    RemoveFirstHead(o, rest);
  }

  /**
   * The hover callbacks are level-triggered, not edge-triggered: one observer hit, hit,
   * missed, missed and hit again is entered twice, left twice and entered again.
   */
  lemma HoverIsLevelTriggered<O>(o: O)
    ensures
      var h1 := MoveTrace(Hover([], []), [o], {o});
      var h2 := MoveTrace(h1, [o], {o});
      var h3 := MoveTrace(h2, [o], {});
      var h4 := MoveTrace(h3, [o], {});
      var h5 := MoveTrace(h4, [o], {o});
      h2.intercepted == [o, o] && h4.intercepted == [] && h5.intercepted == [o]
      && h5.trace == [MouseEnter(o), MouseEnter(o), MouseOut(o), MouseOut(o), MouseEnter(o)]
  {
    var h0: Hover<O> := Hover([], []);
    HitEntersAgain(h0, o, {o});
    var h1 := MoveTrace(h0, [o], {o});
    HitEntersAgain(h1, o, {o});
    var h2 := MoveTrace(h1, [o], {o});
    assert h2.intercepted == [o] + [o];
    MissLeavesOnce(h2, o, [o], {});
    var h3 := MoveTrace(h2, [o], {});
    assert h3.intercepted == [o] + [];
    MissLeavesOnce(h3, o, [], {});
    var h4 := MoveTrace(h3, [o], {});
    HitEntersAgain(h4, o, {o});
  }

  // -------------------------------------------------------------- the class

  class Intersector<O(==)> {
    /** The camera the first `getInstance` call supplied (undefined when it supplied none). */
    const camera: Option<Camera>
    var observers: seq<O>
    var intercepted: seq<O>  // `interceptedObjects`
    var trace: seq<Callback<O>>

    /** The registry never holds an observer twice. */
    ghost predicate Valid()
      reads this
    {
      NoDup(observers)
    }

    /** The hover list agrees with the hover callbacks made so far (see Balanced). */
    ghost predicate HoverBalanced()
      reads this
    {
      Balanced(intercepted, trace)
    }

    constructor (camera: Option<Camera>)
      ensures Valid() && HoverBalanced()
      ensures this.camera == camera && observers == [] && intercepted == [] && trace == []
    {
      this.camera := camera;
      observers, intercepted, trace := [], [], [];
    }

    method Attach(observer: O)
      requires Valid()
      modifies this`observers
      ensures Valid()
      ensures observers == Attached(old(observers), observer)
    {
      var isExist := observer in observers;
      if !isExist {
        observers := observers + [observer];
      }
    }

    /** Removes the observer if registered; leaves `interceptedObjects` as it is. */
    method Detach(observer: O)
      requires Valid()
      modifies this`observers
      ensures Valid()
      ensures observers == RemoveFirst(old(observers), observer)
    {
      RemoveFirstNoDup(observers, observer);
      var observerIndex := IndexOf(observers, observer);
      if observerIndex != -1 {
        observers := observers[..observerIndex] + observers[observerIndex + 1..];
      }
    }

    /**
     * Pointer-down: every observer, in registration order, gets `onClick` or `onClickOut`.
     * Without a camera, `setFromCamera` throws before the loop, so no observer gets anything.
     */
    method OnClick(hits: set<O>, withClickOut: set<O>)
      requires Valid()
      modifies this`trace
      ensures Valid()
      ensures camera.Some? ==> trace == old(trace) + ClickTrace(observers, hits, withClickOut)
      ensures camera.None? ==> trace == old(trace)
      ensures old(HoverBalanced()) ==> HoverBalanced()
    {
      if camera.None? {
        return;
      }
      ghost var trace0 := trace;
      for i := 0 to |observers|
        invariant trace == old(trace) + ClickTrace(observers[..i], hits, withClickOut)
      {
        var observer := observers[i];
        var intersects := observer in hits;
        if intersects {
          trace := trace + [Click(observer)];
        } else if observer in withClickOut {
          trace := trace + [ClickOut(observer)];
        }
        ClickTracePrefix(observers, i, hits, withClickOut);
      }
      assert observers[..|observers|] == observers;
      if Balanced(intercepted, trace0) {
        ClickKeepsBalanced(intercepted, trace0, observers, hits, withClickOut);
      }
    }

    /**
     * Pointer-move: every observer, in registration order, is hit-tested and the hover list
     * updated. Without a camera, `setFromCamera` throws before the loop and nothing changes.
     */
    method OnPointerMove(hits: set<O>)
      requires Valid()
      modifies this`intercepted, this`trace
      ensures Valid()
      ensures camera.Some? ==>
        Hover(intercepted, trace) == MoveTrace(Hover(old(intercepted), old(trace)), observers, hits)
      ensures camera.None? ==> intercepted == old(intercepted) && trace == old(trace)
      ensures old(HoverBalanced()) ==> HoverBalanced()
    {
      if camera.None? {
        return;
      }
      ghost var h0 := Hover(intercepted, trace);
      for i := 0 to |observers|
        invariant Hover(intercepted, trace) == MoveTrace(Hover(old(intercepted), old(trace)), observers[..i], hits)
      {
        var observer := observers[i];
        var intersects := observer in hits;
        if intersects {
          intercepted := intercepted + [observer];
          trace := trace + [MouseEnter(observer)];
        } else {
          var index := IndexOf(intercepted, observer);
          if index != -1 {
            intercepted := intercepted[..index] + intercepted[index + 1..];
            trace := trace + [MouseOut(observer)];
          }
        }
        MoveTracePrefix(Hover(old(intercepted), old(trace)), observers, i, hits);
      }
      assert observers[..|observers|] == observers;
      if Balanced(h0.intercepted, h0.trace) {
        MoveTraceBalanced(h0, observers, hits);
      }
    }
  }

  /**
   * The Worlds call `getInstance()` with no camera. If one of them is the first caller, the
   * Intersector it creates registers observers but dispatches no pointer event to them.
   */
  method CameraLessIntersectorIsDeaf<O(==)>(slot: IntersectorSingleton<O>, o: O) returns (r: Intersector<O>)
    requires slot.Valid() && slot.instance == null
    modifies slot
    ensures r.observers == [o] && r.intercepted == [] && r.trace == []
  {
    r := slot.GetInstance(None);
    r.Attach(o);
    r.OnClick({o}, {});
    r.OnPointerMove({o});
  }

  /** The static `Intersector.instance` slot and `getInstance`. */
  class IntersectorSingleton<O(==)> {
    var instance: Intersector?<O>

    ghost predicate Valid()
      reads this, instance
    {
      instance != null ==> instance.Valid()
    }

    /** The objects `getInstance` and the registry operations may change. */
    ghost function Repr(): set<object>
      reads this
    {
      if instance == null then {this} else {this, instance}
    }

    /** The registered observers; none before the instance exists. */
    function Observers(): seq<O>
      reads this, instance
    {
      if instance == null then [] else instance.observers
    }

    constructor ()
      ensures instance == null
    {
      instance := null;
    }

    /** Creates the Intersector on the first call; every later call returns it and ignores `camera`. */
    method GetInstance(camera: Option<Camera>) returns (r: Intersector<O>)
      requires Valid()
      modifies this
      ensures Valid() && instance == r
      ensures old(instance) != null ==> r == old(instance)
      ensures old(instance) == null ==>
        fresh(r) && r.camera == camera && r.observers == [] && r.intercepted == [] && r.trace == []
    {
      if instance == null {
        instance := new Intersector(camera);
      }
      r := instance;
    }
  }
}
