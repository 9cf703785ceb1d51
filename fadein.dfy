/** The scroll fade-in of the landing page: every animated element gets the
    `fade-in` class and is observed; the first time it intersects it gets
    `visible` and is unobserved, so it is animated once and stays visible. */
module FadeIn {
  import opened Common

  class FadeInObserver {
    /** The number of elements matched by the fade-in selector list. */
    const count: nat
    /** Whether each element has the `fade-in` class. */
    const fadeIn: array<bool>
    /** Whether each element has the `visible` class. */
    const visible: array<bool>
    /** Whether the observer still observes each element. */
    const observed: array<bool>

    /** Every element is faded in; an element is visible exactly when the
        observer has let go of it. */
    ghost predicate Valid()
      reads this, fadeIn, visible, observed
    {
      fadeIn.Length == visible.Length == observed.Length == count &&
      visible != observed && fadeIn != visible && fadeIn != observed &&
      (forall i :: 0 <= i < count ==> fadeIn[i]) &&
      (forall i :: 0 <= i < count ==> (visible[i] <==> !observed[i]))
    }

    /** Setup: add `fade-in` to every element and observe it. */
    constructor (count: nat)
      ensures Valid() && this.count == count && fresh(fadeIn) && fresh(visible) && fresh(observed)
      ensures forall i :: 0 <= i < count ==> observed[i] && !visible[i]
    {
      this.count := count;
      fadeIn := new bool[count](_ => true);
      visible := new bool[count](_ => false);
      observed := new bool[count](_ => true);
    }

    /** The observer callback over one batch of entries: each intersecting
        target becomes visible and is unobserved; nothing becomes invisible. */
    method OnIntersection(entries: seq<Entry>)
      requires Valid()
      requires forall k :: 0 <= k < |entries| ==> entries[k].target < count
      modifies visible, observed
      ensures Valid()
      ensures forall i :: 0 <= i < count ==> (visible[i] <==> old(visible[i]) || Entered(entries, i))
      ensures forall i :: 0 <= i < count ==> (observed[i] <==> old(observed[i]) && !Entered(entries, i))
      ensures forall i :: 0 <= i < count ==> (old(visible[i]) ==> visible[i])
    {
      for k := 0 to |entries|
        invariant Valid()
        invariant forall i :: 0 <= i < count ==> (visible[i] <==> old(visible[i]) || Entered(entries[..k], i))
        invariant forall i :: 0 <= i < count ==> (observed[i] <==> old(observed[i]) && !Entered(entries[..k], i))
      {
        var e := entries[k];
        assert entries[..k + 1] == entries[..k] + [e];
        if e.isIntersecting {
          visible[e.target] := true;
          observed[e.target] := false;
        }
        EnteredStep(entries[..k], e);
      }
      assert entries[..|entries|] == entries;
    }
  }
}
