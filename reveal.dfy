/** Progressive reveal of the agenda timeline: a `revealed` flag per item,
    updated in place by one left-to-right pass per mousemove. An item is
    revealed when its predecessor is already revealed at that point of the pass
    and the pointer is closer than 150 px to the item's centre. */
module Reveal {
  import opened Common

  const ProximityThreshold: real := 150.0

  /** `Math.sqrt(dx^2 + dy^2) < 150`, stated without the square root. */
  predicate WithinReach(pointer: Point, item: Rect)
  {
    var c := Centre(item);
    var dx, dy := pointer.x - c.x, pointer.y - c.y;
    dx * dx + dy * dy < ProximityThreshold * ProximityThreshold
  }

  /** The pointer hovering above an item's centre is within reach of it, and
      being within reach implies being closer than 150 px along each axis. */
  lemma WithinReachNearCentre(pointer: Point, item: Rect)
    ensures pointer == Centre(item) ==> WithinReach(pointer, item)
    ensures WithinReach(pointer, item) ==>
              -ProximityThreshold < pointer.x - Centre(item).x < ProximityThreshold &&
              -ProximityThreshold < pointer.y - Centre(item).y < ProximityThreshold
  {
    var c := Centre(item);
    var dx, dy := pointer.x - c.x, pointer.y - c.y;
    if WithinReach(pointer, item) {
      assert dy * dy >= 0.0 && dx * dx >= 0.0 by {
        if dx < 0.0 { assert dx * dx == (-dx) * (-dx); }
        if dy < 0.0 { assert dy * dy == (-dy) * (-dy); }
      }
      SquareBelow(dx, ProximityThreshold);
      SquareBelow(dy, ProximityThreshold);
    }
  }

  lemma SquareBelow(a: real, m: real)
    requires m > 0.0 && a * a < m * m
    ensures -m < a < m
  {
  }

  /** Which items the pointer is within reach of. */
  function Near(pointer: Point, items: seq<Rect>): seq<bool>
  {
    seq(|items|, i requires 0 <= i < |items| => WithinReach(pointer, items[i]))
  }

  /** No item is revealed while its predecessor is hidden. */
  ghost predicate PrefixClosed(s: seq<bool>)
  {
    forall i :: 0 < i < |s| ==> (s[i] ==> s[i - 1])
  }

  /** Item `i` of a pass ends revealed iff it was revealed before, or item
      `i - 1` is revealed by then and the pointer is within reach of item `i`. */
  ghost predicate StepAt(before: seq<bool>, after: seq<bool>, near: seq<bool>, i: nat)
    requires 1 <= i < |near| <= |before| == |after|
  {
    after[i] <==> before[i] || (after[i - 1] && near[i])
  }

  /** `after` is the outcome of one pass over the first `|near|` items: item 0
      and items beyond the pass keep their flag, and every item of the pass
      takes its step in order. */
  ghost predicate IsPass(before: seq<bool>, after: seq<bool>, near: seq<bool>)
  {
    |near| <= |before| == |after| &&
    (|before| > 0 ==> after[0] == before[0]) &&
    (forall i: nat :: 1 <= i < |near| ==> StepAt(before, after, near, i)) &&
    (forall i :: |near| <= i < |before| ==> after[i] == before[i])
  }

  /** A pass determines its outcome: the loop computes a function of its input. */
  lemma {:induction false} PassDeterministic(before: seq<bool>, a1: seq<bool>, a2: seq<bool>, near: seq<bool>)
    requires IsPass(before, a1, near) && IsPass(before, a2, near)
    ensures a1 == a2
  {
    forall i | 0 <= i < |before| ensures a1[i] == a2[i] {
      PassAgreesUpTo(before, a1, a2, near, i);
    }
  }

  lemma {:induction false} PassAgreesUpTo(before: seq<bool>, a1: seq<bool>, a2: seq<bool>, near: seq<bool>, i: nat)
    requires IsPass(before, a1, near) && IsPass(before, a2, near) && i < |before|
    ensures a1[i] == a2[i]
  {
    if 1 <= i < |near| {
      PassAgreesUpTo(before, a1, a2, near, i - 1);
      PassAt(before, a1, near, i);
      PassAt(before, a2, near, i);
    }
  }

  lemma PassAt(before: seq<bool>, after: seq<bool>, near: seq<bool>, i: nat)
    requires IsPass(before, after, near) && 1 <= i < |near|
    ensures after[i] <==> before[i] || (after[i - 1] && near[i])
  {
    assert StepAt(before, after, near, i);
  }

  /** A pass only reveals: no flag goes from true to false, and a prefix-closed
      array stays prefix-closed. */
  lemma PassGrows(before: seq<bool>, after: seq<bool>, near: seq<bool>)
    requires IsPass(before, after, near) && PrefixClosed(before)
    ensures forall i :: 0 <= i < |before| ==> (before[i] ==> after[i])
    ensures PrefixClosed(after)
  {
    forall i | 0 <= i < |before| && before[i] ensures after[i] {
      if 1 <= i < |near| {
        PassAt(before, after, near, i);
      }
    }
    forall i | 0 < i < |after| && after[i] ensures after[i - 1] {
      if before[i] {
        assert before[i - 1];
      } else {
        PassRevealsOnlyNext(before, after, near, i);
      }
    }
  }

  /** An item that a pass reveals had its predecessor revealed and the pointer
      within reach. */
  lemma PassRevealsOnlyNext(before: seq<bool>, after: seq<bool>, near: seq<bool>, i: nat)
    requires IsPass(before, after, near) && i < |before|
    requires after[i] && !before[i]
    ensures 1 <= i < |near| && after[i - 1] && near[i]
  {
    if 1 <= i < |near| {
      PassAt(before, after, near, i);
    }
  }

  /** Consecutive items within reach cascade in a single pass: if item 0 is
      revealed and the pointer is within reach of items 1 to k, all of items 0
      to k end revealed. */
  lemma {:induction false} PassCascade(before: seq<bool>, after: seq<bool>, near: seq<bool>, k: nat)
    requires IsPass(before, after, near) && |before| > 0 && before[0]
    requires k < |near| && forall j :: 1 <= j <= k ==> near[j]
    ensures forall j :: 0 <= j <= k ==> after[j]
  {
    if k > 0 {
      PassCascade(before, after, near, k - 1);
      PassAt(before, after, near, k);
    }
  }

  class Timeline {
    /** The number of `.timeline-item` elements of the agenda slide. */
    const count: nat
    /** `revealed`; with no items at all, `revealed[0] = true` still gives it length 1. */
    const revealed: array<bool>

    ghost predicate Valid()
      reads this, revealed
    {
      revealed.Length == (if count == 0 then 1 else count) &&
      revealed[0] && PrefixClosed(revealed[..])
    }

    /** `new Array(n).fill(false)`, then `revealed[0] = true`. */
    constructor (count: nat)
      ensures Valid() && this.count == count && fresh(revealed)
      ensures forall i :: 0 <= i < revealed.Length ==> (revealed[i] <==> i == 0)
    {
      this.count := count;
      revealed := new bool[if count == 0 then 1 else count](i => i == 0);
    }

    /** `handleMouseMove`: nothing happens unless the agenda slide is active; then
        one pass over the items in order. `items` are the items' bounding
        rectangles at the time of the event. */
    method HandleMouseMove(agendaActive: bool, pointer: Point, items: seq<Rect>)
      requires Valid() && |items| == count
      modifies revealed
      ensures Valid()
      ensures !agendaActive ==> revealed[..] == old(revealed[..])
      ensures agendaActive ==> IsPass(old(revealed[..]), revealed[..], Near(pointer, items))
      ensures forall i :: 0 <= i < revealed.Length ==> (old(revealed[i]) ==> revealed[i])
    {
      if !agendaActive { return; }
      ghost var near := Near(pointer, items);
      for index := 0 to count
        invariant forall i :: 1 <= i < index ==> (revealed[i] <==> old(revealed[i]) || (revealed[i - 1] && near[i]))
        invariant forall i :: index <= i < revealed.Length || i == 0 ==> revealed[i] == old(revealed[i])
      {
        if index == 0 || revealed[index] { continue; }
        if !revealed[index - 1] { continue; }
        if WithinReach(pointer, items[index]) {
          revealed[index] := true;
        }
      }
      ghost var before, after := old(revealed[..]), revealed[..];
      assert |near| <= |before| == |after|;
      assert |before| > 0 ==> after[0] == before[0];
      forall i: nat | 1 <= i < |near| ensures StepAt(before, after, near, i) {
        assert after[i] == revealed[i] && after[i - 1] == revealed[i - 1] && before[i] == old(revealed[i]);
      }
      forall i | |near| <= i < |before| ensures after[i] == before[i] {
        assert after[i] == revealed[i] && before[i] == old(revealed[i]);
      }
      PassGrows(before, after, near);
    }
  }
}
