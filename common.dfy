/** Values shared by the page's controllers: an optional value (a DOM attribute
    or a style that the scripts never set is `None`), a pointer position and a
    bounding rectangle as reported by the browser. */
module Common {

  datatype Option<+T> = None | Some(value: T)

  /** A position in viewport (client) coordinates, in CSS pixels. */
  datatype Point = Point(x: real, y: real)

  /** An element's bounding client rectangle. */
  datatype Rect = Rect(left: real, top: real, width: real, height: real)

  const Origin := Point(0.0, 0.0)

  function Add(p: Point, q: Point): Point { Point(p.x + q.x, p.y + q.y) }

  function Sub(p: Point, q: Point): Point { Point(p.x - q.x, p.y - q.y) }

  /** The centre of a rectangle, `left + width / 2` and `top + height / 2`. */
  function Centre(r: Rect): Point { Point(r.left + r.width / 2.0, r.top + r.height / 2.0) }

  /** One IntersectionObserver entry: the index of its target among the
      observed elements, and whether the target intersects. */
  datatype Entry = Entry(target: nat, isIntersecting: bool)

  /** Some intersecting entry of the batch targets element `i`. */
  ghost predicate Entered(entries: seq<Entry>, i: nat)
  {
    exists k :: 0 <= k < |entries| && entries[k].isIntersecting && entries[k].target == i
  }

  /** How `Entered` grows by one entry. */
  lemma EnteredStep(prefix: seq<Entry>, e: Entry)
    ensures forall i: nat :: Entered(prefix + [e], i) <==> Entered(prefix, i) || (e.isIntersecting && e.target == i)
  {
    var s := prefix + [e];
    forall i: nat ensures Entered(s, i) <==> Entered(prefix, i) || (e.isIntersecting && e.target == i) {
      if Entered(s, i) {
        var k :| 0 <= k < |s| && s[k].isIntersecting && s[k].target == i;
        if k < |prefix| { assert prefix[k] == s[k]; }
      }
      if Entered(prefix, i) {
        var k :| 0 <= k < |prefix| && prefix[k].isIntersecting && prefix[k].target == i;
        assert s[k] == prefix[k];
      }
      if e.isIntersecting && e.target == i { assert s[|prefix|] == e; }
    }
  }
}
