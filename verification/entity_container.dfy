/** `EntityContainer.getEntities`: the entities whose position lies inside
    a rectangle, given either as a rectangle or by two opposite corners. */
module EntityContainer {
  import opened Geometry

  /** An entity as the query sees it: only its position matters. */
  datatype Entity = Entity(position: Vec2, velocity: Vec2, width: real, height: real)

  /** v lies between a and b, whichever of the two is smaller. */
  predicate Between(v: real, a: real, b: real) {
    (a <= v <= b) || (b <= v <= a)
  }

  /** The rectangle spanned by two opposite corners, in either order. */
  function Bounds(x1: real, y1: real, x2: real, y2: real): (r: Rect)
    ensures r.width >= 0.0 && r.height >= 0.0
    ensures {r.x, r.x + r.width} == {x1, x2}
    ensures {r.y, r.y + r.height} == {y1, y2}
  {
    Rect(Min(x1, x2), Min(y1, y2), Abs(x1 - x2), Abs(y1 - y2))
  }

  /** A point is inside the corner rectangle exactly when each coordinate
      lies between the corners' coordinates. */
  lemma ContainsBounds(x1: real, y1: real, x2: real, y2: real, p: Vec2)
    ensures Contains(Bounds(x1, y1, x2, y2), p) <==> Between(p.x, x1, x2) && Between(p.y, y1, y2)
  {
  }

  /** The order in which the corners are given does not matter, neither
      to the rectangle nor to the entities found in it. */
  lemma BoundsCornerOrder(entities: seq<Entity>, x1: real, y1: real, x2: real, y2: real)
    ensures Bounds(x1, y1, x2, y2) == Bounds(x2, y2, x1, y1)
    ensures Bounds(x1, y1, x2, y2) == Bounds(x1, y2, x2, y1)
    ensures InBounds(entities, Bounds(x1, y1, x2, y2)) == InBounds(entities, Bounds(x2, y2, x1, y1))
  {
  }

  /** The entities inside `bounds`, in container order: the reference the
      query is measured against. */
  function InBounds(entities: seq<Entity>, bounds: Rect): (r: seq<Entity>)
    ensures |r| <= |entities|
    ensures forall e :: e in r <==> e in entities && Contains(bounds, e.position)
    decreases |entities|
  {
    if |entities| == 0 then []
    else
      var init := entities[..|entities| - 1];
      var last := entities[|entities| - 1];
      assert entities == init + [last];
      InBounds(init, bounds) + (if Contains(bounds, last.position) then [last] else [])
  }

  /** The query keeps every entity inside the rectangle as often as the
      container holds it, and drops every other. */
  lemma {:induction false} InBoundsCounts(entities: seq<Entity>, bounds: Rect, e: Entity)
    ensures multiset(InBounds(entities, bounds))[e]
            == if Contains(bounds, e.position) then multiset(entities)[e] else 0
    decreases |entities|
  {
    if |entities| > 0 {
      var init := entities[..|entities| - 1];
      var last := entities[|entities| - 1];
      assert entities == init + [last];
      InBoundsCounts(init, bounds, e);
    }
  }

  /** The query keeps the container's order: querying two lists one after
      the other is querying their concatenation. */
  lemma {:induction false} InBoundsAppend(a: seq<Entity>, b: seq<Entity>, bounds: Rect)
    ensures InBounds(a + b, bounds) == InBounds(a, bounds) + InBounds(b, bounds)
    decreases |b|
  {
    if |b| > 0 {
      var initB := b[..|b| - 1];
      var last := b[|b| - 1];
      assert (a + b)[..|a + b| - 1] == a + initB;
      assert (a + b)[|a + b| - 1] == last;
      InBoundsAppend(a, initB, bounds);
    } else {
      assert a + b == a;
    }
  }

  /** `getEntities(Rectangle)`: one pass over the container, adding every
      entity whose position the rectangle contains. */
  method GetEntities(entities: seq<Entity>, bounds: Rect) returns (ret: seq<Entity>)
    ensures ret == InBounds(entities, bounds)
    ensures forall e :: e in ret <==> e in entities && Contains(bounds, e.position)
  {
    ret := [];
    var i := 0;
    while i < |entities|
      invariant 0 <= i <= |entities|
      invariant ret == InBounds(entities[..i], bounds)
    {
      var e := entities[i];
      assert entities[..i + 1][..i] == entities[..i];
      if Contains(bounds, e.position) {
        ret := ret + [e];
      }
      i := i + 1;
    }
    assert entities[..i] == entities;
  }

  /** `getEntities(x1, y1, x2, y2)`: the query over the rectangle the two
      corners span. */
  method GetEntitiesBetween(entities: seq<Entity>, x1: real, y1: real, x2: real, y2: real)
    returns (ret: seq<Entity>)
    ensures ret == InBounds(entities, Bounds(x1, y1, x2, y2))
    ensures forall e :: e in ret <==>
              e in entities && Between(e.position.x, x1, x2) && Between(e.position.y, y1, y2)
  {
    ret := GetEntities(entities, Bounds(x1, y1, x2, y2));
    forall e | e in entities
      ensures Contains(Bounds(x1, y1, x2, y2), e.position)
              <==> Between(e.position.x, x1, x2) && Between(e.position.y, y1, y2)
    {
      ContainsBounds(x1, y1, x2, y2, e.position);
    }
  }
}
