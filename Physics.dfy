/**
 * The part of the rigid-body physics library that the game's core relies on:
 * bodies as records, the axis-aligned rectangle constructor, and a world that
 * holds a list of bodies with `add` and `remove`.  Simulation, collision
 * filtering, mass and compound parts are not modelled.
 */
module Physics {
  import opened Extent

  datatype Option<+T> = None | Some(value: T)

  /** A point in canvas coordinates; y grows downwards. */
  datatype Point = Point(x: real, y: real)

  /** A body's outline: the library never builds a body without vertices. */
  type Outline = vs: seq<Point> | |vs| > 0 witness [Point(0.0, 0.0)]

  /**
   * Render options.  `None` stands for a field the game leaves to the
   * library, which then fills in its own default.
   */
  datatype Render = Render(fillStyle: Option<string>, strokeStyle: Option<string>, lineWidth: Option<real>)

  /**
   * A body.  `id` is the identity the library hands out on creation; it
   * stands for object identity in comparisons and removals.
   */
  datatype Body = Body(
    id: nat,
    vertices: Outline,
    position: Point,
    area: real,
    isStatic: bool,
    isSensor: bool,
    render: Render,
    bodyLabel: string,
    hasInternalPattern: bool,
    tetrominoType: Option<string>)

  function Ys(vs: seq<Point>): seq<real>
  {
    seq(|vs|, i requires 0 <= i < |vs| => vs[i].y)
  }

  function Xs(vs: seq<Point>): seq<real>
  {
    seq(|vs|, i requires 0 <= i < |vs| => vs[i].x)
  }

  /** The smallest y of the outline: the body's highest point on screen. */
  function HighestY(vs: Outline): real { MinOf(Ys(vs)) }

  /** The largest y of the outline: the body's lowest point on screen. */
  function LowestY(vs: Outline): real { MaxOf(Ys(vs)) }

  function LeftX(vs: Outline): real { MinOf(Xs(vs)) }

  function RightX(vs: Outline): real { MaxOf(Xs(vs)) }

  /** Some vertex lies exactly at the highest y, and some at the lowest. */
  lemma ExtremesAreVertices(vs: Outline)
    ensures exists k :: 0 <= k < |vs| && vs[k].y == HighestY(vs)
    ensures exists k :: 0 <= k < |vs| && vs[k].y == LowestY(vs)
    ensures HighestY(vs) <= LowestY(vs)
  {
    var ys := Ys(vs);
    MinOfIsLeast(ys);
    MaxOfIsGreatest(ys);
    var lo :| lo in ys && lo == HighestY(vs);
    var hi :| hi in ys && hi == LowestY(vs);
    var a :| 0 <= a < |ys| && ys[a] == lo;
    var b :| 0 <= b < |ys| && ys[b] == hi;
    assert vs[a].y == HighestY(vs);
    assert vs[b].y == LowestY(vs);
  }

  /**
   * `Bodies.rectangle(x, y, width, height, options)`: four corners, clockwise
   * from the top left, centred on (x, y).  The options the game passes are
   * the flags, render, label and pattern marker; everything else keeps the
   * library's defaults.  The area is the one the library computes for the
   * outline.
   */
  function Rectangle(id: nat, x: real, y: real, width: real, height: real,
                     isStatic: bool, isSensor: bool, render: Render, bodyLabel: string,
                     hasInternalPattern: bool): (b: Body)
  {
    var hw, hh := width / 2.0, height / 2.0;
    Body(id,
         [Point(x - hw, y - hh), Point(x + hw, y - hh), Point(x + hw, y + hh), Point(x - hw, y + hh)],
         Point(x, y),
         if width * height >= 0.0 then width * height else -(width * height),
         isStatic, isSensor, render, bodyLabel, hasInternalPattern, None)
  }

  /** The rectangle's outline spans exactly its width and height around its centre. */
  lemma RectangleExtent(id: nat, x: real, y: real, width: real, height: real,
                        isStatic: bool, isSensor: bool, render: Render, bodyLabel: string,
                        hasInternalPattern: bool)
    requires width >= 0.0 && height >= 0.0
    ensures var b := Rectangle(id, x, y, width, height, isStatic, isSensor, render, bodyLabel, hasInternalPattern);
            && HighestY(b.vertices) == y - height / 2.0
            && LowestY(b.vertices) == y + height / 2.0
            && LeftX(b.vertices) == x - width / 2.0
            && RightX(b.vertices) == x + width / 2.0
            && b.area == width * height
  {
    var b := Rectangle(id, x, y, width, height, isStatic, isSensor, render, bodyLabel, hasInternalPattern);
    var ys := Ys(b.vertices);
    var xs := Xs(b.vertices);
    assert ys == [y - height / 2.0, y - height / 2.0, y + height / 2.0, y + height / 2.0];
    assert xs == [x - width / 2.0, x + width / 2.0, x + width / 2.0, x - width / 2.0];
    assert 0.0 <= width * height;
    MinOfIsLeast(ys);
    MaxOfIsGreatest(ys);
    MinOfIsLeast(xs);
    MaxOfIsGreatest(xs);
    assert MaxOf(ys) == y + height / 2.0 by {
      assert MaxOf(ys) in ys && ys[2] <= MaxOf(ys);
    }
    assert MinOf(ys) == y - height / 2.0 by {
      assert MinOf(ys) in ys && MinOf(ys) <= ys[0];
    }
    assert MaxOf(xs) == x + width / 2.0 by {
      assert MaxOf(xs) in xs && xs[1] <= MaxOf(xs);
    }
    assert MinOf(xs) == x - width / 2.0 by {
      assert MinOf(xs) in xs && MinOf(xs) <= xs[0];
    }
  }

  /** The bodies of `bodies`, in order, whose identity is not in `gone`. */
  function Without(bodies: seq<Body>, gone: set<nat>): (r: seq<Body>)
    ensures forall b :: b in r <==> b in bodies && b.id !in gone
    ensures |r| <= |bodies|
  {
    if |bodies| == 0 then []
    else (if bodies[0].id in gone then [] else [bodies[0]]) + Without(bodies[1..], gone)
  }

  /** Removing no identities keeps the list as it is. */
  lemma {:induction false} WithoutNothing(bodies: seq<Body>)
    ensures Without(bodies, {}) == bodies
  {
    if |bodies| > 0 {
      WithoutNothing(bodies[1..]);
      assert bodies == [bodies[0]] + bodies[1..];
    }
  }

  /** Removing one set of identities and then another is removing both at once. */
  lemma {:induction false} WithoutTwice(bodies: seq<Body>, a: set<nat>, b: set<nat>)
    ensures Without(Without(bodies, a), b) == Without(bodies, a + b)
  {
    if |bodies| > 0 {
      WithoutTwice(bodies[1..], a, b);
      var rest := Without(bodies[1..], a);
      if bodies[0].id !in a {
        assert Without(bodies, a) == [bodies[0]] + rest;
        assert Without(bodies, a)[0] == bodies[0];
        assert Without(bodies, a)[1..] == rest;
      } else {
        assert Without(bodies, a) == rest;
      }
    }
  }

  /** Removal from a non-empty list: its first body unless removed, then the rest with removals. */
  lemma WithoutCons(first: Body, rest: seq<Body>, gone: set<nat>)
    ensures Without([first] + rest, gone) == (if first.id in gone then [] else [first]) + Without(rest, gone)
  {
    assert ([first] + rest)[0] == first;
    assert ([first] + rest)[1..] == rest;
  }

  /** Removing from a concatenation removes from each part, keeping the order. */
  lemma {:induction false} WithoutAppend(a: seq<Body>, b: seq<Body>, gone: set<nat>)
    ensures Without(a + b, gone) == Without(a, gone) + Without(b, gone)
  {
    if |a| > 0 {
      var first, rest := a[0], a[1..];
      var head := if first.id in gone then [] else [first];
      assert a == [first] + rest;
      assert a + b == [first] + (rest + b);
      calc {
        Without(a + b, gone);
        { WithoutCons(first, rest + b, gone); }
        head + Without(rest + b, gone);
        { WithoutAppend(rest, b, gone); }
        head + (Without(rest, gone) + Without(b, gone));
        (head + Without(rest, gone)) + Without(b, gone);
        { WithoutCons(first, rest, gone); }
        Without(a, gone) + Without(b, gone);
      }
    } else {
      assert a + b == b;
    }
  }

  /** Identities of a list of bodies: exactly those some body of the list carries. */
  function Ids(bodies: seq<Body>): (ids: set<nat>)
    ensures forall b :: b in bodies ==> b.id in ids
    ensures forall id :: id in ids ==> exists b :: b in bodies && b.id == id
  {
    if |bodies| == 0 then {}
    else
      var prefix := bodies[..|bodies| - 1];
      var last := bodies[|bodies| - 1];
      assert bodies == prefix + [last];
      assert forall b :: b in prefix ==> b in bodies;
      Ids(prefix) + {last.id}
  }

  /** No two bodies of the list share an identity: each entry is a distinct object. */
  ghost predicate DistinctIds(bodies: seq<Body>)
  {
    forall i, j :: 0 <= i < j < |bodies| ==> bodies[i].id != bodies[j].id
  }

  /** A body whose identity no body of a distinct list has can go in front of it. */
  lemma ConsKeepsDistinct(first: Body, rest: seq<Body>)
    requires DistinctIds(rest)
    requires forall k :: 0 <= k < |rest| ==> rest[k].id != first.id
    ensures DistinctIds([first] + rest)
  {
    var w := [first] + rest;
    forall i, j | 0 <= i < j < |w| ensures w[i].id != w[j].id {
      assert w[j] == rest[j - 1];
      if i > 0 {
        assert w[i] == rest[i - 1];
      }
    }
  }

  /** Removal keeps the identities distinct. */
  lemma {:induction false} WithoutKeepsDistinct(bodies: seq<Body>, gone: set<nat>)
    requires DistinctIds(bodies)
    ensures DistinctIds(Without(bodies, gone))
  {
    if |bodies| > 0 {
      var rest := bodies[1..];
      assert DistinctIds(rest) by {
        forall i, j | 0 <= i < j < |rest| ensures rest[i].id != rest[j].id {
          assert rest[i] == bodies[i + 1] && rest[j] == bodies[j + 1];
        }
      }
      WithoutKeepsDistinct(rest, gone);
      var r := Without(rest, gone);
      var head := if bodies[0].id in gone then [] else [bodies[0]];
      assert Without(bodies, gone) == head + r;
      if bodies[0].id !in gone {
        forall k | 0 <= k < |r| ensures r[k].id != bodies[0].id {
          assert r[k] in rest;
          var m :| 0 <= m < |rest| && rest[m] == r[k];
          assert bodies[m + 1] == r[k];
        }
        ConsKeepsDistinct(bodies[0], r);
      }
    }
  }

  /** Appending bodies with fresh, distinct identities keeps the identities distinct. */
  lemma AppendKeepsDistinct(bodies: seq<Body>, added: seq<Body>)
    requires DistinctIds(bodies) && DistinctIds(added)
    requires forall a, b :: a in added && b in bodies ==> a.id != b.id
    ensures DistinctIds(bodies + added)
  {
    var w := bodies + added;
    forall i, j | 0 <= i < j < |w| ensures w[i].id != w[j].id {
      if j < |bodies| {
        assert w[i] == bodies[i] && w[j] == bodies[j];
      } else if i >= |bodies| {
        assert w[i] == added[i - |bodies|] && w[j] == added[j - |bodies|];
      } else {
        assert w[i] == bodies[i] && w[j] == added[j - |bodies|];
      }
    }
  }

  /** Every body of the list was handed an identity below `nextId`. */
  ghost predicate IdsBelow(bodies: seq<Body>, nextId: nat)
  {
    forall b :: b in bodies ==> b.id < nextId
  }

  /** The abstract value of a world: its bodies in insertion order and the library's identity counter. */
  datatype WorldState = WorldState(bodies: seq<Body>, nextId: nat)

  /**
   * A physics world: the list `Composite.allBodies` returns, together with
   * the counter from which the library hands out body identities.
   */
  class World {
    var bodies: seq<Body>
    var nextId: nat

    /** Every body was handed an identity below the counter, and no identity is held twice. */
    ghost predicate Valid()
      reads this
    {
      IdsBelow(bodies, nextId) && DistinctIds(bodies)
    }

    function State(): WorldState
      reads this
    {
      WorldState(bodies, nextId)
    }

    /** The empty world `Engine.create()` makes. */
    constructor ()
      ensures Valid() && bodies == [] && nextId == 0
    {
      bodies := [];
      nextId := 0;
    }

    /** The identity the library gives the next body it creates. */
    method NewId() returns (id: nat)
      requires Valid()
      modifies this
      ensures Valid()
      ensures id == old(nextId) && nextId == old(nextId) + 1 && bodies == old(bodies)
      ensures forall b :: b in bodies ==> b.id < id
    {
      id := nextId;
      nextId := nextId + 1;
    }

    /**
     * `World.add`: appends the bodies, in order.  The bodies are objects the
     * library created, so their identities are below the counter, distinct,
     * and not already in the world.
     */
    method Add(added: seq<Body>)
      requires Valid() && IdsBelow(added, nextId) && DistinctIds(added)
      requires forall a, b :: a in added && b in bodies ==> a.id != b.id
      modifies this
      ensures Valid()
      ensures bodies == old(bodies) + added && nextId == old(nextId)
    {
      AppendKeepsDistinct(bodies, added);
      bodies := bodies + added;
    }

    /** `World.remove`: drops the body with the given identity, if present. */
    method Remove(body: Body)
      requires Valid()
      modifies this
      ensures Valid()
      ensures bodies == Without(old(bodies), {body.id}) && nextId == old(nextId)
    {
      WithoutKeepsDistinct(bodies, {body.id});
      bodies := Without(bodies, {body.id});
    }
  }
}
