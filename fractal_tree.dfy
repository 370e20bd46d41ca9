/**
 * What `generateFractals` of GenerateFractal.java appends to the list of circles, as a function
 * of its parameters, and the shape of that sequence: how many circles, in which colours, in
 * which order, and when the recursion throws.
 */
module FractalTree {
  import opened Wrappers
  import opened JavaInts
  import opened Shapes

  /**
   * Where a child's centre lands, from the parent radius, the child radius, the parent centre
   * and the angle (in degrees). Java computes it with `Math.sin`, `Math.cos` and `(int)` casts
   * of doubles; the model takes it as a given total function.
   */
  type Placement = (real, real, Point, real) -> Point

  /**
   * The generator fields that the recursion reads: how a child's radius follows from its
   * parent's (`radius * radiusRatio`, see `ScaleBy`), the branching angle and the two colours.
   */
  datatype Settings = Settings(scale: real -> real, degree: real, cactus: Color, pear: Color)

  /** The child radius `radius * ratio` as a function of the parent radius. */
  function ScaleBy(ratio: real): (f: real -> real)
    ensures forall r :: f(r) == r * ratio
  {
    r => r * ratio
  }

  /** A ratio between 0 and 1 never makes a positive radius grow or go negative. */
  lemma ScaleByShrinks(ratio: real)
    requires 0.0 <= ratio <= 1.0
    ensures forall r :: r > 0.0 ==> 0.0 <= ScaleBy(ratio)(r) <= r
  {
    forall r | r > 0.0
      ensures 0.0 <= ScaleBy(ratio)(r) <= r
    {
      ProductBetween(r, ratio);
      assert ScaleBy(ratio)(r) == r * ratio;
    }
  }

  lemma ProductBetween(r: real, ratio: real)
    requires r > 0.0 && 0.0 <= ratio <= 1.0
    ensures 0.0 <= r * ratio <= r
  {
    assert r * (1.0 - ratio) >= 0.0;
  }

  /**
   * What one call appends before it returns or throws: the circles, in append order,
   * and the exception it throws, if any.
   */
  datatype Emission = Emission(circles: seq<Fractal>, failure: Option<Exception>)

  /** 2 to the power `n` (1 for n <= 0). */
  function Pow2(n: int): (r: nat)
    ensures r >= 1
    decreases if n <= 0 then 0 else n
  {
    if n <= 0 then 1 else 2 * Pow2(n - 1)
  }

  lemma {:induction false} Pow2Monotone(m: int, n: int)
    requires m <= n
    ensures Pow2(m) <= Pow2(n)
    decreases n - m
  {
    if m < n {
      Pow2Monotone(m, n - 1);
    }
  }

  /** The depth passed to both children: one less than the current depth, or 1 when the radius is below 5. */
  function ChildDepth(depth: int, radius: real): (d: int)
    ensures depth >= 2 ==> 1 <= d < depth
    ensures depth >= 2 && radius < 5.0 ==> d == 1
    ensures radius >= 5.0 ==> d == depth - 1
  {
    (if radius < 5.0 then 2 else depth) - 1
  }

  /**
   * `new Fractal((int)radius, center, color)`: the cast rounds toward zero, so the constructor
   * throws exactly when the radius is below 1.
   */
  function Circle(radius: real, center: Point, color: Color): (r: Result<Fractal>)
    ensures r.Ok? <==> radius >= 1.0
    ensures r.Err? ==> r.error == IllegalArgument
    ensures r.Ok? ==> r.value.Valid() && r.value.color == color && r.value.centerPoint == center
                      && r.value.radius == Truncate(radius)
  {
    NewFractal(Truncate(radius), Some(center), Some(color))
  }

  /**
   * What a call at depth 2 or more appends: the right subtree; if that returned normally, its own
   * circle; if that was constructed, the left subtree. The first exception stops the rest.
   */
  function Join(right: Emission, self: Result<Fractal>, left: Emission): (e: Emission)
    ensures e.failure.None? <==> right.failure.None? && self.Ok? && left.failure.None?
    ensures |right.circles| <= |e.circles| && e.circles[..|right.circles|] == right.circles
    ensures right.failure.None? && self.Ok? ==> |right.circles| < |e.circles| && e.circles[|right.circles|] == self.value
  {
    if right.failure.Some? then right
    else if self.Err? then Emission(right.circles, Some(self.error))
    else Emission(right.circles + [self.value] + left.circles, left.failure)
  }

  /**
   * The circles `generateFractals(depth, radius, center, angle)` appends, and what it throws.
   * Depth below 1 or a non-positive radius throws; depth 1 appends one pear-coloured circle;
   * deeper calls append the right subtree, one cactus-coloured circle at `center`, then the left
   * subtree. The right child sits along `angle`, the left one along `angle - 2 * degree`, and they
   * recurse with `angle + degree` and `angle - degree`.
   */
  function Build(s: Settings, place: Placement, depth: int, radius: real, center: Point, angle: real): (e: Emission)
    ensures e.failure.None? ==> depth >= 1 && radius >= 1.0 && |e.circles| >= 1
    decreases if depth < 1 then 0 else depth, 1
  {
    if depth < 1 || radius <= 0.0 then Emission([], Some(IllegalArgument))
    else if depth == 1 then
      var leaf := Circle(radius, center, s.pear);
      if leaf.Err? then Emission([], Some(leaf.error)) else Emission([leaf.value], None)
    else Branch(s, place, depth, radius, center, angle)
  }

  /** A call at depth 2 or more with a positive radius: right subtree, own circle, left subtree. */
  function Branch(s: Settings, place: Placement, depth: int, radius: real, center: Point, angle: real): (e: Emission)
    requires depth >= 2
    ensures e.failure.None? ==> radius >= 1.0 && |e.circles| >= 1
    decreases depth, 0
  {
    var d := ChildDepth(depth, radius);
    var child := s.scale(radius);
    Join(Build(s, place, d, child, place(radius, child, center, angle), angle + s.degree),
         Circle(radius, center, s.cactus),
         Build(s, place, d, child, place(radius, child, center, angle - 2.0 * s.degree), angle - s.degree))
  }

  /** The right subtree of a call at depth 2 or more. */
  function RightOf(s: Settings, place: Placement, depth: int, radius: real, center: Point, angle: real): Emission
    requires depth >= 2
  {
    var child := s.scale(radius);
    Build(s, place, ChildDepth(depth, radius), child, place(radius, child, center, angle), angle + s.degree)
  }

  /** The left subtree of a call at depth 2 or more. */
  function LeftOf(s: Settings, place: Placement, depth: int, radius: real, center: Point, angle: real): Emission
    requires depth >= 2
  {
    var child := s.scale(radius);
    Build(s, place, ChildDepth(depth, radius), child, place(radius, child, center, angle - 2.0 * s.degree), angle - s.degree)
  }

  /** A call at depth 2 or more with a positive radius is the join of its two subtrees and its own cactus circle. */
  lemma Unfold(s: Settings, place: Placement, depth: int, radius: real, center: Point, angle: real)
    requires depth >= 2 && radius > 0.0
    ensures Build(s, place, depth, radius, center, angle)
            == Join(RightOf(s, place, depth, radius, center, angle), Circle(radius, center, s.cactus),
                    LeftOf(s, place, depth, radius, center, angle))
  {
  }

  /** The same unfolding of `Branch`, for a caller that computed the child depth, radius, centres and angles itself. */
  lemma BranchIsJoin(s: Settings, place: Placement, depth: int, radius: real, center: Point, angle: real,
                     d: int, child: real, centerRight: Point, rightAngle: real, centerLeft: Point, leftAngle: real)
    requires depth >= 2
    requires d == ChildDepth(depth, radius) && child == s.scale(radius)
    requires centerRight == place(radius, child, center, angle) && rightAngle == angle + s.degree
    requires centerLeft == place(radius, child, center, angle - 2.0 * s.degree) && leftAngle == angle - s.degree
    ensures Branch(s, place, depth, radius, center, angle)
            == Join(Build(s, place, d, child, centerRight, rightAngle), Circle(radius, center, s.cactus),
                    Build(s, place, d, child, centerLeft, leftAngle))
  {
  }

  /**
   * A call at depth 2 or more that returns normally had both subtrees return normally and its own
   * circle constructed, and appended right subtree, own circle, left subtree.
   */
  lemma UnfoldOk(s: Settings, place: Placement, depth: int, radius: real, center: Point, angle: real)
    requires depth >= 2
    requires Build(s, place, depth, radius, center, angle).failure.None?
    ensures RightOf(s, place, depth, radius, center, angle).failure.None?
    ensures LeftOf(s, place, depth, radius, center, angle).failure.None?
    ensures Circle(radius, center, s.cactus).Ok?
    ensures Build(s, place, depth, radius, center, angle).circles
            == RightOf(s, place, depth, radius, center, angle).circles + [Circle(radius, center, s.cactus).value]
               + LeftOf(s, place, depth, radius, center, angle).circles
  {
    Unfold(s, place, depth, radius, center, angle);
  }

  /**
   * Every radius the recursion would meet is at least 1, so every `(int)radius` is positive.
   * The centres and angles play no part.
   */
  ghost predicate RadiiOk(scale: real -> real, depth: int, radius: real)
    decreases if depth < 1 then 0 else depth
  {
    depth >= 1 && radius >= 1.0 && (depth == 1 || RadiiOk(scale, ChildDepth(depth, radius), scale(radius)))
  }

  /** Every inner radius on the way down is at least 5, so the radius-below-5 shortcut never applies. */
  ghost predicate NoShortcut(scale: real -> real, depth: int, radius: real)
    decreases if depth < 1 then 0 else depth
  {
    depth <= 1 || (radius >= 5.0 && NoShortcut(scale, depth - 1, scale(radius)))
  }

  /** The number of circles of colour `c` in `cs`. */
  function CountColor(cs: seq<Fractal>, c: Color): (n: nat)
    ensures n <= |cs|
  {
    if cs == [] then 0 else (if cs[0].color == c then 1 else 0) + CountColor(cs[1..], c)
  }

  lemma {:induction false} CountColorAppend(a: seq<Fractal>, b: seq<Fractal>, c: Color)
    ensures CountColor(a + b, c) == CountColor(a, c) + CountColor(b, c)
    decreases |a|
  {
    if a != [] {
      assert (a + b)[0] == a[0];
      assert (a + b)[1..] == a[1..] + b;
      CountColorAppend(a[1..], b, c);
    } else {
      assert a + b == b;
    }
  }

  // ---------------------------------------------------------------------------
  // What generateFractals promises
  // ---------------------------------------------------------------------------

  /** The recursion returns normally exactly when every radius it meets is at least 1; the centres never matter. */
  lemma {:induction false} BuildSucceedsIff(s: Settings, place: Placement, depth: int, radius: real, center: Point, angle: real)
    ensures Build(s, place, depth, radius, center, angle).failure.None? <==> RadiiOk(s.scale, depth, radius)
    decreases if depth < 1 then 0 else depth
  {
    if depth >= 2 && radius > 0.0 {
      var child := s.scale(radius);
      Unfold(s, place, depth, radius, center, angle);
      BuildSucceedsIff(s, place, ChildDepth(depth, radius), child, place(radius, child, center, angle), angle + s.degree);
      BuildSucceedsIff(s, place, ChildDepth(depth, radius), child, place(radius, child, center, angle - 2.0 * s.degree), angle - s.degree);
    }
  }

  /** Every exception the recursion throws, from its own checks or from a Fractal constructor, is IllegalArgumentException. */
  lemma {:induction false} BuildFailureKind(s: Settings, place: Placement, depth: int, radius: real, center: Point, angle: real)
    ensures var e := Build(s, place, depth, radius, center, angle);
            e.failure.Some? ==> e.failure.value == IllegalArgument
    decreases if depth < 1 then 0 else depth
  {
    if depth >= 2 && radius > 0.0 {
      var child := s.scale(radius);
      Unfold(s, place, depth, radius, center, angle);
      BuildFailureKind(s, place, ChildDepth(depth, radius), child, place(radius, child, center, angle), angle + s.degree);
      BuildFailureKind(s, place, ChildDepth(depth, radius), child, place(radius, child, center, angle - 2.0 * s.degree), angle - s.degree);
    }
  }

  /** A call that returns normally appends an odd number of circles, at most 2^depth - 1. */
  lemma {:induction false} BuildSize(s: Settings, place: Placement, depth: int, radius: real, center: Point, angle: real)
    requires Build(s, place, depth, radius, center, angle).failure.None?
    ensures var n := |Build(s, place, depth, radius, center, angle).circles|;
            n % 2 == 1 && n <= Pow2(depth) - 1
    decreases if depth < 1 then 0 else depth
  {
    if depth >= 2 {
      var child := s.scale(radius);
      var d := ChildDepth(depth, radius);
      var right := RightOf(s, place, depth, radius, center, angle);
      var left := LeftOf(s, place, depth, radius, center, angle);
      UnfoldOk(s, place, depth, radius, center, angle);
      BuildSize(s, place, d, child, place(radius, child, center, angle), angle + s.degree);
      BuildSize(s, place, d, child, place(radius, child, center, angle - 2.0 * s.degree), angle - s.degree);
      Pow2Monotone(d, depth - 1);
      SizeStep(|right.circles|, |left.circles|, Pow2(d), Pow2(depth - 1), Pow2(depth));
    }
  }

  /** Two odd sizes of at most `p - 1` and the circle between them make an odd size of at most `2p - 1`. */
  lemma SizeStep(r: nat, l: nat, pd: nat, p: nat, q: nat)
    requires r % 2 == 1 && l % 2 == 1 && r <= pd - 1 && l <= pd - 1 && pd <= p && q == 2 * p
    ensures (r + 1 + l) % 2 == 1 && r + 1 + l <= q - 1
  {
  }

  /** Every circle appended, even before a throw, is a valid Fractal in the pear or the cactus colour. */
  lemma {:induction false} BuildColours(s: Settings, place: Placement, depth: int, radius: real, center: Point, angle: real)
    ensures forall f :: f in Build(s, place, depth, radius, center, angle).circles ==>
              f.Valid() && (f.color == s.pear || f.color == s.cactus)
    decreases if depth < 1 then 0 else depth
  {
    if depth >= 2 && radius > 0.0 {
      var child := s.scale(radius);
      Unfold(s, place, depth, radius, center, angle);
      BuildColours(s, place, ChildDepth(depth, radius), child, place(radius, child, center, angle), angle + s.degree);
      BuildColours(s, place, ChildDepth(depth, radius), child, place(radius, child, center, angle - 2.0 * s.degree), angle - s.degree);
    }
  }

  /** A call that returns normally appends pear circles first and last. */
  lemma {:induction false} BuildEndsInPears(s: Settings, place: Placement, depth: int, radius: real, center: Point, angle: real)
    requires Build(s, place, depth, radius, center, angle).failure.None?
    ensures var cs := Build(s, place, depth, radius, center, angle).circles;
            |cs| >= 1 && cs[0].color == s.pear && cs[|cs| - 1].color == s.pear
    decreases if depth < 1 then 0 else depth
  {
    if depth >= 2 {
      var child := s.scale(radius);
      UnfoldOk(s, place, depth, radius, center, angle);
      BuildEndsInPears(s, place, ChildDepth(depth, radius), child, place(radius, child, center, angle), angle + s.degree);
      BuildEndsInPears(s, place, ChildDepth(depth, radius), child, place(radius, child, center, angle - 2.0 * s.degree), angle - s.degree);
    }
  }

  /** With two different colours, a call that returns normally appends one more pear circle than cactus circles. */
  lemma {:induction false} PearsOutnumberCactus(s: Settings, place: Placement, depth: int, radius: real, center: Point, angle: real)
    requires s.pear != s.cactus
    requires Build(s, place, depth, radius, center, angle).failure.None?
    ensures var cs := Build(s, place, depth, radius, center, angle).circles;
            CountColor(cs, s.pear) == CountColor(cs, s.cactus) + 1
    decreases if depth < 1 then 0 else depth
  {
    if depth >= 2 {
      var child := s.scale(radius);
      var right := RightOf(s, place, depth, radius, center, angle);
      var left := LeftOf(s, place, depth, radius, center, angle);
      UnfoldOk(s, place, depth, radius, center, angle);
      PearsOutnumberCactus(s, place, ChildDepth(depth, radius), child, place(radius, child, center, angle), angle + s.degree);
      PearsOutnumberCactus(s, place, ChildDepth(depth, radius), child, place(radius, child, center, angle - 2.0 * s.degree), angle - s.degree);
      var f := Circle(radius, center, s.cactus).value;
      CountColorAppend(right.circles, [f], s.pear);
      CountColorAppend(right.circles, [f], s.cactus);
      CountColorAppend(right.circles + [f], left.circles, s.pear);
      CountColorAppend(right.circles + [f], left.circles, s.cactus);
    }
  }

  /** When the radius-below-5 shortcut never applies, a call that returns normally appends a full tree of 2^depth - 1 circles. */
  lemma {:induction false} FullTree(s: Settings, place: Placement, depth: int, radius: real, center: Point, angle: real)
    requires NoShortcut(s.scale, depth, radius)
    requires Build(s, place, depth, radius, center, angle).failure.None?
    ensures |Build(s, place, depth, radius, center, angle).circles| == Pow2(depth) - 1
    decreases if depth < 1 then 0 else depth
  {
    if depth >= 2 {
      var child := s.scale(radius);
      UnfoldOk(s, place, depth, radius, center, angle);
      FullTree(s, place, depth - 1, child, place(radius, child, center, angle), angle + s.degree);
      FullTree(s, place, depth - 1, child, place(radius, child, center, angle - 2.0 * s.degree), angle - s.degree);
    }
  }

  /** A call at depth 2 or more with a radius below 5 that returns normally appends exactly pear, cactus, pear, whatever its depth. */
  lemma SmallRadiusShortcut(s: Settings, place: Placement, depth: int, radius: real, center: Point, angle: real)
    requires depth >= 2 && radius < 5.0
    requires Build(s, place, depth, radius, center, angle).failure.None?
    ensures var cs := Build(s, place, depth, radius, center, angle).circles;
            |cs| == 3 && cs[0].color == s.pear && cs[1].color == s.cactus && cs[2].color == s.pear
            && cs[1].centerPoint == center && cs[1].radius == Truncate(radius)
  {
    UnfoldOk(s, place, depth, radius, center, angle);
  }

  /** At depth 1 a call appends exactly one pear circle of radius `(int)radius` at `center`, or throws and appends nothing. */
  lemma LeafCircle(s: Settings, place: Placement, radius: real, center: Point, angle: real)
    ensures var e := Build(s, place, 1, radius, center, angle);
            (e.failure.None? <==> radius >= 1.0)
            && (e.failure.None? ==> e.circles == [Fractal(center, Wrap(2 * Truncate(radius)), Truncate(radius), s.pear)])
            && (e.failure.Some? ==> e.circles == [])
  {
  }

  /**
   * When a child's radius is never larger than its parent's (a ratio in [0, 1], see `ScaleByShrinks`),
   * no appended circle has a larger radius than `(int)radius` of the call.
   */
  lemma {:induction false} RadiiShrink(s: Settings, place: Placement, depth: int, radius: real, center: Point, angle: real)
    requires forall r :: r > 0.0 ==> s.scale(r) <= r
    ensures forall f :: f in Build(s, place, depth, radius, center, angle).circles ==> f.radius <= Truncate(radius)
    decreases if depth < 1 then 0 else depth
  {
    if depth >= 2 && radius > 0.0 {
      var child := s.scale(radius);
      Unfold(s, place, depth, radius, center, angle);
      TruncateMonotone(child, radius);
      RadiiShrink(s, place, ChildDepth(depth, radius), child, place(radius, child, center, angle), angle + s.degree);
      RadiiShrink(s, place, ChildDepth(depth, radius), child, place(radius, child, center, angle - 2.0 * s.degree), angle - s.degree);
    }
  }

  /** With the source's scaling `radius * radiusRatio` and a ratio in [0, 1], no appended circle is larger than `(int)radius`. */
  lemma RatioRadiiShrink(s: Settings, ratio: real, place: Placement, depth: int, radius: real, center: Point, angle: real)
    requires 0.0 <= ratio <= 1.0 && s.scale == ScaleBy(ratio)
    ensures forall f :: f in Build(s, place, depth, radius, center, angle).circles ==> f.radius <= Truncate(radius)
  {
    ScaleByShrinks(ratio);
    RadiiShrink(s, place, depth, radius, center, angle);
  }
}
