/**
 * GenerateFractal.java: the model part of the cactus viewer. It holds the drawing settings, the
 * circles of the last generated cactus, and the observers it notifies when the settings change.
 */
module Generator {
  import opened Wrappers
  import opened JavaInts
  import opened Shapes
  import opened FractalTree
  import Lists

  const DEFAULT_DEPTH: Int32 := 5
  const DEFAULT_RATIO: real := 0.45
  /** 45 degrees; Java holds it in radians (`Math.toRadians(45)`), the model in degrees. */
  const DEFAULT_DEGREE: real := 45.0
  const DEFAULT_CACTUS_COLOR: Color := RGB(34, 139, 34)
  const DEFAULT_PEAR_COLOR: Color := RGB(139, 34, 139)
  const STARTING_RADIUS: Int32 := 100

  // ---------------------------------------------------------------------------
  // The observer list: `indexOf` followed by `remove(int)`
  // ---------------------------------------------------------------------------

  /** `indexOf`: the position of the first occurrence of `x`, or -1 when there is none. */
  function FirstIndexOf(s: seq<nat>, x: nat): (i: int)
    ensures -1 <= i < |s|
    ensures i == -1 <==> x !in s
    ensures 0 <= i ==> s[i] == x
  {
    if s == [] then -1
    else if s[0] == x then 0
    else
      var j := FirstIndexOf(s[1..], x);
      if j == -1 then -1 else j + 1
  }

  /** No occurrence of `x` comes before the index `FirstIndexOf` returns. */
  lemma {:induction false} FirstIndexOfIsFirst(s: seq<nat>, x: nat)
    requires x in s
    ensures x !in s[..FirstIndexOf(s, x)]
  {
    if s[0] != x {
      FirstIndexOfIsFirst(s[1..], x);
      var j := FirstIndexOf(s[1..], x);
      assert s[..j + 1] == [s[0]] + s[1..][..j];
    }
  }

  /** `s` without its first occurrence of `x`; `s` itself when `x` does not occur. */
  function RemoveFirst(s: seq<nat>, x: nat): (r: seq<nat>)
    ensures x in s ==> |r| == |s| - 1
    ensures x !in s ==> r == s
  {
    if s == [] then []
    else if s[0] == x then s[1..]
    else [s[0]] + RemoveFirst(s[1..], x)
  }

  /** Exactly one copy of `x` goes and nothing else changes in the multiset of observers. */
  lemma {:induction false} RemoveFirstMultiset(s: seq<nat>, x: nat)
    requires x in s
    ensures multiset(RemoveFirst(s, x)) == multiset(s) - multiset{x}
  {
    assert s == [s[0]] + s[1..];
    if s[0] != x {
      RemoveFirstMultiset(s[1..], x);
    }
  }

  /** Removing at the first index of `x` is removing the first occurrence of `x`. */
  lemma {:induction false} RemoveAtFirstIndex(s: seq<nat>, x: nat)
    requires x in s
    ensures var i := FirstIndexOf(s, x); s[..i] + s[i + 1..] == RemoveFirst(s, x)
  {
    if s[0] != x {
      RemoveAtFirstIndex(s[1..], x);
      RemoveAtStep(s, x);
    } else {
      assert s[..0] + s[1..] == s[1..];
    }
  }

  /** The inductive step of `RemoveAtFirstIndex`: a head that is not `x` stays in front. */
  lemma RemoveAtStep(s: seq<nat>, x: nat)
    requires x in s && s[0] != x
    requires var t := s[1..]; var j := FirstIndexOf(t, x); t[..j] + t[j + 1..] == RemoveFirst(t, x)
    ensures var i := FirstIndexOf(s, x); s[..i] + s[i + 1..] == RemoveFirst(s, x)
  {
    var j := FirstIndexOf(s[1..], x);
    assert FirstIndexOf(s, x) == j + 1;
    ConsSlices(s, j);
  }

  /** Cutting out index `j + 1` of `s` keeps `s[0]` in front of cutting out index `j` of `s[1..]`. */
  lemma ConsSlices(s: seq<nat>, j: nat)
    requires j + 1 < |s|
    ensures s[..j + 1] + s[j + 2..] == [s[0]] + (s[1..][..j] + s[1..][j + 1..])
  {
    var t := s[1..];
    assert s[..j + 1] == [s[0]] + t[..j];
    assert s[j + 2..] == t[j + 1..];
  }

  /** The observer list as the elements of an `ArrayList<Integer>`: every slot holds a non-null id. */
  function Boxed(s: seq<nat>): (r: seq<Option<nat>>)
    ensures |r| == |s|
    ensures forall i :: 0 <= i < |s| ==> r[i] == Some(s[i])
  {
    seq(|s|, i requires 0 <= i < |s| => Some(s[i]))
  }

  /** `FirstIndexOf` is what the list's `indexOf` returns for an observer id: it never throws. */
  lemma ObserverIndexOf(s: seq<nat>, x: nat)
    ensures Lists.IsIndexOf(Boxed(s), Some(x), Ok(FirstIndexOf(s, x)))
  {
    var b := Boxed(s);
    var i := FirstIndexOf(s, x);
    if i == -1 {
      assert Lists.Scanned(b, Some(x), |b|);
    } else {
      FirstIndexOfIsFirst(s, x);
      forall j | 0 <= j < i
        ensures b[j].Some? && b[j] != Some(x)
      {
        assert s[..i][j] == s[j];
      }
      assert Lists.Scanned(b, Some(x), i);
    }
  }

  /** Removing the list element at `FirstIndexOf` leaves exactly the boxed `RemoveFirst`. */
  lemma ObserverRemove(s: seq<nat>, x: nat)
    requires x in s
    ensures var i := FirstIndexOf(s, x);
            Boxed(s)[..i] + Boxed(s)[i + 1..] == Boxed(RemoveFirst(s, x))
  {
    var i := FirstIndexOf(s, x);
    RemoveAtFirstIndex(s, x);
    BoxedSlices(s, i);
    BoxedAppend(s[..i], s[i + 1..]);
  }

  /** Boxing commutes with taking the parts before and after index `i`. */
  lemma BoxedSlices(s: seq<nat>, i: nat)
    requires i < |s|
    ensures Boxed(s)[..i] == Boxed(s[..i]) && Boxed(s)[i + 1..] == Boxed(s[i + 1..])
  {
    assert forall k :: 0 <= k < i ==> Boxed(s)[..i][k] == Boxed(s[..i])[k];
    var after, boxedAfter := Boxed(s)[i + 1..], Boxed(s[i + 1..]);
    assert forall k :: 0 <= k < |after| ==> after[k] == boxedAfter[k];
  }

  /** Boxing commutes with concatenation. */
  lemma BoxedAppend(a: seq<nat>, b: seq<nat>)
    ensures Boxed(a) + Boxed(b) == Boxed(a + b)
  {
    assert forall k :: 0 <= k < |a| + |b| ==> (Boxed(a) + Boxed(b))[k] == Boxed(a + b)[k];
  }

  /** Detaching an observer right after attaching a new one gives back the original list. */
  lemma {:induction false} AttachThenDetach(s: seq<nat>, x: nat)
    requires x !in s
    ensures RemoveFirst(s + [x], x) == s
  {
    if s != [] {
      assert (s + [x])[1..] == s[1..] + [x];
      AttachThenDetach(s[1..], x);
    } else {
      assert [] + [x] == [x];
    }
  }

  // ---------------------------------------------------------------------------
  // The setters' range check
  // ---------------------------------------------------------------------------

  /** The ratio condition as written in `setData`: below 40 and above 70 at once. */
  predicate RatioRejected(ratio: real) {
    ratio < 40.0 && ratio > 70.0
  }

  /** The condition as written rejects no ratio at all. */
  lemma RatioNeverRejected(ratio: real)
    ensures !RatioRejected(ratio)
  {
  }

  /** The condition the documentation describes: below 40 or above 70. */
  predicate RatioOutOfRange(ratio: real) {
    ratio < 40.0 || ratio > 70.0
  }

  /** A ratio of 0 is accepted by the check as written, and then every cactus of depth 2 or more throws. */
  lemma ZeroRatioThrows(s: Settings, place: Placement, depth: int, radius: real, center: Point, angle: real)
    requires s.scale == ScaleBy(0.0)
    requires depth >= 2
    ensures !RatioRejected(0.0)
    ensures Build(s, place, depth, radius, center, angle).failure == Some(IllegalArgument)
  {
    assert s.scale(radius) == 0.0;
    BuildSucceedsIff(s, place, depth, radius, center, angle);
    BuildFailureKind(s, place, depth, radius, center, angle);
  }

  // ---------------------------------------------------------------------------
  // The default cactus
  // ---------------------------------------------------------------------------

  /** The settings the constructor installs. */
  function DefaultSettings(): (s: Settings)
    ensures s.degree == DEFAULT_DEGREE && s.cactus == DEFAULT_CACTUS_COLOR && s.pear == DEFAULT_PEAR_COLOR
  {
    Settings(ScaleBy(DEFAULT_RATIO), DEFAULT_DEGREE, DEFAULT_CACTUS_COLOR, DEFAULT_PEAR_COLOR)
  }

  /** With the default ratio, radii 100, 45, 20.25, 9.1125 stay at or above 5 and the leaves at 4.100625 above 1. */
  lemma DefaultRadii()
    ensures RadiiOk(ScaleBy(DEFAULT_RATIO), 5, 100.0)
    ensures NoShortcut(ScaleBy(DEFAULT_RATIO), 5, 100.0)
  {
    var sc := ScaleBy(DEFAULT_RATIO);
    assert sc(100.0) == 45.0 && sc(45.0) == 20.25 && sc(20.25) == 9.1125 && sc(9.1125) == 4.100625;
    assert RadiiOk(sc, 1, 4.100625);
    assert RadiiOk(sc, 2, 9.1125);
    assert RadiiOk(sc, 3, 20.25);
    assert RadiiOk(sc, 4, 45.0);
    assert NoShortcut(sc, 2, 9.1125);
    assert NoShortcut(sc, 3, 20.25);
    assert NoShortcut(sc, 4, 45.0);
  }

  /**
   * The default cactus: 31 circles, pear first and last, and in the middle the trunk circle of
   * radius 100 (diameter 200) at the starting point, in the cactus colour.
   */
  lemma DefaultTree(place: Placement, start: Point)
    ensures var e := Build(DefaultSettings(), place, 5, 100.0, start, DEFAULT_DEGREE);
            e.failure.None? && |e.circles| == 31
            && e.circles[15] == Fractal(start, 200, 100, DEFAULT_CACTUS_COLOR)
            && e.circles[0].color == DEFAULT_PEAR_COLOR && e.circles[30].color == DEFAULT_PEAR_COLOR
  {
    DefaultTreeShape(place, start);
    DefaultTrunk(place, start);
  }

  /** The default cactus returns normally with 31 circles, pear first and last. */
  lemma DefaultTreeShape(place: Placement, start: Point)
    ensures var e := Build(DefaultSettings(), place, 5, 100.0, start, DEFAULT_DEGREE);
            e.failure.None? && |e.circles| == 31
            && e.circles[0].color == DEFAULT_PEAR_COLOR && e.circles[30].color == DEFAULT_PEAR_COLOR
  {
    var s := DefaultSettings();
    DefaultRadii();
    BuildSucceedsIff(s, place, 5, 100.0, start, DEFAULT_DEGREE);
    FullTree(s, place, 5, 100.0, start, DEFAULT_DEGREE);
    BuildEndsInPears(s, place, 5, 100.0, start, DEFAULT_DEGREE);
  }

  /** Circle 15 of the default cactus is the trunk: the right subtree before it has 15 circles. */
  lemma DefaultTrunk(place: Placement, start: Point)
    requires Build(DefaultSettings(), place, 5, 100.0, start, DEFAULT_DEGREE).failure.None?
    ensures var e := Build(DefaultSettings(), place, 5, 100.0, start, DEFAULT_DEGREE);
            |e.circles| > 15 && e.circles[15] == Fractal(start, 200, 100, DEFAULT_CACTUS_COLOR)
  {
    var s := DefaultSettings();
    DefaultRadii();
    UnfoldOk(s, place, 5, 100.0, start, DEFAULT_DEGREE);
    var right := RightOf(s, place, 5, 100.0, start, DEFAULT_DEGREE);
    assert s.scale(100.0) == 45.0;
    assert ChildDepth(5, 100.0) == 4;
    assert NoShortcut(s.scale, 4, 45.0);
    FullTree(s, place, 4, 45.0, place(100.0, 45.0, start, DEFAULT_DEGREE), DEFAULT_DEGREE + DEFAULT_DEGREE);
    assert |right.circles| == 15;
    assert Truncate(100.0) == 100;
  }

  lemma AppendAssoc<T>(a: seq<T>, b: seq<T>, c: seq<T>, d: seq<T>)
    ensures a + b + c + d == a + (b + c + d)
  {
  }

  // ---------------------------------------------------------------------------
  // The generator
  // ---------------------------------------------------------------------------

  /**
   * GenerateFractal. Observers are identified by number; `notifications` records, in order, every
   * `update()` call delivered to them. The two lists of the source are sequences here.
   */
  class GenerateFractal {
    var observers: seq<nat>
    var allFractals: seq<Fractal>
    var recursionDepth: Int32
    var radiusRatio: real
    var cactusColor: Color
    var pearColor: Color
    /** The branching angle, in degrees. */
    var degree: real
    var notifications: seq<nat>
    /** Where a child circle's centre lands (the sine and cosine arithmetic of `generateFractals`). */
    const place: Placement

    /** The depth stays within the range `setData` enforces. */
    predicate Valid()
      reads this
    {
      2 <= recursionDepth <= 10
    }

    /** The settings `generateFractals` reads. */
    function CurrentSettings(): (s: Settings)
      reads this`radiusRatio, this`degree, this`cactusColor, this`pearColor
      ensures s.degree == degree && s.cactus == cactusColor && s.pear == pearColor
    {
      Settings(ScaleBy(radiusRatio), degree, cactusColor, pearColor)
    }

    constructor(place: Placement)
      ensures Valid()
      ensures recursionDepth == DEFAULT_DEPTH && radiusRatio == DEFAULT_RATIO && degree == DEFAULT_DEGREE
      ensures cactusColor == DEFAULT_CACTUS_COLOR && pearColor == DEFAULT_PEAR_COLOR
      ensures observers == [] && allFractals == [] && notifications == []
      ensures this.place == place
    {
      recursionDepth := DEFAULT_DEPTH;
      radiusRatio := DEFAULT_RATIO;
      cactusColor := DEFAULT_CACTUS_COLOR;
      pearColor := DEFAULT_PEAR_COLOR;
      degree := DEFAULT_DEGREE;
      allFractals := [];
      observers := [];
      notifications := [];
      this.place := place;
    }

    /**
     * `getData(width, height)`: rejects an empty panel; otherwise replaces the circles with the
     * cactus grown from the bottom middle, `(width / 2, height - 100)`, with radius 100.
     */
    method GetData(width: Int32, height: Int32) returns (o: Outcome)
      modifies this`allFractals
      ensures width <= 0 || height <= 0 ==> o == Fail(IllegalArgument) && allFractals == old(allFractals)
      ensures width > 0 && height > 0 ==>
                var e := Build(CurrentSettings(), place, recursionDepth, STARTING_RADIUS as real,
                               Point(width / 2, height - STARTING_RADIUS), degree);
                allFractals == e.circles && o == OutcomeOf(e.failure)
    {
      if width <= 0 || height <= 0 {
        return Fail(IllegalArgument);
      }
      allFractals := [];
      var startingPoint := Point(width / 2, height - STARTING_RADIUS);
      o := GenerateFractals(CurrentSettings(), recursionDepth, STARTING_RADIUS as real, startingPoint, degree);
    }

    /**
     * `generateFractals(recursionDepth, radius, centerPoint, currentDegree)`: appends the circles
     * `Build` describes and throws what it describes.
     */
    method GenerateFractals(ghost s: Settings, depth: int, radius: real, center: Point, currentDegree: real) returns (o: Outcome)
      requires s == CurrentSettings()
      modifies this`allFractals
      ensures allFractals == old(allFractals) + Build(s, place, depth, radius, center, currentDegree).circles
      ensures o == OutcomeOf(Build(s, place, depth, radius, center, currentDegree).failure)
      decreases if depth < 1 then 0 else depth, 3
    {
      if depth < 1 {
        return Fail(IllegalArgument);
      }
      if radius <= 0.0 {
        return Fail(IllegalArgument);
      }
      if depth == 1 {
        var f := NewFractal(Truncate(radius), Some(center), Some(pearColor));
        if f.Err? {
          return Fail(f.error);
        }
        allFractals := allFractals + [f.value];
        return Pass;
      }
      o := GenerateBranch(s, depth, radius, center, currentDegree);
    }

    /**
     * The `else` part of `generateFractals` (depth 2 or more, positive radius): the depth drops to 2
     * below radius 5; both child centres are computed; then the right subtree, and, if that returned
     * normally, the own cactus circle and the left subtree.
     */
    method GenerateBranch(ghost s: Settings, depth: int, radius: real, center: Point, currentDegree: real) returns (o: Outcome)
      requires s == CurrentSettings()
      requires depth >= 2 && radius > 0.0
      modifies this`allFractals
      ensures allFractals == old(allFractals) + Branch(s, place, depth, radius, center, currentDegree).circles
      ensures o == OutcomeOf(Branch(s, place, depth, radius, center, currentDegree).failure)
      decreases depth, 2
    {
      var d := if radius < 5.0 then 2 else depth;
      // radius * radiusRatio, computed through ScaleBy as Build computes it
      var childRadius := ScaleBy(radiusRatio)(radius);
      var leftDegree := currentDegree - degree * 2.0;
      var centerRight := place(radius, childRadius, center, currentDegree);
      var centerLeft := place(radius, childRadius, center, leftDegree);
      assert childRadius == s.scale(radius) && leftDegree == currentDegree - 2.0 * s.degree;
      BranchIsJoin(s, place, depth, radius, center, currentDegree, d - 1, childRadius,
                   centerRight, currentDegree + degree, centerLeft, currentDegree - degree);
      o := GenerateJoin(s, Branch(s, place, depth, radius, center, currentDegree), depth, radius, center, d - 1,
                        childRadius, centerRight, currentDegree + degree, centerLeft, currentDegree - degree);
    }

    /**
     * The three recursive steps of a branch, in order: the right subtree; if that returned normally,
     * the own cactus circle; if that was constructed, the left subtree. The result is their `Join`.
     */
    method GenerateJoin(ghost s: Settings, ghost e: Emission, depth: int, radius: real, center: Point,
                        childDepth: int, childRadius: real,
                        centerRight: Point, rightDegree: real, centerLeft: Point, leftDegree: real)
      returns (o: Outcome)
      requires s == CurrentSettings()
      requires 1 <= childDepth < depth
      requires e == Join(Build(s, place, childDepth, childRadius, centerRight, rightDegree),
                         Circle(radius, center, s.cactus),
                         Build(s, place, childDepth, childRadius, centerLeft, leftDegree))
      modifies this`allFractals
      ensures allFractals == old(allFractals) + e.circles
      ensures o == OutcomeOf(e.failure)
      decreases depth, 1
    {
      ghost var right := Build(s, place, childDepth, childRadius, centerRight, rightDegree);
      ghost var left := Build(s, place, childDepth, childRadius, centerLeft, leftDegree);
      ghost var c := Circle(radius, center, s.cactus);
      o := GenerateFractals(s, childDepth, childRadius, centerRight, rightDegree);
      if o.Fail? {
        return;
      }
      ghost var before := allFractals;
      assert before == old(allFractals) + right.circles && right.failure.None?;
      o := GenerateTrunkAndLeft(s, depth, radius, center, childDepth, childRadius, centerLeft, leftDegree);
      if c.Ok? {
        assert Join(right, c, left) == Emission(right.circles + [c.value] + left.circles, left.failure);
        AppendAssoc(old(allFractals), right.circles, [c.value], left.circles);
      } else {
        assert Join(right, c, left) == Emission(right.circles, Some(c.error));
      }
    }

    /**
     * The last two steps of a branch: the own cactus circle `new Fractal((int)radius, centerPoint,
     * cactusColor)`, then, if that was constructed, the left subtree.
     */
    method GenerateTrunkAndLeft(ghost s: Settings, depth: int, radius: real, center: Point,
                                childDepth: int, childRadius: real, centerLeft: Point, leftDegree: real)
      returns (o: Outcome)
      requires s == CurrentSettings()
      requires 1 <= childDepth < depth
      modifies this`allFractals
      ensures var c := Circle(radius, center, s.cactus);
              c.Err? ==> o == Fail(c.error) && allFractals == old(allFractals)
      ensures var c := Circle(radius, center, s.cactus);
              var left := Build(s, place, childDepth, childRadius, centerLeft, leftDegree);
              c.Ok? ==> allFractals == old(allFractals) + [c.value] + left.circles && o == OutcomeOf(left.failure)
      decreases depth, 0
    {
      var f := NewFractal(Truncate(radius), Some(center), Some(cactusColor));
      assert f == Circle(radius, center, s.cactus);
      if f.Err? {
        return Fail(f.error);
      }
      allFractals := allFractals + [f.value];
      o := GenerateFractals(s, childDepth, childRadius, centerLeft, leftDegree);
    }

    /**
     * `setData(recursionDepth, radiusRatio, degree, cactusColor, pearColor)` as written: a depth
     * outside [2, 10] or a missing colour is rejected with nothing changed; the ratio check never
     * fires. Otherwise the settings are stored (the ratio as a fraction) and every observer is notified.
     */
    method SetData(depth: Int32, ratio: real, degrees: Int32, cactus: Option<Color>, pear: Option<Color>)
      returns (o: Outcome)
      requires Valid()
      modifies this
      ensures Valid()
      ensures o.Fail? <==> depth < 2 || depth > 10 || cactus.None? || pear.None?
      ensures o.Fail? ==> o.error == IllegalArgument && unchanged(this)
      ensures o.Pass? ==> recursionDepth == depth && radiusRatio == ratio / 100.0 && degree == degrees as real
                          && cactusColor == cactus.value && pearColor == pear.value
                          && observers == old(observers) && allFractals == old(allFractals)
                          && notifications == old(notifications) + observers
    {
      if depth < 2 || depth > 10 {
        return Fail(IllegalArgument);
      }
      if RatioRejected(ratio) || pear.None? || cactus.None? {
        return Fail(IllegalArgument);
      }
      recursionDepth := depth;
      radiusRatio := ratio / 100.0;
      degree := degrees as real;
      cactusColor := cactus.value;
      pearColor := pear.value;
      NotifyAllObservers();
      o := Pass;
    }

    /**
     * `setData` with the ratio check the documentation describes: a ratio below 40 or above 70 is
     * rejected too, so an accepted ratio is stored as a fraction in [0.4, 0.7].
     */
    method SetDataRangeChecked(depth: Int32, ratio: real, degrees: Int32, cactus: Option<Color>, pear: Option<Color>)
      returns (o: Outcome)
      requires Valid()
      modifies this
      ensures Valid()
      ensures o.Fail? <==> depth < 2 || depth > 10 || RatioOutOfRange(ratio) || cactus.None? || pear.None?
      ensures o.Fail? ==> o.error == IllegalArgument && unchanged(this)
      ensures o.Pass? ==> 0.4 <= radiusRatio <= 0.7
      ensures o.Pass? ==> recursionDepth == depth && radiusRatio == ratio / 100.0 && degree == degrees as real
                          && cactusColor == cactus.value && pearColor == pear.value
                          && observers == old(observers) && allFractals == old(allFractals)
                          && notifications == old(notifications) + observers
    {
      if depth < 2 || depth > 10 {
        return Fail(IllegalArgument);
      }
      if RatioOutOfRange(ratio) || pear.None? || cactus.None? {
        return Fail(IllegalArgument);
      }
      recursionDepth := depth;
      radiusRatio := ratio / 100.0;
      degree := degrees as real;
      cactusColor := cactus.value;
      pearColor := pear.value;
      NotifyAllObservers();
      o := Pass;
    }

    /** `getRecursionDepth()`: always within [2, 10]. */
    method GetRecursionDepth() returns (r: Int32)
      requires Valid()
      ensures r == recursionDepth && 2 <= r <= 10
    {
      r := recursionDepth;
    }

    /** `getRadiusRatio()`: the stored fraction as a whole percentage, rounded toward zero. */
    function GetRadiusRatio(): (r: Int32)
      reads this
      ensures var v := radiusRatio * 100.0; 0.0 <= v < INT_MAX as real ==> r as real <= v < r as real + 1.0
      ensures var v := radiusRatio * 100.0; INT_MIN as real < v < 0.0 ==> r as real - 1.0 < v <= r as real
      ensures var v := radiusRatio * 100.0; v >= INT_MAX as real ==> r == INT_MAX
      ensures var v := radiusRatio * 100.0; v <= INT_MIN as real ==> r == INT_MIN
    {
      Truncate(radiusRatio * 100.0)
    }

    /** `getCactusColor()`. */
    function GetCactusColor(): Color
      reads this
    {
      cactusColor
    }

    /** `getPearColor()`. */
    function GetPearColor(): Color
      reads this
    {
      pearColor
    }

    /** `attach(observer)`: appends to the observer list. */
    method Attach(observer: nat)
      modifies this`observers
      ensures observers == old(observers) + [observer]
    {
      observers := observers + [observer];
    }

    /**
     * `detach(observer)`: `remove(indexOf(observer))`, so an observer that is not attached makes
     * `remove(-1)` throw IndexOutOfBoundsException; otherwise its first occurrence goes.
     */
    method Detach(observer: nat) returns (o: Outcome)
      modifies this`observers
      ensures observer !in old(observers) ==> o == Fail(IndexOutOfBounds) && observers == old(observers)
      ensures observer in old(observers) ==> o == Pass && observers == RemoveFirst(old(observers), observer)
    {
      var index := FirstIndexOf(observers, observer);
      if index < 0 || index >= |observers| {
        return Fail(IndexOutOfBounds);
      }
      RemoveAtFirstIndex(observers, observer);
      observers := observers[..index] + observers[index + 1..];
      o := Pass;
    }

    /** `notifyAllObservers()`: one `update()` per attached observer, in list order. */
    method NotifyAllObservers()
      modifies this`notifications
      ensures notifications == old(notifications) + observers
    {
      var i := 0;
      while i < |observers|
        invariant 0 <= i <= |observers|
        invariant notifications == old(notifications) + observers[..i]
      {
        notifications := notifications + [observers[i]];
        i := i + 1;
      }
      assert observers[..i] == observers;
    }
  }

  // ---------------------------------------------------------------------------
  // Scenarios
  // ---------------------------------------------------------------------------

  /** A fresh generator on an 800 x 600 panel draws the default cactus of 31 circles. */
  method DefaultScenario(place: Placement) returns (g: GenerateFractal, o: Outcome)
    ensures o == Pass && |g.allFractals| == 31
    ensures g.allFractals[15] == Fractal(Point(400, 500), 200, 100, DEFAULT_CACTUS_COLOR)
  {
    g := new GenerateFractal(place);
    o := g.GetData(800, 600);
    assert g.CurrentSettings() == DefaultSettings();
    DefaultTree(place, Point(400, 500));
  }

  /** `getData` discards the previous circles, so a second call with the same panel gives the same list and outcome. */
  method GetDataTwice(g: GenerateFractal, width: Int32, height: Int32)
    returns (first: seq<Fractal>, second: seq<Fractal>, o1: Outcome, o2: Outcome)
    modifies g`allFractals
    ensures first == second && o1 == o2
  {
    o1 := g.GetData(width, height);
    first := g.allFractals;
    o2 := g.GetData(width, height);
    second := g.allFractals;
  }

  /** `setData` as written accepts a ratio of 0, and the next `getData` then throws. */
  method ZeroRatioAccepted(place: Placement) returns (accepted: Outcome, drawn: Outcome)
    ensures accepted == Pass && drawn == Fail(IllegalArgument)
  {
    var g := new GenerateFractal(place);
    accepted := g.SetData(5, 0.0, 45, Some(DEFAULT_CACTUS_COLOR), Some(DEFAULT_PEAR_COLOR));
    drawn := g.GetData(800, 600);
    ZeroRatioThrows(g.CurrentSettings(), place, 5, 100.0, Point(400, 500), 45.0);
  }
}
