/** The screen-border test and its edge detector. The plugin's tracking
    thread, `ScreenBorderHandler.run` and the border test script each
    compute the same predicate and keep the same one-bit memory, firing only
    when the predicate changes; both are defined once here. */
module Geometry {
  import opened Wrappers

  /** A pointer position or a screen size, as `(x, y)` / `(width, height)`. */
  datatype Point = Point(x: int, y: int)

  /** On the first or last column or row of the screen, or beyond it. */
  predicate OnScreenBorder(pos: Point, screen: Point) {
    pos.x <= 0 || pos.x >= screen.x - 1 || pos.y <= 0 || pos.y >= screen.y - 1
  }

  /** The border predicate at each of successive pointer positions. */
  function BorderValues(pointers: seq<Point>, screen: Point): (bs: seq<bool>)
    ensures |bs| == |pointers|
    ensures forall i :: 0 <= i < |pointers| ==> bs[i] == OnScreenBorder(pointers[i], screen)
    decreases |pointers|
  {
    if |pointers| == 0 then [] else [OnScreenBorder(pointers[0], screen)] + BorderValues(pointers[1..], screen)
  }

  /** Strictly inside the screen, away from all four edges. */
  lemma OffBorderIsInterior(pos: Point, screen: Point)
    ensures !OnScreenBorder(pos, screen) <==> 0 < pos.x < screen.x - 1 && 0 < pos.y < screen.y - 1
  {
  }

  /** One step of the edge detector: given the remembered state and the
      current predicate value, the new memory and the transition to report
      (`Some(true)` on entering, `Some(false)` on leaving, `None` when
      nothing changed). */
  function BorderEdge(prev: bool, now: bool): (r: (bool, Option<bool>))
    ensures r.0 == now
    ensures r.1.Some? <==> prev != now
    ensures r.1.Some? ==> r.1.value == now
  {
    if now != prev then (now, Some(now)) else (prev, None)
  }

  /** Feeding the detector a sequence of predicate values, collecting the
      reported transitions. */
  function Edges(prev: bool, values: seq<bool>): seq<bool>
    decreases |values|
  {
    if |values| == 0 then []
    else
      var step := BorderEdge(prev, values[0]);
      (if step.1.Some? then [step.1.value] else []) + Edges(step.0, values[1..])
  }

  /** Reported transitions alternate, starting with the opposite of the
      initial state: the detector never reports the same edge twice in a row,
      and a constant input reports at most one edge. */
  lemma {:induction false} EdgesAlternate(prev: bool, values: seq<bool>)
    ensures forall i :: 0 <= i < |Edges(prev, values)| ==> Edges(prev, values)[i] == (if i % 2 == 0 then !prev else prev)
    decreases |values|
  {
    if |values| > 0 {
      var step := BorderEdge(prev, values[0]);
      EdgesAlternate(step.0, values[1..]);
      if step.1.Some? {
        var rest := Edges(step.0, values[1..]);
        assert Edges(prev, values) == [!prev] + rest;
        forall i | 1 <= i < |Edges(prev, values)|
          ensures Edges(prev, values)[i] == (if i % 2 == 0 then !prev else prev)
        {
          assert Edges(prev, values)[i] == rest[i - 1];
        }
      }
    }
  }

  /** Repeating an unchanged state fires nothing. */
  lemma {:induction false} UnchangedFiresNothing(prev: bool, n: nat)
    ensures Edges(prev, seq(n, _ => prev)) == []
    decreases n
  {
    if n > 0 {
      assert seq(n, _ => prev)[1..] == seq(n - 1, _ => prev);
      UnchangedFiresNothing(prev, n - 1);
    }
  }

  /** The last of `bs`, or `d` when there is none. */
  function LastOr(d: bool, bs: seq<bool>): (r: bool)
    ensures |bs| == 0 ==> r == d
    ensures |bs| > 0 ==> r == bs[|bs| - 1]
  {
    if |bs| == 0 then d else bs[|bs| - 1]
  }

  lemma LastOrCons(d: bool, b: bool, bs: seq<bool>)
    ensures LastOr(d, [b] + bs) == LastOr(b, bs)
  {
    if |bs| > 0 {
      assert ([b] + bs)[|bs|] == bs[|bs| - 1];
    }
  }
}
