/**
 * Small source trees run through the worker: a file next to a
 * subdirectory holding one more file.
 */
module Scenarios {
  import opened Wrappers
  import opened Paths
  import opened Worker

  /** `src` holds file `x` (content `cx`) and subdirectory `sub` holding file `y` (content `cy`). */
  function TwoLevels(x: string, cx: Content, sub: string, y: string, cy: Content): Node {
    Dir([Entry(x, File(cx, true, true)), Entry(sub, Dir([Entry(y, File(cy, true, true))]))])
  }

  /**
   * Fresh run: with an empty target and no record file, both files end up
   * in the target under their own names, and the record file lists both
   * names in the order they were copied.
   */
  lemma FreshRun(src: string, x: string, cx: Content, sub: string, y: string, cy: Content)
    requires IsSegment(x) && IsSegment(sub) && IsSegment(y) && x != y
    ensures var r := Walk(St([], None, map[]), src, TwoLevels(x, cx, sub, y, cy));
      && r.status == Ok
      && r.state.record == [x, y]
      && r.state.stored == Some([x, y])
      && r.state.target == map[x := cx, y := cy]
  {
    var inner := Dir([Entry(y, File(cy, true, true))]);
    var tree := TwoLevels(x, cx, sub, y, cy);
    var s0 := St([], None, map[]);
    var s1 := St([x], Some([x]), map[x := cx]);
    var s2 := St([x, y], Some([x, y]), map[x := cx, y := cy]);
    var subPath := Join(src, sub);
    BasenameOfJoin(src, x);
    BasenameOfJoin(subPath, y);
    var h1 := HandleFile(s0, Join(src, x), cx, true, true);
    assert h1.state.record == [x] && h1.state.target == map[x := cx];
    assert Walk(s0, Join(src, x), File(cx, true, true)) == Step(s1, Ok);
    assert Walk(s1, Join(subPath, y), File(cy, true, true)) == Step(s2, Ok);
    assert WalkFrom(s1, subPath, inner, 0) == Step(s2, Ok);
    assert WalkFrom(s1, src, tree, 1) == Step(s2, Ok);
  }

  /**
   * Collision: when the nested file has the same name as the first one, the
   * first is copied and the nested one is skipped.
   */
  lemma Collision(src: string, x: string, first: Content, sub: string, second: Content)
    requires IsSegment(x) && IsSegment(sub)
    ensures var r := Walk(St([], None, map[]), src, TwoLevels(x, first, sub, x, second));
      && r.status == Ok
      && r.state.record == [x]
      && r.state.target == map[x := first]
  {
    var inner := Dir([Entry(x, File(second, true, true))]);
    var tree := TwoLevels(x, first, sub, x, second);
    var s0 := St([], None, map[]);
    var s1 := St([x], Some([x]), map[x := first]);
    var subPath := Join(src, sub);
    BasenameOfJoin(src, x);
    BasenameOfJoin(subPath, x);
    var h1 := HandleFile(s0, Join(src, x), first, true, true);
    assert h1.state.record == [x] && h1.state.target == map[x := first];
    assert Walk(s0, Join(src, x), File(first, true, true)) == Step(s1, Ok);
    assert Walk(s1, Join(subPath, x), File(second, true, true)) == Step(s1, Ok);
    assert WalkFrom(s1, subPath, inner, 0) == Step(s1, Ok);
    assert WalkFrom(s1, src, tree, 1) == Step(s1, Ok);
  }
}
