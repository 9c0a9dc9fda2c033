/**
 * POSIX path handling as the transfer worker uses it: the base name of a
 * path (Node's `path.basename`) and the path of a directory entry
 * (Node's `path.join(dir, name)`).
 */
module Paths {

  /** A directory entry name as a listing reports it: non-empty, no separator, not "." or "..". */
  predicate IsSegment(name: string) {
    name != [] && '/' !in name && name != "." && name != ".."
  }

  /** `p` with every trailing '/' removed. */
  function TrimTrailingSlashes(p: string): (r: string)
    ensures r <= p
    ensures r == [] || r[|r| - 1] != '/'
    ensures forall i :: |r| <= i < |p| ==> p[i] == '/'
  {
    if p != [] && p[|p| - 1] == '/' then TrimTrailingSlashes(p[..|p| - 1]) else p
  }

  /** The text after the last '/' of `p` (all of `p` when it has none). */
  function LastSegment(p: string): (r: string)
    ensures '/' !in r
    ensures |r| <= |p|
  {
    if p == [] || p[|p| - 1] == '/' then []
    else LastSegment(p[..|p| - 1]) + [p[|p| - 1]]
  }

  /** The last segment is the suffix of `p` that starts right after a '/' (or at the start). */
  lemma {:induction false} LastSegmentIsSuffix(p: string)
    ensures var r := LastSegment(p);
      && r == p[|p| - |r|..]
      && (|r| < |p| ==> p[|p| - |r| - 1] == '/')
  {
    if p != [] && p[|p| - 1] != '/' {
      var init := p[..|p| - 1];
      LastSegmentIsSuffix(init);
      var r := LastSegment(init);
      assert init[|init| - |r|..] + [p[|p| - 1]] == p[|p| - |r| - 1..];
    }
  }

  /**
   * The base name of a path: trailing separators are ignored, then the last
   * segment is taken ("a/b.txt" and "a/b.txt/" both give "b.txt", "/" gives "").
   */
  function Basename(p: string): (r: string)
    ensures '/' !in r
    ensures |r| <= |p|
    ensures p == [] || p[|p| - 1] != '/' ==> r == LastSegment(p)
  {
    LastSegment(TrimTrailingSlashes(p))
  }

  /** A trailing separator does not change the base name ("a/b/" names "b"). */
  lemma BasenameIgnoresTrailingSlash(p: string)
    requires p != [] && p[|p| - 1] == '/'
    ensures Basename(p) == Basename(p[..|p| - 1])
  {
  }

  /** The path of entry `name` inside directory `dir`. */
  function Join(dir: string, name: string): (r: string)
    ensures |r| == |dir| + |name| + (if dir == [] || dir[|dir| - 1] == '/' then 0 else 1)
  {
    if dir == [] then name
    else if dir[|dir| - 1] == '/' then dir + name
    else dir + "/" + name
  }

  /** The entry path is the directory, then at most one '/', then the name. */
  lemma JoinParts(dir: string, name: string)
    ensures var r := Join(dir, name);
      && dir <= r
      && r[|r| - |name|..] == name
      && (|r| == |dir| + |name| + 1 ==> r[|dir|] == '/')
  {
  }

  /** A segment that follows a separator (or nothing) is the last segment. */
  lemma {:induction false} LastSegmentAfterSeparator(pre: string, w: string)
    requires pre == [] || pre[|pre| - 1] == '/'
    requires '/' !in w
    ensures LastSegment(pre + w) == w
  {
    if w == [] {
      assert pre + w == pre;
    } else {
      var w' := w[..|w| - 1];
      assert (pre + w)[..|pre + w| - 1] == pre + w';
      LastSegmentAfterSeparator(pre, w');
      assert w == w' + [w[|w| - 1]];
    }
  }

  /** The base name of an entry's path is the entry's own name. */
  lemma BasenameOfJoin(dir: string, name: string)
    requires IsSegment(name)
    ensures Basename(Join(dir, name)) == name
  {
    var pre := if dir == [] then [] else if dir[|dir| - 1] == '/' then dir else dir + "/";
    assert Join(dir, name) == pre + name;
    assert TrimTrailingSlashes(pre + name) == pre + name;
    LastSegmentAfterSeparator(pre, name);
  }

  /** A bare entry name is its own base name. */
  lemma BasenameOfSegment(name: string)
    requires IsSegment(name)
    ensures Basename(name) == name
  {
    assert Join([], name) == name;
    BasenameOfJoin([], name);
  }
}
