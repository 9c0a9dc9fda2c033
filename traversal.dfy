/**
 * An independent description of the walk: the depth-first, listing-order
 * sequence of leaf actions under a path, run one after another until the
 * first failure. `WalkIsRun` shows that the recursive worker is exactly this.
 */
module Traversal {
  import opened Paths
  import opened Ledger
  import opened Worker

  /** A leaf reached by the walk, with the path it is reached by. */
  datatype Action =
    | Copy(path: string, content: Content, copyOk: bool, saveOk: bool)
    | Vanished(path: string)
    | Unreadable(path: string)

  /** The leaves under `path`, in the order the walk reaches them. */
  function Flatten(path: string, n: Node): (r: seq<Action>)
    ensures n.File? ==> r == [Copy(path, n.content, n.copyOk, n.saveOk)]
    ensures n.Missing? ==> r == [Vanished(path)]
    ensures n.Unlistable? ==> r == [Unreadable(path)]
    decreases n, Height(n)
  {
    match n
    case Missing => [Vanished(path)]
    case Unlistable => [Unreadable(path)]
    case File(content, copyOk, saveOk) => [Copy(path, content, copyOk, saveOk)]
    case Dir(entries) => FlattenFrom(path, n, 0)
  }

  /** The leaves under entries `i`.. of directory `n`. */
  function FlattenFrom(path: string, n: Node, i: nat): seq<Action>
    requires n.Dir? && i <= |n.entries|
    decreases n, |n.entries| - i
  {
    if i == |n.entries| then []
    else
      var e := n.entries[i];
      Flatten(Join(path, e.name), e.node) + FlattenFrom(path, n, i + 1)
  }

  /** Handling one leaf. */
  function Act(s: St, a: Action): Step {
    match a
    case Copy(path, content, copyOk, saveOk) => HandleFile(s, path, content, copyOk, saveOk)
    case Vanished(path) => Step(s, Failed(NotFound(path)))
    case Unreadable(path) => Step(s, Failed(ListFailed(path)))
  }

  /** Handling leaves one after another; the first failure ends the run. */
  function Run(s: St, acts: seq<Action>): (r: Step)
    ensures s.record <= r.state.record
    ensures NoDup(s.record) ==> NoDup(r.state.record)
    decreases acts
  {
    if acts == [] then Step(s, Ok)
    else
      var r := Act(s, acts[0]);
      if r.status.Failed? then r else Run(r.state, acts[1..])
  }

  /** The base names of the files among `acts`. */
  function Names(acts: seq<Action>): (r: set<string>)
    ensures forall k :: 0 <= k < |acts| && acts[k].Copy? ==> Basename(acts[k].path) in r
    ensures forall x :: x in r ==> exists k :: 0 <= k < |acts| && acts[k].Copy? && Basename(acts[k].path) == x
  {
    if acts == [] then {}
    else
      var rest := Names(acts[1..]);
      assert forall k :: 1 <= k < |acts| ==> acts[k] == acts[1..][k - 1];
      if acts[0].Copy? then {Basename(acts[0].path)} + rest else rest
  }

  /** Running `a + b` is running `a` and, unless it failed, `b` after it. */
  lemma {:induction false} RunAppend(s: St, a: seq<Action>, b: seq<Action>)
    ensures Run(s, a + b) == (var r := Run(s, a); if r.status.Failed? then r else Run(r.state, b))
    decreases a
  {
    if a == [] {
      assert a + b == b;
    } else {
      assert (a + b)[0] == a[0];
      assert (a + b)[1..] == a[1..] + b;
      var r := Act(s, a[0]);
      if r.status.Ok? {
        RunAppend(r.state, a[1..], b);
      }
    }
  }

  /** The recursive worker handles exactly the flattened leaves, in order. */
  lemma {:induction false} WalkIsRun(s: St, path: string, n: Node)
    ensures Walk(s, path, n) == Run(s, Flatten(path, n))
    decreases n, Height(n)
  {
    match n
    case Missing =>
    case Unlistable =>
    case File(_, _, _) =>
      assert Flatten(path, n)[1..] == [];
    case Dir(_) => WalkFromIsRun(s, path, n, 0);
  }

  lemma {:induction false} WalkFromIsRun(s: St, path: string, n: Node, i: nat)
    requires n.Dir? && i <= |n.entries|
    ensures WalkFrom(s, path, n, i) == Run(s, FlattenFrom(path, n, i))
    decreases n, |n.entries| - i
  {
    if i < |n.entries| {
      var e := n.entries[i];
      var p := Join(path, e.name);
      WalkIsRun(s, p, e.node);
      RunAppend(s, Flatten(p, e.node), FlattenFrom(path, n, i + 1));
      var r := Walk(s, p, e.node);
      if r.status.Ok? {
        WalkFromIsRun(r.state, path, n, i + 1);
      }
    }
  }
}
