/**
 * The properties of `handleFileAdd` on a whole subtree, stated on the
 * recursive worker and on the tree itself.
 */
module WalkFacts {
  import opened Wrappers
  import opened Paths
  import opened Ledger
  import opened Worker
  import opened Traversal
  import opened RunFacts

  /** Every entry name, at every depth, is a proper directory-entry name. */
  predicate WellFormed(n: Node)
    decreases n, Height(n)
  {
    n.Dir? ==> WellFormedFrom(n, 0)
  }

  predicate WellFormedFrom(n: Node, i: nat)
    requires n.Dir? && i <= |n.entries|
    decreases n, |n.entries| - i
  {
    i < |n.entries| ==>
      && IsSegment(n.entries[i].name)
      && WellFormed(n.entries[i].node)
      && WellFormedFrom(n, i + 1)
  }

  /** The names of the files in a directory tree, at any depth. */
  function FileNames(n: Node): set<string>
    decreases n, Height(n)
  {
    if n.Dir? then FileNamesFrom(n, 0) else {}
  }

  function FileNamesFrom(n: Node, i: nat): set<string>
    requires n.Dir? && i <= |n.entries|
    decreases n, |n.entries| - i
  {
    if i == |n.entries| then {}
    else
      var e := n.entries[i];
      (if e.node.File? then {e.name} else FileNames(e.node)) + FileNamesFrom(n, i + 1)
  }

  lemma {:induction false} NamesAppend(a: seq<Action>, b: seq<Action>)
    ensures Names(a + b) == Names(a) + Names(b)
    decreases a
  {
    if a == [] {
      assert a + b == b;
    } else {
      assert (a + b)[0] == a[0] && (a + b)[1..] == a[1..] + b;
      NamesAppend(a[1..], b);
    }
  }

  /**
   * Flattening by base name: in a well-formed directory, the base names of
   * the files the walk reaches are the names of its files at every depth.
   */
  lemma {:induction false} LeafNamesAreFileNames(path: string, n: Node)
    requires n.Dir? && WellFormed(n)
    ensures Names(Flatten(path, n)) == FileNames(n)
    decreases n, Height(n)
  {
    LeafNamesAreFileNamesFrom(path, n, 0);
  }

  lemma {:induction false} LeafNamesAreFileNamesFrom(path: string, n: Node, i: nat)
    requires n.Dir? && i <= |n.entries| && WellFormedFrom(n, i)
    ensures Names(FlattenFrom(path, n, i)) == FileNamesFrom(n, i)
    decreases n, |n.entries| - i
  {
    if i < |n.entries| {
      var e := n.entries[i];
      var p := Join(path, e.name);
      NamesAppend(Flatten(p, e.node), FlattenFrom(path, n, i + 1));
      LeafNamesAreFileNamesFrom(path, n, i + 1);
      match e.node
      case File(_, _, _) =>
        BasenameOfJoin(path, e.name);
      case Dir(_) =>
        LeafNamesAreFileNames(p, e.node);
      case Missing =>
      case Unlistable =>
    }
  }

  /** Idempotence: handling the same subtree again after a success is a no-op. */
  lemma WalkRepeat(s: St, path: string, n: Node)
    requires Walk(s, path, n).status.Ok?
    ensures Walk(Walk(s, path, n).state, path, n) == Step(Walk(s, path, n).state, Ok)
  {
    WalkIsRun(s, path, n);
    WalkIsRun(Walk(s, path, n).state, path, n);
    RunRepeat(s, Flatten(path, n));
  }

  /**
   * Recursive backfill: after handling a well-formed directory successfully,
   * the ledger is the old ledger plus the name of every file at any depth,
   * and every newly recorded name has a copy in the target.
   */
  lemma WalkCopiesEveryFile(s: St, path: string, n: Node)
    requires n.Dir? && WellFormed(n)
    requires Walk(s, path, n).status.Ok?
    ensures forall x :: x in Walk(s, path, n).state.record <==> x in s.record || x in FileNames(n)
    ensures forall x :: x in FileNames(n) && x !in s.record ==> x in Walk(s, path, n).state.target
  {
    var a := Flatten(path, n);
    WalkIsRun(s, path, n);
    LeafNamesAreFileNames(path, n);
    RunRecordsEveryName(s, a);
    forall x | x in FileNames(n) && x !in s.record
      ensures x in Walk(s, path, n).state.target
    {
      RunNewNamesInTarget(s, a, x);
    }
  }

  /**
   * The ledger's invariant: on every outcome, including a failed copy or a
   * failed record write, each recorded name still has a target entry.
   */
  lemma WalkRecordInTarget(s: St, path: string, n: Node)
    requires RecordInTarget(s)
    ensures RecordInTarget(Walk(s, path, n).state)
  {
    WalkIsRun(s, path, n);
    RunRecordInTarget(s, Flatten(path, n));
  }

  /**
   * Nothing else changes: a walk over a well-formed directory leaves every
   * target entry alone whose name is not a file name in the tree, and every
   * entry whose name the ledger already held.
   */
  lemma WalkTargetFrame(s: St, path: string, n: Node, x: string)
    requires n.Dir? && WellFormed(n)
    requires x !in FileNames(n) || x in s.record
    ensures Agree(s.target, Walk(s, path, n).state.target, x)
  {
    WalkIsRun(s, path, n);
    LeafNamesAreFileNames(path, n);
    RunTargetFrame(s, Flatten(path, n), x);
  }

  /**
   * Base-name collisions: when several files reached by one walk share a
   * base name the ledger does not hold, the target keeps the content of the
   * first one in traversal order; the later ones are skipped. It is enough
   * that the walk gets past that first file: a later failure does not undo it.
   */
  lemma WalkFirstWins(s: St, path: string, n: Node, x: string, k: nat)
    requires k < |Flatten(path, n)| && Run(s, Flatten(path, n)[..k + 1]).status.Ok?
    requires x !in s.record
    requires var a := Flatten(path, n);
      && a[k].Copy? && Basename(a[k].path) == x
      && forall j :: 0 <= j < k ==> !(a[j].Copy? && Basename(a[j].path) == x)
    ensures x in Walk(s, path, n).state.target
    ensures Walk(s, path, n).state.target[x] == Flatten(path, n)[k].content
  {
    WalkIsRun(s, path, n);
    RunFirstWins(s, Flatten(path, n), x, k);
  }

  /** Listing order: a directory's entries are handled as the two halves of the listing in turn. */
  lemma {:induction false} WalkFromAppend(s: St, path: string, xs: seq<Entry>, ys: seq<Entry>, i: nat)
    requires i <= |xs|
    ensures WalkFrom(s, path, Dir(xs + ys), i) ==
      (var r := WalkFrom(s, path, Dir(xs), i);
       if r.status.Failed? then r else WalkFrom(r.state, path, Dir(ys), 0))
    decreases |xs| - i
  {
    var whole := Dir(xs + ys);
    if i < |xs| {
      var e := xs[i];
      assert whole.entries[i] == e;
      var r := Walk(s, Join(path, e.name), e.node);
      assert WalkFrom(s, path, whole, i) ==
        (if r.status.Failed? then r else WalkFrom(r.state, path, whole, i + 1));
      assert WalkFrom(s, path, Dir(xs), i) ==
        (if r.status.Failed? then r else WalkFrom(r.state, path, Dir(xs), i + 1));
      if r.status.Ok? {
        WalkFromAppend(r.state, path, xs, ys, i + 1);
      }
    } else {
      WalkFromShift(s, path, xs, ys, 0);
    }
  }

  /** Entries after a prefix are walked as if the prefix were not there. */
  lemma {:induction false} WalkFromShift(s: St, path: string, xs: seq<Entry>, ys: seq<Entry>, j: nat)
    requires j <= |ys|
    ensures WalkFrom(s, path, Dir(xs + ys), |xs| + j) == WalkFrom(s, path, Dir(ys), j)
    decreases |ys| - j
  {
    var whole := Dir(xs + ys);
    if j < |ys| {
      var e := ys[j];
      assert whole.entries[|xs| + j] == e;
      var r := Walk(s, Join(path, e.name), e.node);
      assert WalkFrom(s, path, whole, |xs| + j) ==
        (if r.status.Failed? then r else WalkFrom(r.state, path, whole, |xs| + j + 1));
      assert WalkFrom(s, path, Dir(ys), j) ==
        (if r.status.Failed? then r else WalkFrom(r.state, path, Dir(ys), j + 1));
      if r.status.Ok? {
        WalkFromShift(r.state, path, xs, ys, j + 1);
      }
    }
  }

  /**
   * Failure aborts the walk: once an entry fails, the entries listed after
   * it are not handled, and the directory's call fails with the same error.
   */
  lemma WalkStopsAtFailure(s: St, path: string, xs: seq<Entry>, ys: seq<Entry>)
    requires Walk(s, path, Dir(xs)).status.Failed?
    ensures Walk(s, path, Dir(xs + ys)) == Walk(s, path, Dir(xs))
  {
    WalkFromAppend(s, path, xs, ys, 0);
  }

  /** A failing entry's error is the error of the directory that lists it. */
  lemma WalkPropagatesFailure(s: St, path: string, e: Entry, ys: seq<Entry>)
    requires Walk(s, Join(path, e.name), e.node).status.Failed?
    ensures Walk(s, path, Dir([e] + ys)) == Walk(s, Join(path, e.name), e.node)
  {
  }

  /** A file whose copy failed is not recorded, so a later walk tries it again. */
  lemma WalkCopyFailureNotRecorded(s: St, path: string, n: Node, p: string)
    requires Walk(s, path, n).status == Failed(CopyFailed(p))
    ensures Basename(p) !in Walk(s, path, n).state.record
  {
    WalkIsRun(s, path, n);
    RunCopyFailureNotRecorded(s, Flatten(path, n), p);
  }

  /**
   * Persistence tracks memory: unless saving the record failed, a walk that
   * recorded anything leaves the record file holding the whole ledger, and
   * a walk that recorded nothing changed nothing.
   */
  lemma WalkSynced(s: St, path: string, n: Node)
    requires Walk(s, path, n).status != Failed(SaveFailed)
    ensures var s' := Walk(s, path, n).state;
      && (s'.record != s.record ==> s'.stored == Some(s'.record))
      && (s'.record == s.record ==> s' == s)
  {
    WalkIsRun(s, path, n);
    RunSynced(s, Flatten(path, n));
  }

  /**
   * Ledger durability: after a successful walk from a state whose record file
   * loads back as its ledger, a restart that reloads the record file is in
   * the very same state, and handling the same subtree again copies nothing.
   */
  lemma WalkSurvivesRestart(s: St, path: string, n: Node)
    requires NoDup(s.record) && LoadRecord(s.stored) == s.record
    requires Walk(s, path, n).status.Ok?
    ensures var s' := Walk(s, path, n).state;
      var restarted := St(LoadRecord(s'.stored), s'.stored, s'.target);
      && restarted == s'
      && Walk(restarted, path, n) == Step(restarted, Ok)
  {
    WalkIsRun(s, path, n);
    RunKeepsDurable(s, Flatten(path, n));
    WalkRepeat(s, path, n);
  }
}
