/**
 * What a run of leaf actions does to the ledger, the record file and the
 * target directory. `WalkFacts` carries these over to the recursive worker.
 */
module RunFacts {
  import opened Wrappers
  import opened Paths
  import opened Ledger
  import opened Worker
  import opened Traversal

  /** A run that succeeds met only files: a vanished or unreadable path fails it. */
  lemma {:induction false} RunOkOnlyCopies(s: St, a: seq<Action>)
    requires Run(s, a).status.Ok?
    ensures forall k :: 0 <= k < |a| ==> a[k].Copy?
    decreases a
  {
    if a != [] {
      var r := Act(s, a[0]);
      RunOkOnlyCopies(r.state, a[1..]);
      assert forall k :: 1 <= k < |a| ==> a[k] == a[1..][k - 1];
    }
  }

  /** On success the ledger gains exactly the base names of the files reached. */
  lemma {:induction false} RunRecordsEveryName(s: St, a: seq<Action>)
    requires Run(s, a).status.Ok?
    ensures forall x :: x in Run(s, a).state.record <==> x in s.record || x in Names(a)
    decreases a
  {
    if a != [] {
      var r := Act(s, a[0]);
      RunRecordsEveryName(r.state, a[1..]);
      assert forall x :: x in r.state.record <==> x in s.record || x in Names([a[0]]);
      assert Names(a) == Names([a[0]]) + Names(a[1..]);
    }
  }

  /** One leaf writes at most the target entry of its own base name, and only when it is new. */
  lemma ActFrame(s: St, a: Action, x: string)
    requires x !in Names([a]) || x in s.record
    ensures Agree(s.target, Act(s, a).state.target, x)
  {
  }

  /**
   * The target changes only at the base names of the files reached, and
   * never at a name the ledger already held.
   */
  lemma {:induction false} RunTargetFrame(s: St, a: seq<Action>, x: string)
    requires x !in Names(a) || x in s.record
    ensures Agree(s.target, Run(s, a).state.target, x)
    decreases a
  {
    if a != [] {
      var r := Act(s, a[0]);
      assert Names(a) == Names([a[0]]) + Names(a[1..]);
      ActFrame(s, a[0], x);
      if r.status.Ok? {
        RunTargetFrame(r.state, a[1..], x);
      }
    }
  }

  /** Every recorded name has a copy in the target. */
  predicate RecordInTarget(s: St) {
    forall x :: x in s.record ==> x in s.target
  }

  /**
   * Whatever the outcome, a run keeps every recorded name backed by a target
   * entry: a name is recorded only after its copy succeeded.
   */
  lemma {:induction false} RunRecordInTarget(s: St, a: seq<Action>)
    requires RecordInTarget(s)
    ensures RecordInTarget(Run(s, a).state)
    decreases a
  {
    if a != [] {
      var r := Act(s, a[0]);
      assert RecordInTarget(r.state);
      if r.status.Ok? {
        RunRecordInTarget(r.state, a[1..]);
      }
    }
  }

  /** On success every newly reached base name has an entry in the target. */
  lemma {:induction false} RunNewNamesInTarget(s: St, a: seq<Action>, x: string)
    requires Run(s, a).status.Ok?
    requires x in Names(a) && x !in s.record
    ensures x in Run(s, a).state.target
    decreases a
  {
    var r := Act(s, a[0]);
    assert Names(a) == Names([a[0]]) + Names(a[1..]);
    if x in r.state.record {
      assert x in r.state.target;
      RunTargetFrame(r.state, a[1..], x);
    } else {
      RunNewNamesInTarget(r.state, a[1..], x);
    }
  }

  /**
   * Base-name collisions: of the files that share a base name not yet in the
   * ledger, the first one reached is the one whose content the target keeps,
   * whether or not the run fails later on.
   */
  lemma {:induction false} RunFirstWins(s: St, a: seq<Action>, x: string, k: nat)
    requires k < |a| && Run(s, a[..k + 1]).status.Ok?
    requires x !in s.record
    requires a[k].Copy? && Basename(a[k].path) == x
    requires forall j :: 0 <= j < k ==> !(a[j].Copy? && Basename(a[j].path) == x)
    ensures x in Run(s, a).state.target && Run(s, a).state.target[x] == a[k].content
    decreases a
  {
    var r := Act(s, a[0]);
    assert a[..k + 1][0] == a[0];
    assert r.status.Ok?;
    if k == 0 {
      RunTargetFrame(r.state, a[1..], x);
    } else {
      assert !(a[0].Copy? && Basename(a[0].path) == x);
      assert x !in r.state.record;
      assert a[..k + 1][1..] == a[1..][..k];
      assert forall j :: 0 <= j < k - 1 ==> a[1..][j] == a[j + 1];
      RunFirstWins(r.state, a[1..], x, k - 1);
    }
  }

  /** Files whose base names are all in the ledger are all skipped. */
  lemma {:induction false} RunSkipsRecorded(s: St, a: seq<Action>)
    requires forall k :: 0 <= k < |a| ==> a[k].Copy? && Basename(a[k].path) in s.record
    ensures Run(s, a) == Step(s, Ok)
    decreases a
  {
    if a != [] {
      assert forall k :: 0 <= k < |a| - 1 ==> a[1..][k] == a[k + 1];
      RunSkipsRecorded(s, a[1..]);
    }
  }

  /** Idempotence: running the same leaves again after a success changes nothing. */
  lemma RunRepeat(s: St, a: seq<Action>)
    requires Run(s, a).status.Ok?
    ensures Run(Run(s, a).state, a) == Step(Run(s, a).state, Ok)
  {
    var s' := Run(s, a).state;
    RunOkOnlyCopies(s, a);
    RunRecordsEveryName(s, a);
    RunSkipsRecorded(s', a);
  }

  /** Failure aborts the rest: nothing after the failing leaf is handled. */
  lemma RunStopsAtFailure(s: St, a: seq<Action>, b: seq<Action>)
    requires Run(s, a).status.Failed?
    ensures Run(s, a + b) == Run(s, a)
  {
    RunAppend(s, a, b);
  }

  /** A copy that fails leaves its base name out of the ledger. */
  lemma {:induction false} RunCopyFailureNotRecorded(s: St, a: seq<Action>, p: string)
    requires Run(s, a).status == Failed(CopyFailed(p))
    ensures Basename(p) !in Run(s, a).state.record
    decreases a
  {
    var r := Act(s, a[0]);
    if r.status.Ok? {
      RunCopyFailureNotRecorded(r.state, a[1..], p);
    }
  }

  /**
   * Persistence tracks memory: unless saving the record failed, a run that
   * added names leaves the record file holding the whole ledger, and a run
   * that added none changed nothing at all.
   */
  lemma {:induction false} RunSynced(s: St, a: seq<Action>)
    requires Run(s, a).status != Failed(SaveFailed)
    ensures Run(s, a).state.record != s.record ==> Run(s, a).state.stored == Some(Run(s, a).state.record)
    ensures Run(s, a).state.record == s.record ==> Run(s, a).state == s
    decreases a
  {
    if a != [] {
      var r := Act(s, a[0]);
      if r.status.Ok? {
        RunSynced(r.state, a[1..]);
        var s' := Run(r.state, a[1..]).state;
        assert s.record <= r.state.record <= s'.record;
        if r.state.record != s.record {
          assert r.state.stored == Some(r.state.record);
        }
      }
    }
  }

  /**
   * Unless saving the record failed, the record file keeps loading back as
   * the in-memory ledger, so a restart resumes with the same ledger.
   */
  lemma RunKeepsDurable(s: St, a: seq<Action>)
    requires NoDup(s.record) && LoadRecord(s.stored) == s.record
    requires Run(s, a).status != Failed(SaveFailed)
    ensures LoadRecord(Run(s, a).state.stored) == Run(s, a).state.record
  {
    var s' := Run(s, a).state;
    RunSynced(s, a);
    if s'.record != s.record {
      LoadAfterSave(s'.record);
    }
  }
}
