/**
 * The transfer ledger: the set of base names already copied, and the
 * record file it is loaded from and saved to.
 *
 * A JavaScript `Set` iterates in insertion order and `Array.from` keeps that
 * order, so the ledger is a sequence without duplicates, oldest name first.
 * The record file is seen through its parsed contents: `Some(names)` when it
 * holds a JSON array of names, `None` when it is missing or does not parse.
 */
module Ledger {
  import opened Wrappers

  /** No name occurs twice. */
  predicate NoDup(xs: seq<string>) {
    forall i, j :: 0 <= i < j < |xs| ==> xs[i] != xs[j]
  }

  /** The names of `xs` in first-occurrence order, as `new Set(xs)` holds them. */
  function Dedup(xs: seq<string>): (r: seq<string>)
    ensures NoDup(r)
    ensures forall x :: x in r <==> x in xs
  {
    if xs == [] then []
    else
      var d := Dedup(xs[..|xs| - 1]);
      var x := xs[|xs| - 1];
      assert xs == xs[..|xs| - 1] + [x];
      if x in d then d else d + [x]
  }

  /** A sequence that is already duplicate-free is its own set. */
  lemma {:induction false} DedupOfNoDup(xs: seq<string>)
    requires NoDup(xs)
    ensures Dedup(xs) == xs
  {
    if xs != [] {
      var init := xs[..|xs| - 1];
      assert NoDup(init);
      DedupOfNoDup(init);
      assert xs[|xs| - 1] !in init;
      assert xs == init + [xs[|xs| - 1]];
    }
  }

  /**
   * `loadRecord`: the ledger read from the record file, or the empty ledger
   * when the file is missing or unparsable.
   */
  function LoadRecord(stored: Option<seq<string>>): (r: seq<string>)
    ensures NoDup(r)
    ensures stored.None? ==> r == []
    ensures stored.Some? ==> forall x :: x in r <==> x in stored.value
  {
    match stored
    case None => []
    case Some(names) => Dedup(names)
  }

  /**
   * `saveRecord` writes the ledger as an array in iteration order; loading
   * that file gives back exactly the same ledger.
   */
  lemma LoadAfterSave(record: seq<string>)
    requires NoDup(record)
    ensures LoadRecord(Some(record)) == record
  {
    DedupOfNoDup(record);
  }
}
