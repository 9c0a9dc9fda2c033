/**
 * The transfer service's shared state and `handleFileAdd` itself, as the
 * service runs it: one ledger object updated in place, the record file
 * rewritten after each copy, and copies written into the target directory.
 */
module Service {
  import opened Wrappers
  import opened Paths
  import opened Ledger
  import opened Worker

  class Transfer {
    /** The in-memory ledger (`record`), oldest name first. */
    var record: seq<string>
    /** The parsed contents of the record file. */
    var stored: Option<seq<string>>
    /** The target directory: base name to file content. */
    var target: map<string, Content>

    ghost predicate Valid()
      reads this
    {
      NoDup(record)
    }

    /** The state the worker's specification speaks about. */
    function State(): St
      reads this
    {
      St(record, stored, target)
    }

    /** Start-up: the ledger is loaded from the record file (`loadRecord`). */
    constructor (storedAtStart: Option<seq<string>>, targetAtStart: map<string, Content>)
      ensures Valid()
      ensures record == LoadRecord(storedAtStart)
      ensures stored == storedAtStart && target == targetAtStart
    {
      record := LoadRecord(storedAtStart);
      stored := storedAtStart;
      target := targetAtStart;
    }

    /**
     * `saveRecord`: overwrite the record file with the whole ledger.
     * `writeOk` is the outcome of the file write.
     */
    method SaveRecord(writeOk: bool) returns (status: Status)
      modifies this`stored
      ensures stored == (if writeOk then Some(record) else old(stored))
      ensures status == (if writeOk then Ok else Failed(SaveFailed))
    {
      if writeOk {
        stored := Some(record);
        status := Ok;
      } else {
        status := Failed(SaveFailed);
      }
    }

    /**
     * `handleFileAdd(path, record)`, where `n` is what is found at `path`:
     * a directory's entries are awaited one by one, a file is copied unless
     * its base name is already recorded.
     */
    method HandlePath(path: string, n: Node) returns (status: Status)
      requires Valid()
      modifies this
      ensures Valid()
      ensures old(record) <= record
      ensures Step(State(), status) == Walk(old(State()), path, n)
      decreases n
    {
      match n {
        case Missing =>
          status := Failed(NotFound(path));
        case Unlistable =>
          status := Failed(ListFailed(path));
        case Dir(entries) =>
          var i := 0;
          while i < |entries|
            invariant 0 <= i <= |entries|
            invariant Valid()
            invariant WalkFrom(State(), path, n, i) == Walk(old(State()), path, n)
          {
            var e := entries[i];
            status := HandlePath(Join(path, e.name), e.node);
            if status.Failed? {
              return;
            }
            i := i + 1;
          }
          status := Ok;
        case File(content, copyOk, saveOk) =>
          var name := Basename(path);
          if name in record {
            return Ok;
          }
          if !copyOk {
            return Failed(CopyFailed(path));
          }
          target := target[name := content];
          record := record + [name];
          status := SaveRecord(saveOk);
      }
    }
  }
}
