/**
 * The transfer worker `handleFileAdd`, as a function of the state it acts on.
 *
 * The file system under the watched path is a snapshot tree: what `stat`
 * reports for each path, the listing `readdir` returns for each directory in
 * listing order, and, for each file, the outcome of the `copyFile` and of the
 * record `writeFile` that transferring it would perform.
 */
module Worker {
  import opened Wrappers
  import opened Paths
  import opened Ledger

  newtype byte = x: int | 0 <= x < 256

  type Content = seq<byte>

  /** What is found at a path. */
  datatype Node =
    | File(content: Content, copyOk: bool, saveOk: bool)
    | Dir(entries: seq<Entry>)
    | Unlistable   // `stat` says directory, `readdir` fails
    | Missing      // `stat` fails: the path has gone

  /** One directory entry: its name and what is under it. */
  datatype Entry = Entry(name: string, node: Node)

  datatype IoError =
    | NotFound(path: string)
    | ListFailed(path: string)
    | CopyFailed(path: string)
    | SaveFailed

  /** How a call ends: it returns, or it rejects with an error. */
  datatype Status = Ok | Failed(error: IoError)

  /**
   * Everything `handleFileAdd` can change: the in-memory ledger, the parsed
   * contents of the record file, and the target directory (base name to content).
   */
  datatype St = St(record: seq<string>, stored: Option<seq<string>>, target: map<string, Content>)

  /** The state after a call and how the call ended. */
  datatype Step = Step(state: St, status: Status)

  /** `x` has the same entry, or the same absence, in both maps. */
  predicate Agree(t: map<string, Content>, t': map<string, Content>, x: string) {
    (x in t <==> x in t') && (x in t ==> t[x] == t'[x])
  }

  /**
   * The file branch of `handleFileAdd`: skip a name already in the ledger;
   * otherwise copy to `target[name]`, add the name and save the whole ledger.
   */
  function HandleFile(s: St, path: string, content: Content, copyOk: bool, saveOk: bool): (r: Step)
    ensures Basename(path) in s.record ==> r == Step(s, Ok)
    ensures Basename(path) !in s.record && !copyOk ==> r == Step(s, Failed(CopyFailed(path)))
    ensures Basename(path) !in s.record && copyOk ==>
      && r.state.record == s.record + [Basename(path)]
      && Basename(path) in r.state.target && r.state.target[Basename(path)] == content
      && r.status == (if saveOk then Ok else Failed(SaveFailed))
      && r.state.stored == (if saveOk then Some(r.state.record) else s.stored)
    ensures r.state.target - {Basename(path)} == s.target - {Basename(path)}
    ensures r.status.Failed? ==> r.status.error in {CopyFailed(path), SaveFailed}
  {
    var name := Basename(path);
    if name in s.record then Step(s, Ok)
    else if !copyOk then Step(s, Failed(CopyFailed(path)))
    else
      var record := s.record + [name];
      var target := s.target[name := content];
      if saveOk then Step(St(record, Some(record), target), Ok)
      else Step(St(record, s.stored, target), Failed(SaveFailed))
  }

  /** Termination measure: a directory ranks above the walk over its entries. */
  function Height(n: Node): nat {
    if n.Dir? then |n.entries| + 1 else 0
  }

  /**
   * `handleFileAdd(path)` on the node found at `path`. A directory's entries
   * are handled one after another in listing order, and the first failure
   * ends the walk and is passed to the caller.
   */
  function Walk(s: St, path: string, n: Node): (r: Step)
    ensures s.record <= r.state.record
    ensures NoDup(s.record) ==> NoDup(r.state.record)
    decreases n, Height(n)
  {
    match n
    case Missing => Step(s, Failed(NotFound(path)))
    case Unlistable => Step(s, Failed(ListFailed(path)))
    case File(content, copyOk, saveOk) => HandleFile(s, path, content, copyOk, saveOk)
    case Dir(entries) => WalkFrom(s, path, n, 0)
  }

  /** The `for` loop of a directory, from entry `i` on. */
  function WalkFrom(s: St, path: string, n: Node, i: nat): (r: Step)
    requires n.Dir? && i <= |n.entries|
    ensures s.record <= r.state.record
    ensures NoDup(s.record) ==> NoDup(r.state.record)
    decreases n, |n.entries| - i
  {
    if i == |n.entries| then Step(s, Ok)
    else
      var e := n.entries[i];
      var r := Walk(s, Join(path, e.name), e.node);
      if r.status.Failed? then r else WalkFrom(r.state, path, n, i + 1)
  }
}
