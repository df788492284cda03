/** The commit boundary of a call's product: artifacts into the blob store first, then the log record that points to
    them, with a fault possible at every operation. */
module CallCommit {

  datatype Option<T> = None | Some(value: T)

  /** Blob contents: an encoded outputs object, or the bytes of a file. Encoding is injective and decoding undoes it. */
  type Value = nat
  datatype Content = Encoded(value: Value) | Raw(bytes: seq<nat>)

  /** A blob reference is its content's address (the digest is taken to be collision-free). */
  datatype Ref = RefOf(content: Content)

  function Decode(c: Content): Option<Value> {
    match c
    case Encoded(v) => Some(v)
    case Raw(_) => None
  }

  type Path = string
  type Files = map<string, Ref>

  datatype Outputs = NoOutputs | Outputs(value: Value) | Unencodable

  datatype Product = Product(outputs: Outputs, files: Files)

  /** `node.completed`. */
  datatype Completed = Completed(path: Path, outputsRef: Option<Ref>, files: Files)

  datatype Store = Store(blobs: map<Ref, Content>, log: seq<Completed>)

  /** Where an attempt fails: at the n-th blob read, at the blob write (which may have stored the blob or not), at the
      log append (nothing lands), or at the fsync behind it (the record has landed). */
  datatype Fault = NoFault | GetFails(n: nat) | PutFails(stored: bool) | AppendFails | SyncFails

  predicate AllPresent(blobs: map<Ref, Content>, files: Files) {
    forall name :: name in files ==> files[name] in blobs
  }

  function OutputsRefOf(outputs: Outputs): Option<Ref> {
    if outputs.Outputs? then Some(RefOf(Encoded(outputs.value))) else None
  }

  function WithOutputs(blobs: map<Ref, Content>, outputs: Outputs): map<Ref, Content> {
    if outputs.Outputs? then blobs[RefOf(Encoded(outputs.value)) := Encoded(outputs.value)] else blobs
  }

  /** The attempt fails before anything is written. */
  predicate StopsEarly(st: Store, product: Product, fault: Fault) {
    || !AllPresent(st.blobs, product.files)
    || (fault.GetFails? && fault.n < |product.files|)
    || product.outputs == Unencodable
  }

  /** One attempt to commit, with its return value: whether it reported success. */
  function Attempt(st: Store, path: Path, product: Product, fault: Fault): (Store, bool) {
    if StopsEarly(st, product, fault) then (st, false)
    else if product.outputs.Outputs? && fault.PutFails? then
      (st.(blobs := if fault.stored then WithOutputs(st.blobs, product.outputs) else st.blobs), false)
    else
      var blobs := WithOutputs(st.blobs, product.outputs);
      if fault.AppendFails? then (st.(blobs := blobs), false)
      else
        (Store(blobs, st.log + [Completed(path, OutputsRefOf(product.outputs), product.files)]), !fault.SyncFails?)
  }

  // ---------------------------------------------------------------------------------------------
  // The code

  class RunStore {
    var blobs: map<Ref, Content>
    var log: seq<Completed>

    ghost function Contents(): Store
      reads this
    {
      Store(blobs, log)
    }

    method Get(ref: Ref, fails: bool) returns (ok: bool)
      ensures ok <==> !fails && ref in blobs
    {
      return !fails && ref in blobs;
    }

    method Put(content: Content, fault: Fault) returns (ok: bool, ref: Ref)
      modifies this`blobs
      ensures ref == RefOf(content) && ok == !fault.PutFails?
      ensures blobs == if ok || fault.stored then old(blobs)[ref := content] else old(blobs)
    {
      ref := RefOf(content);
      ok := !fault.PutFails?;
      if ok || fault.stored {
        blobs := blobs[ref := content];
      }
    }

    method AppendNodeCompleted(record: Completed, fault: Fault) returns (ok: bool)
      modifies this`log
      ensures ok == !(fault.AppendFails? || fault.SyncFails?)
      ensures log == if fault.AppendFails? then old(log) else old(log) + [record]
    {
      if fault.AppendFails? {
        return false;
      }
      log := log + [record];
      return !fault.SyncFails?;
    }

    /** `commitCallProduct`: the file references are read back in no particular order. */
    method CommitCallProduct(path: Path, product: Product, fault: Fault) returns (ok: bool)
      modifies this
      ensures (Contents(), ok) == Attempt(old(Contents()), path, product, fault)
    {
      var left := product.files.Keys;
      var count := 0;
      while left != {}
        invariant left <= product.files.Keys && count == |product.files.Keys| - |left|
        invariant forall name :: name in product.files && name !in left ==> product.files[name] in blobs
        invariant fault.GetFails? ==> count <= fault.n
        invariant Contents() == old(Contents())
      {
        var name :| name in left;
        var read := Get(product.files[name], fault == GetFails(count));
        if !read {
          return false;
        }
        left := left - {name};
        count := count + 1;
      }
      assert |product.files.Keys| == |product.files|;
      if product.outputs == Unencodable {
        return false;
      }
      var outputsRef: Option<Ref> := None;
      if product.outputs.Outputs? {
        var stored, ref := Put(Encoded(product.outputs.value), fault);
        if !stored {
          return false;
        }
        outputsRef := Some(ref);
      }
      ok := AppendNodeCompleted(Completed(path, outputsRef, product.files), fault);
    }
  }

  // ---------------------------------------------------------------------------------------------
  // What a log record promises

  /** Blobs sit at their own address. */
  ghost predicate Addressed(blobs: map<Ref, Content>) {
    forall ref :: ref in blobs ==> ref == RefOf(blobs[ref])
  }

  ghost predicate RecordSound(blobs: map<Ref, Content>, r: Completed) {
    && (r.outputsRef.Some? ==> r.outputsRef.value in blobs && Decode(blobs[r.outputsRef.value]).Some?)
    && AllPresent(blobs, r.files)
  }

  /** No record points to a missing artifact. */
  ghost predicate Sound(st: Store) {
    Addressed(st.blobs) && forall i :: 0 <= i < |st.log| ==> RecordSound(st.blobs, st.log[i])
  }

  /** One commit attempt and where it fails. */
  datatype Try = Try(path: Path, product: Product, fault: Fault)

  function Tries(st: Store, tries: seq<Try>): Store
    decreases tries
  {
    if tries == [] then st
    else Tries(Attempt(st, tries[0].path, tries[0].product, tries[0].fault).0, tries[1..])
  }

  lemma AttemptKeepsSound(st: Store, path: Path, product: Product, fault: Fault)
    requires Sound(st)
    ensures Sound(Attempt(st, path, product, fault).0)
  {
    var after := Attempt(st, path, product, fault).0;
    forall i | 0 <= i < |after.log| ensures RecordSound(after.blobs, after.log[i]) {
      if i < |st.log| {
        assert RecordSound(st.blobs, st.log[i]);
      }
    }
  }

  /** After any sequence of commits with any faults, every `node.completed` references only present artifacts. */
  lemma {:induction false} EveryHistoryIsSound(st: Store, tries: seq<Try>)
    requires Sound(st)
    ensures Sound(Tries(st, tries))
    decreases tries
  {
    if tries != [] {
      AttemptKeepsSound(st, tries[0].path, tries[0].product, tries[0].fault);
      EveryHistoryIsSound(Attempt(st, tries[0].path, tries[0].product, tries[0].fault).0, tries[1..]);
    }
  }

  // ---------------------------------------------------------------------------------------------
  // Folding

  datatype NodeResult = NodeResult(outputs: Option<Value>, files: Files)

  /** The part of `engine.Fold` that reads `node.completed`: None is a fold error. The latest record of a path wins. */
  function Fold(log: seq<Completed>, blobs: map<Ref, Content>): Option<map<Path, NodeResult>> {
    if log == [] then Some(map[])
    else
      var r := log[|log| - 1];
      var before := Fold(log[..|log| - 1], blobs);
      if before == None then None
      else if r.outputsRef == None then Some(before.value[r.path := NodeResult(None, r.files)])
      else if r.outputsRef.value !in blobs || Decode(blobs[r.outputsRef.value]) == None then None
      else Some(before.value[r.path := NodeResult(Decode(blobs[r.outputsRef.value]), r.files)])
  }

  /** A sound log folds, and what it folds to is settled by the log alone: exactly the recorded paths are completed,
      and blobs nobody points to (left behind by a failed attempt) change nothing. */
  lemma {:induction false} FoldSeesOnlyRecords(st: Store, more: map<Ref, Content>)
    requires Sound(st) && Addressed(more) && st.blobs.Keys <= more.Keys
    ensures Fold(st.log, st.blobs).Some?
    ensures Fold(st.log, st.blobs).value.Keys == set i | 0 <= i < |st.log| :: st.log[i].path
    ensures Fold(st.log, more) == Fold(st.log, st.blobs)
    decreases |st.log|
  {
    if st.log != [] {
      var n := |st.log| - 1;
      var before := st.(log := st.log[..n]);
      FoldSeesOnlyRecords(before, more);
      assert RecordSound(st.blobs, st.log[n]);
      var paths := set i | 0 <= i < n :: before.log[i].path;
      assert paths == set i | 0 <= i < n :: st.log[i].path;
      assert (set i | 0 <= i < |st.log| :: st.log[i].path) == paths + {st.log[n].path};
    }
  }

  /** What the latest record of a path says: the value behind its outputs reference, if it has one, and its files. */
  ghost predicate ReadsBack(results: map<Path, NodeResult>, r: Completed) {
    && r.path in results
    && results[r.path].files == r.files
    && (r.outputsRef.None? <==> results[r.path].outputs.None?)
    && (r.outputsRef.Some? ==> r.outputsRef.value == RefOf(Encoded(results[r.path].outputs.value)))
  }

  /** Folding gives each recorded path the content of its latest record. */
  lemma {:induction false} FoldReadsLatestRecords(st: Store, i: nat)
    requires Sound(st) && i < |st.log| && forall j :: i < j < |st.log| ==> st.log[j].path != st.log[i].path
    ensures Fold(st.log, st.blobs).Some? && ReadsBack(Fold(st.log, st.blobs).value, st.log[i])
    decreases |st.log|
  {
    var n := |st.log| - 1;
    var before := st.(log := st.log[..n]);
    FoldSeesOnlyRecords(st, st.blobs);
    FoldSeesOnlyRecords(before, st.blobs);
    assert st.log == before.log + [st.log[n]];
    FoldSnoc(before.log, st.log[n], st.blobs);
    hide Fold;
    if i < n {
      FoldReadsLatestRecords(before, i);
      assert st.log[n].path != st.log[i].path;
    } else {
      assert RecordSound(st.blobs, st.log[n]);
    }
  }

  lemma FoldSnoc(log: seq<Completed>, r: Completed, blobs: map<Ref, Content>)
    requires Fold(log, blobs).Some? && Fold(log + [r], blobs).Some?
    ensures r.outputsRef.Some? ==> r.outputsRef.value in blobs
    ensures Fold(log + [r], blobs).value == Fold(log, blobs).value[r.path :=
      NodeResult(if r.outputsRef.None? then None else Decode(blobs[r.outputsRef.value]), r.files)]
  {
    assert (log + [r])[..|log|] == log;
  }

  /** What a product means to whoever reads the run later. */
  function ResultOf(product: Product): NodeResult {
    match product.outputs
    case Outputs(v) => NodeResult(Some(v), product.files)
    case _ => NodeResult(None, product.files)
  }

  /** Commit and fold are inverse: once the record is in the log, folding returns what it returned before, with the
      product's own value and files at the committed path; and if no record got in, folding returns what it did before. */
  lemma CommitReadsBack(st: Store, path: Path, product: Product, fault: Fault)
    requires Sound(st)
    ensures var after := Attempt(st, path, product, fault).0;
      && Fold(st.log, st.blobs).Some?
      && (|after.log| == |st.log| || |after.log| == |st.log| + 1)
      && (|after.log| > |st.log| ==>
            Fold(after.log, after.blobs) == Some(Fold(st.log, st.blobs).value[path := ResultOf(product)]))
      && (|after.log| == |st.log| ==> Fold(after.log, after.blobs) == Fold(st.log, st.blobs))
    ensures Attempt(st, path, product, fault).1 ==> |Attempt(st, path, product, fault).0.log| > |st.log|
  {
    hide Fold;
    var after := Attempt(st, path, product, fault).0;
    AttemptKeepsSound(st, path, product, fault);
    FoldSeesOnlyRecords(st, after.blobs);
    if |after.log| > |st.log| {
      RecordReadsBack(st.log, path, product, after.blobs);
    }
  }

  lemma RecordReadsBack(log: seq<Completed>, path: Path, product: Product, blobs: map<Ref, Content>)
    requires Fold(log, blobs).Some? && blobs == WithOutputs(blobs, product.outputs)
    ensures Fold(log + [Completed(path, OutputsRefOf(product.outputs), product.files)], blobs)
      == Some(Fold(log, blobs).value[path := ResultOf(product)])
  {
    var r := Completed(path, OutputsRefOf(product.outputs), product.files);
    assert (log + [r])[..|log|] == log;
  }

  /** An attempt reports success exactly when all its artifacts are there, its outputs can be encoded, and none of the
      operations it makes fails. */
  lemma SucceedsIff(st: Store, path: Path, product: Product, fault: Fault)
    ensures Attempt(st, path, product, fault).1 <==>
      && (forall name :: name in product.files ==> product.files[name] in st.blobs)
      && !product.outputs.Unencodable?
      && match fault
         case NoFault => true
         case GetFails(n) => n >= |product.files|
         case PutFails(_) => !product.outputs.Outputs?
         case AppendFails => false
         case SyncFails => false
  {
  }

  // ---------------------------------------------------------------------------------------------
  // Crash and retry

  predicate Recorded(st: Store, path: Path) {
    exists i :: 0 <= i < |st.log| && st.log[i].path == path
  }

  /** The interpreter's rule: a node that the folded log shows as completed is not run again. */
  function Drive(st: Store, path: Path, product: Product, fault: Fault): Store {
    if Recorded(st, path) then st else Attempt(st, path, product, fault).0
  }

  function DriveAll(st: Store, path: Path, product: Product, faults: seq<Fault>): Store
    decreases faults
  {
    if faults == [] then st else DriveAll(Drive(st, path, product, faults[0]), path, product, faults[1..])
  }

  /** A blind retry (without consulting the log) reproduces the uninterrupted commit exactly when the fault did not
      strike after the record had landed. */
  lemma BlindRetryExactIff(st: Store, path: Path, product: Product, fault: Fault)
    requires !StopsEarly(st, product, NoFault)
    requires fault != NoFault
    ensures (Attempt(Attempt(st, path, product, fault).0, path, product, NoFault).0 == Attempt(st, path, product, NoFault).0)
      <==> (fault.AppendFails? || (fault.GetFails? && fault.n < |product.files|) || (fault.PutFails? && product.outputs.Outputs?))
  {
    var first := Attempt(st, path, product, fault).0;
    var again := Attempt(first, path, product, NoFault).0;
    var clean := Attempt(st, path, product, NoFault).0;
    assert WithOutputs(WithOutputs(st.blobs, product.outputs), product.outputs) == WithOutputs(st.blobs, product.outputs);
    assert !StopsEarly(first, product, NoFault);
    if first.log != st.log {
      assert |again.log| > |clean.log|;
    }
  }

  /** One guarded retry after any fault reproduces the uninterrupted commit, log and blobs alike. */
  lemma GuardedRetry(st: Store, path: Path, product: Product, fault: Fault)
    ensures Drive(Drive(st, path, product, fault), path, product, NoFault) == Drive(st, path, product, NoFault)
  {
    if !Recorded(st, path) {
      var first := Attempt(st, path, product, fault).0;
      if first.log == st.log {
        assert !Recorded(first, path);
        assert WithOutputs(WithOutputs(st.blobs, product.outputs), product.outputs) == WithOutputs(st.blobs, product.outputs);
      } else {
        assert first.log[|st.log|].path == path;
      }
    }
  }

  /** However often and wherever the commit is interrupted, once it goes through the store is the uninterrupted one. */
  lemma {:induction false} CrashyCommitEqualsClean(st: Store, path: Path, product: Product, faults: seq<Fault>)
    ensures DriveAll(st, path, product, faults + [NoFault]) == Drive(st, path, product, NoFault)
    decreases faults
  {
    if faults == [] {
      assert faults + [NoFault] == [NoFault];
      assert [NoFault][1..] == [];
    } else {
      var first := Drive(st, path, product, faults[0]);
      CrashyCommitEqualsClean(first, path, product, faults[1..]);
      assert (faults + [NoFault])[1..] == faults[1..] + [NoFault];
      GuardedRetry(st, path, product, faults[0]);
    }
  }

  /** One node of a run: what it commits, and the faults it meets before it goes through. */
  datatype Node = Node(path: Path, product: Product, faults: seq<Fault>)

  function RunNodes(st: Store, nodes: seq<Node>): Store
    decreases nodes
  {
    if nodes == [] then st
    else RunNodes(DriveAll(st, nodes[0].path, nodes[0].product, nodes[0].faults + [NoFault]), nodes[1..])
  }

  /** The same nodes without any fault. */
  function Undisturbed(nodes: seq<Node>): seq<Node> {
    if nodes == [] then [] else [nodes[0].(faults := [])] + Undisturbed(nodes[1..])
  }

  /** A whole run that crashes and resumes at will ends with the log and blobs of a run that never crashed. */
  lemma {:induction false} CrashyRunEqualsCleanRun(st: Store, nodes: seq<Node>)
    ensures RunNodes(st, nodes) == RunNodes(st, Undisturbed(nodes))
    decreases nodes
  {
    if nodes != [] {
      var n := nodes[0];
      CrashyCommitEqualsClean(st, n.path, n.product, n.faults);
      CrashyCommitEqualsClean(st, n.path, n.product, []);
      var clean := Undisturbed(nodes);
      assert clean[0] == n.(faults := []) && clean[1..] == Undisturbed(nodes[1..]);
      CrashyRunEqualsCleanRun(Drive(st, n.path, n.product, NoFault), nodes[1..]);
    }
  }

  /** All artifacts of the product are there and its outputs can be encoded. */
  ghost predicate Ready(st: Store, product: Product) {
    (forall name :: name in product.files ==> product.files[name] in st.blobs) && !product.outputs.Unencodable?
  }

  /** A commit that is interrupted in any way and then goes through is read back as the product. */
  lemma CrashyCommitReadsBack(st: Store, path: Path, product: Product, faults: seq<Fault>)
    requires Sound(st) && Ready(st, product)
    requires Fold(st.log, st.blobs).Some? && path !in Fold(st.log, st.blobs).value
    ensures var after := DriveAll(st, path, product, faults + [NoFault]);
      Sound(after) && st.blobs.Keys <= after.blobs.Keys
      && Fold(after.log, after.blobs) == Some(Fold(st.log, st.blobs).value[path := ResultOf(product)])
  {
    CrashyCommitEqualsClean(st, path, product, faults);
    FoldSeesOnlyRecords(st, st.blobs);
    CommitReadsBack(st, path, product, NoFault);
    SucceedsIff(st, path, product, NoFault);
    AttemptKeepsSound(st, path, product, NoFault);
  }

  /** The results of these nodes on top of earlier ones. */
  function Results(before: map<Path, NodeResult>, nodes: seq<Node>): map<Path, NodeResult>
    decreases nodes
  {
    if nodes == [] then before else Results(before[nodes[0].path := ResultOf(nodes[0].product)], nodes[1..])
  }

  ghost predicate AllReady(st: Store, nodes: seq<Node>) {
    forall i :: 0 <= i < |nodes| ==> Ready(st, nodes[i].product)
  }

  ghost predicate NewPaths(done: map<Path, NodeResult>, nodes: seq<Node>) {
    && (forall i :: 0 <= i < |nodes| ==> nodes[i].path !in done)
    && (forall i, j :: 0 <= i < j < |nodes| ==> nodes[i].path != nodes[j].path)
  }

  /** After a whole run that crashed and resumed at will, folding returns every node's own product. */
  lemma {:induction false} CrashyRunReadsBack(st: Store, nodes: seq<Node>)
    requires Sound(st) && Fold(st.log, st.blobs).Some?
    requires AllReady(st, nodes) && NewPaths(Fold(st.log, st.blobs).value, nodes)
    ensures var after := RunNodes(st, nodes);
      Fold(after.log, after.blobs) == Some(Results(Fold(st.log, st.blobs).value, nodes))
    decreases nodes
  {
    if nodes != [] {
      var n := nodes[0];
      var next := DriveAll(st, n.path, n.product, n.faults + [NoFault]);
      CrashyCommitReadsBack(st, n.path, n.product, n.faults);
      StillReady(st, next, nodes[1..]);
      CrashyRunReadsBack(next, nodes[1..]);
    }
  }

  lemma StillReady(st: Store, next: Store, nodes: seq<Node>)
    requires AllReady(st, nodes) && st.blobs.Keys <= next.blobs.Keys
    ensures AllReady(next, nodes)
  {
    forall i | 0 <= i < |nodes| ensures Ready(next, nodes[i].product) {
      assert Ready(st, nodes[i].product);
    }
  }
}
