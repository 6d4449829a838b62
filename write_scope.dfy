/**
 * The writer protocol of src/documents/index.py: `open_index_writer` opens a
 * writer, runs the body of the `with` block, commits when the body returned
 * and rolls back when it raised an `Exception` (logging and swallowing it),
 * and always waits for the merging threads. Any other `BaseException`
 * (KeyboardInterrupt, SystemExit) skips both, and leaves the block after the
 * wait. `update_document` and
 * `remove_document` commit inside the block themselves.
 *
 * The engine's writer is seen through the calls made on it. What the calls
 * do to the index is given by a small transactional model: additions and
 * deletions are pending until a commit applies them, a rollback drops them.
 */
module WriteScope {
  import opened Wrappers
  import opened Projection

  /** One call on the engine's writer. */
  datatype Call =
    | AddedRecord(record: Record)
    | DeletedBy(field: string, value: int)
    | Committed
    | RolledBack
    | Waited

  /** The engine's index writer: the calls made on it so far, in order. */
  class Writer {
    var calls: seq<Call>

    /** `open_index().writer()`: a fresh writer. */
    constructor ()
      ensures calls == []
    {
      calls := [];
    }

    /** `writer.add_document(...)` */
    method AddDocument(record: Record)
      modifies this
      ensures calls == old(calls) + [AddedRecord(record)]
    {
      calls := calls + [AddedRecord(record)];
    }

    /** `writer.delete_documents(field, value)` */
    method DeleteDocuments(field: string, value: int)
      modifies this
      ensures calls == old(calls) + [DeletedBy(field, value)]
    {
      calls := calls + [DeletedBy(field, value)];
    }

    /** `writer.commit()` */
    method Commit()
      modifies this
      ensures calls == old(calls) + [Committed]
    {
      calls := calls + [Committed];
    }

    /** `writer.rollback()` */
    method Rollback()
      modifies this
      ensures calls == old(calls) + [RolledBack]
    {
      calls := calls + [RolledBack];
    }

    /** `writer.wait_merging_threads()` */
    method WaitMergingThreads()
      modifies this
      ensures calls == old(calls) + [Waited]
    {
      calls := calls + [Waited];
    }
  }

  /** Makes the writer call `c`. */
  method Perform(w: Writer, c: Call)
    modifies w
    ensures w.calls == old(w.calls) + [c]
  {
    match c
    case AddedRecord(record) => w.AddDocument(record);
    case DeletedBy(field, value) => w.DeleteDocuments(field, value);
    case Committed => w.Commit();
    case RolledBack => w.Rollback();
    case Waited => w.WaitMergingThreads();
  }

  /** How the body of a `with open_index_writer()` block ends. */
  datatype Outcome =
    | Returns
      /** An `Exception` raised after `after` of the body's calls. */
    | Raises(after: nat)
      /** A `BaseException` that is not an `Exception`, raised after `after` of the body's calls. */
    | Escapes(after: nat)

  /** How many calls of the body run: all of them, or those before it raises. */
  function Completed(body: seq<Call>, outcome: Outcome): (n: nat)
    ensures n <= |body|
    ensures outcome.Returns? ==> n == |body|
  {
    if !outcome.Returns? && outcome.after < |body| then outcome.after else |body|
  }

  /** What the scope itself calls between the body and the final wait. */
  function Handler(outcome: Outcome): seq<Call> {
    match outcome
    case Returns => [Committed]
    case Raises(_) => [RolledBack]
    case Escapes(_) => []
  }

  /** The calls a `with open_index_writer()` block makes for a body that ends as `outcome`. */
  function ScopeLog(body: seq<Call>, outcome: Outcome): (log: seq<Call>)
    ensures |log| == Completed(body, outcome) + |Handler(outcome)| + 1
    ensures log[..Completed(body, outcome)] == body[..Completed(body, outcome)]
    ensures log[|log| - 1] == Waited
  {
    body[..Completed(body, outcome)] + Handler(outcome) + [Waited]
  }

  /**
   * `with open_index_writer() as writer: <body>`. An `Exception` is logged
   * and swallowed, so the block ends normally; any other `BaseException`
   * propagates (`propagates`) once the writer has waited.
   */
  method OpenIndexWriter(body: seq<Call>, outcome: Outcome) returns (w: Writer, propagates: bool)
    ensures fresh(w)
    ensures w.calls == ScopeLog(body, outcome)
    ensures propagates <==> outcome.Escapes?
  {
    w := new Writer();
    var n := Completed(body, outcome);
    var i := 0;
    while i < n
      invariant 0 <= i <= n
      invariant w.calls == body[..i]
    {
      Perform(w, body[i]);
      assert body[..i + 1] == body[..i] + [body[i]];
      i := i + 1;
    }
    match outcome {
      case Returns => w.Commit();
      case Raises(_) => w.Rollback();
      case Escapes(_) =>
    }
    w.WaitMergingThreads();
    propagates := outcome.Escapes?;
  }

  /** The calls `update_document` makes: add the projected record, stored under the document's key, then commit. */
  function UpdateCalls(doc: Document, c: Collections, asnMin: int, asnMax: int): (calls: seq<Call>)
    ensures |calls| == 2 && calls[0].AddedRecord? && calls[1] == Committed
    ensures Holds(calls[0].record, FieldName(Scalar(DocId)), doc.pk)
  {
    RecordHoldsPk(doc, c, asnMin, asnMax);
    [AddedRecord(ProjectDocument(doc, c, asnMin, asnMax)), Committed]
  }

  /** The calls `remove_document` makes: delete by the key field `doc_id`, then commit. */
  function RemoveCalls(pk: int): (calls: seq<Call>)
    ensures |calls| == 2 && calls[1] == Committed
    ensures calls[0] == DeletedBy(FieldName(Scalar(DocId)), pk)
  {
    [DeletedBy("doc_id", pk), Committed]
  }

  /** `update_document(writer, doc)`; the collections are what the ORM returns for `doc`. */
  method UpdateDocument(w: Writer, doc: Document, c: Collections, asnMin: int, asnMax: int)
    modifies w
    ensures w.calls == old(w.calls) + UpdateCalls(doc, c, asnMin, asnMax)
  {
    w.AddDocument(ProjectDocument(doc, c, asnMin, asnMax));
    w.Commit();
  }

  /** `remove_document_by_id(writer, doc_id)` */
  method RemoveDocumentById(w: Writer, docId: int)
    modifies w
    ensures w.calls == old(w.calls) + [DeletedBy("doc_id", docId)]
  {
    w.DeleteDocuments("doc_id", docId);
  }

  /** `remove_document(writer, doc)` */
  method RemoveDocument(w: Writer, doc: Document)
    modifies w
    ensures w.calls == old(w.calls) + RemoveCalls(doc.pk)
  {
    RemoveDocumentById(w, doc.pk);
    w.Commit();
  }

  /** `add_or_update_document(document)` */
  method AddOrUpdateDocument(doc: Document, c: Collections, asnMin: int, asnMax: int, outcome: Outcome)
    returns (w: Writer, propagates: bool)
    ensures fresh(w)
    ensures w.calls == ScopeLog(UpdateCalls(doc, c, asnMin, asnMax), outcome)
    ensures propagates <==> outcome.Escapes?
  {
    w, propagates := OpenIndexWriter(UpdateCalls(doc, c, asnMin, asnMax), outcome);
  }

  /** `remove_document_from_index(document)` */
  method RemoveDocumentFromIndex(doc: Document, outcome: Outcome) returns (w: Writer, propagates: bool)
    ensures fresh(w)
    ensures w.calls == ScopeLog(RemoveCalls(doc.pk), outcome)
    ensures propagates <==> outcome.Escapes?
  {
    w, propagates := OpenIndexWriter(RemoveCalls(doc.pk), outcome);
  }

  /** The scope waits for the merging threads exactly once, as its last call. */
  lemma ScopeWaitsOnce(body: seq<Call>, outcome: Outcome)
    requires Waited !in body
    ensures var log := ScopeLog(body, outcome);
            && multiset(log)[Waited] == 1
            && log[|log| - 1] == Waited
  {
    var n := Completed(body, outcome);
    assert Waited !in body[..n];
    assert multiset(body[..n])[Waited] == 0;
  }

  /** A body that returns is followed by one commit of the scope's own and no rollback. */
  lemma ScopeSuccess(body: seq<Call>)
    ensures var log := ScopeLog(body, Returns);
            && log[..|body|] == body
            && log[|log| - 2] == Committed
            && multiset(log)[Committed] == multiset(body)[Committed] + 1
            && multiset(log)[RolledBack] == multiset(body)[RolledBack]
  {
    assert body[..|body|] == body;
  }

  /** A body that raises an `Exception` is cut short and followed by a rollback; the scope adds no commit. */
  lemma ScopeFailure(body: seq<Call>, k: nat)
    ensures var log := ScopeLog(body, Raises(k));
            var done := body[..if k < |body| then k else |body|];
            && log[..|done|] == done
            && log[|log| - 2] == RolledBack
            && multiset(log)[Committed] == multiset(done)[Committed]
            && multiset(log)[RolledBack] == multiset(done)[RolledBack] + 1
  {
  }

  /**
   * A body interrupted by a `BaseException` that is not an `Exception` is cut
   * short and followed by the wait alone: neither a commit nor a rollback.
   */
  lemma ScopeEscapes(body: seq<Call>, k: nat)
    ensures var log := ScopeLog(body, Escapes(k));
            var done := body[..if k < |body| then k else |body|];
            && log == done + [Waited]
            && multiset(log)[Committed] == multiset(done)[Committed]
            && multiset(log)[RolledBack] == multiset(done)[RolledBack]
  {
  }

  /** Successful re-indexing commits twice: once in `update_document`, once on leaving the scope. */
  lemma UpdateScopeCommitsTwice(doc: Document, c: Collections, asnMin: int, asnMax: int)
    ensures ScopeLog(UpdateCalls(doc, c, asnMin, asnMax), Returns)
            == [AddedRecord(ProjectDocument(doc, c, asnMin, asnMax)), Committed, Committed, Waited]
  {
    var body := UpdateCalls(doc, c, asnMin, asnMax);
    assert body[..|body|] == body;
  }

  // ---------------------------------------------------------------------
  // What the calls do to the index.

  /** The documents of the index and the writer's uncommitted calls. */
  datatype Index = Index(documents: seq<Record>, pending: seq<Call>)

  /** The record stores `value` under the field named `field`. */
  predicate Holds(r: Record, field: string, value: int) {
    var f := FieldNamed(field);
    f.Some? && f.value in r && r[f.value] == Int(value)
  }

  /** `delete_documents(field, value)`: every document storing `value` under `field` goes. */
  function DeleteMatching(docs: seq<Record>, field: string, value: int): (r: seq<Record>)
    ensures forall d :: d in r <==> d in docs && !Holds(d, field, value)
    ensures forall d :: d in r ==> multiset(r)[d] == multiset(docs)[d]
    ensures |r| <= |docs|
  {
    if docs == [] then []
    else
      assert docs == [docs[0]] + docs[1..];
      (if Holds(docs[0], field, value) then [] else [docs[0]]) + DeleteMatching(docs[1..], field, value)
  }

  /** The documents after applying the pending calls in order. */
  function Flush(docs: seq<Record>, pending: seq<Call>): seq<Record>
    decreases |pending|
  {
    if pending == [] then docs
    else
      var rest := pending[1..];
      match pending[0]
      case AddedRecord(record) => Flush(docs + [record], rest)
      case DeletedBy(field, value) => Flush(DeleteMatching(docs, field, value), rest)
      case _ => Flush(docs, rest)
  }

  /** One writer call: additions and deletions wait for a commit, a rollback drops them. */
  function Apply(ix: Index, c: Call): Index {
    match c
    case AddedRecord(_) => Index(ix.documents, ix.pending + [c])
    case DeletedBy(_, _) => Index(ix.documents, ix.pending + [c])
    case Committed => Index(Flush(ix.documents, ix.pending), [])
    case RolledBack => Index(ix.documents, [])
    case Waited => ix
  }

  /** The index after the writer made `calls`. */
  function Replay(ix: Index, calls: seq<Call>): Index
    decreases |calls|
  {
    if calls == [] then ix else Replay(Apply(ix, calls[0]), calls[1..])
  }

  lemma ReplayStep(ix: Index, calls: seq<Call>, k: nat)
    requires k < |calls|
    ensures Replay(ix, calls[k..]) == Replay(Apply(ix, calls[k]), calls[k + 1..])
  {
    assert calls[k..][1..] == calls[k + 1..];
  }

  /** The number of documents of the index stored under `doc_id` `pk`. */
  function CopiesOf(docs: seq<Record>, pk: int): nat {
    if docs == [] then 0 else (if Holds(docs[0], "doc_id", pk) then 1 else 0) + CopiesOf(docs[1..], pk)
  }

  lemma {:induction false} CopiesOfAppend(docs: seq<Record>, r: Record, pk: int)
    ensures CopiesOf(docs + [r], pk) == CopiesOf(docs, pk) + if Holds(r, "doc_id", pk) then 1 else 0
  {
    if docs != [] {
      CopiesOfAppend(docs[1..], r, pk);
      assert (docs + [r])[1..] == docs[1..] + [r];
    }
  }

  /** The record of a document is stored under its primary key. */
  lemma RecordHoldsPk(doc: Document, c: Collections, asnMin: int, asnMax: int)
    ensures Holds(ProjectDocument(doc, c, asnMin, asnMax), "doc_id", doc.pk)
  {
    ScalarsPresent(doc, c, asnMin, asnMax);
  }

  /**
   * A successful `add_or_update_document` appends the record and removes
   * nothing: the index is not updated in place, and a document indexed before
   * is then stored twice.
   */
  lemma AddOrUpdateAppends(docs: seq<Record>, doc: Document, c: Collections, asnMin: int, asnMax: int)
    ensures var after := Replay(Index(docs, []), ScopeLog(UpdateCalls(doc, c, asnMin, asnMax), Returns));
            && after == Index(docs + [ProjectDocument(doc, c, asnMin, asnMax)], [])
            && CopiesOf(after.documents, doc.pk) == CopiesOf(docs, doc.pk) + 1
  {
    var rec := ProjectDocument(doc, c, asnMin, asnMax);
    var log := ScopeLog(UpdateCalls(doc, c, asnMin, asnMax), Returns);
    UpdateScopeCommitsTwice(doc, c, asnMin, asnMax);
    var ix1 := Index(docs, [AddedRecord(rec)]);
    var ix2 := Index(docs + [rec], []);
    assert Flush(docs, [AddedRecord(rec)]) == docs + [rec] by {
      assert [AddedRecord(rec)][1..] == [];
    }
    assert log[0..] == log;
    assert Apply(Index(docs, []), log[0]) == ix1 by {
      assert [] + [AddedRecord(rec)] == [AddedRecord(rec)];
    }
    assert Apply(ix1, log[1]) == ix2;
    assert Apply(ix2, log[2]) == ix2 && Apply(ix2, log[3]) == ix2;
    ReplayStep(Index(docs, []), log, 0);
    ReplayStep(ix1, log, 1);
    ReplayStep(ix2, log, 2);
    ReplayStep(ix2, log, 3);
    assert log[4..] == [];
    RecordHoldsPk(doc, c, asnMin, asnMax);
    CopiesOfAppend(docs, rec, doc.pk);
  }

  /** A successful `remove_document_from_index` deletes every copy of the document and nothing else. */
  lemma RemoveDeletes(docs: seq<Record>, pk: int)
    ensures var after := Replay(Index(docs, []), ScopeLog(RemoveCalls(pk), Returns));
            && after == Index(DeleteMatching(docs, "doc_id", pk), [])
            && (forall d :: d in after.documents <==> d in docs && !Holds(d, "doc_id", pk))
  {
    var body := RemoveCalls(pk);
    var log := ScopeLog(body, Returns);
    assert body[..|body|] == body;
    assert log == [DeletedBy("doc_id", pk), Committed, Committed, Waited];
    var ix1 := Index(docs, [DeletedBy("doc_id", pk)]);
    var ix2 := Index(DeleteMatching(docs, "doc_id", pk), []);
    assert Flush(docs, [DeletedBy("doc_id", pk)]) == DeleteMatching(docs, "doc_id", pk) by {
      assert [DeletedBy("doc_id", pk)][1..] == [];
    }
    assert log[0..] == log;
    assert Apply(Index(docs, []), log[0]) == ix1 by {
      assert [] + [DeletedBy("doc_id", pk)] == [DeletedBy("doc_id", pk)];
    }
    assert Apply(ix1, log[1]) == ix2;
    assert Apply(ix2, log[2]) == ix2 && Apply(ix2, log[3]) == ix2;
    ReplayStep(Index(docs, []), log, 0);
    ReplayStep(ix1, log, 1);
    ReplayStep(ix2, log, 2);
    ReplayStep(ix2, log, 3);
    assert log[4..] == [];
  }

  /** Replaying two runs of calls is replaying the first, then the second. */
  lemma {:induction false} ReplayConcat(ix: Index, a: seq<Call>, b: seq<Call>)
    ensures Replay(ix, a + b) == Replay(Replay(ix, a), b)
    decreases |a|
  {
    if a == [] {
      assert a + b == b;
    } else {
      assert (a + b)[0] == a[0];
      assert (a + b)[1..] == a[1..] + b;
      ReplayConcat(Apply(ix, a[0]), a[1..], b);
    }
  }

  /** Without a commit, no call changes the stored documents. */
  lemma {:induction false} ReplayNoCommit(ix: Index, calls: seq<Call>)
    requires Committed !in calls
    ensures Replay(ix, calls).documents == ix.documents
    decreases |calls|
  {
    if calls != [] {
      assert calls[0] != Committed;
      assert Committed !in calls[1..];
      ReplayNoCommit(Apply(ix, calls[0]), calls[1..]);
    }
  }

  /**
   * A body that fails before any commit of its own leaves the stored documents
   * as they were; after an `Exception` the rollback also drops the pending calls.
   */
  lemma FailureBeforeCommit(docs: seq<Record>, body: seq<Call>, outcome: Outcome)
    requires !outcome.Returns?
    requires Committed !in body[..Completed(body, outcome)]
    ensures Replay(Index(docs, []), ScopeLog(body, outcome)).documents == docs
    ensures outcome.Raises? ==> Replay(Index(docs, []), ScopeLog(body, outcome)) == Index(docs, [])
  {
    var ix0 := Index(docs, []);
    var done := body[..Completed(body, outcome)];
    var tail := Handler(outcome) + [Waited];
    assert ScopeLog(body, outcome) == done + tail;
    ReplayConcat(ix0, done, tail);
    ReplayNoCommit(ix0, done);
    var mid := Replay(ix0, done);
    if outcome.Raises? {
      assert tail == [RolledBack, Waited];
      assert tail[1..] == [Waited];
      assert Replay(mid, tail) == Replay(Index(docs, []), [Waited]);
    } else {
      assert tail == [Waited];
      assert Replay(mid, tail) == Replay(mid, []);
    }
  }

  /** Re-indexing that fails before its commit leaves the stored documents as they were. */
  lemma FailedUpdateChangesNothing(docs: seq<Record>, doc: Document, c: Collections, asnMin: int, asnMax: int, outcome: Outcome)
    requires !outcome.Returns? && outcome.after < 2
    ensures var after := Replay(Index(docs, []), ScopeLog(UpdateCalls(doc, c, asnMin, asnMax), outcome));
            && after.documents == docs
            && (outcome.Raises? ==> after == Index(docs, []))
  {
    var body := UpdateCalls(doc, c, asnMin, asnMax);
    assert Committed !in body[..outcome.after];
    FailureBeforeCommit(docs, body, outcome);
  }

  /** Removal that fails before its commit leaves the stored documents as they were. */
  lemma FailedRemoveChangesNothing(docs: seq<Record>, pk: int, outcome: Outcome)
    requires !outcome.Returns? && outcome.after < 2
    ensures var after := Replay(Index(docs, []), ScopeLog(RemoveCalls(pk), outcome));
            && after.documents == docs
            && (outcome.Raises? ==> after == Index(docs, []))
  {
    var body := RemoveCalls(pk);
    assert Committed !in body[..outcome.after];
    FailureBeforeCommit(docs, body, outcome);
  }
}
