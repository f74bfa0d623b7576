// Documents backed by rows: what is stored, what a reload rebuilds.
module Persistence {
  import opened Wrappers
  import opened Operations
  import opened Trees
  import opened VisibleText
  import opened DocumentStates
  import opened Preorder
  import opened Documents
  import opened Convergence
  import opened OperationCodec
  import opened Messages
  import opened Editing
  import opened SessionFacts

  // The primary key of the operations table.
  datatype RowKey = RowKey(documentId: DocumentID, operationId: string)

  type Rows = map<RowKey, string>

  // The digest function; distinct texts are taken to have distinct digests.
  ghost predicate Injective(digest: string -> string)
  {
    forall a, b | digest(a) == digest(b) :: a == b
  }

  // The rows of a document are exactly the texts of these operations.
  ghost predicate Stores(rows: Rows, digest: string -> string, d: DocumentID, ops: set<Operation>)
  {
    && (forall op | op in ops :: Clean(op))
    && (forall op {:trigger SerializeOperation(op)} | op in ops ::
          var key := RowKey(d, digest(SerializeOperation(op))); key in rows && rows[key] == SerializeOperation(op))
    && (forall key | key in rows && key.documentId == d ::
          exists op :: op in ops && SerializeOperation(op) == rows[key] && key.operationId == digest(rows[key]))
  }

  lemma CleanIsBarFree(op: Operation)
    requires Clean(op)
    ensures BarFree(op)
  {
  }

  // The table determines the operations: no two operations share a row.
  lemma RowsDetermineOperations(
    rows: Rows, digest: string -> string, d: DocumentID, ops: set<Operation>, others: set<Operation>)
    requires Stores(rows, digest, d, ops) && Stores(rows, digest, d, others)
    ensures ops == others
  {
    hide SerializeOperation;
    hide Clean;
    forall op ensures op in ops <==> op in others {
      if op in ops {
        StoredOnce(rows, digest, d, ops, others, op);
      }
      if op in others {
        StoredOnce(rows, digest, d, others, ops, op);
      }
    }
  }

  lemma StoredOnce(
    rows: Rows, digest: string -> string, d: DocumentID, ops: set<Operation>, others: set<Operation>, op: Operation)
    requires Stores(rows, digest, d, ops) && Stores(rows, digest, d, others) && op in ops
    ensures op in others
  {
    hide SerializeOperation;
    hide Clean;
    hide BarFree;
    var key := RowKey(d, digest(SerializeOperation(op)));
    assert key in rows && rows[key] == SerializeOperation(op);
    var o :| o in others && SerializeOperation(o) == rows[key] && key.operationId == digest(rows[key]);
    CleanIsBarFree(op);
    CleanIsBarFree(o);
    SerializationIsInjective(op, o);
  }

  // One more row; a row that is already there is the same one.
  lemma InsertedRow(rows: Rows, digest: string -> string, d: DocumentID, ops: set<Operation>, op: Operation)
    requires Injective(digest) && Stores(rows, digest, d, ops) && Clean(op)
    ensures var text := SerializeOperation(op);
            var key := RowKey(d, digest(text));
            && Stores(if key in rows then rows else rows[key := text], digest, d, ops + {op})
            && (key in rows <==> op in ops)
  {
    hide SerializeOperation;
    hide Clean;
    hide BarFree;
    var text := SerializeOperation(op);
    var key := RowKey(d, digest(text));
    var more := if key in rows then rows else rows[key := text];
    if key in rows {
      var o :| o in ops && SerializeOperation(o) == rows[key] && key.operationId == digest(rows[key]);
      CleanIsBarFree(op);
      CleanIsBarFree(o);
      SerializationIsInjective(op, o);
    }
    forall o {:trigger SerializeOperation(o)} | o in ops + {op}
      ensures var k := RowKey(d, digest(SerializeOperation(o))); k in more && more[k] == SerializeOperation(o)
    {
    }
    forall k | k in more && k.documentId == d
      ensures exists o :: o in ops + {op} && SerializeOperation(o) == more[k] && k.operationId == digest(more[k])
    {
      if k in rows {
        var o :| o in ops && SerializeOperation(o) == rows[k] && k.operationId == digest(rows[k]);
        assert o in ops + {op};
      } else {
        assert op in ops + {op};
      }
    }
  }

  ghost predicate SameOutside(rows: Rows, more: Rows, d: DocumentID)
  {
    forall key: RowKey | key.documentId != d ::
      (key in more <==> key in rows) && (key in rows ==> more[key] == rows[key])
  }

  lemma OtherDocumentsKeepRows(
    rows: Rows, more: Rows, digest: string -> string, d: DocumentID, e: DocumentID, ops: set<Operation>)
    requires Stores(rows, digest, e, ops) && SameOutside(rows, more, d) && d != e
    ensures Stores(more, digest, e, ops)
  {
    hide SerializeOperation;
    hide Clean;
  }

  class Database {
    var documents: set<DocumentID>
    var operations: Rows

    constructor ()
      ensures documents == {} && operations == map[]
    {
      documents, operations := {}, map[];
    }

    method InsertDocument(d: DocumentID) returns (outcome: Result<()>)
      modifies this`documents
      ensures outcome.Ok? <==> d !in old(documents)
      ensures documents == if outcome.Ok? then old(documents) + {d} else old(documents)
    {
      if d in documents {
        return Throws("Failed to insert document");
      }
      documents := documents + {d};
      outcome := Ok(());
    }

    // INSERT OR IGNORE; only the reference to the document is enforced.
    method InsertOperation(d: DocumentID, operationId: string, data: string) returns (outcome: Result<()>)
      modifies this`operations
      ensures outcome.Ok? <==> d in documents
      ensures operations ==
              if outcome.Ok? && RowKey(d, operationId) !in old(operations)
              then old(operations)[RowKey(d, operationId) := data] else old(operations)
    {
      if d !in documents {
        return Throws("FOREIGN KEY constraint failed");
      }
      if RowKey(d, operationId) !in operations {
        operations := operations[RowKey(d, operationId) := data];
      }
      outcome := Ok(());
    }

    // A SELECT without ORDER BY: every row of the document once, in any order.
    method GetOperations(d: DocumentID) returns (texts: seq<string>)
      ensures forall text :: text in texts <==> exists key ::
              key in operations && key.documentId == d && operations[key] == text
      ensures |texts| == |(set key | key in operations && key.documentId == d)|
    {
      hide Lists;
      var keys := set key | key in operations && key.documentId == d;
      ghost var all, done := keys, {};
      texts := [];
      ListsNothing(operations);
      while keys != {}
        invariant keys + done == all && keys !! done && Lists(operations, done, texts)
      {
        var key :| key in keys;
        ListsOneMore(operations, done, texts, key);
        texts := texts + [operations[key]];
        keys, done := keys - {key}, done + {key};
      }
      assert done == all;
      ListsAll(operations, d, texts);
    }
  }

  // The texts of these rows, each row once.
  ghost predicate Lists(rows: Rows, keys: set<RowKey>, texts: seq<string>)
  {
    && keys <= rows.Keys && |texts| == |keys|
    && forall text :: text in texts <==> exists key :: key in keys && rows[key] == text
  }

  lemma ListsNothing(rows: Rows)
    ensures Lists(rows, {}, [])
  {
  }

  lemma ListsOneMore(rows: Rows, keys: set<RowKey>, texts: seq<string>, key: RowKey)
    requires Lists(rows, keys, texts) && key in rows && key !in keys
    ensures Lists(rows, keys + {key}, texts + [rows[key]])
  {
    var more := keys + {key};
    forall text ensures text in texts + [rows[key]] <==> exists k :: k in more && rows[k] == text {
      if text in texts {
        var k :| k in keys && rows[k] == text;
        assert k in more;
      }
      if text == rows[key] {
        assert key in more;
      }
    }
  }

  lemma ListsAll(rows: Rows, d: DocumentID, texts: seq<string>)
    requires Lists(rows, (set key | key in rows && key.documentId == d), texts)
    ensures forall text :: text in texts <==> exists key :: key in rows && key.documentId == d && rows[key] == text
    ensures |texts| == |(set key | key in rows && key.documentId == d)|
  {
  }

  class PersistentOperationLog {
    const database: Database
    const documentId: DocumentID
    const digest: string -> string

    constructor (database: Database, documentId: DocumentID, digest: string -> string)
      ensures this.database == database && this.documentId == documentId && this.digest == digest
    {
      this.database, this.documentId, this.digest := database, documentId, digest;
    }

    ghost predicate Holds(ops: set<Operation>)
      reads database
    {
      Injective(digest) && documentId in database.documents && Stores(database.operations, digest, documentId, ops)
    }

    method Record(op: Operation, ghost ops: set<Operation>) returns (outcome: Result<()>)
      requires Holds(ops) && Clean(op)
      modifies database`operations
      ensures outcome.Ok? && Holds(ops + {op})
      ensures SameOutside(old(database.operations), database.operations, documentId)
    {
      hide SerializeOperation;
      hide Stores;
      hide Injective;
      hide Clean;
      InsertedRow(database.operations, digest, documentId, ops, op);
      var data := SerializeOperation(op);
      outcome := database.InsertOperation(documentId, digest(data), data);
    }

    // Reads the rows back; every stored text is an operation.
    method Load(ghost ops: set<Operation>) returns (r: Result<seq<Operation>>)
      requires Holds(ops)
      ensures r.Ok? && Elements(r.value) == ops
    {
      hide SerializeOperation;
      hide DeserializeOperation;
      hide Clean;
      hide Injective;
      var texts := database.GetOperations(documentId);
      TextsOfRows(database.operations, digest, documentId, ops, texts);
      hide Stores;
      var operations: seq<Operation> := [];
      for i := 0 to |texts|
        invariant forall op :: op in operations <==> op in ops && SerializeOperation(op) in texts[..i]
      {
        ReadsBack(ops, texts, i);
        var op := OperationCodec.Deserialize(texts[i]);
        r := Throws("malformed row");
        if op.Throws? {
          return;
        }
        assert texts[..i + 1] == texts[..i] + [texts[i]];
        operations := operations + [op.value];
      }
      assert texts[..|texts|] == texts;
      return Ok(operations);
    }
  }

  ghost predicate TextsOf(ops: set<Operation>, texts: seq<string>)
  {
    && (forall op | op in ops :: Clean(op) && SerializeOperation(op) in texts)
    && (forall text | text in texts :: exists op :: op in ops && SerializeOperation(op) == text)
  }

  lemma TextsOfRows(rows: Rows, digest: string -> string, d: DocumentID, ops: set<Operation>, texts: seq<string>)
    requires Stores(rows, digest, d, ops)
    requires forall text :: text in texts <==> exists key :: key in rows && key.documentId == d && rows[key] == text
    ensures TextsOf(ops, texts)
  {
    hide SerializeOperation;
    hide Clean;
    forall op | op in ops ensures SerializeOperation(op) in texts {
      assert rows[RowKey(d, digest(SerializeOperation(op)))] == SerializeOperation(op);
    }
  }

  lemma ReadsBack(ops: set<Operation>, texts: seq<string>, i: nat)
    requires TextsOf(ops, texts) && i < |texts|
    ensures var r := DeserializeOperation(texts[i]);
            && r.Ok? && r.value in ops
            && forall op | op in ops :: SerializeOperation(op) == texts[i] <==> op == r.value
  {
    hide SerializeOperation;
    hide DeserializeOperation;
    hide Clean;
    assert texts[i] in texts;
    var o :| o in ops && SerializeOperation(o) == texts[i];
    OperationRoundTrip(o);
    forall op | op in ops ensures SerializeOperation(op) == texts[i] <==> op == o {
      OperationRoundTrip(op);
    }
  }

  class PersistentDocument {
    const document: Document
    const persistentLog: PersistentOperationLog

    ghost predicate Valid()
      reads document, persistentLog.database
    {
      document.Valid() && persistentLog.Holds(document.received)
    }

    // A new document without rows.
    constructor (database: Database, documentId: DocumentID, digest: string -> string)
      ensures fresh(document) && document.Valid() && document.Exact()
      ensures document.received == {} && document.State() == NewDocument()
      ensures persistentLog.database == database && persistentLog.documentId == documentId
              && persistentLog.digest == digest
    {
      document := new Document();
      persistentLog := new PersistentOperationLog(database, documentId, digest);
    }

    // The row is written before the document changes, and stays when the document then throws.
    method ApplyOperation(op: Operation) returns (outcome: Result<()>)
      requires Valid() && Clean(op)
      modifies document, persistentLog.database`operations
      ensures Valid() && document.received == old(document.received) + {op}
      ensures document.State() == Applied(old(document.State()), op).state
      ensures outcome.Throws? <==> old(Blocked(document.State(), op))
      ensures old(document.Exact()) && Functional(document.received) ==> document.Exact() && outcome.Ok?
      ensures SameOutside(old(persistentLog.database.operations), persistentLog.database.operations,
              persistentLog.documentId)
    {
      hide Document.Valid;
      hide Document.Exact;
      hide Stores;
      hide Clean;
      hide Functional;
      hide Injective;
      hide Blocked;
      hide Applied;
      outcome := persistentLog.Record(op, document.received);
      if outcome.Throws? {
        return;
      }
      outcome := document.Apply(op);
    }

    method GetHistory() returns (r: Result<seq<Operation>>)
      requires Valid()
      ensures r.Ok? && Elements(r.value) == document.received
    {
      r := persistentLog.Load(document.received);
    }

    // Replays the stored rows, in whatever order they come, into an empty document; the first
    // operation the document refuses ends it.
    method Load(ghost ops: set<Operation>) returns (outcome: Result<()>, ghost order: seq<Operation>)
      requires document.Valid() && document.Exact() && document.State() == NewDocument() && document.received == {}
      requires persistentLog.Holds(ops)
      modifies document
      ensures Elements(order) == ops && Filed(NewDocument())
      ensures outcome.Throws? <==> RunThrows(NewDocument(), order)
      ensures outcome.Ok? ==> Valid() && document.received == ops && document.State() == ApplyAll(NewDocument(), order)
      ensures Functional(ops) ==> outcome.Ok? && document.Exact()
    {
      hide Document.Valid;
      hide Document.Exact;
      hide Stores;
      hide Injective;
      hide Functional;
      hide Blocked;
      hide Applied;
      hide ApplyAll;
      hide RunThrows;
      hide Filed;
      var history := persistentLog.Load(ops);
      order := history.value;
      outcome := Replay(history.value);
    }

    method Replay(order: seq<Operation>) returns (outcome: Result<()>)
      requires document.Valid() && document.Exact() && document.State() == NewDocument() && document.received == {}
      modifies document
      ensures Filed(NewDocument()) && (outcome.Throws? <==> RunThrows(NewDocument(), order))
      ensures outcome.Ok? ==>
                document.Valid() && document.received == Elements(order)
                  && document.State() == ApplyAll(NewDocument(), order)
      ensures Functional(Elements(order)) ==> outcome.Ok? && document.Exact()
    {
      hide Document.Valid;
      hide Document.Exact;
      hide Functional;
      hide Blocked;
      hide Applied;
      hide Traversal;
      NewIsFiled();
      hide Filed;
      assert order[..0] == [] && order[..|order|] == order;
      assert ApplyAll(NewDocument(), []) == NewDocument() && !RunThrows(NewDocument(), []);
      hide ApplyAll;
      hide RunThrows;
      hide NewDocument;
      for i := 0 to |order|
        invariant document.Valid() && document.received == Elements(order[..i])
        invariant document.State() == ApplyAll(NewDocument(), order[..i]) && !RunThrows(NewDocument(), order[..i])
        invariant Functional(Elements(order)) ==> document.Exact()
      {
        RunStep(NewDocument(), order, i);
        if Functional(Elements(order)) {
          FewerOperations(document.received + {order[i]}, Elements(order));
        }
        outcome := document.Apply(order[i]);
        if outcome.Throws? {
          RunThrowsEarly(NewDocument(), order, i + 1);
          return;
        }
      }
      outcome := Ok(());
    }
  }

  // A reload refines the live state: a document rebuilt from the rows of a live one has the same
  // tree, renders the same text, and holds the same buffers up to order.
  lemma ReloadMatchesLive(live: PersistentDocument, reloaded: PersistentDocument)
    requires live.Valid() && live.document.Exact() && reloaded.Valid() && reloaded.document.Exact()
    requires live.persistentLog.database == reloaded.persistentLog.database
    requires live.persistentLog.documentId == reloaded.persistentLog.documentId
    requires live.persistentLog.digest == reloaded.persistentLog.digest
    ensures live.document.View() == reloaded.document.View()
    ensures Text(live.document.View()) == Text(reloaded.document.View())
    ensures live.document.bufferedDeletes == reloaded.document.bufferedDeletes
    ensures live.document.bufferedInsertIds == reloaded.document.bufferedInsertIds
    ensures live.document.bufferedInserts.Keys == reloaded.document.bufferedInserts.Keys
    ensures forall p | p in live.document.bufferedInserts ::
              multiset(live.document.bufferedInserts[p]) == multiset(reloaded.document.bufferedInserts[p])
  {
    hide Stores;
    hide Document.Valid;
    hide Document.Exact;
    var log := live.persistentLog;
    RowsDetermineOperations(log.database.operations, log.digest, log.documentId, live.document.received,
      reloaded.document.received);
    StrongConvergence(live.document, reloaded.document);
  }

  // A fresh session that applies the stored history has the live document's tree, and renders
  // its text, whatever names the history mentions.
  lemma FreshSessionMatchesLive(live: PersistentDocument, history: seq<Operation>)
    requires live.document.Exact() && Elements(history) == live.document.received
    ensures Meaning(AbsorbHistory(FreshSession, history).received) == live.document.View()
    ensures Text(Meaning(AbsorbHistory(FreshSession, history).received)) == Text(live.document.View())
  {
    hide Document.Valid;
    hide Document.Exact;
    hide Represents;
    hide Functional;
    hide Text;
    live.document.IsExact();
    HistoryIsReceived(FreshSession, history);
    assert FreshSession.received + Elements(history) == live.document.received;
    RepresentationIsUnique(live.document.View(), Meaning(live.document.received), live.document.received);
  }
}
