// The server and its connections as objects updated in place, one method per handler.
module ServerClasses {
  import opened Wrappers
  import opened Operations
  import opened DocumentStates
  import opened OperationCodec
  import opened Messages
  import opened Documents
  import opened Servers
  import opened Persistence

  class ClientConnection {
    var clientId: string
    var writeQueue: seq<Message>
    var currentDocument: Option<DocumentID>
    var state: Phase

    // Every message ever accepted for sending, and every operation this client sent in.
    ghost var sent: seq<Message>
    ghost var originated: set<Operation>

    ghost function View(): Conn
      reads this
    {
      Conn(state, clientId, currentDocument, sent, originated)
    }

    // What is queued is the end of what was accepted; a closed connection has nothing queued.
    ghost predicate Valid()
      reads this
    {
      |writeQueue| <= |sent| && sent[|sent| - |writeQueue|..] == writeQueue
        && (state.Disconnected? ==> writeQueue == [])
    }

    predicate IsRegistered()
      reads this
    {
      state == Syncing || state == Live || state == Registered
    }

    constructor ()
      ensures Valid() && View() == NEW_CONN
    {
      clientId, writeQueue, currentDocument, state := "", [], None, Unregistered;
      sent, originated := [], {};
    }

    method SendMessage(m: Message)
      requires Valid()
      modifies this`writeQueue, this`sent
      ensures Valid() && View() == Send(old(View()), m)
    {
      if state == Unregistered || state == Disconnected {
        return;
      }
      writeQueue := writeQueue + [m];
      sent := sent + [m];
    }

    // The front of the queue has been written to the socket.
    method Written()
      requires Valid() && writeQueue != []
      modifies this`writeQueue
      ensures Valid() && View() == old(View()) && writeQueue == old(writeQueue)[1..]
    {
      writeQueue := writeQueue[1..];
    }

    // The document is open and its history is on its way.
    method StartSync(d: DocumentID, history: seq<Operation>)
      requires Valid()
      modifies this
      ensures Valid()
      ensures View() == Send(old(View()).(document := Some(d), phase := Syncing), SyncResponse("server", history))
    {
      currentDocument := Some(d);
      state := Syncing;
      SendMessage(SyncResponse("server", history));
    }

    method Register(id: string)
      requires Valid()
      modifies this
      ensures Valid() && View() == Send(old(View()).(clientId := id, phase := Registered), HelloAck("server"))
    {
      clientId := id;
      state := Registered;
      SendMessage(HelloAck("server"));
    }

    method GoLive()
      requires Valid()
      modifies this`state
      ensures Valid() && View() == old(View()).(phase := Live)
    {
      state := Live;
    }

    ghost method Originate(op: Operation)
      requires Valid()
      modifies this`originated
      ensures Valid() && View() == old(View()).(originated := old(originated) + {op})
    {
      originated := originated + {op};
    }

    method Close()
      requires Valid()
      modifies this`state, this`writeQueue
      ensures Valid() && View() == old(View()).(phase := Disconnected)
    {
      state := Disconnected;
      writeQueue := [];
    }
  }

  // The logs of all documents, and their states.
  datatype Held = Held(logs: map<DocumentID, set<Operation>>, states: map<DocumentID, DocState>)

  // The documents by name, all backed by one database.
  class DocumentStore {
    const database: Database
    const digest: string -> string
    var documents: map<DocumentID, PersistentDocument>

    // The store, its database and its documents.
    ghost var objects: set<object>
    ghost var owner: map<Document, DocumentID>

    // A document whose rows reuse no identifier is settled by them.
    static ghost predicate Settled(document: Document)
      reads document
    {
      Functional(document.received) ==> document.Exact()
    }

    ghost predicate Wired()
      reads this
    {
      && this in objects && database in objects
      && owner.Keys <= objects
      && (forall d | d in documents ::
            && documents[d].persistentLog.database == database && documents[d].persistentLog.documentId == d
            && documents[d].persistentLog.digest == digest)
      && (forall d | d in documents :: documents[d].document in owner && owner[documents[d].document] == d)
    }

    ghost predicate Valid()
      reads this, objects
    {
      && Wired() && Injective(digest) && database.documents == documents.Keys
      && (forall d | d in documents :: documents[d].Valid() && Settled(documents[d].document))
      && (forall key | key in database.operations :: key.documentId in documents)
    }

    // What each document has received, which is what its rows hold.
    ghost function Logs(): (logs: map<DocumentID, set<Operation>>)
      requires Wired()
      reads this, owner.Keys
      ensures logs.Keys == documents.Keys
    {
      map d | d in documents :: documents[d].document.received
    }

    // What each document holds.
    ghost function States(): (states: map<DocumentID, DocState>)
      requires Wired()
      reads this, owner.Keys
      ensures states.Keys == documents.Keys
    {
      map d | d in documents :: documents[d].document.State()
    }

    ghost function Contents(): (held: Held)
      requires Wired()
      reads this, owner.Keys
      ensures held.logs.Keys == held.states.Keys == documents.Keys
    {
      Held(Logs(), States())
    }

    constructor (digest: string -> string)
      requires Injective(digest)
      ensures Valid() && Contents() == Held(map[], map[]) && fresh(objects)
    {
      this.digest := digest;
      database := new Database();
      documents := map[];
      objects, owner := {this, database}, map[];
    }

    // Refused for a document that exists already.
    method CreateDocument(d: DocumentID) returns (outcome: Result<()>)
      requires Valid() && Wired()
      modifies this`documents, this`objects, this`owner, database`documents
      ensures Valid() && Wired() && (outcome.Throws? <==> d in old(documents))
      ensures var held := old(Contents());
              Contents() == if outcome.Ok? then Held(held.logs[d := {}], held.states[d := NewDocument()]) else held
      ensures old(objects) <= objects && fresh(objects - old(objects))
    {
      hide Contents;
      hide Named;
      hide Valid;
      hide Injective;
      hide Stores;
      hide Document.Valid;
      hide Document.Exact;
      hide Wired;
      if d in documents {
        return Throws("Document already exists");
      }
      outcome := NameDocument(d);
      if outcome.Throws? {
        return;
      }
      var document := new PersistentDocument(database, d, digest);
      Adopt(d, document);
    }

    lemma WiredWhenValid()
      requires Valid()
      ensures Wired()
    {
    }

    // The database knows a document the store does not have yet.
    ghost predicate Named(d: DocumentID)
      reads this, objects
    {
      && Wired() && Injective(digest) && d !in documents && database.documents == documents.Keys + {d}
      && (forall e | e in documents :: documents[e].Valid() && Settled(documents[e].document))
      && (forall key | key in database.operations :: key.documentId in documents)
    }

    method NameDocument(d: DocumentID) returns (outcome: Result<()>)
      requires Valid() && d !in documents
      modifies database`documents
      ensures outcome.Ok? && Named(d)
    {
      hide Document.Valid;
      hide Settled;
      hide Stores;
      hide Injective;
      outcome := database.InsertDocument(d);
      forall e | e in documents ensures documents[e].Valid() && Settled(documents[e].document) {
        assert old(documents[e].Valid()) && old(Settled(documents[e].document));
      }
    }

    method Adopt(d: DocumentID, document: PersistentDocument)
      requires Named(d) && Wired()
      requires document.document.Valid() && document.document.Exact() && document.document !in objects
      requires document.document.received == {} && document.document.State() == NewDocument()
      requires document.persistentLog.database == database && document.persistentLog.documentId == d
      requires document.persistentLog.digest == digest
      modifies this`documents, this`objects, this`owner
      ensures Valid() && Wired() && objects == old(objects) + {document.document}
      ensures var held := old(Contents()); Contents() == Held(held.logs[d := {}], held.states[d := NewDocument()])
    {
      hide NewDocument;
      hide Valid;
      hide Named;
      hide Wired;
      hide PersistentDocument.Valid;
      hide Document.Valid;
      hide Document.Exact;
      hide Settled;
      hide Contents;
      FreshIsEmpty(d, document);
      documents := documents[d := document];
      objects, owner := objects + {document.document}, owner[document.document := d];
      AdoptedIsWired(d);
      AdoptedIsValid(d);
      Updated(d);
    }

    twostate lemma AdoptedIsWired(d: DocumentID)
      requires old(Wired()) && d in documents && documents == old(documents)[d := documents[d]]
      requires old(Named(d)) && documents[d].document !in old(objects)
      requires documents[d].persistentLog.database == database && documents[d].persistentLog.documentId == d
      requires documents[d].persistentLog.digest == digest
      requires objects == old(objects) + {documents[d].document} && owner == old(owner)[documents[d].document := d]
      ensures Wired()
    {
    }

    twostate lemma AdoptedIsValid(d: DocumentID)
      requires old(Named(d)) && Wired() && d in documents && documents == old(documents)[d := documents[d]]
      requires unchanged(database) && forall e | e in old(documents) :: unchanged(old(documents)[e].document)
      requires documents[d].Valid() && Settled(documents[d].document)
      ensures Valid()
    {
      hide Document.Valid;
      hide Document.Exact;
      hide Stores;
      hide Injective;
      hide Functional;
      forall e | e in documents ensures documents[e].Valid() && Settled(documents[e].document) {
        if e != d {
          assert old(documents[e].Valid()) && old(Settled(documents[e].document));
        }
      }
    }

    // All documents but this one are the same and have received the same.
    twostate predicate OthersStay(d: DocumentID)
      requires old(Wired()) && Wired()
      reads this, owner.Keys
    {
      && d in documents && documents.Keys == old(documents.Keys) + {d}
      && (forall e | e in documents && e != d ::
            && documents[e] == old(documents)[e]
            && documents[e].document.received == old(documents[e].document.received)
            && documents[e].document.State() == old(documents[e].document.State()))
    }

    twostate lemma Updated(d: DocumentID)
      requires old(Wired()) && Wired() && OthersStay(d)
      ensures var held := old(Contents());
              Contents() ==
                Held(held.logs[d := documents[d].document.received], held.states[d := documents[d].document.State()])
    {
      hide Logs;
      hide States;
      UpdatedLogs(d);
      UpdatedStates(d);
    }

    twostate lemma UpdatedLogs(d: DocumentID)
      requires old(Wired()) && Wired() && OthersStay(d)
      ensures Logs() == old(Logs())[d := documents[d].document.received]
    {
      hide Document.State;
    }

    twostate lemma UpdatedStates(d: DocumentID)
      requires old(Wired()) && Wired() && OthersStay(d)
      ensures States() == old(States())[d := documents[d].document.State()]
    {
      hide Document.State;
    }

    lemma FreshIsEmpty(d: DocumentID, document: PersistentDocument)
      requires Named(d) && Wired()
      requires document.document.Valid() && document.document.Exact() && document.document.received == {}
      requires document.persistentLog.database == database && document.persistentLog.documentId == d
      requires document.persistentLog.digest == digest
      ensures document.Valid() && Settled(document.document)
    {
      hide Document.Valid;
      hide Document.Exact;
      assert Stores(database.operations, digest, d, {});
    }

    lemma HasItself()
      requires Wired()
      ensures this in objects && database in objects
    {
    }

    lemma LogIs(d: DocumentID)
      requires Valid() && Wired() && d in documents
      ensures Contents().logs[d] == documents[d].document.received && documents[d].document in objects
              && database in objects
    {
    }

    // Every document fits its log.
    lemma DocumentsFit(d: DocumentID)
      requires Valid() && Wired() && d in documents
      ensures Fits(Contents().states[d], Contents().logs[d])
    {
      hide Structured;
      hide Documented;
      hide Functional;
      var document := documents[d].document;
      assert documents[d].Valid() && Settled(document);
    }

    // Applies an operation to a present document: its row first, then its state, which may throw.
    method ApplyTo(d: DocumentID, op: Operation) returns (outcome: Result<()>)
      requires Valid() && Wired() && d in documents && Clean(op)
      modifies documents[d].document, database`operations
      ensures Valid() && Wired()
      ensures var held := old(Contents());
              && Contents() ==
                 Held(held.logs[d := held.logs[d] + {op}], held.states[d := Applied(held.states[d], op).state])
              && (outcome.Throws? <==> Applied(held.states[d], op).threw)
    {
      hide Document.Valid;
      hide Document.Exact;
      hide Stores;
      hide Injective;
      hide Functional;
      hide Clean;
      hide Blocked;
      hide Applied;
      ThrowIs(d, op);
      hide Contents;
      hide Valid;
      StoreHas(d);
      outcome := documents[d].ApplyOperation(op);
      Reapplied(d);
      Updated(d);
    }

    lemma StoreHas(d: DocumentID)
      requires Valid() && Wired() && d in documents
      ensures documents[d].Valid() && documents[d].persistentLog.database == database
      ensures documents[d].persistentLog.documentId == d
      ensures Contents().logs[d] == documents[d].document.received
              && Contents().states[d] == documents[d].document.State()
    {
    }

    lemma ThrowIs(d: DocumentID, op: Operation)
      requires Valid() && Wired() && d in documents
      ensures Applied(documents[d].document.State(), op).threw <==> Blocked(documents[d].document.State(), op)
      ensures Functional(documents[d].document.received + {op}) ==> documents[d].document.Exact()
    {
      hide Document.Exact;
      hide Blocked;
      var document := documents[d].document;
      assert documents[d].Valid() && Settled(document);
      document.IsHealthy();
      hide Healthy;
      ApplyThrows(document.State(), op);
    }

    // The other documents keep their rows and their state.
    twostate lemma Reapplied(d: DocumentID)
      requires old(Valid()) && Wired() && documents == old(documents) && d in documents
      requires objects == old(objects) && owner == old(owner) && database.documents == old(database.documents)
      requires documents[d].Valid() && Settled(documents[d].document)
      requires forall e | e in documents && e != d :: unchanged(documents[e].document)
      requires SameOutside(old(database.operations), database.operations, d)
      ensures Valid()
    {
      hide Document.Valid;
      hide Document.Exact;
      hide Stores;
      hide Injective;
      hide Functional;
      forall e | e in documents ensures documents[e].Valid() && Settled(documents[e].document) {
        assert old(documents[e].Valid()) && old(Settled(documents[e].document));
        if e != d {
          OtherDocumentsKeepRows(old(database.operations), database.operations, digest, d, e,
            documents[e].document.received);
        }
      }
    }

    method GetHistory(d: DocumentID) returns (r: Result<seq<Operation>>)
      requires Valid() && Wired()
      ensures r.Ok? <==> d in documents
      ensures r.Ok? ==> Elements(r.value) == Contents().logs[d]
    {
      if d !in documents {
        return Throws("Document does not exist");
      }
      r := documents[d].GetHistory();
    }

    // The history of a document, which is created when it does not exist.
    method HistoryOf(d: DocumentID) returns (r: Result<seq<Operation>>)
      requires Valid() && Wired()
      modifies this`documents, this`objects, this`owner, database`documents
      ensures Valid() && Wired() && old(objects) <= objects && fresh(objects - old(objects))
      ensures var held := old(Contents());
              var rows := if d in held.logs then held.logs[d] else {};
              var state := if d in held.states then held.states[d] else NewDocument();
              && r.Ok? && Elements(r.value) == rows
              && Contents() == Held(held.logs[d := rows], held.states[d := state])
    {
      hide Valid;
      hide Wired;
      hide Contents;
      if d !in documents {
        var created := CreateDocument(d);
        r := Throws("Failed to create document");
        if created.Throws? {
          return;
        }
      }
      WiredWhenValid();
      r := GetHistory(d);
    }
  }
}
