// The server object: its tables, the connections they name and the document store.
module SyncServers {
  import opened Wrappers
  import opened ElementIds
  import opened Operations
  import DocumentStates
  import opened OperationCodec
  import opened Messages
  import opened Servers
  import opened ServerFacts
  import opened ServerClasses

  // The connections and waiting lists after a message has been routed to some of the clients.
  ghost function Told<C>(s: Server<C>, sender: C, m: Message, done: set<string>): map<C, Conn>
    requires sender in s.conns
  {
    map c | c in s.conns ::
      if s.conns[c].clientId in done && Hears(s, sender, c) && s.conns[c].phase.Live?
        then Send(s.conns[c], m) else s.conns[c]
  }

  ghost function Filed<C>(s: Server<C>, sender: C, op: Operation, done: set<string>): map<string, seq<Operation>>
    requires sender in s.conns
  {
    map id | id in s.pending ::
      if id in done && id in s.clients && s.clients[id] in s.conns && Hears(s, sender, s.clients[id]) &&
         s.conns[s.clients[id]].phase.Syncing?
      then s.pending[id] + [op] else s.pending[id]
  }

  lemma NobodyTold<C>(s: Server<C>, sender: C, m: Message, op: Operation)
    requires sender in s.conns
    ensures Told(s, sender, m, {}) == s.conns && Filed(s, sender, op, {}) == s.pending
  {
  }

  lemma AllTold<C>(s: Server<C>, sender: C, m: Message, op: Operation)
    requires sender in s.conns
    ensures Told(s, sender, m, s.clients.Keys) == Broadcast(s, sender, m)
    ensures s.(conns := Told(s, sender, m, s.clients.Keys), pending := Filed(s, sender, op, s.clients.Keys)) ==
            Route(s, sender, m, op)
  {
  }

  // Another connection with the sender's document open, as the routing loop tests it.
  ghost predicate Sharing<C>(s: Server<C>, sender: C, c: C)
    requires sender in s.conns && c in s.conns
  {
    c != sender && s.conns[c].document.Some? && s.conns[c].document == s.conns[sender].document
  }

  lemma OneTold<C>(s: Server<C>, sender: C, m: Message, done: set<string>, id: string)
    requires Registry(s) && sender in s.conns && id in s.clients && id !in done
    ensures var c := s.clients[id];
            && c in s.conns
            && c in Told(s, sender, m, done) && Told(s, sender, m, done)[c] == s.conns[c]
            && sender in Told(s, sender, m, done) && Told(s, sender, m, done)[sender] == s.conns[sender]
            && Told(s, sender, m, done + {id}) ==
               (if Sharing(s, sender, c) && s.conns[c].phase.Live?
                 then Told(s, sender, m, done)[c := Send(s.conns[c], m)]
                else Told(s, sender, m, done))
  {
    hide Send;
    hide Registry;
    ClientLeads(s, sender, id);
    var c := s.clients[id];
    forall k | k in s.conns && k != c && s.conns[k].clientId == id ensures !Hears(s, sender, k) {
    }
  }

  lemma ClientLeads<C>(s: Server<C>, sender: C, id: string)
    requires Registry(s) && sender in s.conns && id in s.clients
    ensures s.clients[id] in s.conns && s.conns[s.clients[id]].clientId == id
    ensures Hears(s, sender, s.clients[id]) <==> Sharing(s, sender, s.clients[id])
  {
    assert ConnTidy(s, s.clients[id]);
  }

  lemma OneFiled<C>(s: Server<C>, sender: C, op: Operation, done: set<string>, id: string)
    requires Registry(s) && sender in s.conns && id in s.clients && id !in done
    ensures var c := s.clients[id];
            && c in s.conns
            && Filed(s, sender, op, done + {id}) ==
               (if Sharing(s, sender, c) && s.conns[c].phase.Syncing?
                then Filed(s, sender, op, done)[id := (if id in s.pending then s.pending[id] else []) + [op]]
                else Filed(s, sender, op, done))
            && (id in s.pending <==> id in Filed(s, sender, op, done))
            && (id in s.pending ==> Filed(s, sender, op, done)[id] == s.pending[id])
  {
    assert ConnTidy(s, s.clients[id]);
  }

  lemma PresenceIsApart<C>(s: Server<C>, sender: C, m: Message, position: ElementID)
    requires Registry(s) && sender in s.conns && s.conns[sender].clientId in s.presence
    ensures var r := s.(presence := s.presence[s.conns[sender].clientId := position]);
            Registry(r) && Broadcast(r, sender, m) == Broadcast(s, sender, m)
  {
    hide Registry;
    hide Send;
    RolesKeepRegistry(s, s.(presence := s.presence[s.conns[sender].clientId := position]));
    RegistryTables(s);
  }

  lemma RegistryTables<C>(s: Server<C>)
    requires Registry(s)
    ensures s.presence.Keys == s.clients.Keys
  {
  }

  // ----- Steps, put together from their parts -----

  lemma OpenIs<C>(s: Server<C>, r: Server<C>, c: C, d: DocumentID, history: seq<Operation>)
    requires c in s.conns && s.conns[c].IsRegistered() && s.conns[c].document.None? && d != ""
    requires r.conns ==
             s.conns[c := Send(s.conns[c].(document := Some(d), phase := Syncing), SyncResponse("server", history))]
    requires r.clients == s.clients && r.pending == s.pending && r.presence == s.presence
    requires r.logs == s.logs[d := LogOf(s, d)] && r.documents == s.documents[d := DocOf(s, d)]
    ensures r == Servers.Open(s, c, d, history)
  {
    hide Send;
    hide LogOf;
    hide DocOf;
  }

  lemma SameConn<C>(s: Server<C>, c: C)
    requires c in s.conns
    ensures s.conns[c].phase.Disconnected? ==> Servers.Disconnect(s, c) == s
  {
  }

  lemma AcceptIs<C>(s: Server<C>, c: C)
    requires c !in s.conns
    ensures Possible(s, Accept(c)) && Next(s, Accept(c)) == s.(conns := s.conns[c := NEW_CONN])
  {
  }

  lemma OpenRefused<C>(s: Server<C>, c: C, d: DocumentID)
    requires c in s.conns
    ensures !s.conns[c].IsRegistered() || s.conns[c].document.Some? || d == "" ==>
              forall history :: Servers.Open(s, c, d, history) == Servers.Disconnect(s, c)
  {
    hide Servers.Disconnect;
  }

  lemma LogIsHeld<C>(s: Server<C>, d: DocumentID)
    ensures LogOf(s, d) == if d in s.logs then s.logs[d] else {}
    ensures DocOf(s, d) == if d in s.documents then s.documents[d] else DocumentStates.NewDocument()
  {
  }

  lemma FinishSyncIs<C>(s: Server<C>, r: Server<C>, c: C, order: seq<string>)
    requires c in s.conns && s.conns[c].phase.Syncing? && s.conns[c].document.Some? && s.conns[c].clientId in s.pending
    requires r.conns == s.conns[c := s.conns[c].(phase := Live,
                                                 sent := s.conns[c].sent + AsMessages(s.pending[s.conns[c].clientId])
                                                         + CursorsOf(s, c, order))]
    requires r.pending == s.pending - {s.conns[c].clientId}
    requires r.clients == s.clients && r.presence == s.presence && r.logs == s.logs && r.documents == s.documents
    ensures r == Servers.FinishSync(s, c, order)
  {
    hide AsMessages;
    hide CursorsOf;
  }

  lemma FinishSyncEarly<C>(s: Server<C>, c: C, order: seq<string>)
    requires c in s.conns
    ensures !s.conns[c].phase.Syncing? || s.conns[c].document.None? ==>
              Servers.FinishSync(s, c, order) == Servers.Disconnect(s, c)
    ensures s.conns[c].phase.Syncing? && s.conns[c].document.Some? && s.conns[c].clientId !in s.pending ==>
              Servers.FinishSync(s, c, order) == s
  {
    hide Servers.Disconnect;
    hide CursorsOf;
  }

  lemma HelloIs<C>(s: Server<C>, r: Server<C>, c: C, id: string)
    requires c in s.conns && !s.conns[c].IsRegistered() && id != "" && id !in s.clients
    requires r.conns == s.conns[c := Send(s.conns[c].(clientId := id, phase := Registered), HelloAck("server"))]
    requires r.clients == s.clients[id := c] && r.pending == s.pending[id := []]
             && r.presence == s.presence[id := ROOT_ID]
    requires r.logs == s.logs && r.documents == s.documents
    ensures r == SayHello(s, c, id)
  {
    hide Send;
  }

  lemma HelloRefused<C>(s: Server<C>, c: C, id: string)
    requires c in s.conns
    ensures s.conns[c].IsRegistered() || id == "" || id in s.clients ==> SayHello(s, c, id) == Servers.Disconnect(s, c)
  {
    hide Servers.Disconnect;
  }

  lemma EditIs<C>(s: Server<C>, c: C, m: Message, op: Operation)
    requires c in s.conns && s.conns[c].phase.Live? && s.conns[c].document.Some? && s.conns[c].document.value in s.logs
    ensures var cn, d := s.conns[c], s.conns[c].document.value;
            Edit(s, c, m, op) ==
            if DocumentStates.Applied(DocOf(s, d), op).threw then Servers.Disconnect(Record(s, d, op), c)
            else Route(Record(s, d, op).(conns := s.conns[c := cn.(originated := cn.originated + {op})]), c, m, op)
  {
    hide DocumentStates.Applied;
    hide Servers.Disconnect;
    hide Route;
    hide Record;
  }

  class SyncServer {
    const store: DocumentStore
    var clients: map<string, ClientConnection>
    var pendingSyncOperations: map<string, seq<Operation>>
    var presence: map<string, ElementID>

    // Every connection accepted so far.
    ghost var connections: set<ClientConnection>

    ghost function Conns(): map<ClientConnection, Conn>
      reads this`connections, connections
    {
      map c | c in connections :: c.View()
    }

    ghost function View(): Server<ClientConnection>
      requires store.Wired()
      reads this, connections, store, store.owner.Keys
    {
      Server(Conns(), clients, pendingSyncOperations, presence, store.Contents().logs, store.Contents().states)
    }

    // Connections and stored documents are different objects, and every queue is in order.
    ghost predicate Apart()
      reads this`connections, connections, store
    {
      && store.Wired() && this !in store.objects
      && forall c | c in connections :: c !in store.objects && c.Valid()
    }

    ghost predicate Valid()
      reads this, connections, store, store.objects
    {
      Apart() && store.Valid() && Registry(View())
    }

    // Every document fits its log, so the value-level results about stored documents apply.
    lemma ValidIsStored()
      requires Valid()
      ensures Registry(View()) && Stored(View())
    {
      hide Registry;
      hide Fits;
      hide DocumentStore.Valid;
      hide DocumentStore.Wired;
      hide DocumentStore.Contents;
      NewFits();
      forall d ensures Fits(DocOf(View(), d), LogOf(View(), d)) {
        if d in store.documents {
          store.DocumentsFit(d);
        }
      }
    }

    constructor (store: DocumentStore)
      requires store.Valid()
      ensures Valid() && this.store == store && connections == {}
      ensures View() == Servers.Started(store.Contents().logs, store.Contents().states)
    {
      this.store := store;
      clients, pendingSyncOperations, presence := map[], map[], map[];
      connections := {};
      new;
      StartedKeeps<ClientConnection>(store.Contents().logs, store.Contents().states);
      assert Conns() == map[];
    }

    lemma ConnIs(c: ClientConnection)
      requires c in connections
      ensures Conns().Keys == connections && Conns()[c] == c.View()
    {
    }

    lemma ConnsAre()
      ensures Conns().Keys == connections && forall c | c in connections :: Conns()[c] == c.View()
    {
    }

    // Only one connection changed.
    twostate lemma OneChanged(c: ClientConnection)
      requires c in connections && connections == old(connections)
      requires forall k | k in connections && k != c :: k.View() == old(k.View())
      ensures Conns() == old(Conns())[c := c.View()]
    {
    }

    method AcceptClient() returns (c: ClientConnection)
      requires Valid()
      modifies this`connections
      ensures Valid() && fresh(c) && c !in old(connections) && connections == old(connections) + {c}
      ensures View() == Next(old(View()), Accept(c))
    {
      hide ClientConnection.Valid;
      hide DocumentStore.Valid;
      hide DocumentStore.Wired;
      hide DocumentStore.Contents;
      hide Registry;
      hide Next;
      hide NoGap;
      hide Send;
      c := new ClientConnection();
      AcceptKeeps(View(), c);
      AcceptIs(View(), c);
      connections := connections + {c};
      assert Conns() == old(Conns())[c := NEW_CONN];
    }

    // Closing a connection also forgets its client, if it is the one registered.
    method DisconnectClient(c: ClientConnection)
      requires Apart() && c in connections
      modifies this`clients, this`pendingSyncOperations, this`presence, c
      ensures Apart() && View() == Servers.Disconnect(old(View()), c)
    {
      hide ClientConnection.Valid;
      hide DocumentStore.Wired;
      hide DocumentStore.Contents;
      hide SyncServer.Conns;
      hide Servers.Disconnect;
      ConnIs(c);
      DisconnectFrame(View(), c);
      SameConn(View(), c);
      if c.state == Disconnected {
        return;
      }
      c.Close();
      OneChanged(c);
      if c.clientId != "" {
        UnregisterClient(c);
      }
    }

    method UnregisterClient(c: ClientConnection)
      modifies this`clients, this`pendingSyncOperations, this`presence
      ensures var gone := c.clientId in old(clients) && old(clients)[c.clientId] == c;
              && clients == (if gone then old(clients) - {c.clientId} else old(clients))
              && pendingSyncOperations == (if gone
                 then old(pendingSyncOperations) - {c.clientId} else old(pendingSyncOperations))
              && presence == (if gone then old(presence) - {c.clientId} else old(presence))
    {
      if c.clientId !in clients || clients[c.clientId] != c {
        return;
      }
      clients := clients - {c.clientId};
      pendingSyncOperations := pendingSyncOperations - {c.clientId};
      presence := presence - {c.clientId};
    }

    method HandleHello(sender: ClientConnection, id: string)
      requires Apart() && sender in connections && sender.state != Disconnected
      modifies this`clients, this`pendingSyncOperations, this`presence, sender
      ensures Apart() && View() == SayHello(old(View()), sender, id)
    {
      hide ClientConnection.Valid;
      hide DocumentStore.Wired;
      hide DocumentStore.Contents;
      hide Servers.Disconnect;
      hide Send;
      hide SyncServer.Conns;
      hide SayHello;
      ghost var s := View();
      ConnIs(sender);
      HelloRefused(s, sender, id);
      if sender.IsRegistered() {
        DisconnectClient(sender);
        return;
      }
      if id == "" || id in clients {
        DisconnectClient(sender);
        return;
      }
      RegisterClient(sender, id);
      sender.Register(id);
      OneChanged(sender);
      HelloIs(s, View(), sender, id);
    }

    method RegisterClient(sender: ClientConnection, id: string)
      modifies this`clients, this`pendingSyncOperations, this`presence
      ensures clients == old(clients)[id := sender] && pendingSyncOperations == old(pendingSyncOperations)[id := []]
      ensures presence == old(presence)[id := ROOT_ID]
    {
      clients := clients[id := sender];
      pendingSyncOperations := pendingSyncOperations[id := []];
      presence := presence[id := ROOT_ID];
    }

    // The document is created on first use; its history follows at once.
    method OpenDocument(sender: ClientConnection, d: DocumentID) returns (ghost ch: Choices)
      requires Valid() && sender in connections
      modifies this`clients, this`pendingSyncOperations, this`presence, sender
      modifies store`documents, store`objects, store`owner, store.database`documents
      ensures Apart() && store.Valid() && fresh(store.objects - old(store.objects))
      ensures Elements(ch.history) == LogOf(old(View()), d)
      ensures View() == Servers.Open(old(View()), sender, d, ch.history)
    {
      hide ClientConnection.Valid;
      hide DocumentStore.Wired;
      hide DocumentStore.Contents;
      hide DocumentStore.Valid;
      hide Servers.Disconnect;
      hide SyncServer.Conns;
      hide Servers.Open;
      hide LogOf;
      hide DocOf;
      hide Registry;
      ghost var s := View();
      ConnIs(sender);
      OpenRefused(s, sender, d);
      ghost var rows := Enumerate(LogOf(View(), d));
      ch := Choices(rows, []);
      if !sender.IsRegistered() || sender.currentDocument.Some? || d == "" {
        DisconnectClient(sender);
        return;
      }
      ch := SendHistory(sender, d);
    }

    method SendHistory(sender: ClientConnection, d: DocumentID) returns (ghost ch: Choices)
      requires Apart() && store.Valid() && sender in connections
      requires sender.IsRegistered() && sender.currentDocument.None? && d != ""
      modifies sender, store`documents, store`objects, store`owner, store.database`documents
      ensures Apart() && store.Valid() && fresh(store.objects - old(store.objects))
      ensures Elements(ch.history) == LogOf(old(View()), d)
      ensures View() == Servers.Open(old(View()), sender, d, ch.history)
    {
      hide ClientConnection.Valid;
      hide DocumentStore.Wired;
      hide DocumentStore.Contents;
      hide DocumentStore.Valid;
      hide SyncServer.Conns;
      hide Servers.Open;
      hide LogOf;
      hide DocOf;
      hide Send;
      ghost var s := View();
      ConnIs(sender);
      LogIsHeld(s, d);
      var history := HistoryFor(d);
      ch := Choices(history, []);
      BeginSync(sender, d, history);
      OpenIs(s, View(), sender, d, history);
    }

    // Nothing but the store changes.
    method HistoryFor(d: DocumentID) returns (history: seq<Operation>)
      requires Apart() && store.Valid()
      modifies store`documents, store`objects, store`owner, store.database`documents
      ensures Apart() && store.Valid() && fresh(store.objects - old(store.objects)) && Conns() == old(Conns())
      ensures Elements(history) == LogOf(old(View()), d)
      ensures store.Contents() == Held(old(View()).logs[d := LogOf(old(View()), d)],
                                       old(View()).documents[d := DocOf(old(View()), d)])
    {
      hide ClientConnection.Valid;
      hide DocumentStore.Wired;
      hide DocumentStore.Contents;
      hide DocumentStore.Valid;
      LogIsHeld(View(), d);
      hide LogOf;
      hide DocOf;
      var r := store.HistoryOf(d);
      history := r.value;
    }

    method BeginSync(sender: ClientConnection, d: DocumentID, history: seq<Operation>)
      requires Apart() && sender in connections && sender.state != Disconnected
      modifies sender
      ensures Apart()
      ensures Conns() == old(Conns())[sender :=
                Send(old(sender.View()).(document := Some(d), phase := Syncing), SyncResponse("server", history))]
    {
      hide ClientConnection.Valid;
      hide DocumentStore.Wired;
      hide Send;
      sender.StartSync(d, history);
      OneChanged(sender);
    }

    // ----- Operations and cursors -----

    // To the live clients of the document now, into the waiting lists of those syncing.
    method RouteMessage(sender: ClientConnection, m: Message, op: Operation)
      requires Apart() && Registry(View()) && sender in connections && sender.currentDocument.Some?
      modifies this`pendingSyncOperations, connections
      ensures Apart() && View() == Route(old(View()), sender, m, op)
    {
      hide ClientConnection.Valid;
      hide DocumentStore.Wired;
      hide DocumentStore.Contents;
      hide Registry;
      hide Told;
      hide Filed;
      hide Route;
      hide Send;
      ghost var s, done: set<string> := View(), {};
      NobodyTold(s, sender, m, op);
      AllTold(s, sender, m, op);
      var ids := clients.Keys;
      while ids != {}
        invariant ids + done == clients.Keys && ids !! done && Apart() && store.Contents() == Held(s.logs, s.documents)
        invariant Conns() == Told(s, sender, m, done) && pendingSyncOperations == Filed(s, sender, op, done)
      {
        var id :| id in ids;
        OneTold(s, sender, m, done, id);
        OneFiled(s, sender, op, done, id);
        assert sender.View() == Conns()[sender] && clients[id].View() == Conns()[clients[id]];
        RouteTo(s, sender, m, op, id);
        ids, done := ids - {id}, done + {id};
      }
      assert done == clients.Keys;
    }

    method RouteTo(ghost s: Server<ClientConnection>, sender: ClientConnection, m: Message, op: Operation, id: string)
      requires Apart() && id in clients && clients[id] in connections && sender in connections
      requires s.conns.Keys == connections && clients[id].View() == s.conns[clients[id]]
      requires sender.currentDocument == s.conns[sender].document
      modifies this`pendingSyncOperations, clients[id]
      ensures Apart()
      ensures Conns() ==
              if Sharing(s, sender, clients[id]) && s.conns[clients[id]].phase.Live?
              then old(Conns())[clients[id] := Send(s.conns[clients[id]], m)] else old(Conns())
      ensures pendingSyncOperations ==
              if Sharing(s, sender, clients[id]) && s.conns[clients[id]].phase.Syncing?
              then old(pendingSyncOperations)[id :=
                (if id in old(pendingSyncOperations) then old(pendingSyncOperations)[id] else []) + [op]]
              else old(pendingSyncOperations)
    {
      hide ClientConnection.Valid;
      hide DocumentStore.Wired;
      hide Send;
      var client := clients[id];
      if client == sender {
        return;
      }
      if client.currentDocument.None? {
        return;
      }
      if client.currentDocument != sender.currentDocument {
        return;
      }
      if client.state == Syncing {
        pendingSyncOperations := pendingSyncOperations[id :=
          (if id in pendingSyncOperations then pendingSyncOperations[id] else []) + [op]];
      } else if client.state == Live {
        client.SendMessage(m);
        OneChanged(client);
      }
    }

    // The row and the server's copy first, then everyone else; if the document throws, its sender
    // is cut off instead.
    method HandleOperation(sender: ClientConnection, m: Message)
      requires Valid() && sender in connections && m.OperationMessage? && Clean(m.op)
      modifies this`clients, this`pendingSyncOperations, this`presence, connections, store.objects
      ensures Apart() && store.Valid() && connections == old(connections) && store.objects == old(store.objects)
      ensures View() == Edit(old(View()), sender, m, m.op)
    {
      hide ClientConnection.Valid;
      hide DocumentStore.Wired;
      hide DocumentStore.Contents;
      hide DocumentStore.Valid;
      hide Servers.Disconnect;
      hide Servers.Record;
      hide DocumentStates.Applied;
      hide Registry;
      hide Route;
      hide Clean;
      hide Send;
      hide SyncServer.Conns;
      ConnIs(sender);
      if sender.state != Live || sender.currentDocument.None? || sender.currentDocument.value !in store.documents {
        DisconnectClient(sender);
        return;
      }
      RecordKeepsRegistry(View(), sender, sender.currentDocument.value, m.op);
      RecordFrame(View(), sender.currentDocument.value, m.op);
      EditIs(View(), sender, m, m.op);
      var applied := RecordOperation(sender, sender.currentDocument.value, m.op);
      if applied.Throws? {
        DisconnectClient(sender);
        return;
      }
      RouteMessage(sender, m, m.op);
    }

    method RecordOperation(sender: ClientConnection, d: DocumentID, op: Operation) returns (applied: Result<()>)
      requires Apart() && store.Valid() && sender in connections && d in store.documents && Clean(op)
      modifies sender`originated, store.objects
      ensures Apart() && store.Valid() && store.objects == old(store.objects)
      ensures d in old(View()).logs && d in old(View()).documents
      ensures applied.Throws? <==> DocumentStates.Applied(DocOf(old(View()), d), op).threw
      ensures var r := Record(old(View()), d, op);
              View() == if applied.Throws? then r
                        else r.(conns := r.conns[sender :=
                                  old(sender.View()).(originated := old(sender.originated) + {op})])
    {
      hide ClientConnection.Valid;
      hide DocumentStore.Wired;
      hide DocumentStore.Contents;
      hide DocumentStore.Valid;
      hide DocumentStates.Applied;
      hide Clean;
      store.LogIs(d);
      applied := store.ApplyTo(d, op);
      if applied.Throws? {
        return;
      }
      sender.Originate(op);
      OneChanged(sender);
    }

    method RouteCursorUpdate(sender: ClientConnection, m: Message, position: ElementID)
      requires Valid() && sender in connections
      modifies this`clients, this`pendingSyncOperations, this`presence, connections
      ensures Apart() && View() == MoveCursor(old(View()), sender, m, position)
    {
      hide ClientConnection.Valid;
      hide DocumentStore.Wired;
      hide DocumentStore.Contents;
      hide DocumentStore.Valid;
      hide Servers.Disconnect;
      hide Registry;
      hide Broadcast;
      if sender.state != Live || sender.currentDocument.None? || sender.clientId !in presence {
        DisconnectClient(sender);
        return;
      }
      PresenceIsApart(View(), sender, m, position);
      presence := presence[sender.clientId := position];
      SpreadCursor(sender, m);
    }

    method SpreadCursor(sender: ClientConnection, m: Message)
      requires Apart() && Registry(View()) && sender in connections && sender.currentDocument.Some?
      modifies connections
      ensures Apart() && Conns() == Broadcast(old(View()), sender, m)
      ensures store.Contents() == old(store.Contents())
    {
      hide ClientConnection.Valid;
      hide DocumentStore.Wired;
      hide DocumentStore.Contents;
      hide Registry;
      hide Told;
      hide Send;
      hide Broadcast;
      ghost var s, done: set<string> := View(), {};
      NobodyTold(s, sender, m, Remove(ROOT_ID));
      AllTold(s, sender, m, Remove(ROOT_ID));
      var ids := clients.Keys;
      while ids != {}
        invariant ids + done == clients.Keys && ids !! done && Apart() && store.Contents() == Held(s.logs, s.documents)
        invariant Conns() == Told(s, sender, m, done)
      {
        var id :| id in ids;
        OneTold(s, sender, m, done, id);
        assert sender.View() == Conns()[sender] && clients[id].View() == Conns()[clients[id]];
        RouteCursorTo(s, sender, m, id);
        ids, done := ids - {id}, done + {id};
      }
      assert done == clients.Keys;
    }

    method RouteCursorTo(ghost s: Server<ClientConnection>, sender: ClientConnection, m: Message, id: string)
      requires Apart() && id in clients && clients[id] in connections && sender in connections
      requires s.conns.Keys == connections && clients[id].View() == s.conns[clients[id]]
      requires sender.currentDocument == s.conns[sender].document
      modifies clients[id]
      ensures Apart()
      ensures Conns() ==
              if Sharing(s, sender, clients[id]) && s.conns[clients[id]].phase.Live?
              then old(Conns())[clients[id] := Send(s.conns[clients[id]], m)] else old(Conns())
    {
      hide ClientConnection.Valid;
      hide DocumentStore.Wired;
      hide Send;
      var client := clients[id];
      if client == sender || client.currentDocument.None? || client.currentDocument != sender.currentDocument {
        return;
      }
      if client.state == Live {
        client.SendMessage(m);
        OneChanged(client);
      }
    }

    // ----- Finishing a synchronisation -----

    // What waited is sent before the client goes live; the cursors of the others follow.
    method FinishSync(sender: ClientConnection) returns (ghost order: seq<string>)
      requires Valid() && sender in connections
      modifies this`clients, this`pendingSyncOperations, this`presence, sender
      ensures Apart() && Elements(order) == old(presence).Keys && NoDuplicates(order)
      ensures View() == Servers.FinishSync(old(View()), sender, order)
    {
      hide ClientConnection.Valid;
      hide DocumentStore.Wired;
      hide DocumentStore.Contents;
      hide DocumentStore.Valid;
      hide SyncServer.Conns;
      hide Servers.Disconnect;
      hide Servers.FinishSync;
      hide Registry;
      order := Enumerate(presence.Keys);
      ConnIs(sender);
      FinishSyncEarly(View(), sender, order);
      if sender.state != Syncing || sender.currentDocument.None? {
        DisconnectClient(sender);
        return;
      }
      if sender.clientId !in pendingSyncOperations {
        return;
      }
      order := CompleteSync(sender);
    }

    method CompleteSync(sender: ClientConnection) returns (ghost order: seq<string>)
      requires Valid() && sender in connections && sender.state == Syncing
      requires sender.currentDocument.Some? && sender.clientId in pendingSyncOperations
      modifies this`pendingSyncOperations, sender
      ensures Apart() && Elements(order) == presence.Keys && NoDuplicates(order)
      ensures View() == Servers.FinishSync(old(View()), sender, order)
    {
      hide ClientConnection.Valid;
      hide DocumentStore.Wired;
      hide DocumentStore.Contents;
      hide DocumentStore.Valid;
      hide Servers.FinishSync;
      hide Registry;
      hide CursorsOf;
      hide AsMessages;
      hide SyncServer.Conns;
      ghost var s := View();
      ConnsAre();
      SendPending(sender);
      order := SendPresence(s, sender);
      OneChanged(sender);
      FinishSyncIs(s, View(), sender, order);
    }

    method SendPending(sender: ClientConnection)
      requires Apart() && sender in connections && sender.state == Syncing && sender.clientId in pendingSyncOperations
      modifies this`pendingSyncOperations, sender
      ensures Apart() && pendingSyncOperations == old(pendingSyncOperations) - {sender.clientId}
      ensures sender.View() == old(sender.View()).(phase := Live,
                sent := old(sender.sent) + AsMessages(old(pendingSyncOperations)[old(sender.clientId)]))
    {
      hide ClientConnection.Valid;
      hide DocumentStore.Wired;
      hide AsMessages;
      SendWaiting(sender, pendingSyncOperations[sender.clientId]);
      pendingSyncOperations := pendingSyncOperations - {sender.clientId};
      sender.GoLive();
    }

    method SendWaiting(sender: ClientConnection, operations: seq<Operation>)
      requires sender.Valid() && sender.state == Syncing
      modifies sender`writeQueue, sender`sent
      ensures sender.Valid()
      ensures sender.View() == old(sender.View()).(sent := old(sender.sent) + AsMessages(operations))
    {
      assert operations[..0] == [] && operations[..|operations|] == operations;
      for i := 0 to |operations|
        invariant sender.Valid()
        invariant sender.View() == old(sender.View()).(sent := old(sender.sent) + AsMessages(operations[..i]))
      {
        assert operations[..i + 1][..i] == operations[..i];
        sender.SendMessage(OperationMessage("server", operations[i]));
      }
    }

    // s is the state before the client went live, which changed nothing of the others.
    method SendPresence(ghost s: Server<ClientConnection>, sender: ClientConnection) returns (ghost order: seq<string>)
      requires Apart() && sender in connections && sender.state == Live
      requires Registry(s) && s.clients == clients && s.presence == presence && s.conns.Keys == connections
      requires sender.clientId == s.conns[sender].clientId && sender.currentDocument == s.conns[sender].document
      requires sender.currentDocument.Some?
      requires forall c | c in connections && c != sender :: c.View() == s.conns[c]
      modifies sender`writeQueue, sender`sent
      ensures Apart() && Elements(order) == presence.Keys && NoDuplicates(order)
      ensures sender.View() == old(sender.View()).(sent := old(sender.sent) + CursorsOf(s, sender, order))
    {
      hide ClientConnection.Valid;
      hide DocumentStore.Wired;
      hide Registry;
      hide CursorsOf;
      order := [];
      NoCursors(s, sender);
      var ids := presence.Keys;
      while ids != {}
        invariant ids + Elements(order) == presence.Keys && ids !! Elements(order) && NoDuplicates(order) && Apart()
        invariant sender.View() == old(sender.View()).(sent := old(sender.sent) + CursorsOf(s, sender, order))
      {
        var id :| id in ids;
        OneCursor(s, sender, order, id);
        if id != sender.clientId && id in clients {
          var other := clients[id];
          if other.state == Live && other.currentDocument == sender.currentDocument {
            sender.SendMessage(CursorUpdate(id, presence[id]));
          }
        }
        ids, order := ids - {id}, order + [id];
      }
    }

    // ----- Everything that arrives -----

    // One text on one connection is one step of the server's state machine.
    method ReceiveMessage(sender: ClientConnection, text: string) returns (ghost ch: Choices)
      requires Valid() && sender in connections && sender.state != Disconnected
      modifies this`clients, this`pendingSyncOperations, this`presence, connections, store.objects
      ensures Valid() && connections == old(connections) && fresh(store.objects - old(store.objects))
      ensures Possible(old(View()), Deliver(sender, text, ch))
      ensures View() == Next(old(View()), Deliver(sender, text, ch))
    {
      hide ClientConnection.Valid;
      hide DocumentStore.Wired;
      hide DocumentStore.Contents;
      hide DocumentStore.Valid;
      hide Registry;
      hide Servers.Disconnect;
      hide Handle;
      hide Legal;
      hide Clean;
      hide DeserializeMessage;
      hide LogOf;
      ghost var s := View();
      ReadMessageIsSendable(text);
      var m := Messages.Deserialize(text);
      if m.Throws? {
        ch := Choices([], []);
        DisconnectClient(sender);
      } else {
        ch := HandleMessage(sender, m.value);
      }
      NextKeepsRegistry(s, Deliver(sender, text, ch));
    }

    method HandleMessage(sender: ClientConnection, m: Message) returns (ghost ch: Choices)
      requires Valid() && sender in connections && sender.state != Disconnected && (m.OperationMessage? ==> Clean(m.op))
      modifies this`clients, this`pendingSyncOperations, this`presence, connections, store.objects
      ensures Apart() && store.Valid() && connections == old(connections) && fresh(store.objects - old(store.objects))
      ensures Legal(old(View()), sender, m, ch) && View() == Handle(old(View()), sender, m, ch)
    {
      hide ClientConnection.Valid;
      hide DocumentStore.Wired;
      hide DocumentStore.Contents;
      hide DocumentStore.Valid;
      hide Registry;
      hide Servers.Disconnect;
      hide SayHello;
      hide Edit;
      hide Servers.FinishSync;
      hide MoveCursor;
      hide SyncServer.Conns;
      hide Servers.Open;
      hide Clean;
      hide LogOf;
      ch := Choices([], []);
      store.HasItself();
      match m {
        case Hello(id) => HandleHello(sender, id);
        case OperationMessage(_, _) => HandleOperation(sender, m);
        case SyncComplete(_) =>
          ghost var order := FinishSync(sender);
          ch := Choices([], order);
        case CursorUpdate(_, position) => RouteCursorUpdate(sender, m, position);
        case OpenDocument(_, d) => ch := OpenDocument(sender, d);
        case _ => DisconnectClient(sender);
      }
    }

    // The end of a connection is a step too.
    method DropConnection(c: ClientConnection)
      requires Valid() && c in connections
      modifies this`clients, this`pendingSyncOperations, this`presence, c
      ensures Valid() && View() == Next(old(View()), Drop(c))
    {
      hide ClientConnection.Valid;
      hide DocumentStore.Wired;
      hide DocumentStore.Contents;
      hide DocumentStore.Valid;
      hide Registry;
      hide Servers.Disconnect;
      DisconnectKeepsRegistry(View(), c);
      DisconnectClient(c);
    }
  }

  lemma NoCursors<C>(s: Server<C>, c: C)
    requires c in s.conns
    ensures CursorsOf(s, c, []) == [] && Elements<string>([]) == {}
  {
  }

  lemma OneCursor<C>(s: Server<C>, c: C, order: seq<string>, id: string)
    requires Registry(s) && c in s.conns && id in s.presence && NoDuplicates(order) && id !in Elements(order)
    ensures id in s.clients && s.clients[id] in s.conns && (id != s.conns[c].clientId ==> s.clients[id] != c)
    ensures CursorsOf(s, c, order + [id]) ==
            (if id != s.conns[c].clientId && s.conns[s.clients[id]].phase.Live? &&
                s.conns[s.clients[id]].document == s.conns[c].document
             then CursorsOf(s, c, order) + [CursorUpdate(id, s.presence[id])] else CursorsOf(s, c, order))
    ensures Elements(order + [id]) == Elements(order) + {id} && NoDuplicates(order + [id])
  {
    assert (order + [id])[..|order|] == order;
  }
}
