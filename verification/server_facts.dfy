// What every server step keeps: the registry is consistent and no connection misses an operation.
module ServerFacts {
  import opened Wrappers
  import opened ElementIds
  import opened Operations
  import opened DocumentStates
  import opened Messages
  import opened Editing
  import opened Servers

  // ----- The registry -----

  // What the end of a connection changes: its phase, and the tables if it is the one registered.
  lemma DisconnectFrame<C>(s: Server<C>, c: C)
    requires c in s.conns
    ensures var r, cn := Disconnect(s, c), s.conns[c];
            var id := cn.clientId;
            var leads := !cn.phase.Disconnected? && id != "" && id in s.clients && s.clients[id] == c;
            && r.conns == s.conns[c := cn.(phase := Disconnected)] && r.logs == s.logs && r.documents == s.documents
            && r.clients == (if leads then s.clients - {id} else s.clients)
            && r.pending == (if leads then s.pending - {id} else s.pending)
            && r.presence == (if leads then s.presence - {id} else s.presence)
  {
    var cn := s.conns[c];
    if cn.phase.Disconnected? {
      assert cn.(phase := Disconnected) == cn;
      assert s.conns[c := cn] == s.conns;
    }
  }

  lemma DisconnectKeepsRegistry<C>(s: Server<C>, c: C)
    requires Registry(s) && c in s.conns
    ensures Registry(Disconnect(s, c))
  {
    hide Disconnect;
    DisconnectFrame(s, c);
    var r := Disconnect(s, c);
    assert ConnTidy(s, c);
    forall d | d in r.conns ensures ConnTidy(r, d) {
      assert ConnTidy(s, d);
    }
  }

  lemma HelloKeepsRegistry<C>(s: Server<C>, c: C, id: string)
    requires Registry(s) && c in s.conns && !s.conns[c].phase.Disconnected?
    ensures Registry(SayHello(s, c, id))
  {
    hide Disconnect;
    assert ConnTidy(s, c);
    DisconnectKeepsRegistry(s, c);
    var r := SayHello(s, c, id);
    if !s.conns[c].IsRegistered() && id != "" && id !in s.clients {
      forall d | d in r.conns ensures ConnTidy(r, d) {
        assert ConnTidy(s, d);
      }
    }
  }

  lemma OpenKeepsRegistry<C>(s: Server<C>, c: C, d: DocumentID, history: seq<Operation>)
    requires Registry(s) && c in s.conns
    ensures Registry(Open(s, c, d, history))
  {
    hide Disconnect;
    assert ConnTidy(s, c);
    DisconnectKeepsRegistry(s, c);
    var r := Open(s, c, d, history);
    if s.conns[c].IsRegistered() && s.conns[c].document.None? && d != "" {
      forall k | k in r.conns ensures ConnTidy(r, k) {
        assert ConnTidy(s, k);
      }
    }
  }

  // The same connections, with the same names, phases and documents.
  ghost predicate SameRoles<C>(s: Server<C>, r: Server<C>)
  {
    && r.conns.Keys == s.conns.Keys
    && (forall c {:trigger r.conns[c]} | c in s.conns ::
          && r.conns[c].phase == s.conns[c].phase && r.conns[c].clientId == s.conns[c].clientId
          && r.conns[c].document == s.conns[c].document
             && (s.conns[c].phase.Unregistered? ==> r.conns[c].sent == s.conns[c].sent))
  }

  lemma RolesKeepRegistry<C>(s: Server<C>, r: Server<C>)
    requires Registry(s) && SameRoles(s, r) && r.clients == s.clients
    requires r.presence.Keys == s.presence.Keys && r.pending.Keys == s.pending.Keys && s.logs.Keys <= r.logs.Keys
    ensures Registry(r)
  {
    forall c | c in r.conns ensures ConnTidy(r, c) {
      assert ConnTidy(s, c);
      assert r.conns[c].phase == s.conns[c].phase;
    }
    forall id | id in r.clients
      ensures id != "" && r.clients[id] in r.conns && r.conns[r.clients[id]].clientId == id
              && r.conns[r.clients[id]].IsRegistered()
    {
      assert r.conns[s.clients[id]].phase == s.conns[s.clients[id]].phase;
    }
  }

  lemma BroadcastRoles<C>(s: Server<C>, sender: C, m: Message)
    requires sender in s.conns
    ensures SameRoles(s, s.(conns := Broadcast(s, sender, m)))
  {
  }

  lemma RecordKeepsRegistry<C>(s: Server<C>, c: C, d: DocumentID, op: Operation)
    requires Registry(s) && c in s.conns
    ensures Registry(Record(s, d, op))
    ensures Registry(Record(s, d, op).(conns := s.conns[c := s.conns[c].(originated := s.conns[c].originated + {op})]))
  {
    hide Registry;
    hide Applied;
    var recorded := Record(s, d, op);
    RolesKeepRegistry(s, recorded);
    RolesKeepRegistry(recorded,
      recorded.(conns := s.conns[c := s.conns[c].(originated := s.conns[c].originated + {op})]));
  }

  lemma RouteKeepsRegistry<C>(s: Server<C>, c: C, m: Message, op: Operation)
    requires Registry(s) && c in s.conns
    ensures Registry(Route(s, c, m, op))
  {
    hide Registry;
    hide Hears;
    hide Broadcast;
    BroadcastRoles(s, c, m);
    RolesKeepRegistry(s, Route(s, c, m, op));
  }

  lemma EditKeepsRegistry<C>(s: Server<C>, c: C, m: Message, op: Operation)
    requires Registry(s) && c in s.conns
    ensures Registry(Edit(s, c, m, op))
  {
    hide Disconnect;
    hide Broadcast;
    hide Registry;
    hide Hears;
    hide SameRoles;
    hide Record;
    hide Applied;
    var cn := s.conns[c];
    DisconnectKeepsRegistry(s, c);
    if cn.phase.Live? && cn.document.Some? && cn.document.value in s.logs {
      var recorded := Record(s, cn.document.value, op);
      RecordFrame(s, cn.document.value, op);
      var heard := recorded.(conns := s.conns[c := cn.(originated := cn.originated + {op})]);
      RecordKeepsRegistry(s, c, cn.document.value, op);
      DisconnectKeepsRegistry(recorded, c);
      RouteKeepsRegistry(heard, c, m, op);
    }
  }

  lemma RecordFrame<C>(s: Server<C>, d: DocumentID, op: Operation)
    ensures var r := Record(s, d, op);
            && r.conns == s.conns && r.clients == s.clients && r.pending == s.pending && r.presence == s.presence
            && r.logs == s.logs[d := LogOf(s, d) + {op}]
  {
    hide Applied;
  }

  lemma MoveCursorKeepsRegistry<C>(s: Server<C>, c: C, m: Message, position: ElementID)
    requires Registry(s) && c in s.conns
    ensures Registry(MoveCursor(s, c, m, position))
  {
    hide Disconnect;
    hide Broadcast;
    hide Registry;
    DisconnectKeepsRegistry(s, c);
    BroadcastRoles(s, c, m);
    if s.conns[c].clientId in s.presence {
      RolesKeepRegistry(s, s.(presence := s.presence[s.conns[c].clientId := position], conns := Broadcast(s, c, m)));
    }
  }

  lemma FinishSyncKeepsRegistry<C>(s: Server<C>, c: C, order: seq<string>)
    requires Registry(s) && c in s.conns
    ensures Registry(FinishSync(s, c, order))
  {
    hide Disconnect;
    hide CursorsOf;
    assert ConnTidy(s, c);
    DisconnectKeepsRegistry(s, c);
    var r := FinishSync(s, c, order);
    if s.conns[c].phase.Syncing? && s.conns[c].document.Some? && s.conns[c].clientId in s.pending {
      forall k | k in r.conns ensures ConnTidy(r, k) {
        assert ConnTidy(s, k);
      }
    }
  }

  // Whatever arrives on a connection, from whoever, the registry stays consistent.
  lemma RegistryKept<C>(s: Server<C>, c: C, m: Message, ch: Choices)
    requires Registry(s) && c in s.conns && !s.conns[c].phase.Disconnected?
    ensures Registry(Handle(s, c, m, ch))
  {
    hide Registry;
    hide Edit;
    hide SayHello;
    hide Open;
    hide MoveCursor;
    hide FinishSync;
    hide Disconnect;
    match m
    case Hello(sender) => HelloKeepsRegistry(s, c, sender);
    case OperationMessage(_, op) => EditKeepsRegistry(s, c, m, op);
    case SyncComplete(_) => FinishSyncKeepsRegistry(s, c, ch.order);
    case CursorUpdate(_, position) => MoveCursorKeepsRegistry(s, c, m, position);
    case OpenDocument(_, d) => OpenKeepsRegistry(s, c, d, ch.history);
    case _ => DisconnectKeepsRegistry(s, c);
  }

  // A consistent registry leaves no lookup to fail: a live client's cursor update is always
  // routed, and a finished synchronisation always finds its waiting operations.
  lemma LookupsSucceed<C>(s: Server<C>, c: C)
    requires Registry(s) && c in s.conns
    ensures s.conns[c].phase.Live? ==> s.conns[c].clientId in s.presence && s.conns[c].document.Some?
    ensures s.conns[c].phase.Syncing? ==> s.conns[c].clientId in s.pending && s.conns[c].document.Some?
  {
    assert ConnTidy(s, c);
  }

  // A HELLO with a name already taken only costs the newcomer its connection.
  lemma DuplicateHelloIsHarmless<C>(s: Server<C>, c: C, id: string)
    requires Registry(s) && c in s.conns && s.conns[c].phase.Unregistered? && id in s.clients
    ensures var r := SayHello(s, c, id);
            && r.clients == s.clients && r.pending == s.pending && r.presence == s.presence && r.logs == s.logs
            && r.conns[c].phase.Disconnected? && s.clients[id] != c
            && forall k | k in s.conns && k != c :: r.conns[k] == s.conns[k]
  {
    assert ConnTidy(s, c);
  }

  // ----- Cursors -----

  // A cursor update of a live client reaches exactly the other live clients of its document, once
  // and as it was sent; the sender is not told.
  lemma CursorReachesOthers<C>(s: Server<C>, c: C, m: Message, position: ElementID, k: C)
    requires Registry(s) && c in s.conns && k in s.conns && s.conns[c].phase.Live?
    ensures var r := MoveCursor(s, c, m, position);
            && k in r.conns
            && r.conns[k] ==
               (if k != c && s.conns[k].phase.Live? && s.conns[k].document == s.conns[c].document
                then s.conns[k].(sent := s.conns[k].sent + [m]) else s.conns[k])
            && r.presence == s.presence[s.conns[c].clientId := position]
  {
    assert ConnTidy(s, c) && ConnTidy(s, k);
  }

  // Whatever arrives, other connections are at most told it, and only when they are live.
  lemma OthersAreToldAtMost<C>(s: Server<C>, c: C, m: Message, ch: Choices, k: C)
    requires c in s.conns && k in s.conns && k != c
    ensures var r := Handle(s, c, m, ch);
            && k in r.conns
            && (r.conns[k] == s.conns[k] ||
                ((m.OperationMessage? || m.CursorUpdate?) && s.conns[k].phase.Live?
                 && r.conns[k] == s.conns[k].(sent := s.conns[k].sent + [m])))
  {
    hide CursorsOf;
    hide AsMessages;
    hide Edit;
    hide MoveCursor;
    hide Disconnect;
    hide LogOf;
    hide DocOf;
    DisconnectFrame(s, c);
    match m {
      case OperationMessage(_, op) => EditToldAtMost(s, c, m, op, k);
      case CursorUpdate(_, position) => CursorToldAtMost(s, c, m, position, k);
      case _ =>
    }
  }

  lemma BroadcastToldAtMost<C>(s: Server<C>, c: C, m: Message, k: C)
    requires c in s.conns && k in s.conns
    ensures var told := Broadcast(s, c, m);
            && k in told
            && (told[k] == s.conns[k]
               || (s.conns[k].phase.Live? && told[k] == s.conns[k].(sent := s.conns[k].sent + [m])))
  {
    hide Hears;
  }

  lemma RouteToldAtMost<C>(s: Server<C>, c: C, m: Message, op: Operation, k: C)
    requires c in s.conns && k in s.conns && k != c
    ensures var told := Route(s, c, m, op).conns;
            && k in told
            && (told[k] == s.conns[k]
               || (s.conns[k].phase.Live? && told[k] == s.conns[k].(sent := s.conns[k].sent + [m])))
  {
    hide Broadcast;
    hide Hears;
    BroadcastToldAtMost(s, c, m, k);
  }

  lemma EditToldAtMost<C>(s: Server<C>, c: C, m: Message, op: Operation, k: C)
    requires c in s.conns && k in s.conns && k != c
    ensures var r := Edit(s, c, m, op);
            && k in r.conns
            && (r.conns[k] == s.conns[k] ||
                (s.conns[k].phase.Live? && r.conns[k] == s.conns[k].(sent := s.conns[k].sent + [m])))
  {
    hide Disconnect;
    hide Route;
    hide Record;
    hide Applied;
    hide DocOf;
    DisconnectFrame(s, c);
    var cn := s.conns[c];
    if cn.phase.Live? && cn.document.Some? && cn.document.value in s.logs {
      var recorded := Record(s, cn.document.value, op);
      RecordFrame(s, cn.document.value, op);
      DisconnectFrame(recorded, c);
      RouteToldAtMost(recorded.(conns := s.conns[c := cn.(originated := cn.originated + {op})]), c, m, op, k);
    }
  }

  lemma CursorToldAtMost<C>(s: Server<C>, c: C, m: Message, position: ElementID, k: C)
    requires c in s.conns && k in s.conns && k != c
    ensures var r := MoveCursor(s, c, m, position);
            && k in r.conns
            && (r.conns[k] == s.conns[k] ||
                (s.conns[k].phase.Live? && r.conns[k] == s.conns[k].(sent := s.conns[k].sent + [m])))
  {
    hide Disconnect;
    hide Broadcast;
    DisconnectFrame(s, c);
    BroadcastToldAtMost(s, c, m, k);
  }

  lemma HandleKeepsConns<C>(s: Server<C>, c: C, m: Message, ch: Choices)
    requires c in s.conns
    ensures Handle(s, c, m, ch).conns.Keys == s.conns.Keys
  {
    hide CursorsOf;
    hide AsMessages;
    hide Edit;
    hide MoveCursor;
    hide Disconnect;
    hide LogOf;
    hide DocOf;
    DisconnectFrame(s, c);
    match m {
      case OperationMessage(_, op) => EditKeepsConns(s, c, m, op);
      case CursorUpdate(_, position) => CursorKeepsConns(s, c, m, position);
      case _ =>
    }
  }

  lemma EditKeepsConns<C>(s: Server<C>, c: C, m: Message, op: Operation)
    requires c in s.conns
    ensures Edit(s, c, m, op).conns.Keys == s.conns.Keys
  {
    hide Disconnect;
    hide Record;
    hide Hears;
    hide Applied;
    hide DocOf;
    DisconnectFrame(s, c);
    var cn := s.conns[c];
    if cn.document.Some? {
      RecordFrame(s, cn.document.value, op);
      DisconnectFrame(Record(s, cn.document.value, op), c);
    }
  }

  lemma CursorKeepsConns<C>(s: Server<C>, c: C, m: Message, position: ElementID)
    requires c in s.conns
    ensures MoveCursor(s, c, m, position).conns.Keys == s.conns.Keys
  {
    hide Disconnect;
    hide Hears;
    DisconnectFrame(s, c);
  }

  // A client that goes live is told the cursor of every other live client of its document, and
  // no other cursor.
  lemma {:induction false} CursorsAreComplete<C>(s: Server<C>, c: C, order: seq<string>, m: Message)
    requires c in s.conns
    ensures m in CursorsOf(s, c, order) <==>
              && m.CursorUpdate? && m.sender in order && m.sender in s.presence && m.position == s.presence[m.sender]
              && m.sender != s.conns[c].clientId && m.sender in s.clients && s.clients[m.sender] in s.conns
              && s.conns[s.clients[m.sender]].phase.Live?
                 && s.conns[s.clients[m.sender]].document == s.conns[c].document
  {
    if order != [] {
      CursorsAreComplete(s, c, order[..|order| - 1], m);
      assert order == order[..|order| - 1] + [order[|order| - 1]];
    }
  }

  // The presence entry of a client only changes by its own cursor updates while it is registered.
  lemma PresenceIsOwn<C>(s: Server<C>, c: C, m: Message, ch: Choices, id: string)
    requires Registry(s) && c in s.conns && id in s.presence
    ensures var r := Handle(s, c, m, ch);
            id in r.presence && r.presence[id] != s.presence[id] ==>
              m.CursorUpdate? && s.conns[c].clientId == id && r.presence[id] == m.position
  {
    hide CursorsOf;
    hide Broadcast;
    hide Hears;
    hide Send;
    assert ConnTidy(s, c);
  }

  // ----- No gap -----

  lemma {:induction false} OpsAppend(a: seq<Message>, b: seq<Message>)
    ensures Ops(a + b) == Ops(a) + Ops(b)
  {
    if b == [] {
      assert a + b == a;
    } else {
      assert (a + b)[..|a + b| - 1] == a + b[..|b| - 1];
      OpsAppend(a, b[..|b| - 1]);
    }
  }

  lemma OpsOne(a: seq<Message>, m: Message)
    ensures Ops(a + [m]) == Ops(a) + Carried(m)
  {
    assert (a + [m])[..|a|] == a;
  }

  lemma {:induction false} OpsAsMessages(ops: seq<Operation>)
    ensures Ops(AsMessages(ops)) == Elements(ops)
  {
    if ops != [] {
      OpsAsMessages(ops[..|ops| - 1]);
      OpsOne(AsMessages(ops[..|ops| - 1]), OperationMessage("server", ops[|ops| - 1]));
      assert ops == ops[..|ops| - 1] + [ops[|ops| - 1]];
    }
  }

  lemma {:induction false} CursorsCarryNothing<C>(s: Server<C>, c: C, order: seq<string>)
    requires c in s.conns
    ensures Ops(CursorsOf(s, c, order)) == {}
  {
    if order != [] {
      CursorsCarryNothing(s, c, order[..|order| - 1]);
      var rest, id := CursorsOf(s, c, order[..|order| - 1]), order[|order| - 1];
      if id in s.presence {
        OpsOne(rest, CursorUpdate(id, s.presence[id]));
      }
    }
  }

  lemma DisconnectCompletes<C>(s: Server<C>, c: C, k: C)
    requires Registry(s) && c in s.conns && k in s.conns && ConnComplete(s, k)
    ensures k in Disconnect(s, c).conns && ConnComplete(Disconnect(s, c), k)
  {
    hide Ops;
    hide Disconnect;
    DisconnectFrame(s, c);
    assert ConnTidy(s, c) && ConnTidy(s, k);
  }

  lemma HelloCompletes<C>(s: Server<C>, c: C, id: string, k: C)
    requires Registry(s) && c in s.conns && !s.conns[c].phase.Disconnected? && k in s.conns && ConnComplete(s, k)
    ensures k in SayHello(s, c, id).conns && ConnComplete(SayHello(s, c, id), k)
  {
    hide Ops;
    hide Disconnect;
    assert ConnTidy(s, c) && ConnTidy(s, k);
    DisconnectCompletes(s, c, k);
    OpsOne(s.conns[c].sent, HelloAck("server"));
  }

  lemma OpenCompletes<C>(s: Server<C>, c: C, d: DocumentID, history: seq<Operation>, k: C)
    requires Registry(s) && c in s.conns && Elements(history) == LogOf(s, d) && k in s.conns && ConnComplete(s, k)
    ensures k in Open(s, c, d, history).conns && ConnComplete(Open(s, c, d, history), k)
  {
    hide Ops;
    hide Disconnect;
    assert ConnTidy(s, c) && ConnTidy(s, k);
    DisconnectCompletes(s, c, k);
    OpsOne(s.conns[c].sent, SyncResponse("server", history));
    assert Carried(SyncResponse("server", history)) == Elements(history);
  }

  // Routing, one connection at a time.
  lemma RouteStep<C>(s: Server<C>, c: C, m: Message, op: Operation, k: C)
    requires Registry(s) && c in s.conns && k in s.conns
    requires s.conns[c].phase.Live? && s.conns[c].document.Some?
    requires !Applied(DocOf(s, s.conns[c].document.value), op).threw
    ensures var r, cn := Edit(s, c, m, op), s.conns[k];
            && k in r.conns && r.logs == s.logs[s.conns[c].document.value := LogOf(s, s.conns[c].document.value) + {op}]
            && r.pending.Keys == s.pending.Keys && r.presence == s.presence
            && r.conns[k] == (if k == c then cn.(originated := cn.originated + {op})
                              else if cn.phase.Live? && cn.document == s.conns[c].document then Send(cn, m) else cn)
            && (cn.clientId in s.pending && cn.IsRegistered() ==>
                  r.pending[cn.clientId] ==
                  if cn.phase.Syncing? && cn.document == s.conns[c].document then s.pending[cn.clientId] + [op]
                  else s.pending[cn.clientId])
            && ("" in s.pending ==> "" in s.clients)
  {
    hide Disconnect;
    hide Applied;
    hide DocOf;
    hide Send;
    assert ConnTidy(s, k) && ConnTidy(s, c);
  }

  // The sender knows its operation, the live are told now, the syncing when they go live.
  lemma RouteReachesAll<C>(s: Server<C>, c: C, m: Message, op: Operation, k: C)
    requires Registry(s) && c in s.conns && k in s.conns && ConnComplete(s, k) && m.OperationMessage? && m.op == op
    requires s.conns[c].phase.Live? && s.conns[c].document.Some?
    requires !Applied(DocOf(s, s.conns[c].document.value), op).threw
    ensures k in Edit(s, c, m, op).conns && ConnComplete(Edit(s, c, m, op), k)
  {
    hide Ops;
    hide Edit;
    hide Applied;
    hide DocOf;
    assert ConnTidy(s, k) && ConnTidy(s, c);
    RouteStep(s, c, m, op, k);
    OpsOne(s.conns[k].sent, m);
  }

  lemma EditCompletes<C>(s: Server<C>, c: C, m: Message, op: Operation, k: C)
    requires Registry(s) && c in s.conns && k in s.conns && ConnComplete(s, k) && m.OperationMessage? && m.op == op
    requires s.conns[c].phase.Live? && s.conns[c].document.Some? ==>
             !Applied(DocOf(s, s.conns[c].document.value), op).threw
    ensures k in Edit(s, c, m, op).conns && ConnComplete(Edit(s, c, m, op), k)
  {
    hide Registry;
    hide Disconnect;
    hide ConnComplete;
    hide Applied;
    hide DocOf;
    hide Record;
    hide Route;
    var cn := s.conns[c];
    DisconnectCompletes(s, c, k);
    if cn.phase.Live? && cn.document.Some? {
      RouteReachesAll(s, c, m, op, k);
    }
  }

  lemma MoveCursorCompletes<C>(s: Server<C>, c: C, m: Message, position: ElementID, k: C)
    requires Registry(s) && c in s.conns && k in s.conns && ConnComplete(s, k) && m.CursorUpdate?
    ensures k in MoveCursor(s, c, m, position).conns && ConnComplete(MoveCursor(s, c, m, position), k)
  {
    hide Ops;
    hide Disconnect;
    hide Hears;
    DisconnectCompletes(s, c, k);
    OpsOne(s.conns[k].sent, m);
  }

  // Going live hands over exactly what waited.
  lemma FinishSyncCompletes<C>(s: Server<C>, c: C, order: seq<string>, k: C)
    requires Registry(s) && c in s.conns && k in s.conns && ConnComplete(s, k)
    ensures k in FinishSync(s, c, order).conns && ConnComplete(FinishSync(s, c, order), k)
  {
    hide Ops;
    hide Disconnect;
    hide CursorsOf;
    hide AsMessages;
    var cn := s.conns[c];
    assert ConnTidy(s, c) && ConnTidy(s, k);
    DisconnectCompletes(s, c, k);
    if cn.phase.Syncing? && cn.document.Some? && cn.clientId in s.pending {
      OpsAsMessages(s.pending[cn.clientId]);
      CursorsCarryNothing(s, c, order);
      OpsAppend(cn.sent, AsMessages(s.pending[cn.clientId]));
      OpsAppend(cn.sent + AsMessages(s.pending[cn.clientId]), CursorsOf(s, c, order));
    }
  }

  // The message is an operation its document throws on, after its row has been written.
  ghost predicate Refuses<C>(s: Server<C>, c: C, m: Message)
    requires c in s.conns
  {
    && m.OperationMessage? && s.conns[c].phase.Live?
    && s.conns[c].document.Some? && Blocked(DocOf(s, s.conns[c].document.value), m.op)
  }

  lemma RefusalIsThrow<C>(s: Server<C>, c: C, m: Message)
    requires Stored(s) && c in s.conns && m.OperationMessage? && s.conns[c].phase.Live? && s.conns[c].document.Some?
    ensures Refuses(s, c, m) <==> Applied(DocOf(s, s.conns[c].document.value), m.op).threw
  {
    hide Blocked;
    hide Traced;
    hide Documented;
    hide Healthy;
    hide Functional;
    var d := s.conns[c].document.value;
    assert Fits(DocOf(s, d), LogOf(s, d));
    ApplyThrows(DocOf(s, d), m.op);
  }

  // The operation is recorded and refused, is new to the log, and this other connection has the
  // document open.
  ghost predicate Misses<C>(s: Server<C>, c: C, m: Message, k: C)
    requires c in s.conns && k in s.conns
  {
    && Refuses(s, c, m) && m.op !in LogOf(s, s.conns[c].document.value)
    && k != c && s.conns[k].IsOpen() && s.conns[k].document == s.conns[c].document
  }

  // Exactly when a message leaves one connection behind, told from the state before it.
  lemma LeftBehind<C>(s: Server<C>, c: C, m: Message, ch: Choices, k: C)
    requires Registry(s) && Stored(s) && c in s.conns && !s.conns[c].phase.Disconnected? && Legal(s, c, m, ch)
    requires k in s.conns && ConnComplete(s, k)
    ensures k in Handle(s, c, m, ch).conns && (ConnComplete(Handle(s, c, m, ch), k) <==> !Misses(s, c, m, k))
  {
    hide Registry;
    hide ConnComplete;
    hide SayHello;
    hide Open;
    hide MoveCursor;
    hide FinishSync;
    hide Disconnect;
    hide LogOf;
    hide Stored;
    hide Refuses;
    hide Applied;
    hide DocOf;
    hide Edit;
    match m {
      case Hello(sender) => HelloCompletes(s, c, sender, k);
      case OperationMessage(_, op) =>
        if Refuses(s, c, m) {
          RefusedCompletes(s, c, m, ch, k);
        } else {
          if s.conns[c].phase.Live? && s.conns[c].document.Some? {
            RefusalIsThrow(s, c, m);
          }
          EditCompletes(s, c, m, op, k);
        }
      case SyncComplete(_) => FinishSyncCompletes(s, c, ch.order, k);
      case CursorUpdate(_, position) => MoveCursorCompletes(s, c, m, position, k);
      case OpenDocument(_, d) => OpenCompletes(s, c, d, ch.history, k);
      case _ => DisconnectCompletes(s, c, k);
    }
    RefusesOperations(s, c, m);
  }

  lemma RefusesOperations<C>(s: Server<C>, c: C, m: Message)
    requires c in s.conns
    ensures Refuses(s, c, m) ==> m.OperationMessage? && s.conns[c].document.Some?
  {
    hide Blocked;
  }

  lemma RefusedCompletes<C>(s: Server<C>, c: C, m: Message, ch: Choices, k: C)
    requires Registry(s) && Stored(s) && c in s.conns && Refuses(s, c, m) && k in s.conns && ConnComplete(s, k)
    ensures k in Handle(s, c, m, ch).conns && (ConnComplete(Handle(s, c, m, ch), k) <==> !Misses(s, c, m, k))
  {
    hide Ops;
    hide Stored;
    hide Handle;
    hide Disconnect;
    hide Record;
    hide Blocked;
    assert ConnTidy(s, c) && ConnTidy(s, k);
    var d := s.conns[c].document.value;
    RefusedStep(s, c, m, ch);
    RecordFrame(s, d, m.op);
    DisconnectFrame(Record(s, d, m.op), c);
  }

  // A connection keeps the document it has open.
  lemma DocumentStays<C>(s: Server<C>, c: C, m: Message, ch: Choices, k: C)
    requires c in s.conns && k in s.conns
    ensures var r := Handle(s, c, m, ch);
            k in r.conns && (s.conns[k].document.Some? ==> r.conns[k].document == s.conns[k].document)
  {
    if k != c {
      hide Handle;
      OthersAreToldAtMost(s, c, m, ch, k);
    } else {
      hide CursorsOf;
      hide Hears;
      hide AsMessages;
      hide Disconnect;
      hide Record;
      hide Applied;
      hide DocOf;
      DisconnectFrame(s, c);
      if m.OperationMessage? && s.conns[c].document.Some? {
        RecordFrame(s, s.conns[c].document.value, m.op);
        DisconnectFrame(Record(s, s.conns[c].document.value, m.op), c);
      }
    }
  }

  // The operation was recorded before, or no one else has the document open.
  ghost predicate NoOneMisses<C>(s: Server<C>, c: C, op: Operation)
    requires c in s.conns && s.conns[c].document.Some?
  {
    var d := s.conns[c].document;
    op in LogOf(s, d.value) || forall k | k in s.conns && k != c && s.conns[k].IsOpen() :: s.conns[k].document != d
  }

  // A message of this document that leaves someone behind.
  ghost predicate LeavesGap<C>(s: Server<C>, c: C, m: Message, d: DocumentID)
    requires c in s.conns
  {
    Refuses(s, c, m) && s.conns[c].document == Some(d) && !NoOneMisses(s, c, m.op)
  }

  // Exactly when a message leaves a gap in a document, told from the state before it: it is an
  // operation on this very document, which is blocked for it, it is new to the log, and someone else
  // has the document open. What happens on other documents never matters.
  lemma RefusedOperationLeavesGap<C>(s: Server<C>, c: C, m: Message, ch: Choices, d: DocumentID)
    requires Registry(s) && NoGapFor(s, d) && Stored(s) && c in s.conns && !s.conns[c].phase.Disconnected?
             && Legal(s, c, m, ch)
    ensures !NoGapFor(Handle(s, c, m, ch), d) <==> LeavesGap(s, c, m, d)
  {
    hide Registry;
    hide ConnComplete;
    hide Stored;
    hide Refuses;
    hide Handle;
    hide Legal;
    hide LogOf;
    RefusesOperations(s, c, m);
    HandleKeepsConns(s, c, m, ch);
    var r := Handle(s, c, m, ch);
    forall k | k in s.conns
      ensures s.conns[k].document.Some? ==> r.conns[k].document == s.conns[k].document
      ensures ConnComplete(s, k) ==> (ConnComplete(r, k) <==> !Misses(s, c, m, k))
    {
      DocumentStays(s, c, m, ch, k);
      if ConnComplete(s, k) {
        LeftBehind(s, c, m, ch, k);
      }
    }
    if LeavesGap(s, c, m, d) {
      var k :| k in s.conns && k != c && s.conns[k].IsOpen() && s.conns[k].document == Some(d);
      assert ConnComplete(s, k) && Misses(s, c, m, k);
    } else {
      forall k | k in r.conns && (r.conns[k].document.None? || r.conns[k].document == Some(d))
        ensures ConnComplete(r, k) {
        assert ConnComplete(s, k) && !Misses(s, c, m, k);
      }
    }
  }

  // Unless a document throws on an operation it has recorded, no step leaves a gap anywhere.
  lemma NoGapKept<C>(s: Server<C>, c: C, m: Message, ch: Choices)
    requires Registry(s) && NoGap(s) && Stored(s) && c in s.conns && !s.conns[c].phase.Disconnected?
             && Legal(s, c, m, ch)
    requires !Refuses(s, c, m)
    ensures NoGap(Handle(s, c, m, ch))
  {
    hide Registry;
    hide ConnComplete;
    hide Stored;
    hide Refuses;
    hide Handle;
    hide Legal;
    HandleKeepsConns(s, c, m, ch);
    forall k | k in Handle(s, c, m, ch).conns ensures ConnComplete(Handle(s, c, m, ch), k) {
      assert ConnComplete(s, k);
      LeftBehind(s, c, m, ch, k);
    }
  }

  lemma DisconnectKeepsNoGap<C>(s: Server<C>, c: C)
    requires Registry(s) && NoGap(s) && c in s.conns
    ensures NoGap(Disconnect(s, c))
  {
    hide Registry;
    hide ConnComplete;
    DisconnectFrame(s, c);
    hide Disconnect;
    forall k | k in Disconnect(s, c).conns ensures ConnComplete(Disconnect(s, c), k) {
      assert ConnComplete(s, k);
      DisconnectCompletes(s, c, k);
    }
  }

  lemma LiveIsStored<C>(s: Server<C>, c: C)
    requires Registry(s) && c in s.conns && s.conns[c].IsOpen()
    ensures s.conns[c].document.Some? && s.conns[c].document.value in s.logs
  {
    assert ConnTidy(s, c);
  }

  lemma RefusedStep<C>(s: Server<C>, c: C, m: Message, ch: Choices)
    requires Registry(s) && Stored(s) && c in s.conns && Refuses(s, c, m)
    ensures s.conns[c].document.value in s.logs
    ensures Handle(s, c, m, ch) == Disconnect(Record(s, s.conns[c].document.value, m.op), c)
  {
    hide Stored;
    hide Registry;
    hide Disconnect;
    hide Route;
    hide Applied;
    hide DocOf;
    hide LogOf;
    hide Blocked;
    RefusalIsThrow(s, c, m);
    LiveIsStored(s, c);
    RecordFrame(s, s.conns[c].document.value, m.op);
    hide Record;
  }

  // The sender of an operation its document throws on is cut off, although its row is stored and
  // its element is in the document; no other connection learns of it.
  lemma RefusedSenderIsDisconnected<C>(s: Server<C>, c: C, m: Message, ch: Choices)
    requires Registry(s) && Stored(s) && c in s.conns && Refuses(s, c, m)
    ensures var d, r := s.conns[c].document.value, Handle(s, c, m, ch);
            && r.conns.Keys == s.conns.Keys && r.conns[c].phase.Disconnected?
            && (forall k | k in s.conns && k != c :: r.conns[k] == s.conns[k])
            && LogOf(r, d) == LogOf(s, d) + {m.op} && m.op.Insert? && m.op.id in DocOf(r, d).tree.elements
  {
    hide Handle;
    hide Disconnect;
    hide Registry;
    hide Healthy;
    hide Traced;
    hide Documented;
    hide Functional;
    hide Applied;
    hide Blocked;
    var d := s.conns[c].document.value;
    RefusedStep(s, c, m, ch);
    DisconnectFrame(Record(s, d, m.op), c);
    RecordFrame(s, d, m.op);
    RecordedDoc(s, d, m.op);
    assert Fits(DocOf(s, d), LogOf(s, d));
    BlockedIsApplied(DocOf(s, d), m.op);
    hide Stored;
    hide Record;
    hide Fits;
  }

  lemma RecordedDoc<C>(s: Server<C>, d: DocumentID, op: Operation)
    ensures DocOf(Record(s, d, op), d) == Applied(DocOf(s, d), op).state
  {
    hide Applied;
  }

  lemma BlockedIsApplied(s: DocState, op: Operation)
    requires Healthy(s) && Blocked(s, op)
    ensures op.Insert? && op.id in Applied(s, op).state.tree.elements
  {
    HealthyIsFiled(s);
    hide Healthy;
    hide Filed;
  }

  // The four operations of FourthInsertThrows, seen from the server: the sender of the last one,
  // which names no identifier twice, is disconnected.
  lemma InnocentSenderIsDisconnected<C>(
    s: Server<C>, c: C, sender: string, ch: Choices, p: ElementID, y: ElementID, z: ElementID, w: ElementID)
    requires Registry(s) && Stored(s) && c in s.conns && s.conns[c].phase.Live? && Apart(p, y, z, w)
    requires s.conns[c].document.Some?
    requires DocOf(s, s.conns[c].document.value) ==
             ApplyAll(NewDocument(), [Insert(p, y, 'a'), Insert(ROOT_ID, y, 'b'), Insert(z, w, 'c')])
    ensures var m := OperationMessage(sender, Insert(ROOT_ID, z, 'd'));
            && Refuses(s, c, m) && Handle(s, c, m, ch).conns.Keys == s.conns.Keys
            && Handle(s, c, m, ch).conns[c].phase.Disconnected?
  {
    FourthInsertThrows(p, y, z, w);
    hide Blocked;
    hide Stored;
    hide Registry;
    hide ApplyAll;
    hide Handle;
    RefusedSenderIsDisconnected(s, c, OperationMessage(sender, Insert(ROOT_ID, z, 'd')), ch);
  }

  // ----- Documents -----

  lemma NewFits()
    ensures Fits(NewDocument(), {})
  {
    hide Structured;
    NewIsDocumented();
    DocumentedIsStructured(NewDocument(), {});
  }

  lemma AppliedFits(doc: DocState, log: set<Operation>, op: Operation)
    requires Fits(doc, log)
    ensures Fits(Applied(doc, op).state, log + {op})
  {
    hide Structured;
    hide Documented;
    hide Functional;
    hide ApplyTo;
    ApplyStructured(doc, log, op);
    if Functional(log + {op}) {
      FewerOperations(log, log + {op});
      ApplyDocumented(doc, log, op);
    }
  }

  lemma RecordKeepsStored<C>(s: Server<C>, d: DocumentID, op: Operation)
    requires Stored(s)
    ensures Stored(Record(s, d, op))
  {
    hide Fits;
    hide Applied;
    assert Fits(DocOf(s, d), LogOf(s, d));
    AppliedFits(DocOf(s, d), LogOf(s, d), op);
    forall e ensures Fits(DocOf(Record(s, d, op), e), LogOf(Record(s, d, op), e)) {
      assert Fits(DocOf(s, e), LogOf(s, e));
    }
  }

  lemma OpenKeepsStored<C>(s: Server<C>, c: C, d: DocumentID, history: seq<Operation>)
    requires Stored(s) && c in s.conns
    ensures Stored(Open(s, c, d, history))
  {
    hide Fits;
    var r := Open(s, c, d, history);
    forall e ensures Fits(DocOf(r, e), LogOf(r, e)) {
      assert Fits(DocOf(s, e), LogOf(s, e));
    }
  }

  lemma SameStore<C>(s: Server<C>, r: Server<C>)
    requires Stored(s) && r.logs == s.logs && r.documents == s.documents
    ensures Stored(r)
  {
    hide Fits;
    forall e ensures Fits(DocOf(r, e), LogOf(r, e)) {
      assert Fits(DocOf(s, e), LogOf(s, e));
    }
  }

  lemma EditStore<C>(s: Server<C>, c: C, m: Message, op: Operation)
    requires c in s.conns
    ensures var cn, r := s.conns[c], Edit(s, c, m, op);
            var q := if cn.phase.Live? && cn.document.Some? && cn.document.value in s.logs
                     then Record(s, cn.document.value, op) else s;
            r.logs == q.logs && r.documents == q.documents
  {
    hide Record;
    hide Applied;
    hide DocOf;
    hide LogOf;
    hide Hears;
    hide Broadcast;
    var cn := s.conns[c];
    if cn.document.Some? {
      RecordFrame(s, cn.document.value, op);
      DisconnectFrame(Record(s, cn.document.value, op), c);
    }
    DisconnectFrame(s, c);
    hide Disconnect;
  }

  lemma OtherMessagesStore<C>(s: Server<C>, c: C, m: Message, ch: Choices)
    requires c in s.conns && !m.OperationMessage? && !m.OpenDocument?
    ensures Handle(s, c, m, ch).logs == s.logs && Handle(s, c, m, ch).documents == s.documents
  {
    hide Disconnect;
    hide CursorsOf;
    hide Broadcast;
    hide AsMessages;
    hide Send;
    DisconnectFrame(s, c);
  }

  // Every document keeps fitting its log: whatever arrives, what is stored and what is held agree.
  lemma StoredKept<C>(s: Server<C>, c: C, m: Message, ch: Choices)
    requires Stored(s) && c in s.conns
    ensures Stored(Handle(s, c, m, ch))
  {
    hide Stored;
    hide Record;
    hide Open;
    hide Edit;
    hide SayHello;
    hide MoveCursor;
    hide FinishSync;
    hide Disconnect;
    match m {
      case OperationMessage(_, op) =>
        var cn := s.conns[c];
        EditStore(s, c, m, op);
        if cn.phase.Live? && cn.document.Some? && cn.document.value in s.logs {
          RecordKeepsStored(s, cn.document.value, op);
          SameStore(Record(s, cn.document.value, op), Handle(s, c, m, ch));
        } else {
          SameStore(s, Handle(s, c, m, ch));
        }
      case OpenDocument(_, d) =>
        OpenKeepsStored(s, c, d, ch.history);
      case _ =>
        OtherMessagesStore(s, c, m, ch);
        SameStore(s, Handle(s, c, m, ch));
    }
  }

  // ----- Choices -----

  lemma {:induction false} Enumerate<T>(xs: set<T>) returns (q: seq<T>)
    ensures Elements(q) == xs && NoDuplicates(q)
    decreases xs
  {
    if xs == {} {
      q := [];
      assert Elements(q) == {};
    } else {
      var x :| x in xs;
      var rest := Enumerate(xs - {x});
      q := rest + [x];
      assert forall y :: y in q <==> y in rest || y == x;
      assert forall y :: y in rest <==> y in Elements(rest);
    }
  }

  // Whatever arrives, the server has a way to go on.
  lemma ChoicesExist<C>(s: Server<C>, c: C, m: Message) returns (ch: Choices)
    requires c in s.conns
    ensures Legal(s, c, m, ch)
  {
    var order := Enumerate(s.presence.Keys);
    var history := Enumerate(match m case OpenDocument(_, d) => LogOf(s, d) case _ => {});
    ch := Choices(history, order);
  }

  // ----- Runs -----

  lemma StartedKeeps<C>(logs: map<DocumentID, set<Operation>>, documents: map<DocumentID, DocState>)
    ensures Registry(Servers.Started<C>(logs, documents)) && NoGap(Servers.Started<C>(logs, documents))
  {
  }

  lemma AcceptKeeps<C>(s: Server<C>, c: C)
    requires Registry(s) && c !in s.conns
    ensures Registry(s.(conns := s.conns[c := NEW_CONN]))
    ensures NoGap(s) ==> NoGap(s.(conns := s.conns[c := NEW_CONN]))
  {
    var r := s.(conns := s.conns[c := NEW_CONN]);
    forall k | k in r.conns ensures ConnTidy(r, k) && (NoGap(s) ==> ConnComplete(r, k)) {
      assert k in s.conns ==> ConnTidy(s, k);
      assert k in s.conns && NoGap(s) ==> ConnComplete(s, k);
      assert "" !in s.pending;
    }
  }

  lemma AcceptKeepsFor<C>(s: Server<C>, c: C, d: DocumentID)
    requires Registry(s) && c !in s.conns && NoGapFor(s, d)
    ensures NoGapFor(s.(conns := s.conns[c := NEW_CONN]), d)
  {
    var r := s.(conns := s.conns[c := NEW_CONN]);
    forall k | k in r.conns && (r.conns[k].document.None? || r.conns[k].document == Some(d))
      ensures ConnComplete(r, k) {
      assert k in s.conns ==> ConnTidy(s, k) && ConnComplete(s, k);
      assert "" !in s.pending;
    }
  }

  lemma NextKeepsRegistry<C>(s: Server<C>, e: Event<C>)
    requires Registry(s) && Possible(s, e)
    ensures Registry(Next(s, e))
  {
    hide Registry;
    hide DeserializeMessage;
    hide Handle;
    hide Disconnect;
    hide Legal;
    match e
    case Accept(c) => AcceptKeeps(s, c);
    case Deliver(c, text, ch) =>
      DisconnectKeepsRegistry(s, c);
      if DeserializeMessage(text).Ok? {
        RegistryKept(s, c, DeserializeMessage(text).value, ch);
      }
    case Drop(c) => DisconnectKeepsRegistry(s, c);
  }

  lemma HandleGrowsLogs<C>(s: Server<C>, c: C, m: Message, ch: Choices, d: DocumentID)
    requires c in s.conns
    ensures LogOf(s, d) <= LogOf(Handle(s, c, m, ch), d)
  {
    hide Record;
    hide DocOf;
    hide Edit;
    hide SayHello;
    hide MoveCursor;
    hide FinishSync;
    hide Disconnect;
    match m {
      case OperationMessage(_, op) =>
        EditStore(s, c, m, op);
        if s.conns[c].document.Some? {
          RecordFrame(s, s.conns[c].document.value, op);
        }
      case OpenDocument(_, _) =>
        DisconnectFrame(s, c);
      case _ =>
        OtherMessagesStore(s, c, m, ch);
    }
  }

  // Rows are never lost.
  lemma LogsGrow<C>(s: Server<C>, e: Event<C>, d: DocumentID)
    requires Possible(s, e)
    ensures LogOf(s, d) <= LogOf(Next(s, e), d)
  {
    hide DeserializeMessage;
    hide Handle;
    hide Legal;
    if e.Deliver? && DeserializeMessage(e.text).Ok? {
      HandleGrowsLogs(s, e.conn, DeserializeMessage(e.text).value, e.choices, d);
    }
  }

  // A document is only ever blocked for an operation when an identifier has been reused.
  lemma RefusedIsReused<C>(s: Server<C>, c: C, m: Message, ch: Choices)
    requires Registry(s) && Stored(s) && c in s.conns && Refuses(s, c, m)
    ensures s.conns[c].document.Some? && !Functional(LogOf(Handle(s, c, m, ch), s.conns[c].document.value))
  {
    hide Structured;
    hide Documented;
    hide Functional;
    hide Blocked;
    hide Registry;
    hide Handle;
    hide Disconnect;
    hide Record;
    hide Applied;
    var d := s.conns[c].document.value;
    RefusedStep(s, c, m, ch);
    RefusalIsThrow(s, c, m);
    RecordFrame(s, d, m.op);
    DisconnectFrame(Record(s, d, m.op), c);
    assert Fits(DocOf(s, d), LogOf(s, d));
    if Functional(LogOf(s, d) + {m.op}) {
      FewerOperations(LogOf(s, d), LogOf(s, d) + {m.op});
      NeverThrows(DocOf(s, d), LogOf(s, d), m.op);
    }
  }

  lemma NeverThrows(doc: DocState, log: set<Operation>, op: Operation)
    requires Documented(doc, log) && Functional(log + {op})
    ensures !Applied(doc, op).threw
  {
    hide Documented;
    ApplyDocumented(doc, log, op);
  }

  lemma NextKeepsStored<C>(s: Server<C>, e: Event<C>)
    requires Stored(s) && Possible(s, e)
    ensures Stored(Next(s, e))
  {
    hide Registry;
    hide Stored;
    hide DeserializeMessage;
    hide Handle;
    hide Legal;
    match e
    case Accept(c) => SameStore(s, Next(s, e));
    case Deliver(c, text, ch) =>
      if DeserializeMessage(text).Ok? {
        StoredKept(s, c, DeserializeMessage(text).value, ch);
      } else {
        SameStore(s, Next(s, e));
      }
    case Drop(c) => SameStore(s, Next(s, e));
  }

  // The event is a message that leaves someone behind on this document.
  ghost predicate EventLeavesGap<C>(s: Server<C>, e: Event<C>, d: DocumentID)
    requires Possible(s, e)
  {
    e.Deliver? && DeserializeMessage(e.text).Ok? && LeavesGap(s, e.conn, DeserializeMessage(e.text).value, d)
  }

  lemma DropKeepsNoGapFor<C>(s: Server<C>, c: C, d: DocumentID)
    requires Registry(s) && NoGapFor(s, d) && c in s.conns
    ensures NoGapFor(Disconnect(s, c), d)
  {
    hide Registry;
    hide ConnComplete;
    DisconnectFrame(s, c);
    hide Disconnect;
    var r := Disconnect(s, c);
    forall k | k in r.conns && (r.conns[k].document.None? || r.conns[k].document == Some(d))
      ensures ConnComplete(r, k) {
      assert ConnComplete(s, k);
      DisconnectCompletes(s, c, k);
    }
  }

  // Exactly when an event leaves a gap in a document.
  lemma NextLeavesGap<C>(s: Server<C>, e: Event<C>, d: DocumentID)
    requires Registry(s) && NoGapFor(s, d) && Stored(s) && Possible(s, e)
    ensures !NoGapFor(Next(s, e), d) <==> EventLeavesGap(s, e, d)
  {
    hide Registry;
    hide NoGapFor;
    hide Stored;
    hide DeserializeMessage;
    hide Handle;
    hide Disconnect;
    hide Legal;
    hide LeavesGap;
    match e
    case Accept(c) => AcceptKeepsFor(s, c, d);
    case Deliver(c, text, ch) =>
      if DeserializeMessage(text).Ok? {
        RefusedOperationLeavesGap(s, c, DeserializeMessage(text).value, ch, d);
      } else {
        DropKeepsNoGapFor(s, c, d);
      }
    case Drop(c) => DropKeepsNoGapFor(s, c, d);
  }

  // In every state of every run, whatever texts arrive and whenever connections end, the
  // registry is consistent and every document fits its log.
  lemma {:induction false} RegistryOverRuns<C>(states: seq<Server<C>>, events: seq<Event<C>>, i: nat)
    requires IsRun(states, events) && Registry(states[0]) && Stored(states[0]) && i <= |events|
    ensures Registry(states[i]) && Stored(states[i])
    decreases i
  {
    hide Registry;
    hide Stored;
    hide Possible;
    hide Next;
    if i > 0 {
      RegistryOverRuns(states, events, i - 1);
      assert events[i - 1] == events[i - 1];
      NextKeepsRegistry(states[i - 1], events[i - 1]);
      NextKeepsStored(states[i - 1], events[i - 1]);
    }
  }

  // As long as no event of a run leaves a gap in a document, every connection with it open has heard
  // exactly its operations, whatever happens on other documents.
  lemma {:induction false} NoGapUntilRefused<C>(states: seq<Server<C>>, events: seq<Event<C>>, i: nat, d: DocumentID)
    requires IsRun(states, events) && Registry(states[0]) && Stored(states[0]) && NoGapFor(states[0], d)
             && i <= |events|
    requires forall j {:trigger events[j]} | 0 <= j < i :: !EventLeavesGap(states[j], events[j], d)
    ensures NoGapFor(states[i], d)
    decreases i
  {
    hide Registry;
    hide NoGapFor;
    hide Stored;
    hide Possible;
    hide Next;
    hide EventLeavesGap;
    if i > 0 {
      var e := events[i - 1];
      assert states[i] == Next(states[i - 1], e);
      NoGapUntilRefused(states, events, i - 1, d);
      RegistryOverRuns(states, events, i - 1);
      NextLeavesGap(states[i - 1], e, d);
    }
  }

  // In every state of a run in which this document's log has reused no identifier so far, every
  // connection with it open has heard exactly its operations.
  lemma {:induction false} NoGapOverRuns<C>(states: seq<Server<C>>, events: seq<Event<C>>, i: nat, d: DocumentID)
    requires IsRun(states, events) && Registry(states[0]) && Stored(states[0]) && NoGapFor(states[0], d)
             && i <= |events|
    requires Functional(LogOf(states[i], d))
    ensures NoGapFor(states[i], d)
    decreases i
  {
    hide Registry;
    hide NoGapFor;
    hide Stored;
    hide Possible;
    hide Next;
    hide Functional;
    hide LogOf;
    hide EventLeavesGap;
    if i > 0 {
      var e := events[i - 1];
      assert states[i] == Next(states[i - 1], e);
      LogsGrow(states[i - 1], e, d);
      FewerOperations(LogOf(states[i - 1], d), LogOf(states[i], d));
      NoGapOverRuns(states, events, i - 1, d);
      RegistryOverRuns(states, events, i - 1);
      NextLeavesGap(states[i - 1], e, d);
      if EventLeavesGap(states[i - 1], e, d) {
        GapIsReused(states[i - 1], e, d);
      }
    }
  }

  lemma GapIsReused<C>(s: Server<C>, e: Event<C>, d: DocumentID)
    requires Registry(s) && Stored(s) && Possible(s, e) && EventLeavesGap(s, e, d)
    ensures !Functional(LogOf(Next(s, e), d))
  {
    hide Registry;
    hide Stored;
    hide DeserializeMessage;
    hide Handle;
    hide Disconnect;
    hide Legal;
    hide LogOf;
    hide Functional;
    hide Refuses;
    hide NoOneMisses;
    assert e.Deliver?;
    RefusedIsReused(s, e.conn, DeserializeMessage(e.text).value, e.choices);
  }

  // If no log has reused an identifier, there is no gap anywhere.
  lemma NoGapAnywhere<C>(states: seq<Server<C>>, events: seq<Event<C>>, i: nat)
    requires IsRun(states, events) && Registry(states[0]) && Stored(states[0]) && NoGap(states[0]) && i <= |events|
    requires forall d {:trigger LogOf(states[i], d)} :: Functional(LogOf(states[i], d))
    ensures NoGap(states[i])
  {
    hide Registry;
    hide ConnComplete;
    hide Stored;
    hide Possible;
    hide Next;
    hide Functional;
    hide LogOf;
    forall c | c in states[i].conns ensures ConnComplete(states[i], c) {
      var d := if states[i].conns[c].document.Some? then states[i].conns[c].document.value else "";
      assert NoGapFor(states[0], d);
      assert Functional(LogOf(states[i], d));
      NoGapOverRuns(states, events, i, d);
    }
  }
}
