// The protocol as a client of the server sees it: which messages cost the connection, what is
// answered, and in which order operations arrive.
module ServerProtocol {
  import opened Wrappers
  import opened ElementIds
  import opened Operations
  import opened DocumentStates
  import opened Messages
  import opened WireFormats
  import opened Servers
  import opened ServerFacts

  // ----- Which messages are accepted -----

  // A connection says hello under a free name, opens one document, ends its synchronisation, and
  // from then on sends operations and cursors; the server accepts nothing else.
  ghost predicate Accepts<C>(s: Server<C>, c: C, m: Message)
    requires c in s.conns
  {
    var cn := s.conns[c];
    match m
    case Hello(id) => cn.phase.Unregistered? && id != "" && id !in s.clients
    case OpenDocument(_, d) => cn.phase.Registered? && d != ""
    case SyncComplete(_) => cn.phase.Syncing?
    case CursorUpdate(_, _) => cn.phase.Live?
    case OperationMessage(_, op) =>
      cn.phase.Live? && (cn.document.Some? ==> !Blocked(DocOf(s, cn.document.value), op))
    case _ => false
  }

  function PhaseOn(m: Message): Phase
  {
    match m
    case Hello(_) => Registered
    case OpenDocument(_, _) => Syncing
    case _ => Live
  }

  // Exactly the messages that cost their sender the connection, and where the others lead.
  lemma MessageIsAccepted<C>(s: Server<C>, c: C, m: Message, ch: Choices)
    requires Registry(s) && Stored(s) && c in s.conns && !s.conns[c].phase.Disconnected?
    ensures var r := Handle(s, c, m, ch);
            && c in r.conns
            && r.conns[c].phase == (if Accepts(s, c, m) then PhaseOn(m) else Disconnected)
            && (!Accepts(s, c, m) ==> r.conns == s.conns[c := s.conns[c].(phase := Disconnected)])
  {
    hide Stored;
    hide Disconnect;
    hide CursorsOf;
    hide AsMessages;
    hide Broadcast;
    hide Edit;
    hide Blocked;
    hide LogOf;
    hide DocOf;
    assert ConnTidy(s, c);
    DisconnectFrame(s, c);
    LookupsSucceed(s, c);
    match m {
      case OperationMessage(_, op) => OperationIsAccepted(s, c, m, ch);
      case CursorUpdate(_, position) =>
        if s.conns[c].phase.Live? {
          CursorReachesOthers(s, c, m, position, c);
        }
      case _ =>
    }
  }

  // The same for texts: one that is read as no message, or as one that is not accepted, ends the
  // connection.
  lemma TextIsAccepted<C>(s: Server<C>, c: C, text: string, ch: Choices)
    requires Registry(s) && Stored(s) && c in s.conns && !s.conns[c].phase.Disconnected?
    ensures var r := HandleText(s, c, text, ch);
            && c in r.conns
            && (r.conns[c].phase.Disconnected? <==> !exists m :: ReadsAs(text, m) && Accepts(s, c, m))
            && forall m | ReadsAs(text, m) && Accepts(s, c, m) :: r.conns[c].phase == PhaseOn(m)
  {
    hide Registry;
    hide Stored;
    hide Handle;
    hide Accepts;
    hide ReadsAs;
    hide DeserializeMessage;
    DisconnectFrame(s, c);
    hide Disconnect;
    forall m ensures DeserializeMessage(text) == Ok(m) <==> ReadsAs(text, m) {
      MessageIsRead(text, m);
    }
    if DeserializeMessage(text).Ok? {
      var m := DeserializeMessage(text).value;
      assert ReadsAs(text, m);
      MessageIsAccepted(s, c, m, ch);
    }
  }

  lemma OperationIsAccepted<C>(s: Server<C>, c: C, m: Message, ch: Choices)
    requires Registry(s) && Stored(s) && c in s.conns && m.OperationMessage? && !s.conns[c].phase.Disconnected?
    ensures var r := Handle(s, c, m, ch);
            && c in r.conns
            && r.conns[c].phase == (if Accepts(s, c, m) then Live else Disconnected)
            && (!Accepts(s, c, m) ==> r.conns == s.conns[c := s.conns[c].(phase := Disconnected)])
            && (Accepts(s, c, m) ==>
                  && s.conns[c].phase.Live? && s.conns[c].document.Some? && s.conns[c].document.value in s.logs
                  && !Applied(DocOf(s, s.conns[c].document.value), m.op).threw && !Refuses(s, c, m))
  {
    hide Registry;
    hide Stored;
    hide Applied;
    hide DocOf;
    hide Disconnect;
    hide Record;
    hide Route;
    hide Blocked;
    DisconnectFrame(s, c);
    if s.conns[c].phase.Live? {
      LiveIsStored(s, c);
      RefusalIsThrow(s, c, m);
      var d := s.conns[c].document.value;
      RecordFrame(s, d, m.op);
      DisconnectFrame(Record(s, d, m.op), c);
      if !Refuses(s, c, m) {
        RouteStep(s, c, m, m.op, c);
      }
    }
  }

  // ----- What is answered -----

  lemma {:induction false} AsMessagesInOrder(ops: seq<Operation>)
    ensures |AsMessages(ops)| == |ops|
    ensures forall i | 0 <= i < |ops| :: AsMessages(ops)[i] == OperationMessage("server", ops[i])
  {
    if ops != [] {
      AsMessagesInOrder(ops[..|ops| - 1]);
    }
  }

  // Each of the others once.
  lemma {:induction false} CursorsOnce<C>(s: Server<C>, c: C, order: seq<string>)
    requires c in s.conns && NoDuplicates(order)
    ensures NoDuplicates(CursorsOf(s, c, order))
    ensures forall m | m in CursorsOf(s, c, order) :: m.CursorUpdate? && m.sender in order
  {
    if order != [] {
      var init := order[..|order| - 1];
      CursorsOnce(s, c, init);
      forall m | m in CursorsOf(s, c, order) ensures m.CursorUpdate? && m.sender in order {
        CursorsAreComplete(s, c, order, m);
      }
      forall m | m in CursorsOf(s, c, init) ensures m.sender != order[|order| - 1] {
        assert m.sender in init;
      }
    }
  }

  // Another client live on the same document.
  ghost predicate LiveBeside<C>(s: Server<C>, c: C, id: string)
    requires c in s.conns
  {
    && id in s.clients && s.clients[id] in s.conns && s.clients[id] != c
    && s.conns[s.clients[id]].phase.Live? && s.conns[s.clients[id]].document == s.conns[c].document
  }

  // After the waiting operations, one by one and in the order they waited, come the cursors of the
  // others live on the document, each once.
  ghost predicate Catchup<C>(s: Server<C>, c: C, waiting: seq<Operation>, told: seq<Message>)
    requires c in s.conns
  {
    && |waiting| <= |told|
    && (forall i | 0 <= i < |waiting| :: told[i] == OperationMessage("server", waiting[i]))
    && NoDuplicates(told[|waiting|..])
    && forall m :: m in told[|waiting|..] <==>
         && m.CursorUpdate? && LiveBeside(s, c, m.sender) && m.sender in s.presence
         && m.position == s.presence[m.sender]
  }

  // What an accepted message is answered with.
  ghost predicate Answers<C>(s: Server<C>, c: C, m: Message, ch: Choices, told: seq<Message>)
    requires c in s.conns
  {
    match m
    case Hello(_) => told == [HelloAck("server")]
    case OpenDocument(_, _) => told == [SyncResponse("server", ch.history)]
    case SyncComplete(_) => s.conns[c].clientId in s.pending && Catchup(s, c, s.pending[s.conns[c].clientId], told)
    case _ => told == []
  }

  lemma SenderIsAnswered<C>(s: Server<C>, c: C, m: Message, ch: Choices)
    requires Registry(s) && Stored(s) && c in s.conns && Accepts(s, c, m) && Legal(s, c, m, ch)
    ensures var sent, r := s.conns[c].sent, Handle(s, c, m, ch);
            && c in r.conns && sent <= r.conns[c].sent && Answers(s, c, m, ch, r.conns[c].sent[|sent|..])
  {
    hide Stored;
    hide Disconnect;
    hide CursorsOf;
    hide AsMessages;
    hide Broadcast;
    hide Edit;
    hide Blocked;
    hide LogOf;
    hide DocOf;
    hide Catchup;
    assert ConnTidy(s, c);
    LookupsSucceed(s, c);
    match m {
      case OperationMessage(_, op) =>
        OperationIsAccepted(s, c, m, ch);
        RouteStep(s, c, m, op, c);
      case CursorUpdate(_, position) => CursorReachesOthers(s, c, m, position, c);
      case SyncComplete(_) =>
        var waiting := AsMessages(s.pending[s.conns[c].clientId]);
        CatchesUp(s, c, ch.order);
        var sent, told := s.conns[c].sent, waiting + CursorsOf(s, c, ch.order);
        assert (sent + waiting + CursorsOf(s, c, ch.order))[|sent|..] == told;
      case _ =>
    }
  }

  lemma CatchesUp<C>(s: Server<C>, c: C, order: seq<string>)
    requires Registry(s) && c in s.conns && s.conns[c].phase.Syncing? && s.conns[c].clientId in s.pending
    requires Elements(order) == s.presence.Keys && NoDuplicates(order)
    ensures var waiting := s.pending[s.conns[c].clientId];
            Catchup(s, c, waiting, AsMessages(waiting) + CursorsOf(s, c, order))
  {
    hide AsMessages;
    hide CursorsOf;
    var waiting, cursors := s.pending[s.conns[c].clientId], CursorsOf(s, c, order);
    AsMessagesInOrder(waiting);
    CursorsOnce(s, c, order);
    assert (AsMessages(waiting) + cursors)[|waiting|..] == cursors;
    assert ConnTidy(s, c);
    forall m ensures m in cursors <==>
        && m.CursorUpdate? && LiveBeside(s, c, m.sender) && m.sender in s.presence && m.position == s.presence[m.sender]
    {
      CursorsAreComplete(s, c, order, m);
    }
  }

  // ----- The tables -----

  // Who is registered, and where each cursor was last seen: a newcomer starts at the root, a cursor
  // update moves its own client, and whoever is cut off is forgotten.
  lemma TablesFollow<C>(s: Server<C>, c: C, m: Message, ch: Choices)
    requires Registry(s) && Stored(s) && c in s.conns && !s.conns[c].phase.Disconnected?
    ensures var r, own := Handle(s, c, m, ch), s.conns[c].clientId;
            if !Accepts(s, c, m) then r.clients == s.clients - {own} && r.presence == s.presence - {own}
            else
              && r.clients == (if m.Hello? then s.clients[m.sender := c] else s.clients)
              && r.presence ==
                 (if m.Hello? then s.presence[m.sender := ROOT_ID]
                  else if m.CursorUpdate? then s.presence[own := m.position] else s.presence)
  {
    hide Stored;
    hide Disconnect;
    hide CursorsOf;
    hide AsMessages;
    hide Broadcast;
    hide Edit;
    hide Blocked;
    hide LogOf;
    hide DocOf;
    assert ConnTidy(s, c);
    DisconnectFrame(s, c);
    LookupsSucceed(s, c);
    NamelessIsUnknown(s, c);
    match m {
      case OperationMessage(_, op) => OperationTables(s, c, m, ch);
      case CursorUpdate(_, position) =>
        if s.conns[c].phase.Live? {
          CursorReachesOthers(s, c, m, position, c);
        }
      case _ =>
    }
  }

  lemma NamelessIsUnknown<C>(s: Server<C>, c: C)
    requires Registry(s) && c in s.conns && !s.conns[c].phase.Disconnected?
    ensures var own := s.conns[c].clientId;
            !(own != "" && own in s.clients && s.clients[own] == c) ==>
              s.clients - {own} == s.clients && s.presence - {own} == s.presence
  {
    assert ConnTidy(s, c);
  }

  lemma OperationTables<C>(s: Server<C>, c: C, m: Message, ch: Choices)
    requires Registry(s) && Stored(s) && c in s.conns && m.OperationMessage? && !s.conns[c].phase.Disconnected?
    ensures var r, own := Handle(s, c, m, ch), s.conns[c].clientId;
            if !Accepts(s, c, m) then r.clients == s.clients - {own} && r.presence == s.presence - {own}
            else r.clients == s.clients && r.presence == s.presence
  {
    NamelessIsUnknown(s, c);
    hide Registry;
    hide Stored;
    hide Edit;
    hide Disconnect;
    hide Record;
    hide Blocked;
    hide Applied;
    hide DocOf;
    if Accepts(s, c, m) {
      OperationIsAccepted(s, c, m, ch);
      RouteTables(s, c, m, m.op);
    } else if s.conns[c].phase.Live? {
      LiveIsStored(s, c);
      RefusedStep(s, c, m, ch);
      RecordFrame(s, s.conns[c].document.value, m.op);
      DisconnectFrame(Record(s, s.conns[c].document.value, m.op), c);
    } else {
      IdleIsCutOff(s, c, m, ch);
      DisconnectFrame(s, c);
    }
  }

  lemma RouteTables<C>(s: Server<C>, c: C, m: Message, op: Operation)
    requires c in s.conns && m == OperationMessage(m.sender, op) && s.conns[c].phase.Live?
    requires s.conns[c].document.Some? && s.conns[c].document.value in s.logs
    requires !Applied(DocOf(s, s.conns[c].document.value), op).threw
    ensures Edit(s, c, m, op).clients == s.clients && Edit(s, c, m, op).presence == s.presence
  {
    hide Applied;
    hide DocOf;
    hide Broadcast;
    hide Hears;
  }

  // ----- The order in which operations arrive -----

  // The operations of the OPERATION messages, in order.
  function Told(ms: seq<Message>): seq<Operation>
  {
    if ms == [] then []
    else
      var init, last := ms[..|ms| - 1], ms[|ms| - 1];
      Told(init) + if last.OperationMessage? then [last.op] else []
  }

  ghost function Waiting<C>(s: Server<C>, c: C): seq<Operation>
    requires c in s.conns
  {
    var cn := s.conns[c];
    if (cn.phase.Registered? || cn.phase.Syncing?) && cn.clientId in s.pending then s.pending[cn.clientId] else []
  }

  // The message is an operation the server accepts from someone else on this connection's document.
  ghost predicate Concerns<C>(s: Server<C>, e: Event<C>, c: C)
    requires Possible(s, e)
  {
    && e.Deliver? && DeserializeMessage(e.text).Ok? && DeserializeMessage(e.text).value.OperationMessage?
    && Accepts(s, e.conn, DeserializeMessage(e.text).value)
    && e.conn != c && c in s.conns && s.conns[c].IsOpen() && s.conns[c].document == s.conns[e.conn].document
  }

  // The operations the server has accepted from others on a connection's document while it was open
  // there, in the order it handled them.
  ghost function Due<C>(states: seq<Server<C>>, events: seq<Event<C>>, i: nat, c: C): seq<Operation>
    requires IsRun(states, events) && i <= |events|
  {
    if i == 0 then []
    else
      var e := events[i - 1];
      Due(states, events, i - 1, c) +
      if Concerns(states[i - 1], e, c) then [DeserializeMessage(e.text).value.op] else []
  }

  lemma {:induction false} ToldAppend(a: seq<Message>, b: seq<Message>)
    ensures Told(a + b) == Told(a) + Told(b)
  {
    if b == [] {
      assert a + b == a;
    } else {
      assert (a + b)[..|a + b| - 1] == a + b[..|b| - 1];
      ToldAppend(a, b[..|b| - 1]);
    }
  }

  lemma {:induction false} ToldOfWaiting(ops: seq<Operation>)
    ensures Told(AsMessages(ops)) == ops
  {
    if ops != [] {
      ToldOfWaiting(ops[..|ops| - 1]);
      var ms := AsMessages(ops);
      assert ms[..|ms| - 1] == AsMessages(ops[..|ops| - 1]);
      assert ops == ops[..|ops| - 1] + [ops[|ops| - 1]];
    }
  }

  lemma {:induction false} ToldOfCursors<C>(s: Server<C>, c: C, order: seq<string>)
    requires c in s.conns
    ensures Told(CursorsOf(s, c, order)) == []
  {
    if order != [] {
      var init, ms := order[..|order| - 1], CursorsOf(s, c, order);
      ToldOfCursors(s, c, init);
      if ms != CursorsOf(s, c, init) {
        assert ms[..|ms| - 1] == CursorsOf(s, c, init);
      }
    }
  }

  lemma ToldOne(a: seq<Message>, m: Message)
    ensures Told(a + [m]) == Told(a) + if m.OperationMessage? then [m.op] else []
  {
    assert (a + [m])[..|a|] == a;
  }

  // One message, seen from one connection.
  lemma OrderKept<C>(s: Server<C>, c: C, m: Message, ch: Choices, k: C)
    requires Registry(s) && Stored(s) && c in s.conns && k in s.conns
    requires !s.conns[c].phase.Disconnected?
    ensures var r := Handle(s, c, m, ch);
            && k in r.conns
            && (!r.conns[k].phase.Disconnected? ==>
                  Told(r.conns[k].sent) + Waiting(r, k) ==
                  Told(s.conns[k].sent) + Waiting(s, k) +
                  if m.OperationMessage? && Accepts(s, c, m) && k != c && s.conns[k].IsOpen()
                     && s.conns[k].document == s.conns[c].document then [m.op] else [])
  {
    if m.OperationMessage? {
      OperationOrder(s, c, m, ch, k);
    } else if k == c {
      OwnOrder(s, c, m, ch);
    } else {
      hide Handle;
      hide Told;
      OthersAreToldAtMost(s, c, m, ch, k);
      OthersWait(s, c, m, ch, k);
      ToldOne(s.conns[k].sent, m);
    }
  }

  lemma OperationOrder<C>(s: Server<C>, c: C, m: Message, ch: Choices, k: C)
    requires Registry(s) && Stored(s) && c in s.conns && k in s.conns && m.OperationMessage?
    requires !s.conns[c].phase.Disconnected?
    ensures var r := Handle(s, c, m, ch);
            && k in r.conns
            && (!r.conns[k].phase.Disconnected? ==>
                  Told(r.conns[k].sent) + Waiting(r, k) ==
                  Told(s.conns[k].sent) + Waiting(s, k) +
                  if Accepts(s, c, m) && k != c && s.conns[k].IsOpen()
                     && s.conns[k].document == s.conns[c].document then [m.op] else [])
  {
    hide Told;
    hide Stored;
    hide Edit;
    hide Applied;
    hide Blocked;
    hide DocOf;
    assert ConnTidy(s, k) && ConnTidy(s, c);
    OperationIsAccepted(s, c, m, ch);
    ToldOne(s.conns[k].sent, m);
    if Accepts(s, c, m) {
      RouteStep(s, c, m, m.op, k);
    } else {
      RefusedWaits(s, c, m, ch, k);
    }
  }

  lemma RefusedWaits<C>(s: Server<C>, c: C, m: Message, ch: Choices, k: C)
    requires Registry(s) && Stored(s) && c in s.conns && k in s.conns && m.OperationMessage?
    requires !s.conns[c].phase.Disconnected? && !Accepts(s, c, m)
    ensures var r := Handle(s, c, m, ch);
            && k in r.conns && (k != c ==> r.conns[k] == s.conns[k] && Waiting(r, k) == Waiting(s, k))
  {
    hide Stored;
    hide Handle;
    hide Disconnect;
    hide Record;
    hide Blocked;
    assert ConnTidy(s, k) && ConnTidy(s, c);
    if s.conns[c].phase.Live? {
      RefusedStep(s, c, m, ch);
      RecordFrame(s, s.conns[c].document.value, m.op);
      DisconnectFrame(Record(s, s.conns[c].document.value, m.op), c);
    } else {
      IdleIsCutOff(s, c, m, ch);
      DisconnectFrame(s, c);
    }
  }

  lemma IdleIsCutOff<C>(s: Server<C>, c: C, m: Message, ch: Choices)
    requires c in s.conns && m.OperationMessage? && !s.conns[c].phase.Live?
    ensures Handle(s, c, m, ch) == Disconnect(s, c)
  {
    hide Disconnect;
  }

  lemma OthersWait<C>(s: Server<C>, c: C, m: Message, ch: Choices, k: C)
    requires Registry(s) && c in s.conns && k in s.conns && k != c && !m.OperationMessage?
    requires !s.conns[c].phase.Disconnected?
    ensures var r := Handle(s, c, m, ch);
            && k in r.conns
            && (r.conns[k].phase == s.conns[k].phase && r.conns[k].clientId == s.conns[k].clientId ==>
                  Waiting(r, k) == Waiting(s, k))
  {
    hide CursorsOf;
    hide AsMessages;
    hide Hears;
    hide Disconnect;
    hide LogOf;
    hide DocOf;
    assert ConnTidy(s, k) && ConnTidy(s, c);
    DisconnectFrame(s, c);
    OthersAreToldAtMost(s, c, m, ch, k);
  }

  lemma OwnOrder<C>(s: Server<C>, c: C, m: Message, ch: Choices)
    requires Registry(s) && c in s.conns && !m.OperationMessage? && !s.conns[c].phase.Disconnected?
    ensures var r := Handle(s, c, m, ch);
            && c in r.conns
            && (!r.conns[c].phase.Disconnected? ==>
                  Told(r.conns[c].sent) + Waiting(r, c) == Told(s.conns[c].sent) + Waiting(s, c))
  {
    hide CursorsOf;
    hide AsMessages;
    hide Hears;
    hide Disconnect;
    hide LogOf;
    hide DocOf;
    hide Told;
    assert ConnTidy(s, c);
    LookupsSucceed(s, c);
    DisconnectFrame(s, c);
    var sent := s.conns[c].sent;
    match m {
      case Hello(_) => ToldOne(sent, HelloAck("server"));
      case OpenDocument(_, _) => ToldOne(sent, SyncResponse("server", ch.history));
      case SyncComplete(_) =>
        if s.conns[c].phase.Syncing? {
          var waiting := s.pending[s.conns[c].clientId];
          ToldAppend(sent, AsMessages(waiting));
          ToldAppend(sent + AsMessages(waiting), CursorsOf(s, c, ch.order));
          ToldOfWaiting(waiting);
          ToldOfCursors(s, c, ch.order);
        }
      case CursorUpdate(_, position) =>
        if s.conns[c].phase.Live? {
          CursorReachesOthers(s, c, m, position, c);
        }
      case _ =>
    }
  }

  // What an event does to the operations a connection has been told or will be told when it goes
  // live.
  lemma EventOrder<C>(s: Server<C>, e: Event<C>, c: C)
    requires Registry(s) && Stored(s) && Possible(s, e) && c in s.conns
    ensures var r := Next(s, e);
            && c in r.conns
            && (!r.conns[c].phase.Disconnected? ==>
                  Told(r.conns[c].sent) + Waiting(r, c) ==
                  Told(s.conns[c].sent) + Waiting(s, c) +
                  if Concerns(s, e, c) then [DeserializeMessage(e.text).value.op] else [])
  {
    hide Stored;
    hide DeserializeMessage;
    hide Handle;
    hide Disconnect;
    hide Legal;
    hide Told;
    hide Accepts;
    assert ConnTidy(s, c);
    match e
    case Accept(k) =>
    case Deliver(k, text, ch) =>
      if DeserializeMessage(text).Ok? {
        OrderKept(s, k, DeserializeMessage(text).value, ch, c);
      } else {
        DropOrder(s, k, c);
      }
    case Drop(k) => DropOrder(s, k, c);
  }

  lemma DropOrder<C>(s: Server<C>, k: C, c: C)
    requires Registry(s) && k in s.conns && c in s.conns
    ensures var r := Disconnect(s, k);
            && c in r.conns
            && (!r.conns[c].phase.Disconnected? ==> r.conns[c] == s.conns[c] && Waiting(r, c) == Waiting(s, c))
  {
    assert ConnTidy(s, c) && ConnTidy(s, k);
    DisconnectFrame(s, k);
    hide Disconnect;
  }

  // The operations a connection has been sent since its history, and those that wait for it to go
  // live, are those the server has accepted from others on its document while it was open there, all
  // of them, in the order the server handled them, and nothing else.
  lemma {:induction false} OperationsArriveInOrder<C>(states: seq<Server<C>>, events: seq<Event<C>>, i: nat, c: C)
    requires IsRun(states, events) && Registry(states[0]) && Stored(states[0]) && i <= |events|
    requires c !in states[0].conns && c in states[i].conns && !states[i].conns[c].phase.Disconnected?
    ensures Told(states[i].conns[c].sent) + Waiting(states[i], c) == Due(states, events, i, c)
    decreases i
  {
    hide Registry;
    hide Stored;
    hide Possible;
    hide Next;
    hide Concerns;
    hide Told;
    hide Waiting;
    var s, e := states[i - 1], events[i - 1];
    assert states[i] == Next(s, e);
    RegistryOverRuns(states, events, i - 1);
    if c in s.conns {
      EventOrder(s, e, c);
      StaysDisconnected(s, e, c);
      OperationsArriveInOrder(states, events, i - 1, c);
    } else {
      NewcomerIsToldNothing(s, e, c);
      NothingIsDue(states, events, i - 1, c);
    }
  }

  lemma StaysDisconnected<C>(s: Server<C>, e: Event<C>, c: C)
    requires Possible(s, e) && c in s.conns
    ensures c in Next(s, e).conns && (s.conns[c].phase.Disconnected? ==> Next(s, e).conns[c].phase.Disconnected?)
  {
    hide DeserializeMessage;
    hide Handle;
    hide Legal;
    match e
    case Accept(k) =>
    case Deliver(k, text, ch) =>
      DisconnectFrame(s, k);
      if DeserializeMessage(text).Ok? {
        HandleKeepsConns(s, k, DeserializeMessage(text).value, ch);
        if c != k {
          OthersAreToldAtMost(s, k, DeserializeMessage(text).value, ch, c);
        }
      }
    case Drop(k) => DisconnectFrame(s, k);
  }

  lemma NewcomerIsToldNothing<C>(s: Server<C>, e: Event<C>, c: C)
    requires Possible(s, e) && c !in s.conns
    ensures !Concerns(s, e, c)
    ensures c in Next(s, e).conns ==> Next(s, e).conns[c] == NEW_CONN
    ensures c in Next(s, e).conns ==> Told(Next(s, e).conns[c].sent) + Waiting(Next(s, e), c) == []
  {
    hide DeserializeMessage;
    hide Handle;
    hide Legal;
    match e
    case Accept(k) =>
    case Deliver(k, text, ch) =>
      DisconnectFrame(s, k);
      if DeserializeMessage(text).Ok? {
        HandleKeepsConns(s, k, DeserializeMessage(text).value, ch);
      }
    case Drop(k) => DisconnectFrame(s, k);
  }

  // As long as a connection is not there, nothing is due to it.
  lemma {:induction false} NothingIsDue<C>(states: seq<Server<C>>, events: seq<Event<C>>, i: nat, c: C)
    requires IsRun(states, events) && i <= |events| && c !in states[i].conns
    ensures Due(states, events, i, c) == []
    decreases i
  {
    hide Possible;
    hide Next;
    hide Concerns;
    if i > 0 {
      var s, e := states[i - 1], events[i - 1];
      assert states[i] == Next(s, e);
      ConnsStay(s, e, c);
      NewcomerIsToldNothing(s, e, c);
      NothingIsDue(states, events, i - 1, c);
    }
  }

  lemma ConnsStay<C>(s: Server<C>, e: Event<C>, c: C)
    requires Possible(s, e)
    ensures c in s.conns ==> c in Next(s, e).conns
  {
    hide DeserializeMessage;
    hide Handle;
    hide Legal;
    match e
    case Accept(k) =>
    case Deliver(k, text, ch) =>
      DisconnectFrame(s, k);
      if DeserializeMessage(text).Ok? {
        HandleKeepsConns(s, k, DeserializeMessage(text).value, ch);
      }
    case Drop(k) => DisconnectFrame(s, k);
  }
}
