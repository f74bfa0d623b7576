// Runs of the server that lead where the rare branches are.
module ServerRuns {
  import opened Wrappers
  import opened ElementIds
  import opened Operations
  import opened DocumentStates
  import opened OperationCodec
  import opened Messages
  import opened Servers
  import opened ServerFacts

  // Some run leads from one state to the other.
  ghost predicate Leads<C(!new)>(s: Server<C>, r: Server<C>)
  {
    exists states, events :: IsRun<C>(states, events) && states[0] == s && states[|events|] == r
  }

  lemma LeadsNowhere<C(!new)>(s: Server<C>)
    ensures Leads(s, s)
  {
    var states, events: seq<Event<C>> := [s], [];
    assert IsRun(states, events);
  }

  lemma LeadsOn<C(!new)>(s: Server<C>, r: Server<C>, e: Event<C>)
    requires Leads(s, r) && Possible(r, e)
    ensures Leads(s, Next(r, e))
  {
    hide Possible;
    hide Next;
    var states, events :| IsRun<C>(states, events) && states[0] == s && states[|events|] == r;
    var states', events' := states + [Next(r, e)], events + [e];
    forall i {:trigger events'[i]} | 0 <= i < |events'|
      ensures Possible(states'[i], events'[i]) && states'[i + 1] == Next(states'[i], events'[i])
    {
      assert i < |events| ==> events'[i] == events[i];
    }
    assert IsRun(states', events') && states'[|events'|] == Next(r, e);
  }

  // What a run from a server start has reached.
  ghost predicate Visited<C(!new)>(start: Server<C>, s: Server<C>)
  {
    Leads(start, s) && Registry(s) && Stored(s)
  }

  lemma StartIsVisited<C(!new)>()
    ensures Visited(Servers.Started<C>(map[], map[]), Servers.Started<C>(map[], map[]))
  {
    hide Fits;
    NewFits();
    StartedKeeps<C>(map[], map[]);
    LeadsNowhere(Servers.Started<C>(map[], map[]));
  }

  lemma Delivered<C(!new)>(start: Server<C>, s: Server<C>, c: C, m: Message, ch: Choices)
    requires Visited(start, s) && c in s.conns && !s.conns[c].phase.Disconnected? && Sendable(m) && Legal(s, c, m, ch)
    ensures Possible(s, Deliver(c, SerializeMessage(m), ch))
    ensures Next(s, Deliver(c, SerializeMessage(m), ch)) == Handle(s, c, m, ch)
    ensures Visited(start, Handle(s, c, m, ch))
  {
    hide Leads;
    hide Registry;
    hide Stored;
    hide Handle;
    hide Legal;
    hide Sendable;
    hide SerializeMessage;
    hide DeserializeMessage;
    MessageRoundTrip(m);
    LeadsOn(start, s, Deliver(c, SerializeMessage(m), ch));
    RegistryKept(s, c, m, ch);
    StoredKept(s, c, m, ch);
  }

  // Live on the document.
  ghost predicate LiveOn<C>(s: Server<C>, c: C, d: DocumentID)
  {
    c in s.conns && s.conns[c].phase.Live? && s.conns[c].document == Some(d)
  }

  // A newcomer registers, opens a document and finishes its synchronisation; no one else notices.
  lemma GoesLive<C(!new)>(start: Server<C>, s: Server<C>, c: C, id: string, d: DocumentID) returns (r: Server<C>)
    requires Visited(start, s) && c !in s.conns && id !in s.clients
    requires id != "" && LineFree(id) && d != "" && LineFree(d)
    ensures Visited(start, r) && LiveOn(r, c, d) && r.conns[c].originated == {}
    ensures r.clients.Keys == s.clients.Keys + {id}
    ensures DocOf(r, d) == DocOf(s, d) && LogOf(r, d) == LogOf(s, d)
    ensures r.conns.Keys == s.conns.Keys + {c} && forall k | k in s.conns :: r.conns[k] == s.conns[k]
    ensures forall k {:trigger LiveOn(r, k, d)} | LiveOn(s, k, d) :: LiveOn(r, k, d)
  {
    hide Leads;
    hide Registry;
    hide Stored;
    hide AsMessages;
    hide CursorsOf;
    hide Handle;
    hide Disconnect;
    LeadsOn(start, s, Accept(c));
    AcceptKeeps(s, c);
    var s1 := s.(conns := s.conns[c := NEW_CONN]);
    SameStore(s, s1);
    var s2 := Registers(start, s1, c, id);
    var s3 := Opens(start, s2, c, d);
    r := Synchronises(start, s3, c);
  }

  lemma Registers<C(!new)>(start: Server<C>, s: Server<C>, c: C, id: string) returns (r: Server<C>)
    requires Visited(start, s) && c in s.conns && s.conns[c] == NEW_CONN && id !in s.clients && id != "" && LineFree(id)
    ensures Visited(start, r) && c in r.conns && r.conns == s.conns[c := r.conns[c]] && r.clients == s.clients[id := c]
    ensures r.conns[c].phase.Registered? && r.conns[c].clientId == id && r.conns[c].document.None?
            && r.conns[c].originated == {}
    ensures r.logs == s.logs && r.documents == s.documents
  {
    hide Leads;
    hide Registry;
    hide Stored;
    hide Disconnect;
    var m := Hello(id);
    var ch := ChoicesExist(s, c, m);
    Delivered(start, s, c, m, ch);
    r := Handle(s, c, m, ch);
  }

  lemma Opens<C(!new)>(start: Server<C>, s: Server<C>, c: C, d: DocumentID) returns (r: Server<C>)
    requires Visited(start, s) && c in s.conns && s.conns[c].phase.Registered? && s.conns[c].document.None?
    requires LineFree(s.conns[c].clientId) && d != "" && LineFree(d)
    ensures Visited(start, r) && c in r.conns && r.conns == s.conns[c := r.conns[c]] && r.clients == s.clients
    ensures r.conns[c].phase.Syncing? && r.conns[c].clientId == s.conns[c].clientId && r.conns[c].document == Some(d)
            && r.conns[c].originated == s.conns[c].originated
    ensures DocOf(r, d) == DocOf(s, d) && LogOf(r, d) == LogOf(s, d)
  {
    hide Leads;
    hide Registry;
    hide Stored;
    hide Disconnect;
    var m := OpenDocument(s.conns[c].clientId, d);
    var ch := ChoicesExist(s, c, m);
    Delivered(start, s, c, m, ch);
    r := Handle(s, c, m, ch);
  }

  lemma Synchronises<C(!new)>(start: Server<C>, s: Server<C>, c: C) returns (r: Server<C>)
    requires Visited(start, s) && c in s.conns && s.conns[c].phase.Syncing? && LineFree(s.conns[c].clientId)
    ensures Visited(start, r) && c in r.conns && r.conns == s.conns[c := r.conns[c]] && r.clients == s.clients
    ensures r.conns[c].phase.Live? && r.conns[c].document == s.conns[c].document
            && r.conns[c].originated == s.conns[c].originated
    ensures r.logs == s.logs && r.documents == s.documents
  {
    hide Leads;
    hide Registry;
    hide Stored;
    hide Disconnect;
    hide AsMessages;
    hide CursorsOf;
    var m := SyncComplete(s.conns[c].clientId);
    LookupsSucceed(s, c);
    var ch := ChoicesExist(s, c, m);
    Delivered(start, s, c, m, ch);
    r := Handle(s, c, m, ch);
  }

  // A live client sends an operation its document is not blocked for.
  lemma Sends<C(!new)>(start: Server<C>, s: Server<C>, c: C, d: DocumentID, sender: string, op: Operation)
    returns (r: Server<C>)
    requires Visited(start, s) && LiveOn(s, c, d) && Sendable(OperationMessage(sender, op)) && !Blocked(DocOf(s, d), op)
    ensures Visited(start, r) && LiveOn(r, c, d) && r.clients == s.clients
    ensures DocOf(r, d) == Applied(DocOf(s, d), op).state && LogOf(r, d) == LogOf(s, d) + {op}
    ensures r.conns.Keys == s.conns.Keys
  {
    hide Leads;
    hide Registry;
    hide Stored;
    hide Disconnect;
    hide Blocked;
    hide Applied;
    hide Broadcast;
    hide Hears;
    var m := OperationMessage(sender, op);
    var ch := Choices([], []);
    Delivered(start, s, c, m, ch);
    r := Handle(s, c, m, ch);
    LiveIsStored(s, c);
    RefusalIsThrow(s, c, m);
    RecordedDoc(s, d, op);
    RouteStep(s, c, m, op, c);
    EditKeepsConns(s, c, m, op);
    EditStore(s, c, m, op);
    hide Edit;
    hide Record;
  }

  lemma {:induction false} SendsAll<C(!new)>(
    start: Server<C>, s: Server<C>, c: C, d: DocumentID, sender: string, ops: seq<Operation>) returns (r: Server<C>)
    requires Visited(start, s) && LiveOn(s, c, d) && DocOf(s, d) == NewDocument() && !RunThrows(NewDocument(), ops)
    requires forall op | op in ops :: Sendable(OperationMessage(sender, op))
    ensures Visited(start, r) && LiveOn(r, c, d) && r.clients == s.clients
    ensures DocOf(r, d) == ApplyAll(NewDocument(), ops) && LogOf(r, d) == LogOf(s, d) + Elements(ops)
    ensures r.conns.Keys == s.conns.Keys
  {
    hide Visited;
    hide LiveOn;
    hide Sendable;
    hide DocOf;
    hide LogOf;
    hide Filed;
    hide NewDocument;
    hide ApplyTo;
    hide Blocked;
    if ops == [] {
      r := s;
      assert LogOf(s, d) + Elements(ops) == LogOf(s, d);
    } else {
      var n := |ops| - 1;
      var q := SendsAll(start, s, c, d, sender, ops[..n]);
      r := Sends(start, q, c, d, sender, ops[n]);
      assert ops == ops[..n] + [ops[n]];
      assert LogOf(s, d) + Elements(ops[..n]) + {ops[n]} == LogOf(s, d) + Elements(ops);
    }
  }

  // An identifier every reader accepts.
  predicate Readable(x: ElementID)
  {
    CleanId(x) && LineFree(x.siteId)
  }

  lemma StartIsEmpty<C>(d: DocumentID)
    ensures var s := Servers.Started<C>(map[], map[]);
            s.conns == map[] && s.clients == map[] && DocOf(s, d) == NewDocument() && LogOf(s, d) == {}
  {
  }

  ghost function ThreeOps(p: ElementID, y: ElementID, z: ElementID, w: ElementID): seq<Operation>
  {
    [Insert(p, y, 'a'), Insert(ROOT_ID, y, 'b'), Insert(z, w, 'c')]
  }

  lemma ThreeAreSendable(sender: string, p: ElementID, y: ElementID, z: ElementID, w: ElementID)
    requires LineFree(sender) && Readable(p) && Readable(y) && Readable(z) && Readable(w)
    ensures forall op | op in ThreeOps(p, y, z, w) :: Sendable(OperationMessage(sender, op))
    ensures Sendable(OperationMessage(sender, Insert(ROOT_ID, z, 'd')))
  {
  }

  lemma ThreeReturn(p: ElementID, y: ElementID, z: ElementID, w: ElementID)
    requires Apart(p, y, z, w)
    ensures Filed(NewDocument()) && !RunThrows(NewDocument(), ThreeOps(p, y, z, w))
  {
    ThreeInserts(p, y, z, w);
    hide RunThrows;
    hide Filed;
  }

  // The last operation, on a document that has received the three.
  lemma LastIsRefused<C(!new)>(
    start: Server<C>, s: Server<C>, first: C, second: C, sender: string, d: DocumentID, ch: Choices,
    p: ElementID, y: ElementID, z: ElementID, w: ElementID)
    requires Visited(start, s) && first != second && LiveOn(s, first, d) && LiveOn(s, second, d) && Apart(p, y, z, w)
    requires DocOf(s, d) == ApplyAll(NewDocument(), ThreeOps(p, y, z, w))
             && LogOf(s, d) == Elements(ThreeOps(p, y, z, w))
    requires Sendable(OperationMessage(sender, Insert(ROOT_ID, z, 'd')))
    ensures forall op | op in LogOf(s, d) && op.Insert? :: op.id != z
    ensures var e := Deliver(second, SerializeMessage(OperationMessage(sender, Insert(ROOT_ID, z, 'd'))), ch);
            && Possible(s, e) && Next(s, e).conns.Keys == s.conns.Keys && Next(s, e).conns[second].phase.Disconnected?
            && EventLeavesGap(s, e, d)
  {
    hide Leads;
    hide Registry;
    hide Stored;
    hide Handle;
    hide Disconnect;
    hide Blocked;
    hide ApplyAll;
    hide NewDocument;
    hide DocOf;
    hide LogOf;
    hide Sendable;
    hide SerializeMessage;
    hide DeserializeMessage;
    var m := OperationMessage(sender, Insert(ROOT_ID, z, 'd'));
    MessageRoundTrip(m);
    Delivered(start, s, second, m, ch);
    InnocentSenderIsDisconnected(s, second, sender, ch, p, y, z, w);
    assert s.conns[first].IsOpen();
  }

  // That case does arise, from an empty database: one client sends three operations, two of which
  // insert the same identifier; another joins, sends its first operation, an insert nothing else
  // claims the identifier of, and is cut off, while the first never hears of it.
  lemma InnocentSenderExists<C(!new)>(
    first: C, second: C, a: string, b: string, d: DocumentID, p: ElementID, y: ElementID, z: ElementID, w: ElementID)
    returns (s: Server<C>, ch: Choices)
    requires first != second && a != b && a != "" && b != "" && d != "" && LineFree(a) && LineFree(b) && LineFree(d)
    requires Apart(p, y, z, w) && Readable(p) && Readable(y) && Readable(z) && Readable(w)
    ensures Visited(Servers.Started<C>(map[], map[]), s) && LiveOn(s, second, d) && s.conns[second].originated == {}
    ensures forall op | op in LogOf(s, d) && op.Insert? :: op.id != z
    ensures var e := Deliver(second, SerializeMessage(OperationMessage(b, Insert(ROOT_ID, z, 'd'))), ch);
            && Possible(s, e) && Next(s, e).conns.Keys == s.conns.Keys && Next(s, e).conns[second].phase.Disconnected?
            && EventLeavesGap(s, e, d)
  {
    hide *;
    var start := Servers.Started<C>(map[], map[]);
    ThreeAreSendable(a, p, y, z, w);
    ThreeAreSendable(b, p, y, z, w);
    ThreeReturn(p, y, z, w);
    StartIsVisited<C>();
    StartIsEmpty<C>(d);
    var s1 := GoesLive(start, start, first, a, d);
    var s2 := SendsAll(start, s1, first, d, a, ThreeOps(p, y, z, w));
    s := GoesLive(start, s2, second, b, d);
    ch := Choices([], []);
    LastIsRefused(start, s, first, second, b, d, ch, p, y, z, w);
  }
}
