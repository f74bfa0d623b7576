// Every step of an honest system keeps it good; at rest, everyone agrees.
module CollaborationFacts {
  import opened Wrappers
  import opened ElementIds
  import opened Operations
  import opened DocumentStates
  import opened Growth
  import opened VisibleText
  import opened TextCodec
  import opened OperationCodec
  import opened Messages
  import opened Editing
  import opened SessionFacts
  import opened Commands
  import opened Servers
  import opened ServerFacts
  import opened Collaboration

  // ----- Knowledge only grows -----

  ghost predicate Later(sys: System, r: System)
  {
    && r.past == sys.past
    && forall site | site in sys.clients ::
         site in r.clients && sys.clients[site].session.clock <= r.clients[site].session.clock
  }

  lemma KnownStays(sys: System, r: System)
    requires Later(sys, r)
    ensures forall x :: Known(sys, x) ==> Known(r, x)
  {
  }

  lemma MessagesStay(sys: System, r: System, ms: seq<Message>)
    requires Later(sys, r) && MessagesFit(sys, ms)
    ensures MessagesFit(r, ms)
  {
    hide Known;
    hide Later;
    KnownStays(sys, r);
  }

  lemma MentionsStay(sys: System, r: System, ops: set<Operation>)
    requires Later(sys, r) && MentionsKnown(sys, ops)
    ensures MentionsKnown(r, ops)
  {
    hide Known;
    hide Later;
    KnownStays(sys, r);
  }

  lemma PresenceStays(sys: System, r: System, presence: map<string, ElementID>)
    requires Later(sys, r) && PresenceKnown(sys, presence)
    ensures PresenceKnown(r, presence)
  {
    hide Known;
    hide Later;
    KnownStays(sys, r);
  }

  // A client whose session and connection did not change is as it was.
  lemma UntouchedStays(sys: System, r: System, site: string)
    requires Later(sys, r) && Joined(sys, site) && Joined(r, site) && ClientOk(sys, site)
    requires r.clients[site] == sys.clients[site] && r.server.conns[site] == sys.server.conns[site]
    ensures ClientOk(r, site)
  {
    hide Later;
    hide MessagesFit;
    hide SessionValid;
    hide Quiet;
    hide Channels;
    hide InStep;
    hide Ops;
    MessagesStay(sys, r, sys.server.conns[site].sent);
    MessagesStay(sys, r, sys.clients[site].session.outgoing);
  }

  lemma MessagesAppend(sys: System, a: seq<Message>, b: seq<Message>)
    requires MessagesFit(sys, a) && MessagesFit(sys, b)
    ensures MessagesFit(sys, a + b)
  {
    hide Known;
  }

  lemma {:induction false} OpsMember(ms: seq<Message>, m: Message)
    requires m in ms
    ensures Carried(m) <= Ops(ms)
  {
    if m != ms[|ms| - 1] {
      OpsMember(ms[..|ms| - 1], m);
    }
  }

  lemma IssuedMember(sys: System, site: string, m: Message)
    requires site in sys.clients && m in sys.clients[site].session.outgoing
    ensures Carried(m) <= Issued(sys.clients) <= All(sys)
  {
    OpsMember(sys.clients[site].session.outgoing, m);
  }

  // ----- Joining, asking, leaving -----

  lemma JoinKeeps(sys: System, site: string)
    requires Good(sys) && Allowed(sys, Join(site))
    ensures Good(Take(sys, Join(site)))
  {
    hide Stored;
    hide PresenceKnown;
    hide CharactersAreBytes;
    hide Servers.Next;
    hide Possible;
    hide SerializeMessage;
    hide DeserializeMessage;
    hide Receive;
    hide HandleCommand;
    hide Disconnect;
    hide Registry;
    hide NoGap;
    hide Functional;
    hide HeapOrdered;
    hide MentionsKnown;
    hide ClientOk;
    hide Known;
    var r := Take(sys, Join(site));
    AcceptKeeps(sys.server, site);
    assert Later(sys, r);
    SameIssued(sys, r);
    MentionsStay(sys, r, All(sys));
    SameStore(sys.server, r.server);
    PresenceStays(sys, r, sys.server.presence);
    NewClientOk(r, site);
    forall k | k in r.clients ensures ClientOk(r, k) {
      if k != site {
        UntouchedStays(sys, r, k);
      }
    }
  }

  lemma SameIssued(sys: System, r: System)
    requires r.server.logs == sys.server.logs
    requires forall k | k in r.clients ::
               if k in sys.clients then r.clients[k].session.outgoing == sys.clients[k].session.outgoing
               else r.clients[k].session.outgoing == []
    requires sys.clients.Keys <= r.clients.Keys
    ensures All(r) == All(sys)
  {
  }

  lemma NewClientOk(sys: System, site: string)
    requires Joined(sys, site) && Plain(site)
    requires sys.clients[site] == Client(FreshSession, None, 0, 0) && sys.server.conns[site] == NEW_CONN
    ensures ClientOk(sys, site)
  {
    hide SessionValid;
    hide Quiet;
    FreshSessionValid(site);
    assert NEW_CONN.sent[..0] == [] && Outbox(site, sys.clients[site])[..0] == [];
  }

  lemma AskKeeps(sys: System, site: string, d: DocumentID)
    requires Good(sys) && Allowed(sys, Ask(site, d))
    ensures Good(Take(sys, Ask(site, d)))
  {
    hide Stored;
    hide PresenceKnown;
    hide CharactersAreBytes;
    hide Servers.Next;
    hide Possible;
    hide SerializeMessage;
    hide DeserializeMessage;
    hide Receive;
    hide HandleCommand;
    hide Disconnect;
    hide Registry;
    hide NoGap;
    hide Functional;
    hide HeapOrdered;
    hide MentionsKnown;
    hide ClientOk;
    hide Known;
    var r := Take(sys, Ask(site, d));
    assert Later(sys, r);
    SameIssued(sys, r);
    MentionsStay(sys, r, All(sys));
    SameStore(sys.server, r.server);
    PresenceStays(sys, r, sys.server.presence);
    AskedOk(sys, r, site, d);
    forall k | k in r.clients ensures ClientOk(r, k) {
      if k != site {
        UntouchedStays(sys, r, k);
      }
    }
  }

  lemma AskedOk(sys: System, r: System, site: string, d: DocumentID)
    requires Joined(sys, site) && ClientOk(sys, site) && d != "" && LineFree(d)
    requires sys.clients[site].asked.None? && Later(sys, r)
    requires Joined(r, site) && r.clients[site] == sys.clients[site].(asked := Some(d))
    requires r.server.conns[site] == sys.server.conns[site]
    ensures ClientOk(r, site)
  {
    hide Later;
    hide MessagesFit;
    hide SessionValid;
    hide Quiet;
    hide Ops;
    var cl, cl' := sys.clients[site], r.clients[site];
    MessagesStay(sys, r, sys.server.conns[site].sent);
    MessagesStay(sys, r, cl.session.outgoing);
    assert Outbox(site, cl')[..cl.delivered] == Outbox(site, cl)[..cl.delivered];
  }

  lemma HangUpKeeps(sys: System, site: string)
    requires Good(sys) && Joined(sys, site)
    ensures Good(HungUp(sys, site))
  {
    hide Stored;
    hide PresenceKnown;
    hide CharactersAreBytes;
    hide Registry;
    hide NoGap;
    hide Functional;
    hide HeapOrdered;
    hide MentionsKnown;
    hide ClientOk;
    hide Known;
    var r := HungUp(sys, site);
    DisconnectKeepsRegistry(sys.server, site);
    DisconnectKeepsNoGap(sys.server, site);
    DisconnectFrame(sys.server, site);
    hide Disconnect;
    assert Later(sys, r);
    FewerPresence(sys, sys.server.presence, r.server.presence);
    SameIssued(sys, r);
    MentionsStay(sys, r, All(sys));
    SameStore(sys.server, r.server);
    PresenceStays(sys, r, r.server.presence);
    forall k | k in r.clients ensures ClientOk(r, k) {
      if k != site {
        UntouchedStays(sys, r, k);
      } else {
        LeftOk(sys, r, site);
      }
    }
  }

  lemma FewerPresence(sys: System, presence: map<string, ElementID>, fewer: map<string, ElementID>)
    requires PresenceKnown(sys, presence) && forall id | id in fewer :: id in presence && fewer[id] == presence[id]
    ensures PresenceKnown(sys, fewer)
  {
    hide Known;
  }

  lemma LeftOk(sys: System, r: System, site: string)
    requires Joined(sys, site) && ClientOk(sys, site) && Later(sys, r)
    requires Joined(r, site) && r.clients[site] == sys.clients[site]
    requires r.server.conns[site] == sys.server.conns[site].(phase := Disconnected)
             || r.server.conns[site] == sys.server.conns[site]
    ensures ClientOk(r, site)
  {
    hide Later;
    hide MessagesFit;
    hide SessionValid;
    hide Quiet;
    hide Ops;
    hide Outbox;
    MessagesStay(sys, r, sys.server.conns[site].sent);
    MessagesStay(sys, r, sys.clients[site].session.outgoing);
  }

  // ----- What a session can see is part of the whole -----

  // Everything a client has received is an operation of the database or of a client.
  lemma InboxIsKnown(sys: System, site: string)
    requires Good(sys) && Joined(sys, site)
    ensures Ops(sys.server.conns[site].sent) <= All(sys)
    ensures forall m | m in sys.server.conns[site].sent :: Carried(m) <= All(sys)
  {
    hide Registry;
    hide Honest;
    hide ClientOk;
    var cn := sys.server.conns[site];
    assert ConnComplete(sys.server, site);
    forall m | m in cn.sent ensures Carried(m) <= All(sys) {
      OpsMember(cn.sent, m);
    }
  }

  lemma OpsPrefix(ms: seq<Message>, i: nat)
    requires i <= |ms|
    ensures Ops(ms[..i]) <= Ops(ms)
  {
    assert ms == ms[..i] + ms[i..];
    OpsAppend(ms[..i], ms[i..]);
  }

  lemma ReceivedIsKnown(sys: System, site: string)
    requires Good(sys) && Joined(sys, site)
    ensures sys.clients[site].session.received <= All(sys)
  {
    InboxIsKnown(sys, site);
    hide Registry;
    hide NoGap;
    hide Honest;
    hide Ops;
    var cl, cn := sys.clients[site], sys.server.conns[site];
    assert ClientOk(sys, site);
    OpsPrefix(cn.sent, cl.consumed);
    assert Ops(cl.session.outgoing) <= Issued(sys.clients);
  }

  lemma ElementIsKnown(sys: System, site: string, x: ElementID)
    requires Good(sys) && Joined(sys, site) && x in Meaning(sys.clients[site].session.received).elements
    ensures Known(sys, x)
  {
    hide Registry;
    hide NoGap;
    hide Known;
    hide Accounted;
    hide Channels;
    hide All;
    var s := sys.clients[site].session;
    assert ClientOk(sys, site);
    ReceivedIsKnown(sys, site);
    PresentIsOld(s, site, x);
    if x == ROOT_ID {
      RootKnown(sys);
    } else {
      var op :| op in s.received && op.Insert? && op.id == x;
      assert op in All(sys) && x in Mentioned(op);
    }
  }

  lemma RootKnown(sys: System)
    ensures Known(sys, ROOT_ID)
  {
  }

  lemma AnchorIsKnown(sys: System, site: string)
    requires Good(sys) && Joined(sys, site)
    ensures Known(sys, sys.clients[site].session.cursor.anchor)
  {
    hide Registry;
    hide NoGap;
    hide Honest;
    hide Known;
    hide Accounted;
    hide Channels;
    hide Quiet;
    var s := sys.clients[site].session;
    assert ClientOk(sys, site);
    AnchoredIsPresent(Meaning(s.received), s.cursor.anchor);
    ElementIsKnown(sys, site, s.cursor.anchor);
  }

  // ----- Session steps -----

  // One session took in some operations and queued some messages.
  ghost predicate Advanced(cl: Client, cl': Client, cn: Conn, carried: set<Operation>, extra: seq<Message>)
  {
    && cl'.asked == cl.asked && cl'.delivered == cl.delivered
    && cl.consumed <= cl'.consumed <= |cn.sent|
    && cl'.session.outgoing == cl.session.outgoing + extra
    && QueueShape(cl'.session.outgoing, cl'.consumed >= 2)
    && (cl.asked.None? ==> extra == [])
    && Ops(cn.sent[..cl'.consumed]) == Ops(cn.sent[..cl.consumed]) + carried
    && cl'.session.received == cl.session.received + carried + Ops(extra)
  }

  lemma AdvancedOk(sys: System, r: System, site: string, carried: set<Operation>, extra: seq<Message>)
    requires Joined(sys, site) && Joined(r, site) && ClientOk(sys, site) && Later(sys, r)
    requires r.server.conns[site] == sys.server.conns[site]
    requires Advanced(sys.clients[site], r.clients[site], sys.server.conns[site], carried, extra)
    requires SessionValid(r.clients[site].session, site) && Quiet(r.clients[site].session) && MessagesFit(r, extra)
    ensures ClientOk(r, site)
  {
    hide Later;
    hide MessagesFit;
    hide SessionValid;
    hide Quiet;
    hide Ops;
    hide InboxShape;
    hide QueueShape;
    var cl, cl' := sys.clients[site], r.clients[site];
    MessagesStay(sys, r, sys.server.conns[site].sent);
    MessagesStay(sys, r, cl.session.outgoing);
    MessagesAppend(r, cl.session.outgoing, extra);
    OpsAppend(cl.session.outgoing, extra);
    assert Outbox(site, cl') == Outbox(site, cl) + extra;
    assert Outbox(site, cl')[..cl.delivered] == Outbox(site, cl)[..cl.delivered];
  }

  lemma IssuedGrows(sys: System, r: System, site: string, extra: seq<Message>)
    requires site in sys.clients && r.clients.Keys == sys.clients.Keys && r.server.logs == sys.server.logs
    requires forall k | k in sys.clients && k != site :: r.clients[k] == sys.clients[k]
    requires r.clients[site].session.outgoing == sys.clients[site].session.outgoing + extra
    ensures All(r) == All(sys) + Ops(extra)
  {
    OpsAppend(sys.clients[site].session.outgoing, extra);
  }

  // A step of one session keeps the system good if what it issued is honest.
  lemma SessionStepKeeps(sys: System, r: System, site: string, carried: set<Operation>, extra: seq<Message>)
    requires Good(sys) && Joined(r, site)
    requires r == WithClient(sys, site, r.clients[site])
    requires sys.clients[site].session.clock <= r.clients[site].session.clock
    requires Advanced(sys.clients[site], r.clients[site], sys.server.conns[site], carried, extra)
    requires SessionValid(r.clients[site].session, site) && Quiet(r.clients[site].session) && MessagesFit(r, extra)
    requires Functional(All(sys) + Ops(extra)) && HeapOrdered(Ops(extra)) && MentionsKnown(r, Ops(extra))
    requires CharactersAreBytes(Ops(extra)) && r.clients[site].session.clock < TWO_64
    ensures Good(r)
  {
    hide Stored;
    hide PresenceKnown;
    hide Registry;
    hide NoGap;
    hide Functional;
    hide SessionValid;
    hide Quiet;
    hide ClientOk;
    hide Known;
    hide Ops;
    hide All;
    hide Advanced;
    assert Later(sys, r);
    AdvancedGrows(sys, r, site, carried, extra);
    SameStore(sys.server, r.server);
    MentionsStay(sys, r, All(sys));
    PresenceStays(sys, r, sys.server.presence);
    forall k | k in r.clients ensures ClientOk(r, k) {
      if k != site {
        UntouchedStays(sys, r, k);
      } else {
        AdvancedOk(sys, r, site, carried, extra);
      }
    }
  }

  lemma AdvancedGrows(sys: System, r: System, site: string, carried: set<Operation>, extra: seq<Message>)
    requires Joined(sys, site) && Joined(r, site) && r == WithClient(sys, site, r.clients[site])
    requires Advanced(sys.clients[site], r.clients[site], sys.server.conns[site], carried, extra)
    ensures All(r) == All(sys) + Ops(extra)
  {
    hide Ops;
    hide All;
    hide QueueShape;
    IssuedGrows(sys, r, site, extra);
  }

  lemma ShareCursorKeeps(sys: System, site: string)
    requires Good(sys) && Allowed(sys, ShareCursor(site))
    ensures Good(Take(sys, ShareCursor(site)))
  {
    hide Good;
    hide SessionValid;
    hide Quiet;
    hide Known;
    hide Ops;
    hide All;
    hide Channels;
    hide Functional;
    hide MentionsKnown;
    var cl, r := sys.clients[site], Take(sys, ShareCursor(site));
    var extra := [CursorUpdate(site, cl.session.cursor.anchor)];
    assert Later(sys, r);
    GoodClient(sys, site);
    GoodIsHonest(sys);
    AnchorIsKnown(sys, site);
    KnownStays(sys, r);
    OutgoingIsFree(cl.session, site, cl.session.outgoing + extra);
    CarriesNothing(site, cl.session.cursor.anchor);
    MentionsNothing(r);
    CursorAdvanced(cl, sys.server.conns[site], site, extra);
    NameIsPlain(sys, site);
    assert All(sys) + {} == All(sys);
    SessionStepKeeps(sys, r, site, {}, extra);
  }

  lemma GoodIsHonest(sys: System)
    requires Good(sys)
    ensures Functional(All(sys)) && HeapOrdered(All(sys)) && MentionsKnown(sys, All(sys))
    ensures CharactersAreBytes(All(sys)) && NamesArePlain(sys) && PresenceKnown(sys, sys.server.presence)
  {
    hide Registry;
    hide NoGap;
    hide Stored;
    hide ClientOk;
    hide All;
  }

  lemma NameIsPlain(sys: System, site: string)
    requires Good(sys) && site in sys.clients
    ensures Plain(site) && LineFree(site) && sys.clients[site].session.clock < TWO_64
  {
    hide Registry;
    hide NoGap;
    hide Stored;
    hide ClientOk;
    hide All;
  }

  lemma CarriesNothing(site: string, position: ElementID)
    ensures Ops([CursorUpdate(site, position)]) == {}
  {
    OpsOne([], CursorUpdate(site, position));
    assert [] + [CursorUpdate(site, position)] == [CursorUpdate(site, position)];
  }

  lemma MentionsNothing(sys: System)
    ensures MentionsKnown(sys, {}) && HeapOrdered({}) && CharactersAreBytes({})
  {
  }

  lemma CursorAdvanced(cl: Client, cn: Conn, site: string, extra: seq<Message>)
    requires Channels(site, cl, cn) && cl.consumed >= 2 && extra == [CursorUpdate(site, cl.session.cursor.anchor)]
             && Ops(extra) == {}
    ensures Advanced(cl, cl.(session := cl.session.(outgoing := cl.session.outgoing + extra)), cn, {}, extra)
  {
    hide Ops;
  }

  // ----- Commands -----

  // The identifier a command issues is new to the whole system, and greater than its parent's.
  lemma IssuedIdIsNew(sys: System, site: string, op: Operation)
    requires Good(sys) && Joined(sys, site) && Fresh(sys.clients[site].session, site, op)
    ensures Unheard(All(sys), op.id) && op.id != ROOT_ID && op.parent.lamport < op.id.lamport
  {
    hide Registry;
    hide NoGap;
    hide Accounted;
    hide Channels;
    hide All;
    assert ClientOk(sys, site);
    FreshIsGreatest(sys.clients[site].session, site, op);
    hide SessionValid;
    forall o | o in All(sys) ensures op.id !in Mentioned(o) {
      assert op.id in Mentioned(o) ==> Known(sys, op.id);
    }
  }

  lemma NewIdsStayFunctional(ops: set<Operation>, own: set<Operation>)
    requires Functional(ops) && Functional(own)
    requires forall op | op in own && op.Insert? :: Unheard(ops, op.id)
    ensures Functional(ops + own)
  {
    forall a, b | a in ops + own && b in ops + own && a.Insert? && b.Insert? && a.id == b.id && a.id != ROOT_ID
      ensures a == b
    {
      assert a in ops ==> a.id in Mentioned(a);
      assert b in ops ==> b.id in Mentioned(b);
    }
  }

  lemma {:induction false} OpsOfSent(site: string, ops: seq<Operation>)
    ensures Ops(Sent(site, ops)) == Elements(ops)
    ensures forall m | m in Sent(site, ops) :: m.OperationMessage? && m.sender == site
    ensures |Sent(site, ops)| == |ops|
  {
    if ops != [] {
      OpsOfSent(site, ops[..|ops| - 1]);
      OpsOne(Sent(site, ops[..|ops| - 1]), OperationMessage(site, ops[|ops| - 1]));
      ElementsSplit(ops);
    }
  }

  lemma OwnIsHonest(sys: System, r: System, site: string, ops: seq<Operation>)
    requires Good(sys) && Joined(sys, site) && Joined(r, site) && Later(sys, r)
    requires CommandKept(sys.clients[site].session, r.clients[site].session, site, ops)
    ensures Functional(All(sys) + Elements(ops)) && HeapOrdered(Elements(ops)) && MentionsKnown(r, Elements(ops))
  {
    hide Registry;
    hide NoGap;
    hide All;
    hide ClientOk;
    hide SessionValid;
    hide Quiet;
    hide Meaning;
    hide Anchored;
    hide Known;
    hide Later;
    var s, s' := sys.clients[site].session, r.clients[site].session;
    KnownStays(sys, r);
    AnchorIsKnown(sys, site);
    ValidIsFunctional(s', site);
    FewerOperations(Elements(ops), s'.received);
    forall op | op in ops ensures op.Insert? ==> Unheard(All(sys), op.id) && op.parent.lamport < op.id.lamport {
      assert OwnOperation(s, site, op);
      if op.Insert? {
        IssuedIdIsNew(sys, site, op);
      }
    }
    forall op, x {:trigger x in Mentioned(op)} | op in Elements(ops) && x in Mentioned(op) ensures Known(r, x) {
      assert OwnOperation(s, site, op);
      OwnMention(sys, r, site, ops, op, x);
    }
    NewIdsStayFunctional(All(sys), Elements(ops));
  }

  lemma OwnMention(sys: System, r: System, site: string, ops: seq<Operation>, op: Operation, x: ElementID)
    requires Good(sys) && Joined(sys, site) && Later(sys, r)
    requires CommandKept(sys.clients[site].session, r.clients[site].session, site, ops)
    requires op in ops && x in Mentioned(op)
    ensures Known(r, x)
  {
    hide Good;
    hide SessionValid;
    hide Quiet;
    hide Meaning;
    hide Anchored;
    var s := sys.clients[site].session;
    assert OwnOperation(s, site, op);
    KnownStays(sys, r);
    AnchorIsKnown(sys, site);
    if op.Remove? {
      ElementIsKnown(sys, site, x);
    }
  }

  lemma CommandStepKeeps(sys: System, site: string, cmd: Editing.Command)
    requires Good(sys) && Allowed(sys, Command(site, cmd))
    ensures Good(Take(sys, Command(site, cmd)))
  {
    hide Good;
    hide HandleCommand;
    hide SessionValid;
    hide Quiet;
    hide CommandOps;
    hide Known;
    hide Ops;
    hide All;
    hide Honest;
    hide Functional;
    hide HeapOrdered;
    hide MentionsKnown;
    hide MessagesFit;
    var cl, r := sys.clients[site], Take(sys, Command(site, cmd));
    var s := cl.session;
    GoodClient(sys, site);
    CommandKeeps(s, site, cmd);
    if HandleCommand(s, site, cmd).Throws? {
      assert r == sys;
    } else {
      var s', ops := r.clients[site].session, CommandOps(s, site, cmd);
      assert Later(sys, r);
      OwnIsHonest(sys, r, site, ops);
      OpsOfSent(site, ops);
      NameIsPlain(sys, site);
      TypedCharacters(s, site, cmd);
      ClockStepsOnce(s, s', site, ops);
      NoPositions(r, Sent(site, ops));
      CommandAdvanced(cl, s', sys.server.conns[site], site, ops);
      SessionStepKeeps(sys, r, site, {}, Sent(site, ops));
    }
  }

  lemma GoodClient(sys: System, site: string)
    requires Good(sys) && Joined(sys, site)
    ensures ClientOk(sys, site)
    ensures var cl, cn := sys.clients[site], sys.server.conns[site];
            && Channels(site, cl, cn) && InStep(site, cl, cn) && SessionValid(cl.session, site) && Quiet(cl.session)
  {
    hide Registry;
    hide NoGap;
    hide Honest;
    assert ClientOk(sys, site);
  }

  lemma ClockStepsOnce(s: Session, s': Session, site: string, ops: seq<Operation>)
    requires CommandKept(s, s', site, ops)
    ensures s'.clock <= s.clock + 1
  {
    hide SessionValid;
    hide Quiet;
  }

  lemma NoPositions(sys: System, ms: seq<Message>)
    requires forall m | m in ms :: m.OperationMessage? && LineFree(m.sender)
    ensures MessagesFit(sys, ms)
  {
  }

  lemma CommandAdvanced(cl: Client, s': Session, cn: Conn, site: string, ops: seq<Operation>)
    requires Channels(site, cl, cn) && cl.consumed >= 2 && CommandKept(cl.session, s', site, ops)
    ensures Advanced(cl, cl.(session := s'), cn, {}, Sent(site, ops))
  {
    hide SessionValid;
    hide Quiet;
    hide Meaning;
    hide Ops;
    hide OwnOperation;
    hide Sent;
    OpsOfSent(site, ops);
    forall i | |cl.session.outgoing| <= i < |s'.outgoing| ensures Traffic(s'.outgoing[i]) {
      assert s'.outgoing[i] in Sent(site, ops);
    }
  }

  // ----- A message reaches a client -----

  ghost function Replies(site: string, s': Session, m: Message): seq<Message>
  {
    if m.SyncResponse? then [SyncComplete(site), CursorUpdate(site, s'.cursor.anchor)] else []
  }

  lemma ReceiveReplies(s: Session, site: string, m: Message)
    ensures var s' := Receive(s, site, m); s'.outgoing == s.outgoing + Replies(site, s', m)
    ensures Ops(Replies(site, s, m)) == {}
  {
    hide Settle;
    hide AbsorbRemote;
    match m {
      case OperationMessage(_, op) =>
        SettleFrame(AbsorbRemote(s, op));
        RemoteFrame(s, op);
      case SyncResponse(_, history) =>
        SettleFrame(AbsorbHistory(s, history));
        HistoryFrame(s, history);
        CarriesNothing(site, s.cursor.anchor);
        OpsAppend([SyncComplete(site)], [CursorUpdate(site, s.cursor.anchor)]);
        OpsOne([], SyncComplete(site));
        assert [] + [SyncComplete(site)] == [SyncComplete(site)];
        assert Replies(site, s, m) == [SyncComplete(site)] + [CursorUpdate(site, s.cursor.anchor)];
      case CursorUpdate(sender, position) =>
        ReceiveCursorFrame(s, sender, position);
      case _ =>
    }
  }

  // What the server sends an honest session never names an identifier the session could reissue.
  lemma InboxIsTrusted(sys: System, site: string, i: nat)
    requires Good(sys) && Joined(sys, site) && i < |sys.server.conns[site].sent|
    ensures Trusted(sys.clients[site].session, site, sys.server.conns[site].sent[i])
  {
    hide Good;
    hide Meaning;
    hide Ops;
    hide All;
    var s, ms := sys.clients[site].session, sys.server.conns[site].sent;
    InboxIsKnown(sys, site);
    ReceivedIsKnown(sys, site);
    GoodIsHonest(sys);
    assert ms[i] in ms;
    FewerOperations(s.received + Carried(ms[i]), All(sys));
    InboxPosition(sys, site, i);
    forall op, x {:trigger x in Mentioned(op)} | op in Carried(ms[i]) && x in Mentioned(op)
      ensures IssuedHere(x, site, s.clock) {
      assert op in All(sys);
      KnownIsIssued(sys, site, x);
    }
    if ms[i].CursorUpdate? {
      KnownIsIssued(sys, site, ms[i].position);
    }
  }

  lemma InboxPosition(sys: System, site: string, i: nat)
    requires Good(sys) && Joined(sys, site) && i < |sys.server.conns[site].sent|
    ensures var m := sys.server.conns[site].sent[i]; m.CursorUpdate? ==> Known(sys, m.position)
  {
    hide Registry;
    hide NoGap;
    hide Honest;
    assert ClientOk(sys, site);
    assert sys.server.conns[site].sent[i] in sys.server.conns[site].sent;
  }

  lemma KnownIsIssued(sys: System, site: string, x: ElementID)
    requires Good(sys) && Joined(sys, site) && Known(sys, x)
    ensures IssuedHere(x, site, sys.clients[site].session.clock)
  {
    hide Registry;
    hide NoGap;
    hide ClientOk;
    hide All;
  }

  lemma ClientTurnKeeps(sys: System, site: string)
    requires Good(sys) && Allowed(sys, ClientTurn(site))
    ensures Good(Take(sys, ClientTurn(site)))
  {
    hide Good;
    hide SerializeMessage;
    hide DeserializeMessage;
    hide Receive;
    InboxReads(sys, site);
    if Framed(InText(sys, site)) {
      ReadTurnKeeps(sys, site);
    } else {
      HangUpKeeps(sys, site);
    }
  }

  lemma ReadTurnKeeps(sys: System, site: string)
    requires Good(sys) && Joined(sys, site) && sys.clients[site].consumed < |Inbox(sys, site)|
    ensures var cl := sys.clients[site];
            Good(WithClient(sys, site, cl.(session := Receive(cl.session, site, Inbox(sys, site)[cl.consumed]),
                                           consumed := cl.consumed + 1)))
  {
    hide Good;
    hide SessionValid;
    hide Quiet;
    hide Known;
    hide Ops;
    hide All;
    hide Channels;
    hide Functional;
    hide MentionsKnown;
    hide Receive;
    hide Trusted;
    hide CharactersAreBytes;
    hide NamesArePlain;
    hide PresenceKnown;
    var cl, cn := sys.clients[site], sys.server.conns[site];
    var m := cn.sent[cl.consumed];
    var s' := Receive(cl.session, site, m);
    var r := WithClient(sys, site, cl.(session := s', consumed := cl.consumed + 1));
    var extra := Replies(site, s', m);
    GoodClient(sys, site);
    GoodIsHonest(sys);
    InboxIsTrusted(sys, site, cl.consumed);
    ReceiveKeeps(cl.session, site, m);
    ReceiveReplies(cl.session, site, m);
    ReceiveReplies(s', site, m);
    assert Later(sys, r);
    MentionsNothing(r);
    TurnAdvanced(cl, s', cn, site);
    RepliesKnown(sys, r, site, s', m);
    ClockStaysBounded(sys, site, cl.consumed);
    assert All(sys) + {} == All(sys);
    SessionStepKeeps(sys, r, site, Carried(m), extra);
  }

  // Whatever arrives, the clock stays within 64 bits.
  lemma ClockStaysBounded(sys: System, site: string, i: nat)
    requires Good(sys) && Joined(sys, site) && i < |sys.server.conns[site].sent|
    ensures Receive(sys.clients[site].session, site, sys.server.conns[site].sent[i]).clock < TWO_64
  {
    hide Good;
    hide Receive;
    hide Known;
    hide All;
    hide Ops;
    var m := sys.server.conns[site].sent[i];
    assert m in sys.server.conns[site].sent;
    NameIsPlain(sys, site);
    GoodIsHonest(sys);
    InboxIsKnown(sys, site);
    OperationsAreClean(sys, All(sys));
    assert forall op | op in Carried(m) :: op in All(sys);
    ReceiveClockBound(sys.clients[site].session, site, m, TWO_64);
  }

  lemma MentionedIsKnown(sys: System, ops: set<Operation>, op: Operation, x: ElementID)
    requires MentionsKnown(sys, ops) && op in ops && x in Mentioned(op)
    ensures Known(sys, x)
  {
    hide Known;
  }

  lemma AnchorWasInserted(s: Session, site: string)
    requires SessionValid(s, site)
    ensures s.cursor.anchor != ROOT_ID ==> exists op :: op in s.received && op.Insert? && op.id == s.cursor.anchor
  {
    AnchoredIsPresent(Meaning(s.received), s.cursor.anchor);
    PresentIsOld(s, site, s.cursor.anchor);
  }

  // The cursor the session announces after its history is one it stands at.
  lemma RepliesKnown(sys: System, r: System, site: string, s': Session, m: Message)
    requires Good(sys) && Joined(sys, site) && Later(sys, r) && SessionValid(s', site)
    requires s'.received == sys.clients[site].session.received + Carried(m) && m in sys.server.conns[site].sent
    ensures MessagesFit(r, Replies(site, s', m))
  {
    hide Good;
    hide Known;
    hide Later;
    hide All;
    hide Quiet;
    hide Meaning;
    hide Anchored;
    hide Ops;
    hide SessionValid;
    hide MentionsKnown;
    hide NamesArePlain;
    hide PresenceKnown;
    hide Functional;
    hide HeapOrdered;
    NameIsPlain(sys, site);
    KnownStays(sys, r);
    InboxIsKnown(sys, site);
    ReceivedIsKnown(sys, site);
    GoodIsHonest(sys);
    RootKnown(r);
    var anchor := s'.cursor.anchor;
    AnchorWasInserted(s', site);
    if anchor != ROOT_ID {
      var op :| op in s'.received && op.Insert? && op.id == anchor;
      MentionedIsKnown(sys, All(sys), op, anchor);
    }
  }

  lemma TurnAdvanced(cl: Client, s': Session, cn: Conn, site: string)
    requires Channels(site, cl, cn) && cl.consumed < |cn.sent|
    requires var m := cn.sent[cl.consumed];
             && s'.outgoing == cl.session.outgoing + Replies(site, s', m) && Ops(Replies(site, s', m)) == {}
             && s'.received == cl.session.received + Carried(m)
    ensures Advanced(cl, cl.(session := s', consumed := cl.consumed + 1), cn, Carried(cn.sent[cl.consumed]),
                     Replies(site, s', cn.sent[cl.consumed]))
  {
    var m := cn.sent[cl.consumed];
    OpsOne(cn.sent[..cl.consumed], m);
    assert cn.sent[..cl.consumed + 1] == cn.sent[..cl.consumed] + [m];
    hide Ops;
  }

  // ----- A message reaches the server -----

  // The server can handle the client's next message.
  ghost predicate TurnLegal(sys: System, site: string, ch: Choices)
  {
    && Joined(sys, site) && !sys.server.conns[site].phase.Disconnected?
    && sys.clients[site].delivered < |Outbox(site, sys.clients[site])|
    && Legal(sys.server, site, Outbox(site, sys.clients[site])[sys.clients[site].delivered], ch)
  }

  // The client's next message is the one the server's phase calls for.
  lemma NextMessage(site: string, cl: Client, cn: Conn)
    requires Channels(site, cl, cn) && cl.delivered < |Outbox(site, cl)|
    ensures var m := Outbox(site, cl)[cl.delivered];
            && (cl.delivered == 0 ==> m == Hello(site))
            && (cl.delivered == 1 ==>
                  cl.asked.Some? && m == OpenDocument(site, cl.asked.value) && cl.asked.value != ""
                    && LineFree(cl.asked.value))
            && (cl.delivered >= 2 ==> cl.asked.Some? && m in cl.session.outgoing)
            && (cl.delivered == 2 ==> m.SyncComplete?)
            && (cl.delivered > 2 ==> Traffic(m))
  {
    if cl.delivered >= 2 {
      assert cl.asked.Some?;
      assert Outbox(site, cl)[cl.delivered] == cl.session.outgoing[cl.delivered - 2];
    }
  }

  lemma OtherOk(sys: System, r: System, k: string, m: Message)
    requires Joined(sys, k) && Joined(r, k) && ClientOk(sys, k) && Later(sys, r) && r.clients[k] == sys.clients[k]
    requires sys.server.conns[k].phase.Live? && Traffic(m) && MessagesFit(r, [m])
    requires r.server.conns[k] == sys.server.conns[k].(sent := sys.server.conns[k].sent + [m])
    ensures ClientOk(r, k)
  {
    hide Later;
    hide MessagesFit;
    hide SessionValid;
    hide Quiet;
    hide Ops;
    hide QueueShape;
    hide Outbox;
    var cl, cn, cn' := sys.clients[k], sys.server.conns[k], r.server.conns[k];
    MessagesStay(sys, r, cn.sent);
    MessagesStay(sys, r, cl.session.outgoing);
    MessagesAppend(r, cn.sent, [m]);
    assert cn'.sent[..cl.consumed] == cn.sent[..cl.consumed];
  }

  // What the handled message does to the client's own connection.
  ghost predicate TurnTaken(site: string, cl: Client, cn: Conn, cn': Conn, m: Message)
  {
    && !cn'.phase.Disconnected?
    && InStep(site, cl.(delivered := cl.delivered + 1), cn')
    && InboxShape(cn'.sent) && cn.sent <= cn'.sent
    && (|cn'.sent| >= 2 ==> cl.delivered >= 1)
    && cn'.originated == cn.originated + Carried(m)
  }

  // What the system needs to know about one server turn.
  ghost predicate TurnFits(sys: System, r: Server<string>, site: string, m: Message)
    requires Joined(sys, site)
  {
    && site in r.conns
    && TurnTaken(site, sys.clients[site], sys.server.conns[site], r.conns[site], m)
    && MessagesFit(sys, r.conns[site].sent)
    && Logged(sys.server.logs) <= Logged(r.logs) <= Logged(sys.server.logs) + Carried(m)
    && PresenceKnown(sys, r.presence)
  }

  lemma HelloTurn(sys: System, site: string, ch: Choices)
    requires Good(sys) && TurnLegal(sys, site, ch) && sys.clients[site].delivered == 0
    ensures TurnFits(sys, Handle(sys.server, site, Hello(site), ch), site, Hello(site))
  {
    hide Stored;
    hide Ops;
    hide Disconnect;
    hide Registry;
    hide QueueShape;
    hide Logged;
    hide NoGap;
    hide Honest;
    hide SessionValid;
    hide Quiet;
    hide Accounted;
    hide Outbox;
    hide Legal;
    hide Known;
    GoodIsHonest(sys);
    RootKnown(sys);
    NameIsFree(sys, site);
    NewcomerIsEmpty(sys, site);
    assert ClientOk(sys, site);
  }

  lemma NewcomerIsEmpty(sys: System, site: string)
    requires Good(sys) && Joined(sys, site)
    ensures sys.server.conns[site].phase.Unregistered? ==> sys.server.conns[site].sent == []
  {
    hide NoGap;
    hide Stored;
    hide Honest;
    hide ClientOk;
    assert ConnTidy(sys.server, site);
  }

  // Nobody else registers under a client's name.
  lemma NameIsFree(sys: System, site: string)
    requires Good(sys) && Joined(sys, site)
    ensures sys.server.conns[site].phase.Unregistered? ==> site !in sys.server.clients
  {
    hide NoGap;
    hide Honest;
    hide SessionValid;
    hide Quiet;
    hide Accounted;
    hide Channels;
    hide MessagesFit;
    var k := if site in sys.server.clients then sys.server.clients[site] else site;
    assert ClientOk(sys, k) && ClientOk(sys, site);
  }

  lemma LoggedRow(logs: map<DocumentID, set<Operation>>, d: DocumentID, extra: set<Operation>)
    ensures var more := logs[d := (if d in logs then logs[d] else {}) + extra];
            Logged(logs) <= Logged(more) <= Logged(logs) + extra
  {
    var more := logs[d := (if d in logs then logs[d] else {}) + extra];
    forall op | op in Logged(logs) ensures op in Logged(more) {
      var e :| e in logs && op in logs[e];
      assert op in more[e];
    }
  }

  lemma OpenTurn(sys: System, site: string, d: DocumentID, ch: Choices)
    requires Good(sys) && TurnLegal(sys, site, ch) && sys.clients[site].delivered == 1
    requires sys.clients[site].asked == Some(d)
    ensures TurnFits(sys, Handle(sys.server, site, OpenDocument(site, d), ch), site, OpenDocument(site, d))
  {
    hide Registry;
    hide NoGap;
    hide Stored;
    hide Honest;
    hide SessionValid;
    hide Quiet;
    hide Accounted;
    hide Outbox;
    hide Legal;
    hide Known;
    hide Logged;
    hide LogOf;
    hide DocOf;
    hide PresenceKnown;
    hide Disconnect;
    GoodIsHonest(sys);
    assert ClientOk(sys, site);
    SameLog(sys.server.logs, d);
    OpenedLogs(sys.server, site, d, ch.history);
  }

  lemma SameLog(logs: map<DocumentID, set<Operation>>, d: DocumentID)
    ensures Logged(logs[d := if d in logs then logs[d] else {}]) == Logged(logs)
  {
    LoggedRow(logs, d, {});
    var log := if d in logs then logs[d] else {};
    assert log + {} == log;
  }

  lemma OpenedLogs(s: Server<string>, c: string, d: DocumentID, history: seq<Operation>)
    requires c in s.conns && s.conns[c].IsRegistered() && s.conns[c].document.None? && d != ""
    ensures var r := Open(s, c, d, history);
            && r.logs == s.logs[d := if d in s.logs then s.logs[d] else {}] && r.presence == s.presence
            && c in r.conns && r.conns[c] ==
               Send(s.conns[c].(document := Some(d), phase := Syncing), SyncResponse("server", history))
  {
    hide Disconnect;
    hide DocOf;
    hide Send;
  }

  lemma {:induction false} CursorsAreKnown(sys: System, site: string, order: seq<string>)
    requires site in sys.server.conns && PresenceKnown(sys, sys.server.presence)
    ensures var ms := CursorsOf(sys.server, site, order); MessagesFit(sys, ms) && forall m | m in ms :: m.CursorUpdate?
  {
    hide Known;
    if order != [] {
      CursorsAreKnown(sys, site, order[..|order| - 1]);
    }
  }

  lemma {:induction false} AsMessagesShape(ops: seq<Operation>)
    ensures |AsMessages(ops)| == |ops|
    ensures forall m | m in AsMessages(ops) :: m.OperationMessage? && LineFree(m.sender)
  {
    if ops != [] {
      AsMessagesShape(ops[..|ops| - 1]);
    }
  }

  lemma FinishTurn(sys: System, site: string, m: Message, ch: Choices)
    requires Good(sys) && TurnLegal(sys, site, ch) && sys.clients[site].delivered == 2 && m.SyncComplete?
    ensures TurnFits(sys, Handle(sys.server, site, m, ch), site, m)
  {
    hide Logged;
    hide Registry;
    hide NoGap;
    hide Honest;
    hide SessionValid;
    hide Quiet;
    hide Accounted;
    hide Outbox;
    hide Legal;
    hide Known;
    hide CursorsOf;
    hide MessagesFit;
    GoodIsHonest(sys);
    assert ClientOk(sys, site);
    LookupsSucceed(sys.server, site);
    var cn := sys.server.conns[site];
    var waiting, others := AsMessages(sys.server.pending[cn.clientId]), CursorsOf(sys.server, site, ch.order);
    CursorsAreKnown(sys, site, ch.order);
    AsMessagesShape(sys.server.pending[cn.clientId]);
    NoPositions(sys, waiting);
    MessagesAppend(sys, cn.sent, waiting);
    MessagesAppend(sys, cn.sent + waiting, others);
    ShapeGrows(cn.sent, waiting);
    ShapeGrows(cn.sent + waiting, others);
  }

  lemma ShapeGrows(a: seq<Message>, b: seq<Message>)
    requires InboxShape(a) && |a| >= 2 && forall m | m in b :: Traffic(m)
    ensures InboxShape(a + b)
  {
    forall i | 2 <= i < |a + b| ensures Traffic((a + b)[i]) {
      assert i >= |a| ==> (a + b)[i] in b;
    }
  }

  lemma TrafficTurn(sys: System, site: string, m: Message, ch: Choices)
    requires Good(sys) && TurnLegal(sys, site, ch) && sys.clients[site].delivered > 2 && Traffic(m)
             && m in sys.clients[site].session.outgoing
    ensures TurnFits(sys, Handle(sys.server, site, m, ch), site, m)
  {
    hide Good;
    hide Outbox;
    hide Legal;
    hide TurnFits;
    hide Edit;
    hide MoveCursor;
    LiveTurn(sys, site, ch);
    if m.OperationMessage? {
      OperationTurn(sys, site, m);
    } else {
      CursorTurn(sys, site, m);
    }
  }

  // The server's side of a client that is past its handshake.
  lemma LiveTurn(sys: System, site: string, ch: Choices)
    requires Good(sys) && TurnLegal(sys, site, ch) && sys.clients[site].delivered > 2
    ensures sys.server.conns[site].phase.Live? && sys.server.conns[site].document.Some?
    ensures sys.server.conns[site].document.value in sys.server.logs
            && sys.server.conns[site].clientId in sys.server.presence
    ensures InStep(site, sys.clients[site], sys.server.conns[site]) && InboxShape(sys.server.conns[site].sent)
    ensures |sys.server.conns[site].sent| >= 2 && MessagesFit(sys, sys.server.conns[site].sent)
  {
    hide Legal;
    hide NoGap;
    hide Stored;
    hide Honest;
    hide SessionValid;
    hide Quiet;
    hide Accounted;
    hide Outbox;
    hide MessagesFit;
    assert ClientOk(sys, site) && ConnTidy(sys.server, site);
    LookupsSucceed(sys.server, site);
  }

  lemma OperationTurn(sys: System, site: string, m: Message)
    requires Good(sys) && Joined(sys, site) && m in sys.clients[site].session.outgoing && m.OperationMessage?
    requires sys.server.conns[site].phase.Live? && sys.server.conns[site].document.Some?
    requires sys.server.conns[site].document.value in sys.server.logs
    requires InStep(site, sys.clients[site], sys.server.conns[site]) && InboxShape(sys.server.conns[site].sent)
    requires MessagesFit(sys, sys.server.conns[site].sent)
             && sys.clients[site].delivered > 2
    ensures TurnFits(sys, Edit(sys.server, site, m, m.op), site, m)
  {
    hide Good;
    hide Edit;
    hide Applied;
    hide DocOf;
    hide InboxShape;
    hide MessagesFit;
    hide PresenceKnown;
    hide Logged;
    GoodIsHonest(sys);
    GoodServer(sys);
    NeverBlocked(sys, site, m, sys.server.conns[site].document.value);
    RouteStep(sys.server, site, m, m.op, site);
    LoggedRow(sys.server.logs, sys.server.conns[site].document.value, {m.op});
  }

  lemma CursorTurn(sys: System, site: string, m: Message)
    requires Good(sys) && Joined(sys, site) && m in sys.clients[site].session.outgoing && m.CursorUpdate?
    requires sys.server.conns[site].phase.Live? && sys.server.conns[site].document.Some?
    requires sys.server.conns[site].clientId in sys.server.presence
    requires InStep(site, sys.clients[site], sys.server.conns[site]) && InboxShape(sys.server.conns[site].sent)
    requires MessagesFit(sys, sys.server.conns[site].sent)
             && sys.clients[site].delivered > 2
    ensures TurnFits(sys, MoveCursor(sys.server, site, m, m.position), site, m)
  {
    hide Good;
    hide InboxShape;
    hide Known;
    hide Logged;
    GoodIsHonest(sys);
    NameIsPlain(sys, site);
    QueuedPosition(sys, site, m);
    assert m in [m];
  }

  // No document throws on an honest operation.
  lemma NeverBlocked(sys: System, site: string, m: Message, d: DocumentID)
    requires Good(sys) && Joined(sys, site) && m in sys.clients[site].session.outgoing && m.OperationMessage?
    ensures !Applied(DocOf(sys.server, d), m.op).threw
  {
    hide Registry;
    hide NoGap;
    hide ClientOk;
    hide Honest;
    hide Structured;
    hide Documented;
    hide Functional;
    hide Applied;
    LogStaysFunctional(sys, site, m);
    assert Fits(DocOf(sys.server, d), LogOf(sys.server, d));
    FewerOperations(LogOf(sys.server, d), LogOf(sys.server, d) + {m.op});
    NeverThrows(DocOf(sys.server, d), LogOf(sys.server, d), m.op);
  }

  // Every log stays functional with an honest operation.
  lemma LogStaysFunctional(sys: System, site: string, m: Message)
    requires Good(sys) && Joined(sys, site) && m in sys.clients[site].session.outgoing && m.OperationMessage?
    ensures forall d :: Functional(LogOf(sys.server, d) + {m.op})
  {
    hide Registry;
    hide NoGap;
    hide ClientOk;
    IssuedMember(sys, site, m);
    forall d ensures Functional(LogOf(sys.server, d) + {m.op}) {
      assert m.op in Carried(m);
      FewerOperations(LogOf(sys.server, d) + {m.op}, All(sys));
    }
  }

  lemma SelfTurn(sys: System, site: string, ch: Choices)
    requires Good(sys) && TurnLegal(sys, site, ch)
    ensures var m := Outbox(site, sys.clients[site])[sys.clients[site].delivered];
            TurnFits(sys, Handle(sys.server, site, m, ch), site, m)
  {
    hide Good;
    hide Handle;
    hide TurnFits;
    hide Legal;
    hide Outbox;
    var cl := sys.clients[site];
    var m := Outbox(site, cl)[cl.delivered];
    GoodClient(sys, site);
    NextMessage(site, cl, sys.server.conns[site]);
    if cl.delivered == 0 {
      HelloTurn(sys, site, ch);
    } else if cl.delivered == 1 {
      OpenTurn(sys, site, m.documentId, ch);
    } else if cl.delivered == 2 {
      FinishTurn(sys, site, m, ch);
    } else {
      TrafficTurn(sys, site, m, ch);
    }
  }

  lemma QueuedPosition(sys: System, site: string, m: Message)
    requires Good(sys) && Joined(sys, site) && m in sys.clients[site].session.outgoing
    ensures m.CursorUpdate? ==> Known(sys, m.position)
    ensures MessagesFit(sys, [m])
  {
    hide Registry;
    hide NoGap;
    hide Honest;
    assert ClientOk(sys, site);
  }

  lemma NotRefused(sys: System, site: string, ch: Choices)
    requires Good(sys) && TurnLegal(sys, site, ch)
    ensures !Refuses(sys.server, site, Outbox(site, sys.clients[site])[sys.clients[site].delivered])
  {
    hide Good;
    hide Legal;
    hide Functional;
    hide Outbox;
    hide Stored;
    hide Applied;
    hide Blocked;
    hide DocOf;
    var cl, cn := sys.clients[site], sys.server.conns[site];
    var m := Outbox(site, cl)[cl.delivered];
    GoodClient(sys, site);
    GoodServer(sys);
    LookupsSucceed(sys.server, site);
    NextMessage(site, cl, cn);
    if m.OperationMessage? && cn.phase.Live? && cl.delivered >= 2 {
      NeverBlocked(sys, site, m, cn.document.value);
      RefusalIsThrow(sys.server, site, m);
    }
  }

  lemma GoodServer(sys: System)
    requires Good(sys)
    ensures Registry(sys.server) && NoGap(sys.server) && Stored(sys.server)
  {
  }

  lemma TurnIsCarriedOver(sys: System, r: System, site: string, m: Message)
    requires Joined(sys, site) && ClientOk(sys, site) && Joined(r, site) && Later(sys, r)
    requires var cl := sys.clients[site];
             && cl.delivered < |Outbox(site, cl)| && m == Outbox(site, cl)[cl.delivered]
             && r.clients[site] == cl.(delivered := cl.delivered + 1)
    requires TurnTaken(site, sys.clients[site], sys.server.conns[site], r.server.conns[site], m)
    requires MessagesFit(sys, r.server.conns[site].sent)
    ensures ClientOk(r, site)
  {
    hide Later;
    hide MessagesFit;
    hide SessionValid;
    hide Quiet;
    hide Ops;
    hide QueueShape;
    hide InboxShape;
    var cl, cn, cn' := sys.clients[site], sys.server.conns[site], r.server.conns[site];
    MessagesStay(sys, r, cn'.sent);
    MessagesStay(sys, r, cl.session.outgoing);
    assert cn'.sent[..cl.consumed] == cn.sent[..cl.consumed];
    var out := Outbox(site, cl);
    assert Outbox(site, r.clients[site]) == out;
    assert out[..cl.delivered + 1] == out[..cl.delivered] + [m];
    OpsOne(out[..cl.delivered], m);
  }

  lemma OthersAreCarriedOver(sys: System, r: System, site: string, m: Message, ch: Choices, k: string)
    requires Good(sys) && Joined(sys, site) && Joined(sys, k) && k != site
    requires Joined(r, k) && r.clients[k] == sys.clients[k] && Later(sys, r)
    requires r.server == Handle(sys.server, site, m, ch) && (Traffic(m) ==> m in sys.clients[site].session.outgoing)
    ensures ClientOk(r, k)
  {
    hide Good;
    hide Handle;
    hide ClientOk;
    hide MessagesFit;
    hide Later;
    OthersAreToldAtMost(sys.server, site, m, ch, k);
    GoodClient(sys, k);
    if r.server.conns[k] == sys.server.conns[k] {
      UntouchedStays(sys, r, k);
    } else {
      QueuedPosition(sys, site, m);
      MessagesStay(sys, r, [m]);
      OtherOk(sys, r, k, m);
    }
  }

  lemma TrafficIsQueued(sys: System, site: string)
    requires Good(sys) && Joined(sys, site) && sys.clients[site].delivered < |Outbox(site, sys.clients[site])|
    ensures var m := Outbox(site, sys.clients[site])[sys.clients[site].delivered];
            Traffic(m) ==> m in sys.clients[site].session.outgoing
  {
    hide Good;
    hide Outbox;
    GoodClient(sys, site);
    NextMessage(site, sys.clients[site], sys.server.conns[site]);
  }

  // Everything an honest system writes can be read back.
  lemma KnownIsOneLine(sys: System, x: ElementID)
    requires NamesArePlain(sys) && Known(sys, x)
    ensures OneLine(x)
  {
  }

  lemma OperationsAreClean(sys: System, ops: set<Operation>)
    requires NamesArePlain(sys) && MentionsKnown(sys, ops) && CharactersAreBytes(ops)
    ensures forall op | op in ops :: Clean(op) && LineFreeOperation(op)
  {
    hide NamesArePlain;
    hide Known;
    forall op | op in ops ensures Clean(op) && LineFreeOperation(op) {
      forall x | x in Mentioned(op) ensures OneLine(x) {
        KnownIsOneLine(sys, x);
      }
      assert op.Insert? ==> op.parent in Mentioned(op) && op.id in Mentioned(op);
      assert op.Remove? ==> op.target in Mentioned(op);
    }
  }

  lemma FitIsSendable(sys: System, m: Message)
    requires NamesArePlain(sys) && MentionsKnown(sys, All(sys)) && CharactersAreBytes(All(sys))
    requires MessagesFit(sys, [m]) && Carried(m) <= All(sys)
             && (m.OpenDocument? ==> m.documentId != "" && LineFree(m.documentId))
    ensures !m.SyncRequest? ==> Sendable(m)
  {
    hide NamesArePlain;
    hide MentionsKnown;
    hide CharactersAreBytes;
    hide Known;
    hide All;
    hide Clean;
    hide LineFreeOperation;
    OperationsAreClean(sys, All(sys));
    assert m in [m];
    if m.CursorUpdate? {
      KnownIsOneLine(sys, m.position);
    }
    assert m.OperationMessage? ==> m.op in Carried(m);
    assert m.SyncResponse? ==> forall op | op in m.history :: op in Carried(m);
  }

  // Every text on the way to the server is read as the message that was written.
  lemma OutboxReads(sys: System, site: string)
    requires Good(sys) && Joined(sys, site) && sys.clients[site].delivered < |Outbox(site, sys.clients[site])|
    ensures DeserializeMessage(OutText(sys, site)) == Ok(Outbox(site, sys.clients[site])[sys.clients[site].delivered])
  {
    hide Good;
    hide SerializeMessage;
    hide DeserializeMessage;
    hide Known;
    hide All;
    hide Outbox;
    hide Sendable;
    hide SessionValid;
    hide Quiet;
    hide InStep;
    hide Channels;
    hide ClientOk;
    hide MentionsKnown;
    hide NamesArePlain;
    hide CharactersAreBytes;
    hide PresenceKnown;
    hide HeapOrdered;
    hide Functional;
    hide Issued;
    var cl := sys.clients[site];
    var m := Outbox(site, cl)[cl.delivered];
    GoodClient(sys, site);
    GoodIsHonest(sys);
    NameIsPlain(sys, site);
    NextMessage(site, cl, sys.server.conns[site]);
    if cl.delivered >= 2 {
      QueuedPosition(sys, site, m);
      IssuedMember(sys, site, m);
    }
    FitIsSendable(sys, m);
    MessageRoundTrip(m);
  }

  // Every text on the way to a client is read as the message that was written.
  lemma InboxReads(sys: System, site: string)
    requires Good(sys) && Joined(sys, site) && sys.clients[site].consumed < |Inbox(sys, site)|
    ensures DeserializeMessage(InText(sys, site)) == Ok(Inbox(sys, site)[sys.clients[site].consumed])
  {
    hide Good;
    hide SerializeMessage;
    hide DeserializeMessage;
    hide Known;
    hide All;
    hide Sendable;
    var i, ms := sys.clients[site].consumed, Inbox(sys, site);
    var m := ms[i];
    assert m in ms;
    GoodClient(sys, site);
    GoodIsHonest(sys);
    InboxIsKnown(sys, site);
    InboxFits(sys, site, i);
    FitIsSendable(sys, m);
    MessageRoundTrip(m);
  }

  lemma InboxFits(sys: System, site: string, i: nat)
    requires Good(sys) && Joined(sys, site) && i < |sys.server.conns[site].sent|
    ensures MessagesFit(sys, [sys.server.conns[site].sent[i]])
    ensures var m := sys.server.conns[site].sent[i]; !m.OpenDocument? && !m.SyncRequest?
  {
    hide Registry;
    hide NoGap;
    hide Stored;
    hide Honest;
    hide Known;
    hide SessionValid;
    hide Quiet;
    hide Accounted;
    hide InStep;
    hide Outbox;
    hide QueueShape;
    assert ClientOk(sys, site);
    assert sys.server.conns[site].sent[i] in sys.server.conns[site].sent;
  }

  // A text in a frame is handled as its message; any larger one ends the connection.
  lemma TurnReads(sys: System, site: string, ch: Choices)
    requires Good(sys) && Allowed(sys, ServerTurn(site, ch))
    ensures TurnLegal(sys, site, ch)
    ensures var cl := sys.clients[site];
            Take(sys, ServerTurn(site, ch)) ==
            if Framed(OutText(sys, site))
            then WithClient(sys, site, cl.(delivered := cl.delivered + 1))
                   .(server := Handle(sys.server, site, Outbox(site, cl)[cl.delivered], ch))
            else HungUp(sys, site)
  {
    hide Good;
    hide SerializeMessage;
    hide DeserializeMessage;
    hide Outbox;
    hide Handle;
    hide Legal;
    OutboxReads(sys, site);
  }

  lemma ServerTurnKeeps(sys: System, site: string, ch: Choices)
    requires Good(sys) && Allowed(sys, ServerTurn(site, ch))
    ensures Good(Take(sys, ServerTurn(site, ch)))
  {
    hide Good;
    hide Handle;
    hide Allowed;
    TurnReads(sys, site, ch);
    hide Take;
    if Framed(OutText(sys, site)) {
      HandledTurnKeeps(sys, site, ch);
    } else {
      HangUpKeeps(sys, site);
    }
  }

  lemma HandledTurnKeeps(sys: System, site: string, ch: Choices)
    requires Good(sys) && TurnLegal(sys, site, ch)
    ensures var cl := sys.clients[site];
            Good(WithClient(sys, site, cl.(delivered := cl.delivered + 1))
                   .(server := Handle(sys.server, site, Outbox(site, cl)[cl.delivered], ch)))
  {
    hide Registry;
    hide NoGap;
    hide Stored;
    hide Handle;
    hide Legal;
    hide Outbox;
    hide Known;
    hide ClientOk;
    hide TurnTaken;
    hide MessagesFit;
    hide PresenceKnown;
    hide CharactersAreBytes;
    hide Functional;
    hide HeapOrdered;
    hide MentionsKnown;
    hide Refuses;
    hide Logged;
    hide Issued;
    var cl, cn := sys.clients[site], sys.server.conns[site];
    var m := Outbox(site, cl)[cl.delivered];
    var r := WithClient(sys, site, cl.(delivered := cl.delivered + 1)).(server := Handle(sys.server, site, m, ch));
    assert Later(sys, r);
    SelfTurn(sys, site, ch);
    TrafficIsQueued(sys, site);
    NotRefused(sys, site, ch);
    RegistryKept(sys.server, site, m, ch);
    NoGapKept(sys.server, site, m, ch);
    StoredKept(sys.server, site, m, ch);
    HandleKeepsConns(sys.server, site, m, ch);
    DeliveredIsIssued(sys, site);
    SameSessions(sys, r);
    assert All(r) == All(sys);
    MentionsStay(sys, r, All(sys));
    PresenceStays(sys, r, r.server.presence);
    forall k | k in r.clients ensures ClientOk(r, k) {
      if k != site {
        OthersAreCarriedOver(sys, r, site, m, ch, k);
      } else {
        TurnIsCarriedOver(sys, r, site, m);
      }
    }
  }

  lemma SameSessions(sys: System, r: System)
    requires r.clients.Keys == sys.clients.Keys && forall k | k in r.clients ::
             r.clients[k].session == sys.clients[k].session
    ensures Issued(r.clients) == Issued(sys.clients)
  {
  }

  lemma DeliveredIsIssued(sys: System, site: string)
    requires Good(sys) && Joined(sys, site) && sys.clients[site].delivered < |Outbox(site, sys.clients[site])|
    ensures Carried(Outbox(site, sys.clients[site])[sys.clients[site].delivered]) <= Issued(sys.clients)
  {
    hide Good;
    hide Outbox;
    hide Issued;
    var cl := sys.clients[site];
    GoodClient(sys, site);
    NextMessage(site, cl, sys.server.conns[site]);
    if cl.delivered >= 2 {
      IssuedMember(sys, site, Outbox(site, cl)[cl.delivered]);
    }
  }
}
