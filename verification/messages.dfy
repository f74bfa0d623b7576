// The messages clients and server exchange, and their text form.
module Messages {
  import opened Wrappers
  import opened ElementIds
  import opened Operations
  import opened TextCodec
  import opened OperationCodec
  import opened Framing

  type DocumentID = string

  datatype Message =
    | Hello(sender: string)
    | HelloAck(sender: string)
    | OperationMessage(sender: string, op: Operation)
    | SyncRequest(sender: string)
    | SyncResponse(sender: string, history: seq<Operation>)
    | SyncComplete(sender: string)
    | CursorUpdate(sender: string, position: ElementID)
    | OpenDocument(sender: string, documentId: DocumentID)

  function TypeName(m: Message): string
  {
    match m
    case Hello(_) => "HELLO"
    case HelloAck(_) => "HELLO_ACK"
    case OperationMessage(_, _) => "OPERATION"
    case SyncRequest(_) => "SYNC_REQUEST"
    case SyncResponse(_, _) => "SYNC_RESPONSE"
    case SyncComplete(_) => "SYNC_COMPLETE"
    case CursorUpdate(_, _) => "CURSOR_UPDATE"
    case OpenDocument(_, _) => "OPEN_DOCUMENT"
  }

  // ----- Writing -----

  function SerializeHistory(ops: seq<Operation>): string
  {
    if ops == [] then "" else SerializeOperation(ops[0]) + "\n" + SerializeHistory(ops[1..])
  }

  function Payload(m: Message): string
  {
    match m
    case OperationMessage(_, op) => SerializeOperation(op)
    case SyncResponse(_, history) => SerializeHistory(history)
    case CursorUpdate(_, position) => SerializeId(position)
    case OpenDocument(_, documentId) => documentId
    case _ => ""
  }

  function SerializeMessage(m: Message): string
  {
    TypeName(m) + "\n" + m.sender + "\n" + Payload(m)
  }

  lemma {:induction false} HistoryGrows(ops: seq<Operation>, op: Operation)
    ensures SerializeHistory(ops + [op]) == SerializeHistory(ops) + SerializeOperation(op) + "\n"
  {
    hide SerializeOperation;
    if ops == [] {
      assert ([] + [op])[1..] == [];
    } else {
      assert (ops + [op])[1..] == ops[1..] + [op];
      HistoryGrows(ops[1..], op);
    }
  }

  method Serialize(m: Message) returns (result: string)
    ensures result == SerializeMessage(m)
  {
    hide SerializeOperation;
    hide SerializeId;
    hide TypeName;
    result := TypeName(m) + "\n" + m.sender + "\n";
    match m {
      case OperationMessage(_, op) =>
        result := result + SerializeOperation(op);
      case SyncResponse(_, history) =>
        ghost var start := result;
        for i := 0 to |history|
          invariant result == start + SerializeHistory(history[..i])
        {
          HistoryGrows(history[..i], history[i]);
          assert history[..i + 1] == history[..i] + [history[i]];
          result := result + SerializeOperation(history[i]) + "\n";
        }
        assert history[..|history|] == history;
      case CursorUpdate(_, position) =>
        result := result + SerializeId(position);
      case OpenDocument(_, documentId) =>
        result := result + documentId;
      case _ =>
    }
  }

  // ----- Reading -----

  // The operations among the tokens; empty tokens are skipped, a malformed one throws.
  function ReadHistory(tokens: seq<string>): Result<seq<Operation>>
  {
    if tokens == [] then Ok([])
    else
      match ReadHistory(tokens[..|tokens| - 1])
      case Throws(why) => Throws(why)
      case Ok(ops) =>
        var last := tokens[|tokens| - 1];
        if last == "" then Ok(ops)
        else
          match DeserializeOperation(last)
          case Throws(why) => Throws(why)
          case Ok(op) => Ok(ops + [op])
  }

  function ReadPayload(kind: string, sender: string, tokens: seq<string>): Result<Message>
    requires |tokens| >= 2
  {
    if kind == "HELLO" then Ok(Hello(sender))
    else if kind == "HELLO_ACK" then Ok(HelloAck(sender))
    else if kind == "SYNC_COMPLETE" then Ok(SyncComplete(sender))
    else if kind == "SYNC_RESPONSE" then
      match ReadHistory(tokens[2..])
      case Throws(why) => Throws(why)
      case Ok(ops) => Ok(SyncResponse(sender, ops))
    else if kind !in ["OPERATION", "CURSOR_UPDATE", "OPEN_DOCUMENT"] then Throws("Unknown message type")
    else if |tokens| < 3 || tokens[2] == "" then Throws("missing payload")
    else if kind == "OPERATION" then
      match DeserializeOperation(tokens[2])
      case Throws(why) => Throws(why)
      case Ok(op) => Ok(OperationMessage(sender, op))
    else if kind == "CURSOR_UPDATE" then
      match DeserializeId(tokens[2])
      case Throws(why) => Throws(why)
      case Ok(position) => Ok(CursorUpdate(sender, position))
    else Ok(OpenDocument(sender, tokens[2]))
  }

  function DeserializeMessage(s: string): Result<Message>
  {
    var tokens := Split(s, '\n');
    if |tokens| < 2 then Throws("out_of_range") else ReadPayload(tokens[0], tokens[1], tokens)
  }

  method Deserialize(s: string) returns (r: Result<Message>)
    ensures r == DeserializeMessage(s)
  {
    var tokens := SplitTokens(s, '\n');
    if |tokens| < 2 {
      return Throws("out_of_range");
    }
    if tokens[0] != "SYNC_RESPONSE" {
      return ReadPayload(tokens[0], tokens[1], tokens);
    }
    var ops := ReadOperations(tokens[2..]);
    match ops {
      case Throws(why) => return Throws(why);
      case Ok(history) => return Ok(SyncResponse(tokens[1], history));
    }
  }

  method ReadOperations(tokens: seq<string>) returns (r: Result<seq<Operation>>)
    ensures r == ReadHistory(tokens)
  {
    hide DeserializeOperation;
    var ops: seq<Operation> := [];
    for i := 0 to |tokens|
      invariant ReadHistory(tokens[..i]) == Ok(ops)
    {
      assert tokens[..i + 1][..i] == tokens[..i];
      if tokens[i] != "" {
        var op := OperationCodec.Deserialize(tokens[i]);
        if op.Throws? {
          HistoryThrows(tokens, i + 1, op.reason);
          return Throws(op.reason);
        }
        ops := ops + [op.value];
      }
    }
    assert tokens[..|tokens|] == tokens;
    return Ok(ops);
  }

  lemma {:induction false} HistoryThrows(tokens: seq<string>, i: nat, why: string)
    requires i <= |tokens| && ReadHistory(tokens[..i]) == Throws(why)
    ensures ReadHistory(tokens) == Throws(why)
    decreases |tokens|
  {
    if i == |tokens| {
      assert tokens[..i] == tokens;
    } else {
      assert tokens[..|tokens| - 1][..i] == tokens[..i];
      HistoryThrows(tokens[..|tokens| - 1], i, why);
    }
  }

  // ----- Round trip -----

  predicate LineFree(s: string)
  {
    '\n' !in s
  }

  predicate LineFreeOperation(op: Operation)
  {
    SitesLack(op, '\n')
  }

  // What the line-based format can carry; SYNC_REQUEST is never read back.
  predicate Sendable(m: Message)
  {
    LineFree(m.sender) &&
    match m
    case OperationMessage(_, op) => Clean(op) && LineFreeOperation(op)
    case SyncResponse(_, history) => forall op | op in history :: Clean(op) && LineFreeOperation(op)
    case CursorUpdate(_, position) => position.lamport < TWO_64 && LineFree(position.siteId)
    case OpenDocument(_, documentId) => documentId != "" && LineFree(documentId)
    case SyncRequest(_) => false
    case _ => true
  }

  lemma IdIsOneLine(id: ElementID)
    requires LineFree(id.siteId)
    ensures LineFree(SerializeId(id)) && SerializeId(id) != ""
  {
  }

  lemma OperationIsOneLine(op: Operation)
    requires LineFreeOperation(op)
    ensures LineFree(SerializeOperation(op)) && SerializeOperation(op) != ""
  {
    match op
    case Insert(parent, id, _) =>
      IdIsOneLine(parent);
      IdIsOneLine(id);
    case Remove(target) =>
      IdIsOneLine(target);
  }

  lemma {:induction false} HistoryTokens(ops: seq<Operation>)
    requires forall op | op in ops :: LineFreeOperation(op)
    ensures Tokens(SerializeHistory(ops), '\n') ==
            seq(|ops|, i requires 0 <= i < |ops| => SerializeOperation(ops[i])) + [""]
  {
    if ops != [] {
      assert ops[0] in ops;
      forall op | op in ops[1..] ensures op in ops {
      }
      HistoryTokens(ops[1..]);
      OperationIsOneLine(ops[0]);
      TokensOfPart(SerializeOperation(ops[0]), '\n', SerializeHistory(ops[1..]));
    }
  }

  lemma {:induction false} HistoryReads(ops: seq<Operation>, tokens: seq<string>)
    requires forall op | op in ops :: Clean(op) && LineFreeOperation(op)
    requires |tokens| == |ops| && forall i | 0 <= i < |ops| :: tokens[i] == SerializeOperation(ops[i])
    ensures ReadHistory(tokens) == Ok(ops)
  {
    hide SerializeOperation;
    hide DeserializeOperation;
    hide Clean;
    hide LineFreeOperation;
    if ops != [] {
      var n := |ops| - 1;
      forall op | op in ops[..n] ensures op in ops {
      }
      HistoryReads(ops[..n], tokens[..n]);
      assert ops[n] in ops;
      OperationRoundTrip(ops[n]);
      OperationIsOneLine(ops[n]);
      assert ops[..n] + [ops[n]] == ops;
    }
  }

  lemma TypeNameIsOneLine(m: Message)
    ensures LineFree(TypeName(m))
  {
  }

  lemma MessageTokens(m: Message)
    requires LineFree(m.sender)
    ensures Split(SerializeMessage(m), '\n') == [TypeName(m), m.sender] + Tokens(Payload(m), '\n')
  {
    TypeNameIsOneLine(m);
    hide TypeName;
    hide Payload;
    hide Tokens;
    var rest := m.sender + "\n" + Payload(m);
    TokensOfPart(m.sender, '\n', Payload(m));
    TokensOfPart(TypeName(m), '\n', rest);
    assert SerializeMessage(m) == TypeName(m) + "\n" + rest;
  }

  // Reading a written message comes down to reading its payload's tokens.
  lemma ReadsPayload(m: Message)
    requires LineFree(m.sender)
    ensures var tokens := [TypeName(m), m.sender] + Tokens(Payload(m), '\n');
            DeserializeMessage(SerializeMessage(m)) == ReadPayload(TypeName(m), m.sender, tokens)
  {
    MessageTokens(m);
    hide Split;
    hide Tokens;
    hide Payload;
    hide TypeName;
    hide ReadPayload;
    hide SerializeMessage;
  }

  lemma OperationReads(sender: string, op: Operation)
    requires Clean(op) && LineFreeOperation(op)
    ensures ReadPayload("OPERATION", sender, ["OPERATION", sender] + Tokens(SerializeOperation(op), '\n')) ==
            Ok(OperationMessage(sender, op))
  {
    OperationIsOneLine(op);
    TokensOfOne(SerializeOperation(op), '\n');
    OperationRoundTrip(op);
    hide SerializeOperation;
    hide DeserializeOperation;
    hide Tokens;
    hide ReadHistory;
  }

  lemma SyncResponseReads(sender: string, history: seq<Operation>)
    requires forall op | op in history :: Clean(op) && LineFreeOperation(op)
    ensures ReadPayload("SYNC_RESPONSE", sender, ["SYNC_RESPONSE", sender] + Tokens(SerializeHistory(history), '\n')) ==
            Ok(SyncResponse(sender, history))
  {
    HistoryTokens(history);
    var body := Tokens(SerializeHistory(history), '\n');
    HistoryReads(history, body[..|history|]);
    assert body[..|body| - 1] == body[..|history|];
    assert (["SYNC_RESPONSE", sender] + body)[2..] == body;
    hide SerializeOperation;
    hide SerializeHistory;
    hide Tokens;
  }

  lemma CursorUpdateReads(sender: string, position: ElementID)
    requires position.lamport < TWO_64 && LineFree(position.siteId)
    ensures ReadPayload("CURSOR_UPDATE", sender, ["CURSOR_UPDATE", sender] + Tokens(SerializeId(position), '\n')) ==
            Ok(CursorUpdate(sender, position))
  {
    IdIsOneLine(position);
    TokensOfOne(SerializeId(position), '\n');
    IdRoundTrip(position);
    hide SerializeId;
    hide DeserializeId;
    hide Tokens;
    hide ReadHistory;
  }

  // Every message but SYNC_REQUEST is read back as it was written.
  lemma MessageRoundTrip(m: Message)
    requires Sendable(m)
    ensures DeserializeMessage(SerializeMessage(m)) == Ok(m)
  {
    ReadsPayload(m);
    hide DeserializeMessage;
    hide SerializeMessage;
    match m
    case OperationMessage(sender, op) => OperationReads(sender, op);
    case SyncResponse(sender, history) => SyncResponseReads(sender, history);
    case CursorUpdate(sender, position) => CursorUpdateReads(sender, position);
    case OpenDocument(_, documentId) => TokensOfOne(documentId, '\n');
    case _ =>
  }

  // A SYNC_REQUEST is always refused by the reader, whatever its sender is called.
  lemma SyncRequestIsRefused(sender: string)
    ensures DeserializeMessage(SerializeMessage(SyncRequest(sender))).Throws?
  {
    var m := SyncRequest(sender);
    TypeNameIsOneLine(m);
    TokensOfPart(TypeName(m), '\n', sender + "\n" + Payload(m));
    assert SerializeMessage(m) == TypeName(m) + "\n" + (sender + "\n" + Payload(m));
    hide Tokens;
  }

  lemma TokenIsOneLine(token: string)
    requires LineFree(token)
    ensures var r := DeserializeOperation(token); r.Ok? ==> Clean(r.value) && LineFreeOperation(r.value)
    ensures var r := DeserializeId(token); r.Ok? ==> r.value.lamport < TWO_64 && LineFree(r.value.siteId)
  {
    hide DeserializeOperation;
    hide Clean;
    hide SitesLack;
    hide DeserializeId;
    DeserializedIsClean(token);
    DeserializedIdIsClean(token);
  }

  lemma {:induction false} ReadHistoryIsClean(tokens: seq<string>)
    requires forall t | t in tokens :: LineFree(t)
    ensures var r := ReadHistory(tokens);
            r.Ok? ==> forall op | op in r.value :: Clean(op) && LineFreeOperation(op)
  {
    hide DeserializeOperation;
    hide Clean;
    hide LineFreeOperation;
    if tokens != [] {
      var last := tokens[|tokens| - 1];
      assert last in tokens;
      ReadHistoryIsClean(tokens[..|tokens| - 1]);
      TokenIsOneLine(last);
    }
  }

  // Whatever is read can be written again, and a client can store every operation of it.
  lemma ReadMessageIsSendable(text: string)
    ensures var r := DeserializeMessage(text); r.Ok? ==> Sendable(r.value)
  {
    hide DeserializeOperation;
    hide Clean;
    hide LineFreeOperation;
    hide ReadHistory;
    hide DeserializeId;
    var tokens := Split(text, '\n');
    if |tokens| >= 2 {
      TokensAreClean(text, '\n');
      hide Split;
      forall t | t in tokens ensures LineFree(t) {
      }
      forall t | t in tokens[2..] ensures LineFree(t) {
        assert t in tokens;
      }
      ReadHistoryIsClean(tokens[2..]);
      assert tokens[1] in tokens;
      if |tokens| >= 3 {
        assert tokens[2] in tokens;
        TokenIsOneLine(tokens[2]);
      }
    }
  }

  // Exactly the sendable messages are read back as they were written.
  lemma RoundTripIsExact(m: Message)
    ensures DeserializeMessage(SerializeMessage(m)) == Ok(m) <==> Sendable(m)
  {
    hide DeserializeMessage;
    hide SerializeMessage;
    hide Sendable;
    ReadMessageIsSendable(SerializeMessage(m));
    if Sendable(m) {
      MessageRoundTrip(m);
    }
  }

  // ----- Messages over a framed stream -----

  function SerializeAll(ms: seq<Message>): (r: seq<string>)
    ensures |r| == |ms| && forall i | 0 <= i < |ms| :: r[i] == SerializeMessage(ms[i])
  {
    if ms == [] then [] else [SerializeMessage(ms[0])] + SerializeAll(ms[1..])
  }

  // A connection that sends these messages as frames delivers exactly these messages.
  lemma WireRoundTrip(ms: seq<Message>)
    requires forall m | m in ms :: Sendable(m) && |SerializeMessage(m)| <= MAX_MESSAGE_SIZE
    ensures var bodies := SerializeAll(ms);
            && (forall b | b in bodies :: |b| <= UINT32_MAX)
            && var r := ReadStream(WriteStream(bodies));
               && !r.disconnected && r.rest == "" && |r.messages| == |ms|
               && forall i | 0 <= i < |ms| :: DeserializeMessage(r.messages[i]) == Ok(ms[i])
  {
    hide SerializeMessage;
    hide DeserializeMessage;
    hide Sendable;
    var bodies := SerializeAll(ms);
    forall b | b in bodies ensures |b| <= MAX_MESSAGE_SIZE {
      var i :| 0 <= i < |bodies| && bodies[i] == b;
      assert ms[i] in ms;
    }
    StreamRoundTrip(bodies, "");
    assert WriteStream(bodies) + "" == WriteStream(bodies);
    assert bodies + [] == bodies;
    forall i | 0 <= i < |ms| ensures DeserializeMessage(bodies[i]) == Ok(ms[i]) {
      assert ms[i] in ms;
      MessageRoundTrip(ms[i]);
    }
  }
}
