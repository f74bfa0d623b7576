// The text forms spelled out: what each value is written as, character by character, and exactly
// which texts are read as it.
module WireFormats {
  import opened Wrappers
  import opened ElementIds
  import opened Operations
  import opened TextCodec
  import opened OperationCodec
  import opened Messages

  // ----- Numbers -----

  predicate AllDigits(s: string)
  {
    forall c | c in s :: IsDigit(c)
  }

  lemma LastDigit(s: string)
    requires s != "" && AllDigits(s)
    ensures var init, last := s[..|s| - 1], s[|s| - 1];
            && AllDigits(init) && IsDigit(last) && s == init + [last]
            && Value(s) / 10 == Value(init) && Value(s) % 10 == DigitValue(last)
            && ('0' as int + Value(s) % 10) as char == last
  {
    var init, last := s[..|s| - 1], s[|s| - 1];
    assert last in s;
    forall c | c in init ensures IsDigit(c) {
      assert c in s;
    }
    assert Value(s) == Value(init) * 10 + DigitValue(last) && DigitValue(last) < 10;
  }

  lemma {:induction false} LeadingDigitCounts(s: string)
    requires s != "" && AllDigits(s) && s[0] != '0'
    ensures Value(s) > 0
  {
    LastDigit(s);
    if |s| > 1 {
      LeadingDigitCounts(s[..|s| - 1]);
    } else {
      assert Value(s[..0]) == 0;
    }
  }

  // The digits of a number, without leading zeros.
  predicate IsNumeral(s: string, n: nat)
  {
    s != "" && AllDigits(s) && Value(s) == n && (|s| > 1 ==> s[0] != '0')
  }

  // The numeral of a number, and nothing else, is written for it.
  lemma PrintIsNumeral(s: string, n: nat)
    ensures s == Print(n) <==> IsNumeral(s, n)
  {
    ValueOfPrint(n);
    NoLeadingZero(n);
    if IsNumeral(s, n) {
      NumeralIsPrinted(s);
    }
  }

  lemma {:induction false} NumeralIsPrinted(s: string)
    requires s != "" && AllDigits(s) && (|s| > 1 ==> s[0] != '0')
    ensures s == Print(Value(s))
  {
    var init := s[..|s| - 1];
    LastDigit(s);
    if |s| > 1 {
      LeadingDigitCounts(init);
      NumeralIsPrinted(init);
    } else {
      assert init == "" && Value(init) == 0;
    }
  }

  lemma {:induction false} NoLeadingZero(n: nat)
    ensures |Print(n)| > 1 ==> Print(n)[0] != '0'
    ensures n > 0 ==> Print(n)[0] != '0'
  {
    if n >= 10 {
      NoLeadingZero(n / 10);
    }
  }

  // Blanks, a sign, digits, and whatever follows them.
  ghost predicate NumberText(s: string, blanks: string, sign: string, digits: string, rest: string)
  {
    && s == blanks + sign + digits + rest && (forall c | c in blanks :: IsSpace(c))
    && (sign == "" || sign == "+" || sign == "-")
    && digits != "" && AllDigits(digits) && (rest == "" || !IsDigit(rest[0]))
  }

  function Signed(sign: string, v: nat): int
  {
    if sign == "-" && v > 0 then 18446744073709551616 - v else v
  }

  ghost predicate ReadsAsNumber(s: string, n: nat)
  {
    exists blanks, sign, digits, rest ::
      NumberText(s, blanks, sign, digits, rest) && Value(digits) < 18446744073709551616
      && n == Signed(sign, Value(digits))
  }

  lemma {:induction false} SkipsBlanks(blanks: string, t: string)
    requires (forall c | c in blanks :: IsSpace(c)) && (t == "" || !IsSpace(t[0]))
    ensures SkipSpaces(blanks + t) == t
  {
    if blanks == "" {
      assert blanks + t == t;
    } else {
      assert blanks[0] in blanks && (blanks + t)[1..] == blanks[1..] + t;
      SkipsBlanks(blanks[1..], t);
    }
  }

  lemma {:induction false} BlanksBefore(s: string) returns (blanks: string)
    ensures s == blanks + SkipSpaces(s) && forall c | c in blanks :: IsSpace(c)
  {
    if s != "" && IsSpace(s[0]) {
      var rest := BlanksBefore(s[1..]);
      blanks := [s[0]] + rest;
    } else {
      blanks := "";
    }
  }

  lemma {:induction false} TakesDigits(digits: string, rest: string)
    requires AllDigits(digits) && (rest == "" || !IsDigit(rest[0]))
    ensures DigitPrefix(digits + rest) == digits
  {
    if digits == "" {
      assert digits + rest == rest;
    } else {
      assert digits[0] in digits && (digits + rest)[1..] == digits[1..] + rest;
      TakesDigits(digits[1..], rest);
    }
  }

  lemma {:induction false} RestAfter(s: string) returns (rest: string)
    ensures s == DigitPrefix(s) + rest && (rest == "" || !IsDigit(rest[0]))
  {
    if s != "" && IsDigit(s[0]) {
      rest := RestAfter(s[1..]);
      assert s == [s[0]] + s[1..];
    } else {
      rest := s;
    }
  }

  lemma NumberParses(s: string, blanks: string, sign: string, digits: string, rest: string)
    requires NumberText(s, blanks, sign, digits, rest)
    ensures ParseNat(s) ==
            if Value(digits) < 18446744073709551616 then Ok(Signed(sign, Value(digits))) else Throws("out_of_range")
  {
    hide SkipSpaces;
    hide DigitPrefix;
    hide Value;
    var t := sign + digits + rest;
    assert digits[0] in digits && t[0] == (if sign == "" then digits[0] else sign[0]);
    AppendTwo(blanks, sign, digits, rest);
    SkipsBlanks(blanks, t);
    assert (if sign == "" then t else t[1..]) == digits + rest;
    TakesDigits(digits, rest);
  }

  lemma NumberSplits(s: string) returns (blanks: string, sign: string, digits: string, rest: string)
    requires ParseNat(s).Ok?
    ensures NumberText(s, blanks, sign, digits, rest)
  {
    hide Value;
    blanks := BlanksBefore(s);
    var t := SkipSpaces(s);
    hide SkipSpaces;
    sign := if t != "" && (t[0] == '+' || t[0] == '-') then [t[0]] else "";
    var u := t[|sign|..];
    rest := RestAfter(u);
    digits := DigitPrefix(u);
    hide DigitPrefix;
    assert t == sign + u;
    AppendThree(blanks, sign, digits, rest);
  }

  lemma AppendThree(a: string, b: string, c: string, d: string)
    ensures a + (b + (c + d)) == a + b + c + d
  {
  }

  // Exactly which texts are read as a number: trailing text is ignored, and a negative number wraps.
  lemma NumberIsRead(s: string, n: nat)
    ensures ParseNat(s) == Ok(n) <==> ReadsAsNumber(s, n)
  {
    hide ParseNat;
    hide Value;
    if ReadsAsNumber(s, n) {
      var blanks, sign, digits, rest :| NumberText(s, blanks, sign, digits, rest)
        && Value(digits) < 18446744073709551616 && n == Signed(sign, Value(digits));
      NumberParses(s, blanks, sign, digits, rest);
    }
    if ParseNat(s) == Ok(n) {
      var blanks, sign, digits, rest := NumberSplits(s);
      NumberParses(s, blanks, sign, digits, rest);
    }
  }

  // ----- Identifiers -----

  ghost predicate ReadsAsId(s: string, id: ElementID)
  {
    exists clock :: ',' !in clock && s == clock + "," + id.siteId && ReadsAsNumber(clock, id.lamport)
  }

  lemma IdIsRead(s: string, id: ElementID)
    ensures DeserializeId(s) == Ok(id) <==> ReadsAsId(s, id)
  {
    hide ReadsAsNumber;
    hide ParseNat;
    if ReadsAsId(s, id) {
      var clock :| ',' !in clock && s == clock + "," + id.siteId && ReadsAsNumber(clock, id.lamport);
      FirstCommaAfter(clock, id.siteId);
      NumberIsRead(clock, id.lamport);
      assert s[..|clock|] == clock && s[|clock| + 1..] == id.siteId;
    }
    if DeserializeId(s) == Ok(id) {
      var comma := FirstComma(s);
      NumberIsRead(s[..comma], id.lamport);
      assert s == s[..comma] + "," + s[comma + 1..];
    }
  }

  // ----- Operations -----

  // An insert has three fields, the last of them a character code of which 32 bits are kept.
  ghost predicate InsertFields(s: string, a: string, b: string, c: string, code: nat, op: Operation)
  {
    && op.Insert? && s == "INSERT|" + a + "|" + b + "|" + c && '|' !in a && '|' !in b && '|' !in c
    && ReadsAsId(a, op.parent) && ReadsAsId(b, op.id) && ReadsAsNumber(c, code)
    && code % 4294967296 == op.ch as int < 256
  }

  ghost predicate ReadsAsOperation(s: string, op: Operation)
  {
    match op
    case Insert(_, _, _) => exists a, b, c, code :: InsertFields(s, a, b, c, code, op)
    case Remove(target) => exists a :: s == "REMOVE|" + a && '|' !in a && ReadsAsId(a, target)
  }

  lemma FourTokens(a: string, b: string, c: string)
    requires '|' !in a && '|' !in b && '|' !in c
    ensures Split("INSERT|" + a + "|" + b + "|" + c, '|') == ["INSERT", a, b, c]
  {
    hide Tokens;
    TokensOfOne(c, '|');
    TokensOfPart(b, '|', c);
    TokensOfPart(a, '|', b + "|" + c);
    TokensOfPart("INSERT", '|', a + "|" + (b + "|" + c));
    BarsBetween(a, b, c);
  }

  lemma BarsBetween(a: string, b: string, c: string)
    ensures "INSERT|" + a + "|" + b + "|" + c == "INSERT" + "|" + (a + "|" + (b + "|" + c))
  {
    assert "INSERT" + "|" == "INSERT|";
    AppendTwo("INSERT|", a, "|", b + "|" + c);
    AppendTwo("INSERT|" + a + "|", b, "|", c);
  }

  lemma TwoTokens(a: string)
    requires '|' !in a
    ensures Split("REMOVE|" + a, '|') == ["REMOVE", a]
  {
    TokensOfOne(a, '|');
    TokensOfPart("REMOVE", '|', a);
    assert "REMOVE|" + a == "REMOVE" + "|" + a;
    hide Tokens;
  }

  // A text that begins with a keyword has it as its first token.
  lemma KeywordToken(keyword: string, s: string)
    requires '|' !in keyword && keyword + "|" <= s
    ensures Split(s, '|')[0] == keyword && s == JoinWith(Split(s, '|'), '|')
    ensures forall t | t in Split(s, '|') :: '|' !in t
  {
    var rest := s[|keyword| + 1..];
    assert s == keyword + "|" + rest;
    TokensOfPart(keyword, '|', rest);
    JoinOfTokens(s, '|');
    TokensAreClean(s, '|');
    hide Tokens;
  }

  lemma JoinOfTwo(tokens: seq<string>, d: char)
    requires |tokens| == 2
    ensures JoinWith(tokens, d) == tokens[0] + [d] + tokens[1]
  {
    assert tokens[1..] == [tokens[1]];
  }

  lemma JoinOfFour(tokens: seq<string>, d: char)
    requires |tokens| == 4
    ensures JoinWith(tokens, d) == tokens[0] + [d] + tokens[1] + [d] + tokens[2] + [d] + tokens[3]
  {
    assert tokens[2..] == [tokens[2], tokens[3]] && tokens[1..][1..] == tokens[2..];
    JoinOfTwo(tokens[2..], d);
    assert JoinWith(tokens[1..], d) == tokens[1] + [d] + JoinWith(tokens[2..], d);
  }

  // Exactly which texts are read as an operation.
  lemma OperationIsRead(s: string, op: Operation)
    ensures DeserializeOperation(s) == Ok(op) <==> ReadsAsOperation(s, op)
  {
    if op.Insert? {
      InsertIsRead(s, op);
    } else {
      RemoveIsRead(s, op);
    }
  }

  lemma InsertIsRead(s: string, op: Operation)
    requires op.Insert?
    ensures DeserializeOperation(s) == Ok(op) <==> ReadsAsOperation(s, op)
  {
    hide Split;
    hide ReadsAsId;
    hide ReadsAsNumber;
    hide DeserializeId;
    hide ParseNat;
    if ReadsAsOperation(s, op) {
      var a, b, c, code :| InsertFields(s, a, b, c, code, op);
      FourTokens(a, b, c);
      IdIsRead(a, op.parent);
      IdIsRead(b, op.id);
      NumberIsRead(c, code);
      assert "INSERT|" <= s;
    }
    if DeserializeOperation(s) == Ok(op) {
      assert "INSERT" + "|" == "INSERT|" <= s;
      var tokens := Split(s, '|');
      KeywordToken("INSERT", s);
      JoinOfFour(tokens, '|');
      IdIsRead(tokens[1], op.parent);
      IdIsRead(tokens[2], op.id);
      var code := ParseNat(tokens[3]).value;
      NumberIsRead(tokens[3], code);
      assert tokens[1] in tokens && tokens[2] in tokens && tokens[3] in tokens;
      assert InsertFields(s, tokens[1], tokens[2], tokens[3], code, op);
    }
  }

  lemma RemoveIsRead(s: string, op: Operation)
    requires op.Remove?
    ensures DeserializeOperation(s) == Ok(op) <==> ReadsAsOperation(s, op)
  {
    hide Split;
    hide ReadsAsId;
    hide DeserializeId;
    hide ParseNat;
    if ReadsAsOperation(s, op) {
      var a :| s == "REMOVE|" + a && '|' !in a && ReadsAsId(a, op.target);
      TwoTokens(a);
      IdIsRead(a, op.target);
      assert s[0] == 'R' && "INSERT|"[0] == 'I' && "REMOVE|" <= s;
    }
    if DeserializeOperation(s) == Ok(op) {
      assert "REMOVE" + "|" == "REMOVE|" <= s;
      var tokens := Split(s, '|');
      KeywordToken("REMOVE", s);
      JoinOfTwo(tokens, '|');
      IdIsRead(tokens[1], op.target);
      assert tokens[1] in tokens;
    }
  }

  // ----- Messages -----

  ghost predicate LinesAre(text: string, lines: seq<string>)
  {
    lines != [] && (forall l | l in lines :: LineFree(l)) && text == JoinWith(lines, '\n')
  }

  function NonEmpty(lines: seq<string>): seq<string>
  {
    if lines == [] then []
    else
      var init, last := lines[..|lines| - 1], lines[|lines| - 1];
      NonEmpty(init) + if last == "" then [] else [last]
  }

  // The lines that are not empty are the operations, in order.
  ghost predicate AreOperations(lines: seq<string>, ops: seq<Operation>)
  {
    |NonEmpty(lines)| == |ops| && forall i | 0 <= i < |ops| :: ReadsAsOperation(NonEmpty(lines)[i], ops[i])
  }

  // The first line is the keyword and the second the sender; a payload is the third line, a history
  // all the lines from there on, and whatever else follows is ignored.
  ghost predicate LinesRead(lines: seq<string>, m: Message)
  {
    && |lines| >= 2 && lines[1] == m.sender
    && match m
       case Hello(_) => lines[0] == "HELLO"
       case HelloAck(_) => lines[0] == "HELLO_ACK"
       case SyncComplete(_) => lines[0] == "SYNC_COMPLETE"
       case OperationMessage(_, op) => lines[0] == "OPERATION" && |lines| >= 3 && ReadsAsOperation(lines[2], op)
       case CursorUpdate(_, position) => lines[0] == "CURSOR_UPDATE" && |lines| >= 3 && ReadsAsId(lines[2], position)
       case OpenDocument(_, d) => lines[0] == "OPEN_DOCUMENT" && |lines| >= 3 && lines[2] == d != ""
       case SyncResponse(_, history) => lines[0] == "SYNC_RESPONSE" && AreOperations(lines[2..], history)
       case SyncRequest(_) => false
  }

  ghost predicate ReadsAs(text: string, m: Message)
  {
    exists lines :: LinesAre(text, lines) && LinesRead(lines, m)
  }

  lemma LinesAreTokens(text: string, lines: seq<string>)
    ensures LinesAre(text, lines) <==> lines == Tokens(text, '\n')
  {
    if LinesAre(text, lines) {
      TokensOfJoin(lines, '\n');
    }
    JoinOfTokens(text, '\n');
    TokensAreClean(text, '\n');
    hide Tokens;
  }

  lemma {:induction false} HistoryIsRead(lines: seq<string>, ops: seq<Operation>)
    ensures ReadHistory(lines) == Ok(ops) <==> AreOperations(lines, ops)
  {
    hide DeserializeOperation;
    hide ReadsAsOperation;
    if lines != [] {
      var init, last := lines[..|lines| - 1], lines[|lines| - 1];
      if last == "" {
        HistoryIsRead(init, ops);
      } else if ops != [] {
        var n := |ops| - 1;
        HistoryIsRead(init, ops[..n]);
        OperationIsRead(last, ops[n]);
        assert ops == ops[..n] + [ops[n]];
        if AreOperations(lines, ops) {
          assert forall i | 0 <= i < n :: NonEmpty(init)[i] == NonEmpty(lines)[i];
          assert NonEmpty(lines)[n] == last;
        }
      }
    }
  }

  lemma EmptyIsNothing()
    ensures forall op :: !ReadsAsOperation("", op)
    ensures forall id :: !ReadsAsId("", id)
  {
  }

  // Exactly which texts are read as a message.
  lemma MessageIsRead(text: string, m: Message)
    ensures DeserializeMessage(text) == Ok(m) <==> ReadsAs(text, m)
  {
    var lines := Tokens(text, '\n');
    NoLines();
    LinesAreRead(lines, m);
    hide Tokens;
    hide ReadPayload;
    hide LinesRead;
    hide LinesAre;
    forall other ensures LinesAre(text, other) <==> other == lines {
      LinesAreTokens(text, other);
    }
    assert ReadsAs(text, m) <==> LinesRead(lines, m);
  }

  lemma LinesAreRead(lines: seq<string>, m: Message)
    ensures |lines| >= 2 && ReadPayload(lines[0], lines[1], lines) == Ok(m) <==> LinesRead(lines, m)
  {
    hide ReadsAsOperation;
    hide ReadsAsId;
    hide DeserializeOperation;
    hide DeserializeId;
    hide ReadHistory;
    hide AreOperations;
    EmptyIsNothing();
    match m
    case OperationMessage(_, op) =>
      if |lines| >= 3 {
        OperationIsRead(lines[2], op);
      }
    case CursorUpdate(_, position) =>
      if |lines| >= 3 {
        IdIsRead(lines[2], position);
      }
    case SyncResponse(_, history) =>
      if |lines| >= 2 {
        HistoryIsRead(lines[2..], history);
      }
    case _ =>
  }

  lemma NoLines()
    ensures Tokens("", '\n') == [""]
  {
  }

  // ----- What is written -----

  lemma PlainText(m: Message, keyword: string)
    requires Payload(m) == "" && TypeName(m) + "\n" == keyword
    ensures SerializeMessage(m) == keyword + m.sender + "\n"
  {
    hide TypeName;
    hide Payload;
    assert keyword + m.sender + "\n" + "" == keyword + m.sender + "\n";
  }

  // Every text of a message without payload, spelled out.
  lemma PlainMessagesAreWritten(sender: string)
    ensures SerializeMessage(Hello(sender)) == "HELLO\n" + sender + "\n"
    ensures SerializeMessage(HelloAck(sender)) == "HELLO_ACK\n" + sender + "\n"
    ensures SerializeMessage(SyncRequest(sender)) == "SYNC_REQUEST\n" + sender + "\n"
    ensures SerializeMessage(SyncComplete(sender)) == "SYNC_COMPLETE\n" + sender + "\n"
    ensures SerializeMessage(SyncResponse(sender, [])) == "SYNC_RESPONSE\n" + sender + "\n"
  {
    PlainText(Hello(sender), "HELLO\n");
    PlainText(HelloAck(sender), "HELLO_ACK\n");
    PlainText(SyncRequest(sender), "SYNC_REQUEST\n");
    PlainText(SyncComplete(sender), "SYNC_COMPLETE\n");
    PlainText(SyncResponse(sender, []), "SYNC_RESPONSE\n");
    hide SerializeMessage;
  }

  // The other messages; each operation of a history ends its line.
  lemma PayloadsAreWritten(
    sender: string, op: Operation, history: seq<Operation>, position: ElementID, d: DocumentID)
    ensures SerializeMessage(OpenDocument(sender, d)) == "OPEN_DOCUMENT\n" + sender + "\n" + d
    ensures SerializeMessage(OperationMessage(sender, op)) == "OPERATION\n" + sender + "\n" + SerializeOperation(op)
    ensures SerializeMessage(CursorUpdate(sender, position)) ==
            "CURSOR_UPDATE\n" + sender + "\n" + SerializeId(position)
    ensures SerializeMessage(SyncResponse(sender, history + [op])) ==
            SerializeMessage(SyncResponse(sender, history)) + SerializeOperation(op) + "\n"
  {
    hide SerializeOperation;
    hide SerializeId;
    assert "OPEN_DOCUMENT" + "\n" == "OPEN_DOCUMENT\n" && "OPERATION" + "\n" == "OPERATION\n";
    assert "CURSOR_UPDATE" + "\n" == "CURSOR_UPDATE\n";
    HistoryGrows(history, op);
    hide SerializeHistory;
    hide TypeName;
    var head := "SYNC_RESPONSE" + "\n" + sender + "\n";
    AppendTwo(head, SerializeHistory(history), SerializeOperation(op), "\n");
  }

  lemma AppendTwo(a: string, b: string, c: string, d: string)
    ensures a + (b + c + d) == a + b + c + d
  {
  }

  // What is written for an operation: its clocks and its character code as numerals.
  lemma OperationIsWritten(op: Operation, a: string, b: string, c: string)
    ensures match op
            case Insert(parent, id, ch) =>
              IsNumeral(a, parent.lamport) && IsNumeral(b, id.lamport) && IsNumeral(c, ch as int) ==>
                SerializeOperation(op) == "INSERT|" + a + "," + parent.siteId + "|" + b + "," + id.siteId + "|" + c
            case Remove(target) =>
              IsNumeral(a, target.lamport) ==> SerializeOperation(op) == "REMOVE|" + a + "," + target.siteId
  {
    hide IsNumeral;
    hide Print;
    match op
    case Insert(parent, id, ch) =>
      PrintIsNumeral(a, parent.lamport);
      PrintIsNumeral(b, id.lamport);
      PrintIsNumeral(c, ch as int);
      InsertText(parent, id, ch);
    case Remove(target) =>
      PrintIsNumeral(a, target.lamport);
      AppendFour("REMOVE|", Print(target.lamport), ",", target.siteId, "");
  }

  lemma InsertText(parent: ElementID, id: ElementID, ch: char)
    ensures SerializeOperation(Insert(parent, id, ch)) ==
            "INSERT|" + Print(parent.lamport) + "," + parent.siteId + "|" + Print(id.lamport) + "," + id.siteId + "|"
            + Print(ch as int)
  {
    hide Print;
    var head, p, i := "INSERT|", Print(parent.lamport), Print(id.lamport);
    AppendFour(head, p, ",", parent.siteId, "|");
    AppendFour(head + p + "," + parent.siteId + "|", i, ",", id.siteId, "|");
  }

  lemma AppendFour(a: string, b: string, c: string, d: string, e: string)
    ensures a + (b + c + d) == a + b + c + d
    ensures a + (b + c + d) + e == a + b + c + d + e
  {
  }

  // The text begins with these lines.
  predicate BeginsWith(text: string, head: string)
  {
    text == head || head + "\n" <= text
  }

  lemma TwoLinesFirst(text: string, keyword: string, sender: string)
    requires LineFree(keyword) && LineFree(sender)
    ensures var lines := Tokens(text, '\n');
            BeginsWith(text, keyword + "\n" + sender) <==> |lines| >= 2 && lines[0] == keyword && lines[1] == sender
  {
    var lines, head := Tokens(text, '\n'), keyword + "\n" + sender;
    JoinOfTokens(text, '\n');
    if text == head {
      TokensOfOne(sender, '\n');
      TokensOfPart(keyword, '\n', sender);
    } else if head + "\n" <= text {
      ThreeParts(text, keyword, sender, text[|head| + 1..]);
    }
    hide Tokens;
    if |lines| >= 2 && lines[0] == keyword && lines[1] == sender {
      JoinBegins(lines);
    }
  }

  lemma ThreeParts(text: string, keyword: string, sender: string, rest: string)
    requires LineFree(keyword) && LineFree(sender) && text == keyword + "\n" + sender + "\n" + rest
    ensures var lines := Tokens(text, '\n'); |lines| >= 2 && lines[0] == keyword && lines[1] == sender
  {
    TokensOfPart(sender, '\n', rest);
    TokensOfPart(keyword, '\n', sender + "\n" + rest);
    assert text == keyword + "\n" + (sender + "\n" + rest);
    hide Tokens;
  }

  lemma JoinUnfolds(lines: seq<string>)
    requires |lines| >= 2
    ensures JoinWith(lines, '\n') == lines[0] + "\n" + JoinWith(lines[1..], '\n')
  {
  }

  lemma JoinBegins(lines: seq<string>)
    requires |lines| >= 2
    ensures BeginsWith(JoinWith(lines, '\n'), lines[0] + "\n" + lines[1])
  {
    hide JoinWith;
    if |lines| == 2 {
      JoinOfTwo(lines, '\n');
    } else {
      var rest := JoinWith(lines[1..][1..], '\n');
      JoinUnfolds(lines);
      JoinUnfolds(lines[1..]);
      AppendTwo(lines[0] + "\n", lines[1], "\n", rest);
      assert JoinWith(lines, '\n') == lines[0] + "\n" + lines[1] + "\n" + rest;
    }
  }

  lemma ReadsFirstLines(text: string, m: Message)
    requires m.Hello? || m.HelloAck? || m.SyncComplete?
    ensures var lines := Tokens(text, '\n');
            DeserializeMessage(text) == Ok(m) <==> |lines| >= 2 && lines[0] == TypeName(m) && lines[1] == m.sender
  {
    NoLines();
    hide Tokens;
    hide ReadHistory;
    hide DeserializeOperation;
    hide DeserializeId;
  }

  // A message without payload is read from its first two lines alone. So the newline that ends its
  // text is the only character that can be left out: no shorter text but that one is read as it.
  lemma LastNewlineIsSpare(text: string, m: Message)
    requires LineFree(m.sender) && (m.Hello? || m.HelloAck? || m.SyncComplete?)
    ensures var written := SerializeMessage(m);
            && (DeserializeMessage(text) == Ok(m) <==> BeginsWith(text, written[..|written| - 1]))
            && (DeserializeMessage(text) == Ok(m) && |text| < |written| <==> text == written[..|written| - 1])
  {
    var keyword := TypeName(m);
    var head := keyword + "\n" + m.sender;
    TypeNameIsOneLine(m);
    assert SerializeMessage(m) == head + "\n" && SerializeMessage(m)[..|head|] == head;
    TwoLinesFirst(text, keyword, m.sender);
    ReadsFirstLines(text, m);
    hide DeserializeMessage;
    hide SerializeMessage;
    hide Tokens;
  }
}
