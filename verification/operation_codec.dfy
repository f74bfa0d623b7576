// Identifiers and operations as text.
module OperationCodec {
  import opened Wrappers
  import opened ElementIds
  import opened Operations
  import opened TextCodec

  function SerializeId(id: ElementID): string
  {
    Print(id.lamport) + "," + id.siteId
  }

  // The part before the first comma is the clock, the rest is the site.
  function DeserializeId(s: string): Result<ElementID>
  {
    var comma := FirstComma(s);
    if comma == |s| then Throws("Malformed PositionComponent")
    else
      match ParseNat(s[..comma])
      case Throws(why) => Throws(why)
      case Ok(lamport) => Ok(ElementID(lamport, s[comma + 1..]))
  }

  function FirstComma(s: string): (i: nat)
    ensures i <= |s|
    ensures i < |s| ==> s[i] == ','
    ensures ',' !in s[..i]
  {
    if s == "" || s[0] == ',' then 0 else 1 + FirstComma(s[1..])
  }

  function SerializeOperation(op: Operation): string
  {
    match op
    case Insert(parent, id, ch) =>
      "INSERT|" + SerializeId(parent) + "|" + SerializeId(id) + "|" + Print(ch as int)
    case Remove(target) => "REMOVE|" + SerializeId(target)
  }

  // The character code is read as an unsigned long and narrowed to 32 bits before the check.
  function ParseInsert(tokens: seq<string>): Result<Operation>
  {
    if |tokens| != 4 then Throws("serialized insert operation does not have a singleton character.")
    else
      match (DeserializeId(tokens[1]), DeserializeId(tokens[2]), ParseNat(tokens[3]))
      case (Ok(parent), Ok(id), Ok(code)) =>
        if code % 0x1_0000_0000 > 255 then Throws("serialized character value is out of range")
        else Ok(Insert(parent, id, (code % 0x1_0000_0000) as char))
      case _ => Throws("Malformed insert")
  }

  function ParseRemove(tokens: seq<string>): Result<Operation>
  {
    if |tokens| != 2 then Throws("serialized insert operation is incorrect.")
    else
      match DeserializeId(tokens[1])
      case Ok(target) => Ok(Remove(target))
      case Throws(why) => Throws(why)
  }

  function DeserializeOperation(s: string): Result<Operation>
  {
    if s == "" then Throws("nothing passed to deserialize.")
    else if "INSERT|" <= s then ParseInsert(Split(s, '|'))
    else if "REMOVE|" <= s then ParseRemove(Split(s, '|'))
    else Throws("serialized operation has failed")
  }

  method Deserialize(s: string) returns (r: Result<Operation>)
    ensures r == DeserializeOperation(s)
  {
    if s == "" {
      return Throws("nothing passed to deserialize.");
    }
    if "INSERT|" <= s {
      var tokens := SplitTokens(s, '|');
      return ParseInsert(tokens);
    }
    if "REMOVE|" <= s {
      var tokens := SplitTokens(s, '|');
      return ParseRemove(tokens);
    }
    return Throws("serialized operation has failed");
  }

  // Identifiers the text format can carry: a 64-bit clock, and a site without the delimiter.
  predicate CleanId(id: ElementID)
  {
    id.lamport < TWO_64 && '|' !in id.siteId
  }

  predicate Clean(op: Operation)
  {
    match op
    case Insert(parent, id, ch) => CleanId(parent) && CleanId(id) && ch as int < 256
    case Remove(target) => CleanId(target)
  }

  lemma {:induction false} FirstCommaAfter(a: string, rest: string)
    requires ',' !in a
    ensures FirstComma(a + "," + rest) == |a|
  {
    if a != "" {
      assert (a + "," + rest)[1..] == a[1..] + "," + rest;
      FirstCommaAfter(a[1..], rest);
    }
  }

  lemma IdRoundTrip(id: ElementID)
    requires id.lamport < TWO_64
    ensures DeserializeId(SerializeId(id)) == Ok(id)
  {
    var s, clock := SerializeId(id), Print(id.lamport);
    FirstCommaAfter(clock, id.siteId);
    ParsePrinted(id.lamport);
    assert s[..|clock|] == clock && s[|clock| + 1..] == id.siteId;
  }

  lemma IdHasNoBar(id: ElementID)
    requires '|' !in id.siteId
    ensures '|' !in SerializeId(id)
  {
  }

  lemma TokensOfInsert(parent: ElementID, id: ElementID, ch: char)
    requires '|' !in parent.siteId && '|' !in id.siteId
    ensures Split(SerializeOperation(Insert(parent, id, ch)), '|') ==
            ["INSERT", SerializeId(parent), SerializeId(id), Print(ch as int)]
  {
    IdHasNoBar(parent);
    IdHasNoBar(id);
    var a, b, c := SerializeId(parent), SerializeId(id), Print(ch as int);
    var s := "INSERT|" + a + "|" + b + "|" + c;
    TokensOfOne(c, '|');
    TokensOfPart(b, '|', c);
    TokensOfPart(a, '|', b + "|" + c);
    TokensOfPart("INSERT", '|', a + "|" + (b + "|" + c));
    assert s == "INSERT" + "|" + (a + "|" + (b + "|" + c));
  }

  lemma TokensOfRemove(target: ElementID)
    requires '|' !in target.siteId
    ensures Split(SerializeOperation(Remove(target)), '|') == ["REMOVE", SerializeId(target)]
  {
    IdHasNoBar(target);
    TokensOfOne(SerializeId(target), '|');
    TokensOfPart("REMOVE", '|', SerializeId(target));
    assert "REMOVE|" + SerializeId(target) == "REMOVE" + "|" + SerializeId(target);
  }

  // Reading back a written operation gives the operation.
  lemma OperationRoundTrip(op: Operation)
    requires Clean(op)
    ensures DeserializeOperation(SerializeOperation(op)) == Ok(op)
  {
    match op
    case Insert(parent, id, ch) => InsertRoundTrip(parent, id, ch);
    case Remove(target) => RemoveRoundTrip(target);
  }

  lemma InsertRoundTrip(parent: ElementID, id: ElementID, ch: char)
    requires Clean(Insert(parent, id, ch))
    ensures DeserializeOperation(SerializeOperation(Insert(parent, id, ch))) == Ok(Insert(parent, id, ch))
  {
    hide Split;
    hide SerializeId;
    hide DeserializeId;
    hide ParseNat;
    hide Print;
    TokensOfInsert(parent, id, ch);
    IdRoundTrip(parent);
    IdRoundTrip(id);
    ParsePrinted(ch as int);
    assert "INSERT|" <= SerializeOperation(Insert(parent, id, ch));
  }

  lemma RemoveRoundTrip(target: ElementID)
    requires Clean(Remove(target))
    ensures DeserializeOperation(SerializeOperation(Remove(target))) == Ok(Remove(target))
  {
    TokensOfRemove(target);
    IdRoundTrip(target);
    hide Split;
    hide SerializeId;
    hide DeserializeId;
    var s := SerializeOperation(Remove(target));
    assert s[0] == 'R' && "INSERT|"[0] == 'I';
    assert "REMOVE|" <= s;
  }

  // No site the operation names holds this character.
  predicate SitesLack(op: Operation, c: char)
  {
    match op
    case Insert(parent, id, _) => c !in parent.siteId && c !in id.siteId
    case Remove(target) => c !in target.siteId
  }

  // Sites without the delimiter are enough to tell operations apart, whatever the clock.
  predicate BarFree(op: Operation)
  {
    SitesLack(op, '|')
  }

  lemma IdTextIsInjective(a: ElementID, b: ElementID)
    requires SerializeId(a) == SerializeId(b)
    ensures a == b
  {
    FirstCommaAfter(Print(a.lamport), a.siteId);
    FirstCommaAfter(Print(b.lamport), b.siteId);
    var s := SerializeId(a);
    assert s[..FirstComma(s)] == Print(a.lamport) == Print(b.lamport);
    assert s[FirstComma(s) + 1..] == a.siteId == b.siteId;
    ValueOfPrint(a.lamport);
    ValueOfPrint(b.lamport);
  }

  lemma TokensOfOperation(op: Operation)
    requires BarFree(op)
    ensures Tokens(SerializeOperation(op), '|') ==
            match op
            case Insert(parent, id, ch) => ["INSERT", SerializeId(parent), SerializeId(id), Print(ch as int)]
            case Remove(target) => ["REMOVE", SerializeId(target)]
  {
    match op
    case Insert(parent, id, ch) => TokensOfInsert(parent, id, ch);
    case Remove(target) => TokensOfRemove(target);
  }

  // Duplicate detection by text is duplicate detection by value.
  lemma SerializationIsInjective(a: Operation, b: Operation)
    requires BarFree(a) && BarFree(b) && SerializeOperation(a) == SerializeOperation(b)
    ensures a == b
  {
    TokensOfOperation(a);
    TokensOfOperation(b);
    hide SerializeId;
    hide SerializeOperation;
    hide Tokens;
    hide Print;
    var text := Tokens(SerializeOperation(a), '|');
    assert |text| == (if a.Insert? then 4 else 2) == (if b.Insert? then 4 else 2);
    if a.Insert? {
      IdTextIsInjective(a.parent, b.parent);
      IdTextIsInjective(a.id, b.id);
      ValueOfPrint(a.ch as int);
      ValueOfPrint(b.ch as int);
    } else {
      IdTextIsInjective(a.target, b.target);
    }
  }

  // Whatever is read is clean, and names no character its text does not hold.
  lemma DeserializedIsClean(s: string)
    ensures var r := DeserializeOperation(s);
            r.Ok? ==> Clean(r.value) && forall c | c !in s :: SitesLack(r.value, c)
  {
    var tokens := Split(s, '|');
    if s != "" {
      TokensAreClean(s, '|');
      forall i | 0 <= i < |tokens| && DeserializeId(tokens[i]).Ok?
        ensures CleanId(DeserializeId(tokens[i]).value) && forall c | c !in s ::
                c !in DeserializeId(tokens[i]).value.siteId
      {
        assert tokens[i] in tokens;
        DeserializedIdIsClean(tokens[i]);
        forall c | c !in s ensures c !in DeserializeId(tokens[i]).value.siteId {
          TokensLack(s, '|', c);
        }
      }
      hide DeserializeId;
      hide Split;
    }
  }

  lemma DeserializedIdIsClean(s: string)
    ensures DeserializeId(s).Ok? ==>
              && DeserializeId(s).value.lamport < TWO_64
              && forall c | c in DeserializeId(s).value.siteId :: c in s
    ensures '|' !in s && DeserializeId(s).Ok? ==> CleanId(DeserializeId(s).value)
  {
    var i := FirstComma(s);
    if i < |s| {
      assert forall c | c in s[i + 1..] :: c in s;
    }
  }

  // ----- Names that hold a bar -----

  function Bars(s: string): nat
  {
    multiset(s)['|']
  }

  lemma BarsAdd(a: string, b: string)
    ensures Bars(a + b) == Bars(a) + Bars(b)
  {
  }

  lemma BarFreeText(s: string)
    ensures Bars(s) == 0 <==> '|' !in s
  {
    assert '|' in s <==> '|' in multiset(s);
  }

  lemma BarsInId(id: ElementID)
    ensures Bars(SerializeId(id)) == Bars(id.siteId)
  {
    hide Bars;
    BarFreeText(Print(id.lamport));
    BarFreeText(",");
    BarsAdd(Print(id.lamport), ",");
    BarsAdd(Print(id.lamport) + ",", id.siteId);
  }

  lemma BarsInKeywords()
    ensures Bars("INSERT|") == 1 && Bars("REMOVE|") == 1 && Bars("|") == 1
  {
    assert "INSERT|" == "INSERT" + "|" && "REMOVE|" == "REMOVE" + "|";
    BarFreeText("INSERT");
    BarFreeText("REMOVE");
    BarsAdd("INSERT", "|");
    BarsAdd("REMOVE", "|");
    assert Bars("|") == 1;
    hide Bars;
  }

  lemma BarsInText(op: Operation)
    ensures Bars(SerializeOperation(op)) ==
            match op
            case Insert(parent, id, _) => 3 + Bars(parent.siteId) + Bars(id.siteId)
            case Remove(target) => 1 + Bars(target.siteId)
  {
    hide Bars;
    hide SerializeId;
    BarsInKeywords();
    match op {
      case Insert(parent, id, ch) =>
        BarsInId(parent);
        BarsInId(id);
        BarFreeText(Print(ch as int));
        var p, i, c := SerializeId(parent), SerializeId(id), Print(ch as int);
        BarsAdd("INSERT|", p);
        BarsAdd("INSERT|" + p, "|");
        BarsAdd("INSERT|" + p + "|", i);
        BarsAdd("INSERT|" + p + "|" + i, "|");
        BarsAdd("INSERT|" + p + "|" + i + "|", c);
      case Remove(target) =>
        BarsInId(target);
        BarsAdd("REMOVE|", SerializeId(target));
    }
  }

  lemma Keyword(op: Operation)
    ensures var s := SerializeOperation(op);
            s != "" && ("INSERT|" <= s <==> op.Insert?) && ("REMOVE|" <= s <==> op.Remove?)
  {
    hide SerializeId;
    hide Print;
    var s := SerializeOperation(op);
    assert "INSERT|"[0] == 'I' && "REMOVE|"[0] == 'R';
    assert s[0] == if op.Insert? then 'I' else 'R';
  }

  // An operation that names a site with a bar is refused by every reader: its text has too many
  // tokens.
  lemma BarIsRefused(op: Operation)
    requires !BarFree(op)
    ensures DeserializeOperation(SerializeOperation(op)).Throws?
  {
    hide Bars;
    hide SerializeOperation;
    hide Tokens;
    hide DeserializeId;
    hide ParseNat;
    BarsInText(op);
    Keyword(op);
    BarredTokens(SerializeOperation(op));
    match op {
      case Insert(parent, id, _) =>
        BarFreeText(parent.siteId);
        BarFreeText(id.siteId);
      case Remove(target) =>
        BarFreeText(target.siteId);
    }
  }

  lemma BarredTokens(s: string)
    ensures |Tokens(s, '|')| == 1 + Bars(s)
  {
    TokenCount(s, '|');
  }

  lemma UncleanIsRefused(op: Operation)
    requires BarFree(op) && !Clean(op)
    ensures DeserializeOperation(SerializeOperation(op)).Throws?
  {
    hide SerializeOperation;
    hide SerializeId;
    hide DeserializeId;
    hide ParseNat;
    hide Print;
    hide Tokens;
    TokensOfOperation(op);
    Keyword(op);
    match op {
      case Insert(parent, id, ch) =>
        UncleanIdIsRefused(parent);
        UncleanIdIsRefused(id);
        ParsePrinted(ch as int);
      case Remove(target) =>
        UncleanIdIsRefused(target);
    }
  }

  lemma UncleanIdIsRefused(id: ElementID)
    ensures id.lamport < TWO_64 ==> DeserializeId(SerializeId(id)) == Ok(id)
    ensures id.lamport >= TWO_64 ==> DeserializeId(SerializeId(id)).Throws?
  {
    if id.lamport < TWO_64 {
      IdRoundTrip(id);
    } else {
      var s, clock := SerializeId(id), Print(id.lamport);
      FirstCommaAfter(clock, id.siteId);
      ParseTooLarge(id.lamport);
      assert s[..|clock|] == clock;
    }
  }

  // A written operation is read back as itself exactly when it is clean, and otherwise refused;
  // it is never read as another operation.
  lemma ReadBackOrRefused(op: Operation)
    ensures DeserializeOperation(SerializeOperation(op)) == Ok(op) <==> Clean(op)
    ensures DeserializeOperation(SerializeOperation(op)).Throws? <==> !Clean(op)
  {
    hide DeserializeOperation;
    hide SerializeOperation;
    if Clean(op) {
      OperationRoundTrip(op);
    } else if BarFree(op) {
      UncleanIsRefused(op);
    } else {
      BarIsRefused(op);
    }
  }

  // What a session of this site can hold: removals, inserts read from the wire, and its own
  // inserts under such elements.
  predicate OfSite(op: Operation, site: string)
  {
    op.Remove? || BarFree(op) || (op.id.siteId == site && (op.parent.siteId == site || '|' !in op.parent.siteId))
  }

  // Duplicate detection by text is duplicate detection by value in every session, whatever its
  // own name holds.
  lemma SessionTextsAreInjective(a: Operation, b: Operation, site: string)
    requires OfSite(a, site) && OfSite(b, site) && SerializeOperation(a) == SerializeOperation(b)
    ensures a == b
  {
    hide Bars;
    hide SerializeId;
    hide Print;
    BarsInText(a);
    BarsInText(b);
    Keyword(a);
    Keyword(b);
    if a.Remove? {
      var s := SerializeOperation(a);
      assert s[7..] == SerializeId(a.target) == SerializeId(b.target);
      IdTextIsInjective(a.target, b.target);
    } else if BarFree(a) && BarFree(b) {
      hide SerializeOperation;
      SerializationIsInjective(a, b);
    } else {
      hide SerializeOperation;
      BarCounts(a, site);
      BarCounts(b, site);
      OwnTextsAreInjective(a, b, site);
    }
  }

  lemma BarCounts(op: Operation, site: string)
    requires op.Insert? && OfSite(op, site)
    ensures Bars(op.parent.siteId) + Bars(op.id.siteId) ==
            if BarFree(op) then 0 else if op.parent.siteId == site then 2 * Bars(site) else Bars(site)
    ensures !BarFree(op) ==> Bars(site) > 0
    ensures !BarFree(op) && op.parent.siteId != site ==> '|' !in op.parent.siteId
  {
    hide Bars;
    BarFreeText(site);
    BarFreeText(op.parent.siteId);
    BarFreeText(op.id.siteId);
  }

  lemma OwnTextsAreInjective(a: Operation, b: Operation, site: string)
    requires a.Insert? && b.Insert? && a.id.siteId == b.id.siteId == site
    requires a.parent.siteId == b.parent.siteId == site || ('|' !in a.parent.siteId && '|' !in b.parent.siteId)
    requires SerializeOperation(a) == SerializeOperation(b)
    ensures a == b
  {
    hide Print;
    hide SerializeId;
    var x, y := AfterParent(a), AfterParent(b);
    assert SerializeOperation(a)[7..] == SerializeId(a.parent) + ("|" + x);
    assert SerializeOperation(b)[7..] == SerializeId(b.parent) + ("|" + y);
    hide SerializeOperation;
    if a.parent.siteId == site && b.parent.siteId == site {
      SameSite(a.parent, b.parent, "|" + x, "|" + y);
      assert ("|" + x)[1..] == x && ("|" + y)[1..] == y;
    } else {
      IdHasNoBar(a.parent);
      IdHasNoBar(b.parent);
      assert SerializeId(a.parent) + "|" + x == SerializeId(a.parent) + ("|" + x);
      assert SerializeId(b.parent) + "|" + y == SerializeId(b.parent) + ("|" + y);
      PartsAreKnown(SerializeId(a.parent), x, SerializeId(b.parent), y, '|');
      IdTextIsInjective(a.parent, b.parent);
    }
    var p, q := Print(a.ch as int), Print(b.ch as int);
    assert x == SerializeId(a.id) + ("|" + p) && y == SerializeId(b.id) + ("|" + q);
    SameSite(a.id, b.id, "|" + p, "|" + q);
    assert ("|" + p)[1..] == p && ("|" + q)[1..] == q;
    PrintIsInjective(a.ch as int, b.ch as int);
  }

  function AfterParent(op: Operation): string
    requires op.Insert?
  {
    SerializeId(op.id) + "|" + Print(op.ch as int)
  }

  // Two identifiers of one site, each followed by some text.
  lemma SameSite(a: ElementID, b: ElementID, x: string, y: string)
    requires a.siteId == b.siteId && SerializeId(a) + x == SerializeId(b) + y
    ensures a == b && x == y
  {
    var p, q, site := Print(a.lamport), Print(b.lamport), a.siteId;
    assert ',' !in p && ',' !in q;
    hide Print;
    assert p + [','] + (site + x) == SerializeId(a) + x && q + [','] + (site + y) == SerializeId(b) + y;
    PartsAreKnown(p, site + x, q, site + y, ',');
    PrintIsInjective(a.lamport, b.lamport);
    assert (site + x)[|site|..] == x && (site + y)[|site|..] == y;
  }
}
