// Length-prefixed frames on a byte stream.
module Framing {
  import opened Wrappers

  const HEADER_SIZE: nat := 4
  const MAX_MESSAGE_SIZE: nat := 1024 * 1024
  const UINT32_MAX: nat := 0xFFFF_FFFF

  // Four bytes, most significant first.
  function EncodeLength(length: nat): (header: string)
    requires length <= UINT32_MAX
    ensures |header| == HEADER_SIZE
  {
    [(length / 0x100_0000 % 256) as char,
     (length / 0x1_0000 % 256) as char,
     (length / 0x100 % 256) as char,
     (length % 256) as char]
  }

  function DecodeLength(header: string): nat
    requires |header| == HEADER_SIZE
  {
    header[0] as nat * 0x100_0000 + header[1] as nat * 0x1_0000 + header[2] as nat * 0x100 + header[3] as nat
  }

  lemma LengthRoundTrip(length: nat)
    requires length <= UINT32_MAX
    ensures DecodeLength(EncodeLength(length)) == length
  {
    assert length / 0x1_0000 == length / 0x100 / 0x100;
    assert length / 0x100_0000 == length / 0x1_0000 / 0x100;
  }

  // The header is the length in base 256, most significant digit first; nothing else is read or
  // written as it.
  lemma HeaderIsBigEndian(a: nat, b: nat, c: nat, d: nat)
    requires a < 256 && b < 256 && c < 256 && d < 256
    ensures var length := a * 16777216 + b * 65536 + c * 256 + d;
            && length <= 4294967295 && EncodeLength(length) == [a as char, b as char, c as char, d as char]
            && DecodeLength([a as char, b as char, c as char, d as char]) == length
  {
    var length := a * 16777216 + b * 65536 + c * 256 + d;
    assert length / 256 == a * 65536 + b * 256 + c;
    assert length / 65536 == a * 256 + b && length / 16777216 == a;
  }

  predicate AllBytes(s: string)
  {
    forall i | 0 <= i < |s| :: s[i] as int < 256
  }

  lemma HeaderIsKnown(header: string)
    requires |header| == HEADER_SIZE && AllBytes(header)
    ensures DecodeLength(header) <= UINT32_MAX && EncodeLength(DecodeLength(header)) == header
  {
    HeaderIsBigEndian(header[0] as nat, header[1] as nat, header[2] as nat, header[3] as nat);
  }

  function FrameMessage(message: string): (r: Result<string>)
    ensures r.Ok? <==> |message| <= 4294967295
    ensures r.Ok? ==> |r.value| == 4 + |message| && r.value[4..] == message
  {
    if |message| > UINT32_MAX then Throws("Message is to large to frame")
    else Ok(EncodeLength(|message|) + message)
  }

  // What a connection does with its incoming bytes: header, size check, body, again. It ends
  // either waiting for more bytes or disconnected by an oversized header.
  datatype Reading = Reading(messages: seq<string>, disconnected: bool, rest: string)

  function ReadStream(bytes: string): Reading
  {
    if |bytes| < HEADER_SIZE then Reading([], false, bytes)
    else
      var length := DecodeLength(bytes[..HEADER_SIZE]);
      if length > MAX_MESSAGE_SIZE then Reading([], true, bytes)
      else if |bytes| < HEADER_SIZE + length then Reading([], false, bytes)
      else
        var next := ReadStream(bytes[HEADER_SIZE + length..]);
        next.(messages := [bytes[HEADER_SIZE..HEADER_SIZE + length]] + next.messages)
  }

  function WriteStream(messages: seq<string>): string
    requires forall m | m in messages :: |m| <= UINT32_MAX
  {
    if messages == [] then ""
    else
      assert messages[0] in messages;
      assert forall m | m in messages[1..] :: m in messages;
      FrameMessage(messages[0]).value + WriteStream(messages[1..])
  }

  lemma ReadFrame(message: string, more: string)
    requires |message| <= UINT32_MAX
    ensures var r := ReadStream(FrameMessage(message).value + more);
            if |message| > MAX_MESSAGE_SIZE then r.messages == [] && r.disconnected
            else r == ReadStream(more).(messages := [message] + ReadStream(more).messages)
  {
    var bytes := EncodeLength(|message|) + message + more;
    LengthRoundTrip(|message|);
    assert FrameMessage(message).value + more == bytes;
    assert bytes[..HEADER_SIZE] == EncodeLength(|message|);
    assert bytes[HEADER_SIZE..HEADER_SIZE + |message|] == message;
    assert bytes[HEADER_SIZE + |message|..] == more;
  }

  lemma StreamUnfolds(messages: seq<string>, more: string)
    requires messages != [] && forall m | m in messages :: |m| <= UINT32_MAX
    ensures messages[0] in messages && forall m | m in messages[1..] :: m in messages
    ensures WriteStream(messages) + more == FrameMessage(messages[0]).value + (WriteStream(messages[1..]) + more)
  {
    hide FrameMessage;
    assert messages[0] in messages;
  }

  // The reader delivers exactly the written messages, in order, and waits for more.
  lemma {:induction false} StreamRoundTrip(messages: seq<string>, more: string)
    requires forall m | m in messages :: |m| <= 1048576
    ensures ReadStream(WriteStream(messages) + more) ==
            ReadStream(more).(messages := messages + ReadStream(more).messages)
  {
    hide ReadStream;
    if messages == [] {
      assert "" + more == more;
    } else {
      hide *;
      StreamUnfolds(messages, more);
      StreamRoundTrip(messages[1..], more);
      ReadFrame(messages[0], WriteStream(messages[1..]) + more);
      HeadFirst(messages, ReadStream(more).messages);
    }
  }

  lemma HeadFirst<T>(xs: seq<T>, ys: seq<T>)
    requires xs != []
    ensures [xs[0]] + (xs[1..] + ys) == xs + ys
  {
  }

  // An oversized frame disconnects the reader after the messages before it; the limit is one
  // mebibyte.
  lemma OversizedFrameStops(messages: seq<string>, big: string, more: string)
    requires forall m | m in messages :: |m| <= 1048576
    requires 1048576 < |big| <= 4294967295
    ensures var r := ReadStream(WriteStream(messages) + (FrameMessage(big).value + more));
            r.messages == messages && r.disconnected
  {
    ReadFrame(big, more);
    StreamRoundTrip(messages, FrameMessage(big).value + more);
  }

  // ----- Bytes that arrive bit by bit -----

  // A header of more than one mebibyte; a frame that is not complete.
  predicate Oversized(bytes: string)
  {
    |bytes| >= 4 && DecodeLength(bytes[..4]) > 1048576
  }

  predicate Incomplete(bytes: string)
  {
    |bytes| < 4 || (DecodeLength(bytes[..4]) <= 1048576 && |bytes| < 4 + DecodeLength(bytes[..4]))
  }

  function FirstEnd(bytes: string): nat
    requires |bytes| >= 4
  {
    4 + DecodeLength(bytes[..4])
  }

  lemma StopsAt(rest: string)
    ensures Oversized(rest) ==> ReadStream(rest) == Reading([], true, rest)
    ensures Incomplete(rest) ==> ReadStream(rest) == Reading([], false, rest)
  {
  }

  lemma ReadsFirst(bytes: string)
    requires !Oversized(bytes) && !Incomplete(bytes)
    ensures var end := FirstEnd(bytes);
            && 4 <= end <= |bytes| && end - 4 <= 1048576
            && var next := ReadStream(bytes[end..]);
               ReadStream(bytes) == next.(messages := [bytes[4..end]] + next.messages)
  {
  }

  lemma SameFirst(first: string, more: string)
    requires !Incomplete(first)
    ensures Oversized(first + more) <==> Oversized(first)
    ensures !Incomplete(first + more) && FirstEnd(first + more) == FirstEnd(first)
  {
    assert (first + more)[..4] == first[..4];
  }

  // However the bytes are cut on their way, reading goes on where it stopped; a reader that has hung
  // up delivers nothing more.
  lemma {:induction false} ReadingGoesOn(first: string, more: string)
    ensures var r, all := ReadStream(first), ReadStream(first + more);
            if r.disconnected then all == r.(rest := r.rest + more)
            else var rest := ReadStream(r.rest + more); all == rest.(messages := r.messages + rest.messages)
    decreases |first|
  {
    hide *;
    StopsAt(first);
    if Incomplete(first) {
      NothingBefore(ReadStream(first + more));
    } else {
      SameFirst(first, more);
      StopsAt(first + more);
      if !Oversized(first) {
        ReadsFirst(first);
        ReadsFirst(first + more);
        var end := FirstEnd(first);
        assert (first + more)[end..] == first[end..] + more && (first + more)[4..end] == first[4..end];
        ReadingGoesOn(first[end..], more);
        var r := ReadStream(first[end..]);
        OneMoreBefore([first[4..end]], r.messages, ReadStream(r.rest + more));
      }
    }
  }

  lemma NothingBefore(r: Reading)
    ensures r.(messages := [] + r.messages) == r
  {
    assert [] + r.messages == r.messages;
  }

  lemma OneMoreBefore(a: seq<string>, b: seq<string>, r: Reading)
    ensures a + (b + r.messages) == a + b + r.messages
  {
  }

  // Frames of at most one mebibyte never make the reader hang up, however few of their bytes have
  // arrived; it delivers the messages that are complete and waits.
  lemma PartOfAStreamIsWaitedFor(messages: seq<string>, k: nat)
    requires (forall m | m in messages :: |m| <= 1048576) && k <= |WriteStream(messages)|
    ensures var r := ReadStream(WriteStream(messages)[..k]); !r.disconnected && r.messages <= messages
  {
    hide ReadStream;
    hide WriteStream;
    var stream := WriteStream(messages);
    assert stream[..k] + stream[k..] == stream == stream + "";
    StreamRoundTrip(messages, "");
    StopsAt("");
    assert messages + [] == messages;
    ReadingGoesOn(stream[..k], stream[k..]);
  }

  // The bytes are frames of these messages, all within the limit, and what follows them is an
  // oversized header or the beginning of a frame.
  ghost predicate IsReading(bytes: string, r: Reading)
  {
    && (forall m | m in r.messages :: |m| <= 1048576)
    && bytes == WriteStream(r.messages) + r.rest
    && if r.disconnected then Oversized(r.rest) else Incomplete(r.rest)
  }

  // What the reader delivers and where it stops is settled by the bytes, in this way and no other.
  lemma {:induction false} ReadingIsExact(bytes: string, r: Reading)
    requires AllBytes(bytes)
    ensures ReadStream(bytes) == r <==> IsReading(bytes, r)
  {
    if IsReading(bytes, r) {
      StopsAt(r.rest);
      StreamRoundTrip(r.messages, r.rest);
      assert r.messages + [] == r.messages;
    } else {
      ReadStreamReads(bytes);
    }
  }

  lemma OneMoreRead(bytes: string, next: Reading)
    requires AllBytes(bytes) && !Oversized(bytes) && !Incomplete(bytes) && IsReading(bytes[FirstEnd(bytes)..], next)
    ensures IsReading(bytes, next.(messages := [bytes[4..FirstEnd(bytes)]] + next.messages))
  {
    hide ReadStream;
    hide WriteStream;
    hide DecodeLength;
    var end := FirstEnd(bytes);
    var messages := [bytes[4..end]] + next.messages;
    HeaderIsKnown(bytes[..4]);
    assert messages[1..] == next.messages && bytes[..4] + bytes[4..end] + bytes[end..] == bytes;
    StreamUnfolds(messages, next.rest);
    hide EncodeLength;
    assert |bytes[4..end]| == DecodeLength(bytes[..4]);
    assert FrameMessage(messages[0]).value == bytes[..4] + bytes[4..end];
  }

  lemma {:induction false} ReadStreamReads(bytes: string)
    requires AllBytes(bytes)
    ensures IsReading(bytes, ReadStream(bytes))
    decreases |bytes|
  {
    hide ReadStream;
    hide IsReading;
    StopsAt(bytes);
    if Oversized(bytes) || Incomplete(bytes) {
      StoppedReading(bytes);
    } else {
      ReadsFirst(bytes);
      hide Oversized;
      hide Incomplete;
      ReadStreamReads(bytes[FirstEnd(bytes)..]);
      OneMoreRead(bytes, ReadStream(bytes[FirstEnd(bytes)..]));
    }
  }

  lemma StoppedReading(bytes: string)
    ensures Oversized(bytes) ==> IsReading(bytes, Reading([], true, bytes))
    ensures Incomplete(bytes) ==> IsReading(bytes, Reading([], false, bytes))
  {
    assert WriteStream([]) + bytes == bytes;
  }
}
