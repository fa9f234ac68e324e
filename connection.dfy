/**
  One peer connection of p2p/connection.py: `send` frames each payload with the
  one-byte END_OF_MESSAGE terminator, and the receive loop of `run` cuts the
  incoming byte stream back into packets at each terminator and parses them.
  Sockets are replaced by what they report: whether `sendall` succeeded, and
  the sequence of chunks `recv` returned.
 */
module Connection {
  import opened Wrappers
  import opened Externals
  import opened Constants

  // ---------------------------------------------------------------------------
  // Framing

  /** The index of the first `b` in `s` at or after `from`, or -1. */
  function FindFrom(s: seq<Byte>, b: Byte, from: nat): (k: int)
    requires from <= |s|
    ensures k == -1 || from <= k < |s|
    ensures k == -1 <==> forall j :: from <= j < |s| ==> s[j] != b
    ensures k >= 0 ==> s[k] == b && forall j :: from <= j < k ==> s[j] != b
    decreases |s| - from
  {
    if from == |s| then -1
    else if s[from] == b then from
    else FindFrom(s, b, from + 1)
  }

  /** `s.find(b)`: the index of the first `b` in `s`, or -1. */
  function Find(s: seq<Byte>, b: Byte): (k: int)
    ensures -1 <= k < |s|
    ensures k == -1 <==> b !in s
    ensures k >= 0 ==> s[k] == b && forall j :: 0 <= j < k ==> s[j] != b
  {
    FindFrom(s, b, 0)
  }

  /** Each packet followed by the terminator, one after the other: what the sender wrote. */
  function Frame(packets: seq<seq<Byte>>): seq<Byte>
  {
    if packets == [] then [] else packets[0] + [END_OF_MESSAGE] + Frame(packets[1..])
  }

  /** No packet holds the terminator. */
  predicate Unframed(packets: seq<seq<Byte>>)
  {
    forall i :: 0 <= i < |packets| ==> END_OF_MESSAGE !in packets[i]
  }

  /** Putting one packet in front of others puts its frame in front of theirs. */
  lemma PrependPacket(packet: seq<Byte>, packets: seq<seq<Byte>>)
    ensures Frame([packet] + packets) == packet + [END_OF_MESSAGE] + Frame(packets)
    ensures forall i :: 0 < i < |packets| + 1 ==> ([packet] + packets)[i] == packets[i - 1]
  {
    assert ([packet] + packets)[1..] == packets;
  }

  /** Cutting at the terminator at `k` and re-framing gives the buffer back. */
  lemma SplitAtTerminator(buffer: seq<Byte>, k: int, framed: seq<Byte>, rest: seq<Byte>)
    requires 0 <= k < |buffer| && buffer[k] == END_OF_MESSAGE
    requires framed + rest == buffer[k + 1..]
    ensures buffer[..k] + [END_OF_MESSAGE] + framed + rest == buffer
  {
    calc {
      buffer[..k] + [END_OF_MESSAGE] + framed + rest;
      buffer[..k] + [END_OF_MESSAGE] + (framed + rest);
      buffer[..k] + [END_OF_MESSAGE] + buffer[k + 1..];
      buffer;
    }
  }

  /** The packets cut from a buffer and what is left of it. */
  datatype Cut = Cut(packets: seq<seq<Byte>>, rest: seq<Byte>)

  /**
    The extraction loop of `run` as written: cut at the first terminator while
    it sits at a position greater than 0.
   */
  function Extract(buffer: seq<Byte>): Cut
    decreases |buffer|
  {
    var k := Find(buffer, END_OF_MESSAGE);
    if k > 0 then
      var r := Extract(buffer[k + 1..]);
      Cut([buffer[..k]] + r.packets, r.rest)
    else Cut([], buffer)
  }

  /** Putting a packet without the terminator in front of unframed packets keeps them unframed. */
  lemma PrependUnframed(packet: seq<Byte>, packets: seq<seq<Byte>>)
    requires END_OF_MESSAGE !in packet && Unframed(packets)
    ensures Unframed([packet] + packets)
  {
    PrependPacket(packet, packets);
  }

  /** One level of the as-written extraction, when the first terminator sits past position 0. */
  lemma ExtractUnfold(buffer: seq<Byte>)
    requires Find(buffer, END_OF_MESSAGE) > 0
    ensures var k := Find(buffer, END_OF_MESSAGE);
            var r := Extract(buffer[k + 1..]);
            Extract(buffer) == Cut([buffer[..k]] + r.packets, r.rest)
  {
  }

  /**
    As written, extraction loses no byte and adds none: the packets, each
    followed by the terminator, and then the rest give the buffer back. The
    packets are non-empty and hold no terminator, and the rest holds no
    terminator except possibly at position 0.
   */
  lemma {:induction false} ExtractConserves(buffer: seq<Byte>)
    ensures var r := Extract(buffer);
            && Frame(r.packets) + r.rest == buffer
            && Unframed(r.packets)
            && (forall i :: 0 <= i < |r.packets| ==> |r.packets[i]| > 0)
            && Find(r.rest, END_OF_MESSAGE) <= 0
    decreases |buffer|
  {
    var k := Find(buffer, END_OF_MESSAGE);
    if k > 0 {
      var r := Extract(buffer[k + 1..]);
      ExtractConserves(buffer[k + 1..]);
      ExtractUnfold(buffer);
      PrependPacket(buffer[..k], r.packets);
      PrependUnframed(buffer[..k], r.packets);
      SplitAtTerminator(buffer, k, Frame(r.packets), r.rest);
    } else {
      assert Frame([]) + buffer == buffer;
    }
  }

  /** Extraction with the guard `>= 0`: cut at every terminator, wherever it sits. */
  function ExtractAll(buffer: seq<Byte>): Cut
    decreases |buffer|
  {
    var k := Find(buffer, END_OF_MESSAGE);
    if k >= 0 then
      var r := ExtractAll(buffer[k + 1..]);
      Cut([buffer[..k]] + r.packets, r.rest)
    else Cut([], buffer)
  }

  /** One level of the corrected extraction, when there is a terminator. */
  lemma ExtractAllUnfold(buffer: seq<Byte>)
    requires Find(buffer, END_OF_MESSAGE) >= 0
    ensures var k := Find(buffer, END_OF_MESSAGE);
            var r := ExtractAll(buffer[k + 1..]);
            ExtractAll(buffer) == Cut([buffer[..k]] + r.packets, r.rest)
  {
  }

  /** The corrected extraction loses no byte either, and leaves no terminator behind. */
  lemma {:induction false} ExtractAllConserves(buffer: seq<Byte>)
    ensures var r := ExtractAll(buffer);
            && Frame(r.packets) + r.rest == buffer
            && Unframed(r.packets)
            && END_OF_MESSAGE !in r.rest
    decreases |buffer|
  {
    var k := Find(buffer, END_OF_MESSAGE);
    if k >= 0 {
      var r := ExtractAll(buffer[k + 1..]);
      ExtractAllConserves(buffer[k + 1..]);
      ExtractAllUnfold(buffer);
      PrependPacket(buffer[..k], r.packets);
      PrependUnframed(buffer[..k], r.packets);
      SplitAtTerminator(buffer, k, Frame(r.packets), r.rest);
    } else {
      assert Frame([]) + buffer == buffer;
    }
  }

  /** The first terminator of a framed stream ends its first packet. */
  lemma FindInFrame(packets: seq<seq<Byte>>, tail: seq<Byte>)
    requires |packets| > 0 && END_OF_MESSAGE !in packets[0]
    ensures var s := Frame(packets) + tail;
            Find(s, END_OF_MESSAGE) == |packets[0]|
            && s[..|packets[0]|] == packets[0]
            && s[|packets[0]| + 1..] == Frame(packets[1..]) + tail
  {
    var s := Frame(packets) + tail;
    assert s == packets[0] + [END_OF_MESSAGE] + (Frame(packets[1..]) + tail);
    assert s[..|packets[0]|] == packets[0];
    assert s[|packets[0]|] == END_OF_MESSAGE;
  }

  /**
    Round trip as written: non-empty messages without the terminator, framed
    by `send`, are cut back out exactly, in order.
   */
  lemma {:induction false} ExtractFrame(packets: seq<seq<Byte>>, tail: seq<Byte>)
    requires Unframed(packets) && END_OF_MESSAGE !in tail
    requires forall i :: 0 <= i < |packets| ==> |packets[i]| > 0
    ensures Extract(Frame(packets) + tail) == Cut(packets, tail)
  {
    if packets != [] {
      FindInFrame(packets, tail);
      ExtractFrame(packets[1..], tail);
    } else {
      assert Frame(packets) + tail == tail;
    }
  }

  /** Dropping the first packet keeps the others free of the terminator. */
  lemma UnframedTail(packets: seq<seq<Byte>>)
    requires |packets| > 0 && Unframed(packets)
    ensures Unframed(packets[1..])
  {
    forall i | 0 <= i < |packets[1..]|
      ensures END_OF_MESSAGE !in packets[1..][i]
    {
      assert packets[1..][i] == packets[i + 1];
    }
  }

  /** One step of the corrected round trip: the first packet is cut, the others follow. */
  lemma ExtractAllFrameStep(packets: seq<seq<Byte>>, tail: seq<Byte>)
    requires |packets| > 0 && END_OF_MESSAGE !in packets[0]
    requires ExtractAll(Frame(packets[1..]) + tail) == Cut(packets[1..], tail)
    ensures ExtractAll(Frame(packets) + tail) == Cut(packets, tail)
  {
    FindInFrame(packets, tail);
    ExtractAllUnfold(Frame(packets) + tail);
    assert packets == [packets[0]] + packets[1..];
  }

  /** Round trip with the corrected guard: every message, the empty one included. */
  lemma {:induction false} ExtractAllFrame(packets: seq<seq<Byte>>, tail: seq<Byte>)
    requires Unframed(packets) && END_OF_MESSAGE !in tail
    ensures ExtractAll(Frame(packets) + tail) == Cut(packets, tail)
  {
    if packets != [] {
      UnframedTail(packets);
      ExtractAllFrame(packets[1..], tail);
      ExtractAllFrameStep(packets, tail);
    } else {
      assert Frame(packets) + tail == tail;
    }
  }

  /**
    As written, a buffer that starts with the terminator is stuck: nothing is
    cut from it, whatever arrives after it.
   */
  lemma StuckBuffer(buffer: seq<Byte>, more: seq<Byte>)
    requires |buffer| > 0 && buffer[0] == END_OF_MESSAGE
    ensures Extract(buffer + more) == Cut([], buffer + more)
  {
    assert (buffer + more)[0] == END_OF_MESSAGE;
  }

  /**
    An empty message stalls the connection for good: after it, no message is
    ever cut, while the corrected extraction delivers all of them.
   */
  lemma EmptyMessageStallsReceiver(packets: seq<seq<Byte>>, tail: seq<Byte>)
    requires Unframed(packets) && END_OF_MESSAGE !in tail
    ensures Extract(Frame([[]] + packets) + tail) == Cut([], Frame([[]] + packets) + tail)
    ensures ExtractAll(Frame([[]] + packets) + tail) == Cut([[]] + packets, tail)
  {
    var s := Frame([[]] + packets) + tail;
    assert ([[]] + packets)[1..] == packets;
    assert s == [END_OF_MESSAGE] + Frame(packets) + tail;
    StuckBuffer([END_OF_MESSAGE], Frame(packets) + tail);
    assert Unframed([[]] + packets) by {
      forall i | 0 <= i < |[[]] + packets|
        ensures END_OF_MESSAGE !in ([[]] + packets)[i]
      {
        if i > 0 {
          assert ([[]] + packets)[i] == packets[i - 1];
        }
      }
    }
    ExtractAllFrame([[]] + packets, tail);
  }

  /** Appending bytes does not move a terminator that is already there. */
  lemma FindPrefix(b: seq<Byte>, c: seq<Byte>)
    requires END_OF_MESSAGE in b
    ensures Find(b + c, END_OF_MESSAGE) == Find(b, END_OF_MESSAGE)
  {
    var k := Find(b, END_OF_MESSAGE);
    assert (b + c)[k] == END_OF_MESSAGE;
    assert forall j :: 0 <= j < k ==> (b + c)[j] == b[j];
  }

  /** Concatenation associates; stated once, at an abstract element type. */
  lemma AppendAssociates<T>(a: seq<T>, b: seq<T>, c: seq<T>)
    ensures a + (b + c) == (a + b) + c
  {
  }

  /** Appending bytes to a buffer whose first terminator sits past position 0 cuts the same first packet. */
  lemma ExtractAppendUnfold(b: seq<Byte>, c: seq<Byte>)
    requires Find(b, END_OF_MESSAGE) > 0
    ensures var k := Find(b, END_OF_MESSAGE);
            var r := Extract(b[k + 1..] + c);
            Extract(b + c) == Cut([b[..k]] + r.packets, r.rest)
  {
    var k := Find(b, END_OF_MESSAGE);
    FindPrefix(b, c);
    assert (b + c)[..k] == b[..k] && (b + c)[k + 1..] == b[k + 1..] + c;
    ExtractUnfold(b + c);
  }

  /** One step of `ExtractChunked`: the first packet of `b` is the first packet of `b + c`. */
  lemma ExtractChunkedStep(b: seq<Byte>, c: seq<Byte>)
    requires Find(b, END_OF_MESSAGE) > 0
    requires var k := Find(b, END_OF_MESSAGE);
             var first := Extract(b[k + 1..]);
             var second := Extract(first.rest + c);
             Extract(b[k + 1..] + c) == Cut(first.packets + second.packets, second.rest)
    ensures var first := Extract(b);
            var second := Extract(first.rest + c);
            Extract(b + c) == Cut(first.packets + second.packets, second.rest)
  {
    var k := Find(b, END_OF_MESSAGE);
    var inner := Extract(b[k + 1..]);
    var second := Extract(inner.rest + c);
    ExtractUnfold(b);
    ExtractAppendUnfold(b, c);
    AppendAssociates([b[..k]], inner.packets, second.packets);
  }

  /**
    Extraction does not depend on where chunk boundaries fall: cutting `b + c`
    is cutting `b`, then cutting what is left of it followed by `c`.
   */
  lemma {:induction false} ExtractChunked(b: seq<Byte>, c: seq<Byte>)
    ensures var first := Extract(b);
            var second := Extract(first.rest + c);
            Extract(b + c) == Cut(first.packets + second.packets, second.rest)
    decreases |b|
  {
    var k := Find(b, END_OF_MESSAGE);
    if k > 0 {
      ExtractChunked(b[k + 1..], c);
      ExtractChunkedStep(b, c);
    } else {
      if k == 0 {
        FindPrefix(b, c);
      }
      assert Extract(b) == Cut([], b);
      assert [] + Extract(b + c).packets == Extract(b + c).packets;
    }
  }

  /**
    One pass of the receive loop in `run` (the body after `recv`): append the
    chunk to the buffer, then cut packets while the first terminator sits at a
    position greater than 0. An empty chunk changes nothing.
   */
  method ReceiveStep(buffer: seq<Byte>, chunk: seq<Byte>) returns (packets: seq<seq<Byte>>, rest: seq<Byte>)
    ensures chunk == [] ==> packets == [] && rest == buffer
    ensures chunk != [] ==> Cut(packets, rest) == Extract(buffer + chunk)
    ensures Frame(packets) + rest == buffer + chunk
    ensures Unframed(packets) && forall i :: 0 <= i < |packets| ==> |packets[i]| > 0
    ensures chunk != [] ==> Find(rest, END_OF_MESSAGE) <= 0
    ensures |buffer + chunk| > 0 && (buffer + chunk)[0] == END_OF_MESSAGE ==> packets == []
  {
    packets := [];
    rest := buffer;
    if chunk != [] {
      rest := rest + chunk;
      var messageEnd := Find(rest, END_OF_MESSAGE);
      assert [] + Extract(rest).packets == Extract(rest).packets;
      while messageEnd > 0
        invariant messageEnd == Find(rest, END_OF_MESSAGE)
        invariant Extract(buffer + chunk) == Cut(packets + Extract(rest).packets, Extract(rest).rest)
        decreases |rest|
      {
        var packet := rest[..messageEnd];
        ExtractUnfold(rest);
        AppendAssociates(packets, [packet], Extract(rest[messageEnd + 1..]).packets);
        rest := rest[messageEnd + 1..];
        packets := packets + [packet];
        messageEnd := Find(rest, END_OF_MESSAGE);
      }
      assert Extract(rest) == Cut([], rest);
      assert packets + [] == packets;
      ExtractConserves(buffer + chunk);
    } else {
      assert Frame(packets) + rest == buffer + chunk;
    }
  }

  // ---------------------------------------------------------------------------
  // Payloads and messages

  /** What may be handed to `send`. */
  datatype Payload =
    | Text(text: string)                    // a str
    | Object(fields: map<string, Json>)     // a dict that `json.dumps` accepts
    | UnserialisableObject                  // a dict that `json.dumps` rejects with TypeError
    | Raw(bytes: seq<Byte>)                 // bytes
    | Unsupported                           // anything else

  /** The bytes `send` hands to `sendall` for `data`; None where it writes nothing. */
  function Wire(data: Payload): (w: Option<seq<Byte>>)
    ensures w.None? <==> data.UnserialisableObject? || data.Unsupported?
    ensures w.Some? ==> |w.value| > 0 && w.value[|w.value| - 1] == END_OF_MESSAGE
  {
    match data
    case Text(text) => Some(Encode(text) + [END_OF_MESSAGE])
    case Object(fields) => Some(Encode(Dumps(JObject(fields), false)) + [END_OF_MESSAGE])
    case UnserialisableObject => None
    case Raw(bytes) => Some(bytes + [END_OF_MESSAGE])
    case Unsupported => None
  }

  /** The bytes one payload carries before its terminator. */
  function Body(data: Payload): (body: seq<Byte>)
    requires Wire(data).Some?
    ensures body + [END_OF_MESSAGE] == Wire(data).value
  {
    Wire(data).value[..|Wire(data).value| - 1]
  }

  /** A failed `sendall` on bytes is not caught: the exception leaves `send`. */
  predicate Raises(data: Payload, delivered: bool)
  {
    data.Raw? && !delivered
  }

  /** A failed `sendall` on a str or dict is caught, and the connection is stopped. */
  predicate StopsOnFailure(data: Payload, delivered: bool)
  {
    (data.Text? || data.Object?) && !delivered
  }

  /** What has been written to the socket after one `send`. */
  function WrittenAfter(before: seq<Byte>, data: Payload, delivered: bool): seq<Byte>
  {
    if Wire(data).Some? && delivered then before + Wire(data).value else before
  }

  /** What the receiving side's callback is given for a packet. */
  datatype Message =
    | JsonValue(value: Json)      // the packet decodes and parses as JSON
    | TextValue(text: string)     // it decodes, but is not JSON
    | BytesValue(bytes: seq<Byte>) // it does not decode

  /** `parse_packet(packet)`: JSON first, then decoded text, then the raw bytes. */
  function ParsePacket(packet: seq<Byte>): (m: Message)
    ensures m.BytesValue? <==> Decode(packet).None?
    ensures m.BytesValue? ==> m.bytes == packet
    ensures m.TextValue? ==> Decode(packet) == Some(m.text) && Loads(m.text).None?
    ensures m.JsonValue? ==> Decode(packet).Some? && Loads(Decode(packet).value) == Some(m.value)
  {
    match Decode(packet)
    case None => BytesValue(packet)
    case Some(decoded) =>
      match Loads(decoded)
      case Some(value) => JsonValue(value)
      case None => TextValue(decoded)
  }

  function ParseAll(packets: seq<seq<Byte>>): (messages: seq<Message>)
    ensures |messages| == |packets|
    ensures forall i :: 0 <= i < |packets| ==> messages[i] == ParsePacket(packets[i])
  {
    if packets == [] then [] else [ParsePacket(packets[0])] + ParseAll(packets[1..])
  }

  lemma ParseAllAppend(a: seq<seq<Byte>>, b: seq<seq<Byte>>)
    ensures ParseAll(a + b) == ParseAll(a) + ParseAll(b)
  {
  }

  /** The bytes of a chunk list, in order. */
  function Concat(chunks: seq<seq<Byte>>): seq<Byte>
  {
    if chunks == [] then [] else Concat(chunks[..|chunks| - 1]) + chunks[|chunks| - 1]
  }

  /**
    The receive loop of `run` over the chunks `recv` returned, while the
    connection stays open: the callback is given, in order, the parsed packets
    the extraction cuts from the whole stream, wherever the chunks were split.
   */
  method Receive(chunks: seq<seq<Byte>>) returns (received: seq<Message>, buffer: seq<Byte>)
    ensures received == ParseAll(Extract(Concat(chunks)).packets)
    ensures buffer == Extract(Concat(chunks)).rest
  {
    received := [];
    buffer := [];
    ghost var packetsSoFar: seq<seq<Byte>> := [];
    for i := 0 to |chunks|
      invariant Extract(Concat(chunks[..i])) == Cut(packetsSoFar, buffer)
      invariant received == ParseAll(packetsSoFar)
    {
      assert chunks[..i + 1][..i] == chunks[..i];
      var packets, rest := ReceiveStep(buffer, chunks[i]);
      ExtractChunked(Concat(chunks[..i]), chunks[i]);
      if chunks[i] == [] {
        assert Concat(chunks[..i + 1]) == Concat(chunks[..i]);
      } else {
        assert Extract(buffer + chunks[i]) == Cut(packets, rest);
      }
      ParseAllAppend(packetsSoFar, packets);
      packetsSoFar := packetsSoFar + packets;
      received := received + ParseAll(packets);
      buffer := rest;
    }
    assert chunks[..|chunks|] == chunks;
  }

  // ---------------------------------------------------------------------------
  // What arrives is what was sent

  /**
    A dict sent over the wire arrives as the same JSON object, provided its
    encoded text holds no terminator byte and decodes and parses back.
   */
  lemma SentObjectArrivesAsJson(fields: map<string, Json>, tail: seq<Byte>)
    requires var text := Dumps(JObject(fields), false);
             && END_OF_MESSAGE !in Encode(text) && |Encode(text)| > 0
             && Decode(Encode(text)) == Some(text) && Loads(text) == Some(JObject(fields))
    requires END_OF_MESSAGE !in tail
    ensures var cut := Extract(Wire(Object(fields)).value + tail);
            ParseAll(cut.packets) == [JsonValue(JObject(fields))] && cut.rest == tail
  {
    var body := Encode(Dumps(JObject(fields), false));
    assert Frame([body]) == Wire(Object(fields)).value;
    ExtractFrame([body], tail);
  }

  /**
    A str arrives as text only when it is not itself JSON: a str that parses
    as JSON arrives as the parsed value.
   */
  lemma SentTextArrivesParsedFirst(text: string, tail: seq<Byte>)
    requires END_OF_MESSAGE !in Encode(text) && |Encode(text)| > 0 && Decode(Encode(text)) == Some(text)
    requires END_OF_MESSAGE !in tail
    ensures var cut := Extract(Wire(Text(text)).value + tail);
            && cut.rest == tail
            && ParseAll(cut.packets) == [if Loads(text).Some? then JsonValue(Loads(text).value) else TextValue(text)]
  {
    assert Frame([Encode(text)]) == Wire(Text(text)).value;
    ExtractFrame([Encode(text)], tail);
  }

  /** Bytes that do not decode arrive as those bytes. */
  lemma SentBytesArriveRaw(bytes: seq<Byte>, tail: seq<Byte>)
    requires END_OF_MESSAGE !in bytes && |bytes| > 0 && Decode(bytes).None?
    requires END_OF_MESSAGE !in tail
    ensures var cut := Extract(Wire(Raw(bytes)).value + tail);
            ParseAll(cut.packets) == [BytesValue(bytes)] && cut.rest == tail
  {
    assert Frame([bytes]) == Wire(Raw(bytes)).value;
    ExtractFrame([bytes], tail);
  }

  // ---------------------------------------------------------------------------
  // The connection object

  class P2PConnection {
    const host: string
    const port: int
    /** The address the peer announced in the handshake, when there was one. */
    const originalHost: Option<string>
    const originalPort: Option<int>
    /** `terminate_flag` */
    var terminated: bool
    /** Every byte handed to the socket so far. */
    var written: seq<Byte>

    /** `P2PConnection(sock, host, port, callback, original_host, original_port)` */
    constructor (host: string, port: int, originalHost: Option<string>, originalPort: Option<int>)
      ensures this.host == host && this.port == port
      ensures this.originalHost == originalHost && this.originalPort == originalPort
      ensures !terminated && written == []
    {
      this.host := host;
      this.port := port;
      this.originalHost := originalHost;
      this.originalPort := originalPort;
      terminated := false;
      written := [];
    }

    /**
      `send(data)`, where `delivered` tells whether `sendall` succeeded: a str,
      dict or bytes payload is written with the terminator after it; a dict
      `json.dumps` rejects and an unsupported type write nothing. A failure
      stops the connection for a str or dict, and raises for bytes. Sending
      does not look at the terminate flag.
     */
    method Send(data: Payload, delivered: bool) returns (raised: bool)
      modifies this
      ensures written == WrittenAfter(old(written), data, delivered)
      ensures terminated == (old(terminated) || StopsOnFailure(data, delivered))
      ensures raised == Raises(data, delivered)
    {
      raised := false;
      match data
      case Text(text) =>
        if delivered {
          written := written + Encode(text) + [END_OF_MESSAGE];
        } else {
          Stop();
        }
      case Object(fields) =>
        var jsonData := Encode(Dumps(JObject(fields), false)) + [END_OF_MESSAGE];
        if delivered {
          written := written + jsonData;
        } else {
          Stop();
        }
      case UnserialisableObject =>
      case Raw(bytes) =>
        if delivered {
          written := written + bytes + [END_OF_MESSAGE];
        } else {
          raised := true;
        }
      case Unsupported =>
    }

    /** `stop()`: set the terminate flag; nothing else changes, so stopping twice is stopping once. */
    method Stop()
      modifies this
      ensures terminated && written == old(written)
    {
      terminated := true;
    }
  }

  /** A stream of successful sends is the frames of their bodies, so the receiver cuts those bodies back out. */
  lemma {:induction false} SuccessfulSendsAreFramed(sent: seq<Payload>)
    requires forall i :: 0 <= i < |sent| ==> Wire(sent[i]).Some?
    ensures Frame(Bodies(sent)) == Sent(sent)
  {
    if sent != [] {
      SuccessfulSendsAreFramed(sent[1..]);
      assert Bodies(sent)[1..] == Bodies(sent[1..]);
    }
  }

  /** The bytes of a list of sends that all wrote something, in order. */
  function Sent(sent: seq<Payload>): seq<Byte>
    requires forall i :: 0 <= i < |sent| ==> Wire(sent[i]).Some?
  {
    if sent == [] then [] else Wire(sent[0]).value + Sent(sent[1..])
  }

  /** The body of each send, in order. */
  function Bodies(sent: seq<Payload>): (bodies: seq<seq<Byte>>)
    requires forall i :: 0 <= i < |sent| ==> Wire(sent[i]).Some?
    ensures |bodies| == |sent| && forall i :: 0 <= i < |sent| ==> bodies[i] == Body(sent[i])
  {
    if sent == [] then [] else [Body(sent[0])] + Bodies(sent[1..])
  }

  /**
    As written, a stream of sends is cut back into exactly their bodies, in
    order, when every body is non-empty and holds no terminator.
   */
  lemma SendsAreReceived(sent: seq<Payload>)
    requires forall i :: 0 <= i < |sent| ==> Wire(sent[i]).Some?
    requires forall i :: 0 <= i < |sent| ==> |Body(sent[i])| > 0 && END_OF_MESSAGE !in Body(sent[i])
    ensures Extract(Sent(sent)) == Cut(Bodies(sent), [])
  {
    SuccessfulSendsAreFramed(sent);
    assert Sent(sent) + [] == Sent(sent);
    ExtractFrame(Bodies(sent), []);
  }

  /** With the corrected guard the same holds for empty bodies too. */
  lemma SendsAreReceivedAll(sent: seq<Payload>)
    requires forall i :: 0 <= i < |sent| ==> Wire(sent[i]).Some? && END_OF_MESSAGE !in Body(sent[i])
    ensures ExtractAll(Sent(sent)) == Cut(Bodies(sent), [])
  {
    SuccessfulSendsAreFramed(sent);
    assert Sent(sent) + [] == Sent(sent);
    ExtractAllFrame(Bodies(sent), []);
  }
}
