/** The control channel: message codes, length-prefixed frames, and the loops that move bytes. */
module Wire {
  import opened Common
  import opened BigEndian

  datatype IoError = WriteZero | UnexpectedEof | InvalidData | InvalidInput | SocketError

  /** A connected stream socket. `reliable` sockets never fail and always make progress, but
      each call still moves any number of bytes it likes. */
  class Socket {
    const reliable: bool
    var written: seq<Byte>
    // What the peer has sent and this side has not read; the peer closes after it.
    var incoming: seq<Byte>

    constructor (reliable: bool, incoming: seq<Byte>)
      ensures this.reliable == reliable && this.incoming == incoming && written == []
    {
      this.reliable := reliable;
      this.incoming := incoming;
      written := [];
    }

    method Send(buf: seq<Byte>) returns (r: Result<nat, IoError>)
      modifies this`written
      ensures r.Ok? ==> r.value <= |buf| && written == old(written) + buf[..r.value]
      ensures r.Err? ==> written == old(written) && r.error == SocketError
      ensures reliable && buf != [] ==> r.Ok? && r.value > 0
    {
      var fails: bool := *;
      if fails && !reliable {
        return Err(SocketError);
      }
      var n :| 0 <= n <= |buf| && (reliable && buf != [] ==> n > 0);
      written := written + buf[..n];
      return Ok(n);
    }

    /** Fill some of `buf[from..]` from the peer's bytes. A count of zero means end of stream. */
    method Recv(buf: array<Byte>, from: nat) returns (r: Result<nat, IoError>)
      requires from < buf.Length
      modifies this`incoming, buf
      ensures r.Ok? ==> r.value <= buf.Length - from && r.value <= |old(incoming)|
      ensures r.Ok? ==> incoming == old(incoming)[r.value..]
      ensures r.Ok? ==> buf[..from + r.value] == old(buf[..from]) + old(incoming)[..r.value]
      ensures r.Ok? && r.value == 0 ==> old(incoming) == []
      ensures r.Err? ==> incoming == old(incoming) && buf[..] == old(buf[..]) && r.error == SocketError
      ensures reliable ==> r.Ok?
    {
      var fails: bool := *;
      if fails && !reliable {
        return Err(SocketError);
      }
      if incoming == [] {
        return Ok(0);
      }
      var n :| 0 < n <= buf.Length - from && n <= |incoming|;
      forall i | 0 <= i < n {
        buf[from + i] := incoming[i];
      }
      incoming := incoming[n..];
      return Ok(n);
    }
  }

  method WriteAll(sock: Socket, buf: seq<Byte>) returns (r: Result<(), IoError>)
    modifies sock`written
    ensures r.Ok? ==> sock.written == old(sock.written) + buf
    ensures r.Err? ==> exists k :: 0 <= k < |buf| && sock.written == old(sock.written) + buf[..k]
    ensures r.Err? ==> r.error in {WriteZero, SocketError}
    ensures sock.reliable ==> r.Ok?
  {
    var k := 0;
    while k < |buf|
      invariant k <= |buf|
      invariant sock.written == old(sock.written) + buf[..k]
      decreases |buf| - k
    {
      var sent := sock.Send(buf[k..]);
      if sent.Err? {
        return Err(sent.error);
      }
      if sent.value == 0 {
        return Err(WriteZero);
      }
      assert buf[..k + sent.value] == buf[..k] + buf[k..][..sent.value];
      k := k + sent.value;
    }
    assert buf[..k] == buf;
    return Ok(());
  }

  /** Fill the whole of `buf`. On a reliable socket this fails only when the stream is too short,
      and then the stream has been read to its end. */
  method ReadExact(sock: Socket, buf: array<Byte>) returns (r: Result<(), IoError>)
    modifies sock`incoming, buf
    ensures r.Ok? ==> old(sock.incoming) == buf[..] + sock.incoming
    ensures r.Err? ==> exists k :: 0 <= k < buf.Length && k <= |old(sock.incoming)|
                                   && sock.incoming == old(sock.incoming)[k..]
    ensures sock.reliable ==> (r.Ok? <==> |old(sock.incoming)| >= buf.Length)
    ensures sock.reliable && r.Err? ==> r.error == UnexpectedEof && sock.incoming == []
  {
    var read := 0;
    while read < buf.Length
      invariant read <= buf.Length && read <= |old(sock.incoming)|
      invariant buf[..read] == old(sock.incoming)[..read]
      invariant sock.incoming == old(sock.incoming)[read..]
      decreases buf.Length - read
    {
      var got := sock.Recv(buf, read);
      if got.Err? {
        return Err(got.error);
      }
      if got.value == 0 {
        return Err(UnexpectedEof);
      }
      read := read + got.value;
    }
    assert buf[..] == buf[..read];
    return Ok(());
  }

  // ----- Message codes -----

  datatype Message =
    | TestStart | TestRunning | ResultRequest | TestEnd | StreamBegin | StreamRunning
    | StreamEnd | AllStreamsEnd | ParamExchange | CreateStreams | ServerTerminate
    | ClientTerminate | ExchangeResults | DisplayResults | IperfStart | IperfDone
    | SetDataPort | AccessDenied | ServerError

  /** The signed code of a message. */
  function Code(m: Message): int {
    match m
    case TestStart => 1
    case TestRunning => 2
    case ResultRequest => 3
    case TestEnd => 4
    case StreamBegin => 5
    case StreamRunning => 6
    case StreamEnd => 7
    case AllStreamsEnd => 8
    case ParamExchange => 9
    case CreateStreams => 10
    case ServerTerminate => 11
    case ClientTerminate => 12
    case ExchangeResults => 13
    case DisplayResults => 14
    case IperfStart => 15
    case IperfDone => 16
    case SetDataPort => 17
    case AccessDenied => -1
    case ServerError => -2
  }

  function FromCode(c: int): Option<Message> {
    if c == 1 then Some(TestStart)
    else if c == 2 then Some(TestRunning)
    else if c == 3 then Some(ResultRequest)
    else if c == 4 then Some(TestEnd)
    else if c == 5 then Some(StreamBegin)
    else if c == 6 then Some(StreamRunning)
    else if c == 7 then Some(StreamEnd)
    else if c == 8 then Some(AllStreamsEnd)
    else if c == 9 then Some(ParamExchange)
    else if c == 10 then Some(CreateStreams)
    else if c == 11 then Some(ServerTerminate)
    else if c == 12 then Some(ClientTerminate)
    else if c == 13 then Some(ExchangeResults)
    else if c == 14 then Some(DisplayResults)
    else if c == 15 then Some(IperfStart)
    else if c == 16 then Some(IperfDone)
    else if c == 17 then Some(SetDataPort)
    else if c == -1 then Some(AccessDenied)
    else if c == -2 then Some(ServerError)
    else None
  }

  /** `msg as u8`: the two's complement of the code. */
  function AsU8(m: Message): Byte {
    if Code(m) < 0 then Code(m) + 256 else Code(m)
  }

  /** `buf[0] as i8`. */
  function AsI8(b: Byte): int {
    if b >= 128 then b - 256 else b
  }

  /** The wire byte of a message names that message and no other, negative codes included. */
  lemma MessageByteRoundTrip(m: Message, b: Byte)
    ensures FromCode(AsI8(b)) == Some(m) <==> b == AsU8(m)
  {
    match m case _ => {}
  }

  /** The messages with positive codes, in the order of their codes from 1. */
  const NUMBERED: seq<Message> :=
    [TestStart, TestRunning, ResultRequest, TestEnd, StreamBegin, StreamRunning, StreamEnd, AllStreamsEnd,
     ParamExchange, CreateStreams, ServerTerminate, ClientTerminate, ExchangeResults, DisplayResults, IperfStart,
     IperfDone, SetDataPort]

  /** Every byte of the wire: 1 to 17 number the messages, 255 denies access, 254 is an error, no other is known. */
  lemma MessageOfByte(b: Byte)
    ensures FromCode(AsI8(b)) ==
            if 1 <= b <= 17 then Some(NUMBERED[b - 1])
            else if b == 255 then Some(AccessDenied)
            else if b == 254 then Some(ServerError)
            else None
  {}

  // ----- Items on the control channel -----

  const MAX_JSON_FRAME_LEN: nat := 16 * 1024 * 1024
  const COOKIE_LEN: nat := 37

  datatype Item = Control(message: Message) | Port(port: nat) | Frame(body: seq<Byte>)

  /** What a reader asks for next. */
  datatype Kind = ControlKind | PortKind | FrameKind

  function KindOf(i: Item): Kind {
    match i
    case Control(_) => ControlKind
    case Port(_) => PortKind
    case Frame(_) => FrameKind
  }

  /** What the sending functions accept. */
  predicate Sendable(i: Item) {
    match i
    case Control(_) => true
    case Port(p) => p < 65536
    case Frame(body) => |body| < 0x1_0000_0000
  }

  /** What the receiving functions accept as well. */
  predicate Receivable(i: Item) {
    Sendable(i) && (i.Frame? ==> |i.body| <= MAX_JSON_FRAME_LEN)
  }

  function Encode(i: Item): seq<Byte> {
    match i
    case Control(m) => [AsU8(m)]
    case Port(p) => ToBytes(p, 2)
    case Frame(body) => ToBytes(|body|, 4) + body
  }

  /** Read one item of the wanted kind from a stream. The second part is what is left unread,
      on failure too. */
  function Decode(kind: Kind, s: seq<Byte>): (Result<Item, IoError>, seq<Byte>) {
    match kind
    case ControlKind =>
      if |s| < 1 then (Err(UnexpectedEof), [])
      else (match FromCode(AsI8(s[0]))
            case Some(m) => (Ok(Control(m)), s[1..])
            case None => (Err(InvalidData), s[1..]))
    case PortKind =>
      if |s| < 2 then (Err(UnexpectedEof), [])
      else (Ok(Port(FromBytes(s[..2]))), s[2..])
    case FrameKind =>
      if |s| < 4 then (Err(UnexpectedEof), [])
      else
        var len := FromBytes(s[..4]);
        if len > MAX_JSON_FRAME_LEN then (Err(InvalidData), s[4..])
        else if |s| < 4 + len then (Err(UnexpectedEof), [])
        else (Ok(Frame(s[4..4 + len])), s[4 + len..])
  }

  method SendControlByte(sock: Socket, m: Message) returns (r: Result<(), IoError>)
    modifies sock`written
    ensures r.Ok? ==> sock.written == old(sock.written) + Encode(Control(m))
    ensures sock.reliable ==> r.Ok?
  {
    r := WriteAll(sock, [AsU8(m)]);
  }

  method RecvControlByte(sock: Socket) returns (r: Result<Item, IoError>)
    modifies sock`incoming
    ensures r.Ok? || sock.reliable ==> (r, sock.incoming) == Decode(ControlKind, old(sock.incoming))
  {
    var buf := new Byte[1](_ => 0);
    var got := ReadExact(sock, buf);
    if got.Err? {
      return Err(got.error);
    }
    assert buf[..] == [buf[0]];
    match FromCode(AsI8(buf[0]))
    case Some(m) => return Ok(Control(m));
    case None => return Err(InvalidData);
  }

  method SendU16(sock: Socket, port: nat) returns (r: Result<(), IoError>)
    requires port < 65536
    modifies sock`written
    ensures r.Ok? ==> sock.written == old(sock.written) + Encode(Port(port))
    ensures sock.reliable ==> r.Ok?
  {
    r := WriteAll(sock, ToBytes(port, 2));
  }

  method RecvU16(sock: Socket) returns (r: Result<Item, IoError>)
    modifies sock`incoming
    ensures r.Ok? || sock.reliable ==> (r, sock.incoming) == Decode(PortKind, old(sock.incoming))
  {
    var buf := new Byte[2](_ => 0);
    var got := ReadExact(sock, buf);
    if got.Err? {
      return Err(got.error);
    }
    return Ok(Port(FromBytes(buf[..])));
  }

  method SendFrame(sock: Socket, body: seq<Byte>) returns (r: Result<(), IoError>)
    modifies sock`written
    ensures r.Ok? ==> Sendable(Frame(body)) && sock.written == old(sock.written) + Encode(Frame(body))
    ensures sock.reliable ==> (r.Ok? <==> Sendable(Frame(body)))
    ensures !Sendable(Frame(body)) ==> r == Err(InvalidInput) && sock.written == old(sock.written)
  {
    if |body| >= 0x1_0000_0000 {
      return Err(InvalidInput);
    }
    r := WriteAll(sock, ToBytes(|body|, 4));
    if r.Ok? {
      r := WriteAll(sock, body);
    }
  }

  method RecvFrame(sock: Socket) returns (r: Result<Item, IoError>)
    modifies sock`incoming
    ensures r.Ok? || sock.reliable ==> (r, sock.incoming) == Decode(FrameKind, old(sock.incoming))
  {
    ghost var s := sock.incoming;
    var lenBuf := new Byte[4](_ => 0);
    var got := ReadExact(sock, lenBuf);
    if got.Err? {
      return Err(got.error);
    }
    var len := FromBytes(lenBuf[..]);
    assert s[..4] == lenBuf[..] && s[4..] == sock.incoming;
    if len > MAX_JSON_FRAME_LEN {
      return Err(InvalidData);
    }
    var body := new Byte[len](_ => 0);
    got := ReadExact(sock, body);
    if got.Err? {
      return Err(got.error);
    }
    assert s[4..][..len] == body[..] && s[4..][len..] == sock.incoming;
    assert s[4..][..len] == s[4..4 + len] && s[4..][len..] == s[4 + len..];
    return Ok(Frame(body[..]));
  }

  predicate IsAlphanumeric(b: Byte) {
    48 <= b <= 57 || 65 <= b <= 90 || 97 <= b <= 122
  }

  /** 36 alphanumeric characters and a NUL. */
  predicate IsCookie(c: seq<Byte>) {
    |c| == COOKIE_LEN && c[COOKIE_LEN - 1] == 0 && forall i :: 0 <= i < COOKIE_LEN - 1 ==> IsAlphanumeric(c[i])
  }

  /** Fill a zeroed buffer with samples, but for its last byte. */
  method GenerateCookie(samples: nat -> Byte) returns (cookie: seq<Byte>)
    requires forall i: nat :: IsAlphanumeric(samples(i))
    ensures IsCookie(cookie)
    ensures forall i :: 0 <= i < COOKIE_LEN - 1 ==> cookie[i] == samples(i)
  {
    var buf := new Byte[COOKIE_LEN](_ => 0);
    for i := 0 to COOKIE_LEN - 1
      invariant buf[COOKIE_LEN - 1] == 0
      invariant forall j :: 0 <= j < i ==> buf[j] == samples(j)
    {
      buf[i] := samples(i);
    }
    return buf[..];
  }

  /** Read exactly one cookie. A reliable socket fails only when the peer closed too early. */
  method RecvCookie(sock: Socket) returns (r: Result<seq<Byte>, IoError>)
    modifies sock`incoming
    ensures r.Ok? ==> |r.value| == 37 && old(sock.incoming) == r.value + sock.incoming
    ensures sock.reliable ==> (r.Ok? <==> |old(sock.incoming)| >= 37)
    ensures sock.reliable && r.Err? ==> r.error == UnexpectedEof
  {
    var buf := new Byte[COOKIE_LEN](_ => 0);
    var read := 0;
    while read < buf.Length
      invariant read <= buf.Length && read <= |old(sock.incoming)|
      invariant buf[..read] == old(sock.incoming)[..read]
      invariant sock.incoming == old(sock.incoming)[read..]
      decreases buf.Length - read
    {
      var got := sock.Recv(buf, read);
      if got.Err? {
        return Err(got.error);
      }
      if got.value == 0 {
        return Err(UnexpectedEof);
      }
      assert old(sock.incoming)[read..][..got.value] == old(sock.incoming)[read..read + got.value];
      read := read + got.value;
    }
    assert buf[..] == buf[..read];
    return Ok(buf[..]);
  }

  lemma PrefixedDecodes(prefix: seq<Byte>, body: seq<Byte>, rest: seq<Byte>)
    requires |prefix| == 4 && FromBytes(prefix) == |body|
    ensures Decode(FrameKind, prefix + body + rest) ==
            if |body| <= MAX_JSON_FRAME_LEN then (Ok(Frame(body)), rest) else (Err(InvalidData), body + rest)
  {
    var s := prefix + body + rest;
    assert s[..4] == prefix;
    assert s[4..] == body + rest;
    assert s[4..4 + |body|] == body;
    assert s[4 + |body|..] == rest;
  }

  lemma FrameDecodes(body: seq<Byte>, rest: seq<Byte>)
    requires |body| < 0x1_0000_0000
    ensures Decode(FrameKind, Encode(Frame(body)) + rest) ==
            if |body| <= MAX_JSON_FRAME_LEN then (Ok(Frame(body)), rest) else (Err(InvalidData), body + rest)
  {
    Widths();
    DecodeEncode(|body|, 4);
    PrefixedDecodes(ToBytes(|body|, 4), body, rest);
  }

  lemma ControlDecodes(m: Message, rest: seq<Byte>)
    ensures Decode(ControlKind, Encode(Control(m)) + rest) == (Ok(Control(m)), rest)
  {
    MessageByteRoundTrip(m, AsU8(m));
    assert (Encode(Control(m)) + rest)[1..] == rest;
  }

  lemma PortDecodes(p: nat, rest: seq<Byte>)
    requires p < 65536
    ensures Decode(PortKind, Encode(Port(p)) + rest) == (Ok(Port(p)), rest)
  {
    var s := Encode(Port(p)) + rest;
    Widths();
    DecodeEncode(p, 2);
    assert s[..2] == ToBytes(p, 2) && s[2..] == rest;
  }

  /** One item followed by anything decodes to that item and leaves the rest alone, exactly when
      the item is within the receiver's limits; an oversized frame is refused after its length
      prefix. */
  lemma ItemRoundTrip(i: Item, rest: seq<Byte>)
    requires Sendable(i)
    ensures Decode(KindOf(i), Encode(i) + rest) == (Ok(i), rest) <==> Receivable(i)
    ensures !Receivable(i) ==> Decode(KindOf(i), Encode(i) + rest) == (Err(InvalidData), i.body + rest)
  {
    match i {
      case Control(m) => ControlDecodes(m, rest);
      case Port(p) => PortDecodes(p, rest);
      case Frame(body) => FrameDecodes(body, rest);
    }
  }

  /** Whatever a reader accepts is what some sender wrote: the bytes consumed are its encoding. */
  lemma DecodedWasEncoded(kind: Kind, s: seq<Byte>)
    requires Decode(kind, s).0.Ok?
    ensures var (r, rest) := Decode(kind, s);
            KindOf(r.value) == kind && Receivable(r.value) && s == Encode(r.value) + rest
  {
    match kind {
      case ControlKind =>
        var m := FromCode(AsI8(s[0])).value;
        MessageByteRoundTrip(m, s[0]);
      case PortKind =>
        Widths();
        EncodeDecode(s[..2]);
      case FrameKind =>
        EncodeDecode(s[..4]);
        assert s == s[..4] + (s[4..4 + FromBytes(s[..4])] + s[4 + FromBytes(s[..4])..]);
    }
  }

  /** A length prefix, most significant byte first. */
  function Length(a: nat, b: nat, c: nat, d: nat): nat {
    0x100_0000 * a + 0x1_0000 * b + 0x100 * c + d
  }

  lemma FourBytes(s: seq<Byte>)
    requires |s| == 4
    ensures FromBytes(s) == Length(s[0], s[1], s[2], s[3])
  {
    var three := s[..3];
    var two := three[..2];
    assert two[..1][..0] == [];
    assert FromBytes(two[..1]) == s[0];
    assert FromBytes(two) == FromBytes(two[..1]) * 256 + s[1];
    assert FromBytes(three) == FromBytes(two) * 256 + s[2];
  }

  /** A reader accepts a stream exactly when it starts with an item of that kind, within the limits. */
  lemma AcceptsIff(kind: Kind, s: seq<Byte>)
    ensures Decode(kind, s).0.Ok? <==>
            exists i, rest :: KindOf(i) == kind && Sendable(i) && (i.Frame? ==> |i.body| <= 0x100_0000)
                              && s == Encode(i) + rest
  {
    if Decode(kind, s).0.Ok? {
      DecodedWasEncoded(kind, s);
    }
    if i, rest :| KindOf(i) == kind && Sendable(i) && (i.Frame? ==> |i.body| <= 0x100_0000) && s == Encode(i) + rest {
      ItemRoundTrip(i, rest);
    }
  }

  predicate UnknownByte(s: seq<Byte>) {
    s != [] && !(1 <= s[0] <= 17) && s[0] < 254
  }

  predicate Oversized(s: seq<Byte>) {
    |s| >= 4 && Length(s[0], s[1], s[2], s[3]) > 0x100_0000
  }

  /** What is not accepted is invalid exactly when it starts with an unknown message byte or with a length
      above 16 MiB, and then only that byte or length has been read; otherwise the stream ended too early. */
  lemma RefusedBecause(kind: Kind, s: seq<Byte>)
    requires Decode(kind, s).0.Err?
    ensures Decode(kind, s) ==
            if kind == ControlKind && UnknownByte(s) then (Err(InvalidData), s[1..])
            else if kind == FrameKind && Oversized(s) then (Err(InvalidData), s[4..])
            else (Err(UnexpectedEof), [])
  {
    if kind == FrameKind && |s| >= 4 {
      FourBytes(s[..4]);
    } else if kind == ControlKind && s != [] {
      MessageOfByte(s[0]);
    }
  }

  // ----- Whole conversations -----

  function EncodeAll(items: seq<Item>): seq<Byte> {
    if items == [] then [] else Encode(items[0]) + EncodeAll(items[1..])
  }

  function Kinds(items: seq<Item>): (ks: seq<Kind>)
    ensures |ks| == |items|
  {
    seq(|items|, i requires 0 <= i < |items| => KindOf(items[i]))
  }

  /** Read items of the given kinds in turn, stopping at the first failure. */
  function DecodeAll(kinds: seq<Kind>, s: seq<Byte>): (Result<seq<Item>, IoError>, seq<Byte>) {
    if kinds == [] then (Ok([]), s)
    else
      var (r, rest) := Decode(kinds[0], s);
      if r.Err? then (Err(r.error), rest)
      else
        var (more, rest') := DecodeAll(kinds[1..], rest);
        (if more.Ok? then Ok([r.value] + more.value) else more, rest')
  }

  lemma DecodeNext(kinds: seq<Kind>, s: seq<Byte>, head: Item, more: seq<Byte>, tail: seq<Item>, rest: seq<Byte>)
    requires kinds != [] && Decode(kinds[0], s) == (Ok(head), more)
    requires DecodeAll(kinds[1..], more) == (Ok(tail), rest)
    ensures DecodeAll(kinds, s) == (Ok([head] + tail), rest)
  {}

  lemma ConcatAssociates(a: seq<Byte>, b: seq<Byte>, c: seq<Byte>)
    ensures (a + b) + c == a + (b + c)
  {}

  lemma KindsSplit(items: seq<Item>)
    requires items != []
    ensures Kinds(items)[0] == KindOf(items[0]) && Kinds(items)[1..] == Kinds(items[1..])
  {}

  /** Any conversation decodes to itself and leaves what follows it untouched. */
  lemma {:induction false} ConversationRoundTrip(items: seq<Item>, rest: seq<Byte>)
    requires forall i :: i in items ==> Receivable(i)
    ensures DecodeAll(Kinds(items), EncodeAll(items) + rest) == (Ok(items), rest)
  {
    if items == [] {
      assert EncodeAll(items) + rest == rest;
    } else {
      var head, tail := items[0], items[1..];
      var more := EncodeAll(tail) + rest;
      ConcatAssociates(Encode(head), EncodeAll(tail), rest);
      KindsSplit(items);
      assert items == [head] + tail;
      assert head in items && forall i :: i in tail ==> i in items;
      ItemRoundTrip(head, more);
      ConversationRoundTrip(tail, rest);
      DecodeNext(Kinds(items), EncodeAll(items) + rest, head, more, tail, rest);
    }
  }

  method SendItem(sock: Socket, i: Item) returns (r: Result<(), IoError>)
    requires Sendable(i)
    modifies sock`written
    ensures r.Ok? ==> sock.written == old(sock.written) + Encode(i)
    ensures sock.reliable ==> r.Ok?
  {
    match i {
      case Control(m) => r := SendControlByte(sock, m);
      case Port(p) => r := SendU16(sock, p);
      case Frame(body) => r := SendFrame(sock, body);
    }
  }

  method RecvItem(sock: Socket, kind: Kind) returns (r: Result<Item, IoError>)
    modifies sock`incoming
    ensures r.Ok? || sock.reliable ==> (r, sock.incoming) == Decode(kind, old(sock.incoming))
  {
    match kind {
      case ControlKind => r := RecvControlByte(sock);
      case PortKind => r := RecvU16(sock);
      case FrameKind => r := RecvFrame(sock);
    }
  }

  lemma EncodeNext(w: seq<Byte>, items: seq<Item>)
    requires items != []
    ensures w + EncodeAll(items) == w + Encode(items[0]) + EncodeAll(items[1..])
  {}

  method SendAll(sock: Socket, items: seq<Item>) returns (r: Result<(), IoError>)
    requires forall i :: i in items ==> Sendable(i)
    modifies sock`written
    ensures r.Ok? ==> sock.written == old(sock.written) + EncodeAll(items)
    ensures sock.reliable ==> r.Ok?
  {
    for k := 0 to |items|
      invariant sock.written + EncodeAll(items[k..]) == old(sock.written) + EncodeAll(items)
    {
      EncodeNext(sock.written, items[k..]);
      assert items[k..][0] == items[k] && items[k..][1..] == items[k + 1..];
      r := SendItem(sock, items[k]);
      if r.Err? {
        return;
      }
    }
    assert sock.written + EncodeAll(items[|items|..]) == sock.written;
    return Ok(());
  }

  /** Items already read, put in front of the outcome of reading the others. */
  function Prepend(got: seq<Item>, more: (Result<seq<Item>, IoError>, seq<Byte>)): (Result<seq<Item>, IoError>, seq<Byte>) {
    (if more.0.Ok? then Ok(got + more.0.value) else more.0, more.1)
  }

  lemma PrependStep(got: seq<Item>, kinds: seq<Kind>, s: seq<Byte>)
    requires kinds != [] && Decode(kinds[0], s).0.Ok?
    ensures var (r, rest) := Decode(kinds[0], s);
            Prepend(got, DecodeAll(kinds, s)) == Prepend(got + [r.value], DecodeAll(kinds[1..], rest))
  {
    var (r, rest) := Decode(kinds[0], s);
    var (more, rest') := DecodeAll(kinds[1..], rest);
    if more.Ok? {
      assert got + ([r.value] + more.value) == got + [r.value] + more.value;
    }
  }

  method RecvAll(sock: Socket, kinds: seq<Kind>) returns (r: Result<seq<Item>, IoError>)
    modifies sock`incoming
    ensures r.Ok? || sock.reliable ==> (r, sock.incoming) == DecodeAll(kinds, old(sock.incoming))
  {
    var got: seq<Item> := [];
    ghost var s := sock.incoming;
    assert [] + (if DecodeAll(kinds, s).0.Ok? then DecodeAll(kinds, s).0.value else []) ==
           (if DecodeAll(kinds, s).0.Ok? then DecodeAll(kinds, s).0.value else []);
    assert kinds[0..] == kinds;
    for k := 0 to |kinds|
      invariant DecodeAll(kinds, s) == Prepend(got, DecodeAll(kinds[k..], sock.incoming))
    {
      assert kinds[k..][0] == kinds[k] && kinds[k..][1..] == kinds[k + 1..];
      ghost var before := sock.incoming;
      var one := RecvItem(sock, kinds[k]);
      if one.Err? {
        return Err(one.error);
      }
      PrependStep(got, kinds[k..], before);
      got := got + [one.value];
    }
    assert got + [] == got;
    return Ok(got);
  }

  /** Send a conversation through one socket, hand its bytes to the peer, and read them back
      there, whatever the sizes of the individual sends and receives. */
  method Converse(items: seq<Item>, rest: seq<Byte>) returns (got: seq<Item>, unread: seq<Byte>)
    requires forall i :: i in items ==> Receivable(i)
    ensures got == items && unread == rest
  {
    var sender := new Socket(true, []);
    var _ := SendAll(sender, items);
    assert [] + EncodeAll(items) == EncodeAll(items);
    var receiver := new Socket(true, sender.written + rest);
    var r := RecvAll(receiver, Kinds(items));
    ConversationRoundTrip(items, rest);
    return r.value, receiver.incoming;
  }
}
