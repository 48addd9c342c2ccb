/**
 The message of rpc/src/rpc_message.cc: a header of 32 bytes, a meta part and a payload, sent as
 up to three buffers and received in pieces of any size.
 */
module RpcMessage {

  import opened NetworkOrder
  import opened Wrappers

  const RPC_MAGIC: Uint32 := 0x57525043
  const RPC_VERSION: Uint16 := 1
  const RPC_HEADER_SIZE: nat := 32

  datatype Errno = EBADMSG | EMSGSIZE | EOVERFLOW | EINVAL

  /* ---------- what is on the wire ---------- */

  datatype Content = Content(sequence: Uint64, flags: Uint16, status: Uint32, meta: Bytes, payload: Bytes)

  function HeaderOf(x: Content): (h: Bytes)
    ensures |h| == RPC_HEADER_SIZE
  {
    Be32(RPC_MAGIC) + Be16(RPC_VERSION) + Be16(x.flags) + Be64(x.sequence) + Be32(|x.meta|) + Be32(|x.payload|)
    + Be32(x.status) + Be32(0)
  }

  function Wire(x: Content): Bytes {
    HeaderOf(x) + x.meta + x.payload
  }

  function Magic(h: Bytes): Uint32 requires |h| >= RPC_HEADER_SIZE { Num32(h[..4]) }
  function Version(h: Bytes): Uint16 requires |h| >= RPC_HEADER_SIZE { Num16(h[4..6]) }
  function Flags(h: Bytes): Uint16 requires |h| >= RPC_HEADER_SIZE { Num16(h[6..8]) }
  function Sequence(h: Bytes): Uint64 requires |h| >= RPC_HEADER_SIZE { Num64(h[8..16]) }
  function MetaLen(h: Bytes): Uint32 requires |h| >= RPC_HEADER_SIZE { Num32(h[16..20]) }
  function PayloadLen(h: Bytes): Uint32 requires |h| >= RPC_HEADER_SIZE { Num32(h[20..24]) }
  function StatusCode(h: Bytes): Uint32 requires |h| >= RPC_HEADER_SIZE { Num32(h[24..28]) }

  // What is wrong with a header, if anything.
  function HeaderError(h: Bytes, limit: nat): Option<Errno>
    requires |h| >= RPC_HEADER_SIZE
  {
    if Magic(h) != RPC_MAGIC || Version(h) != RPC_VERSION then Some(EBADMSG)
    else if MetaLen(h) + PayloadLen(h) > limit then Some(EMSGSIZE)
    else None
  }

  // Where the parts of the header are.
  lemma HeaderParts(x: Content, rest: Bytes)
    ensures var h := HeaderOf(x) + rest;
      && h[..4] == Be32(RPC_MAGIC) && h[4..6] == Be16(RPC_VERSION) && h[6..8] == Be16(x.flags)
      && h[8..16] == Be64(x.sequence) && h[16..20] == Be32(|x.meta|) && h[20..24] == Be32(|x.payload|)
      && h[24..28] == Be32(x.status)
  {
    hide Be16, Be32, Be64;
  }

  lemma HeaderFields(x: Content, rest: Bytes)
    ensures var h := HeaderOf(x) + rest;
      && Magic(h) == RPC_MAGIC && Version(h) == RPC_VERSION && Flags(h) == x.flags && Sequence(h) == x.sequence
      && MetaLen(h) == |x.meta| % 0x1_0000_0000 && PayloadLen(h) == |x.payload| % 0x1_0000_0000
        && StatusCode(h) == x.status
  {
    hide Be16, Be32, Be64, Num16, Num32, Num64, HeaderOf;
    Num32Exact(RPC_MAGIC);
    Num16Exact(RPC_VERSION);
    Num16Exact(x.flags);
    Num64Exact(x.sequence);
    Num32Be(|x.meta|);
    Num32Be(|x.payload|);
    Num32Exact(x.status);
    HeaderParts(x, rest);
  }

  // The first six bytes of every message.
  const START: Bytes := [0x57, 0x52, 0x50, 0x43, 0, 1]

  // The header, byte by byte.
  lemma WireFormat(x: Content)
    ensures var w, m := Wire(x), 32 + |x.meta|;
      && |w| == m + |x.payload| && w[..6] == START
      && BigEndian(w[6..8]) == x.flags && BigEndian(w[8..16]) == x.sequence
      && BigEndian(w[16..20]) == |x.meta| % 0x1_0000_0000 && BigEndian(w[20..24]) == |x.payload| % 0x1_0000_0000
      && BigEndian(w[24..28]) == x.status && w[28..32] == [0, 0, 0, 0]
      && w[32..m] == x.meta && w[m..] == x.payload
  {
    var w := Wire(x);
    HeaderParts(x, x.meta + x.payload);
    HeaderFields(x, x.meta + x.payload);
    assert HeaderOf(x) + (x.meta + x.payload) == w;
    assert w[..6] == w[..4] + w[4..6] && w[..6] == START;
    assert w[28..32] == Be32(0) == [0, 0, 0, 0];
    hide Num16, Num32, Num64, BigEndian, Be16, Be32, Be64;
    NumbersAreBigEndian(w[6..8]);
    NumbersAreBigEndian(w[8..16]);
    NumbersAreBigEndian(w[16..20]);
    NumbersAreBigEndian(w[20..24]);
    NumbersAreBigEndian(w[24..28]);
    SentParts(x);
  }

  lemma StartIs(h: Bytes)
    requires |h| >= RPC_HEADER_SIZE
    ensures Magic(h) == RPC_MAGIC && Version(h) == RPC_VERSION <==> h[..6] == START
  {
    var m, v: Bytes := [0x57, 0x52, 0x50, 0x43], [0, 1];
    assert Num32(m) == RPC_MAGIC by { assert m[..2] == [0x57, 0x52] && m[2..] == [0x50, 0x43]; }
    assert Num16(v) == RPC_VERSION;
    hide Num16, Num32;
    if Magic(h) == RPC_MAGIC && Version(h) == RPC_VERSION {
      Num32Injective(h[..4], m);
      Num16Injective(h[4..6], v);
    }
    assert h[..6] == h[..4] + h[4..6] && START == m + v;
    assert h[..6] == START ==> h[..4] == m && h[4..6] == v by {
      assert h[..4] == h[..6][..4] && h[4..6] == h[..6][4..];
    }
  }

  // A header is refused for its first six bytes, or else for its lengths, and for nothing else.
  lemma RefusedExactly(h: Bytes, limit: nat)
    requires |h| >= RPC_HEADER_SIZE
    ensures HeaderError(h, limit) ==
      if h[..6] != [0x57, 0x52, 0x50, 0x43, 0, 1] then Some(EBADMSG)
      else if BigEndian(h[16..20]) + BigEndian(h[20..24]) > limit then Some(EMSGSIZE) else None
  {
    StartIs(h);
    hide Num16, Num32, BigEndian;
    NumbersAreBigEndian(h[16..20]);
    NumbersAreBigEndian(h[20..24]);
  }

  /* ---------- receiving, one byte at a time ---------- */

  datatype Verdict = Wait | Whole | Bad(errno: Errno)

  // What has been received since the start is all there is to know.
  function Judge(got: Bytes, limit: nat): Verdict {
    if |got| < RPC_HEADER_SIZE then Wait
    else match HeaderError(got, limit) {
      case Some(e) => Bad(e)
      case None => if |got| < RPC_HEADER_SIZE + MetaLen(got) + PayloadLen(got) then Wait else Whole
    }
  }

  // Bytes are taken as long as some are missing.
  function Feed(got: Bytes, buf: Bytes, limit: nat): Bytes
    decreases |buf|
  {
    if buf == [] || Judge(got, limit) != Wait then got else Feed(got + [buf[0]], buf[1..], limit)
  }

  // How many more bytes are missing for certain.
  function Room(got: Bytes): nat
    requires |got| >= RPC_HEADER_SIZE ==> |got| <= RPC_HEADER_SIZE + MetaLen(got) + PayloadLen(got)
  {
    if |got| < RPC_HEADER_SIZE then RPC_HEADER_SIZE - |got|
      else RPC_HEADER_SIZE + MetaLen(got) + PayloadLen(got) - |got|
  }

  lemma SameHeader(got: Bytes, more: Bytes)
    requires |got| >= RPC_HEADER_SIZE
    ensures Magic(got + more) == Magic(got) && Version(got + more) == Version(got) && Flags(got + more) == Flags(got)
    ensures Sequence(got + more) == Sequence(got) && StatusCode(got + more) == StatusCode(got)
    ensures MetaLen(got + more) == MetaLen(got) && PayloadLen(got + more) == PayloadLen(got)
  {
    var h := got + more;
    assert h[..4] == got[..4] && h[4..6] == got[4..6] && h[6..8] == got[6..8] && h[8..16] == got[8..16];
    assert h[16..20] == got[16..20] && h[20..24] == got[20..24] && h[24..28] == got[24..28];
    hide Num16, Num32, Num64;
  }

  lemma SameJudgement(got: Bytes, more: Bytes, limit: nat)
    requires |got| >= RPC_HEADER_SIZE
    ensures HeaderError(got + more, limit) == HeaderError(got, limit)
  {
    SameHeader(got, more);
    hide Magic, Version, MetaLen, PayloadLen;
  }

  // A piece that is certainly missing is taken whole.
  lemma {:induction false} FeedPiece(got: Bytes, piece: Bytes, rest: Bytes, limit: nat)
    requires |got| >= RPC_HEADER_SIZE ==>
      HeaderError(got, limit) == None && |got| <= RPC_HEADER_SIZE + MetaLen(got) + PayloadLen(got)
    requires |piece| <= Room(got)
    ensures Feed(got, piece + rest, limit) == Feed(got + piece, rest, limit)
    decreases |piece|
  {
    if piece == [] {
      assert piece + rest == rest && got + piece == got;
    } else {
      var next := got + [piece[0]];
      assert (piece + rest)[1..] == piece[1..] + rest;
      assert next + piece[1..] == got + piece;
      if |got| >= RPC_HEADER_SIZE {
        SameJudgement(got, [piece[0]], limit);
        SameHeader(got, [piece[0]]);
      }
      hide Magic, Version, MetaLen, PayloadLen, HeaderError;
      if |got| != RPC_HEADER_SIZE - 1 {
        FeedPiece(next, piece[1..], rest, limit);
      } else {
        assert piece == [piece[0]] && next == got + piece;
        assert (piece + rest)[1..] == rest;
      }
    }
  }

  lemma {:induction false} FeedSettled(got: Bytes, buf: Bytes, limit: nat)
    ensures Judge(got, limit) != Wait ==> Feed(got, buf, limit) == got
    ensures Judge(Feed(got, buf, limit), limit) == Wait ==> Feed(got, buf, limit) == got + buf
    decreases |buf|
  {
    hide Judge;
    if buf != [] && Judge(got, limit) == Wait {
      FeedSettled(got + [buf[0]], buf[1..], limit);
      assert got + [buf[0]] + buf[1..] == got + buf;
    }
  }

  // It makes no difference how the bytes are cut into pieces.
  lemma {:induction false} FeedTwice(got: Bytes, a: Bytes, b: Bytes, limit: nat)
    ensures Feed(Feed(got, a, limit), b, limit) == Feed(got, a + b, limit)
    decreases |a|
  {
    hide Judge;
    if a == [] {
      assert a + b == b;
    } else if Judge(got, limit) == Wait {
      assert (a + b)[1..] == a[1..] + b;
      FeedTwice(got + [a[0]], a[1..], b, limit);
    }
  }

  function Joined(pieces: seq<Bytes>): Bytes {
    if pieces == [] then [] else pieces[0] + Joined(pieces[1..])
  }

  function FeedAll(got: Bytes, pieces: seq<Bytes>, limit: nat): Bytes
    decreases |pieces|
  {
    if pieces == [] then got else FeedAll(Feed(got, pieces[0], limit), pieces[1..], limit)
  }

  lemma {:induction false} PiecesDoNotMatter(got: Bytes, pieces: seq<Bytes>, limit: nat)
    ensures FeedAll(got, pieces, limit) == Feed(got, Joined(pieces), limit)
    decreases |pieces|
  {
    if pieces != [] {
      PiecesDoNotMatter(Feed(got, pieces[0], limit), pieces[1..], limit);
      FeedTwice(got, pieces[0], Joined(pieces[1..]), limit);
    }
  }

  // From a good header on, exactly the header and the two parts it announces are taken.
  lemma TakesExactly(stream: Bytes, limit: nat)
    requires |stream| >= RPC_HEADER_SIZE && HeaderError(stream, limit) == None
    requires |stream| >= RPC_HEADER_SIZE + MetaLen(stream) + PayloadLen(stream)
    ensures var n := RPC_HEADER_SIZE + MetaLen(stream) + PayloadLen(stream);
      Feed([], stream, limit) == stream[..n] && Judge(stream[..n], limit) == Whole
  {
    var n, h, rest := RPC_HEADER_SIZE + MetaLen(stream) + PayloadLen(stream), stream[..RPC_HEADER_SIZE],
      stream[RPC_HEADER_SIZE..];
    assert stream == h + rest;
    SameHeader(h, rest);
    FeedPiece([], h, rest, limit);
    assert [] + h == h;
    var body, tail := stream[RPC_HEADER_SIZE..n], stream[n..];
    assert rest == body + tail && h + body == stream[..n];
    hide Magic, Version, MetaLen, PayloadLen;
    FeedPiece(h, body, tail, limit);
    SameHeader(h, body);
    FeedSettled(h + body, tail, limit);
  }

  // And with a bad header, the header alone.
  lemma RefusesAtHeader(stream: Bytes, limit: nat)
    requires |stream| >= RPC_HEADER_SIZE && HeaderError(stream, limit) != None
    ensures Feed([], stream, limit) == stream[..RPC_HEADER_SIZE]
    ensures Judge(stream[..RPC_HEADER_SIZE], limit) == Bad(HeaderError(stream, limit).value)
  {
    var h, rest := stream[..RPC_HEADER_SIZE], stream[RPC_HEADER_SIZE..];
    assert stream == h + rest && [] + h == h;
    SameHeader(h, rest);
    hide Magic, Version, MetaLen, PayloadLen;
    FeedPiece([], h, rest, limit);
    FeedSettled(h, rest, limit);
  }

  /* ---------- what is sent is what is received ---------- */

  // The content of a whole message.
  function Received(got: Bytes): Content
    requires |got| >= RPC_HEADER_SIZE && |got| >= RPC_HEADER_SIZE + MetaLen(got) + PayloadLen(got)
  {
    var m := RPC_HEADER_SIZE + MetaLen(got);
    Content(Sequence(got), Flags(got), StatusCode(got), got[RPC_HEADER_SIZE..m], got[m..m + PayloadLen(got)])
  }

  ghost predicate IsWhole(got: Bytes) {
    |got| >= RPC_HEADER_SIZE && |got| == RPC_HEADER_SIZE + MetaLen(got) + PayloadLen(got)
  }

  lemma SameHeaders(g: Bytes, h: Bytes)
    requires |g| >= RPC_HEADER_SIZE && |h| >= RPC_HEADER_SIZE && g[..6] == h[..6]
    requires Flags(g) == Flags(h) && Sequence(g) == Sequence(h) && StatusCode(g) == StatusCode(h)
    requires MetaLen(g) == MetaLen(h) && PayloadLen(g) == PayloadLen(h)
    ensures g[..28] == h[..28]
  {
    hide Num16, Num32, Num64;
    Num16Injective(g[6..8], h[6..8]);
    Num64Injective(g[8..16], h[8..16]);
    Num32Injective(g[16..20], h[16..20]);
    Num32Injective(g[20..24], h[20..24]);
    Num32Injective(g[24..28], h[24..28]);
    HeaderOfParts(g);
    HeaderOfParts(h);
  }

  lemma HeaderOfParts(h: Bytes)
    requires |h| >= RPC_HEADER_SIZE
    ensures h[..28] == h[..6] + h[6..8] + h[8..16] + h[16..20] + h[20..24] + h[24..28]
  {
  }

  // What is judged to be a whole message is one that can be sent, but for the four reserved bytes.
  lemma WholeCanBeSent(got: Bytes, limit: nat)
    requires Judge(got, limit) == Whole && IsWhole(got)
    ensures var w := Wire(Received(got));
      |w| == |got| && w[..28] == got[..28] && w[32..] == got[32..]
  {
    var x := Received(got);
    var w, m := Wire(x), 32 + |x.meta|;
    StartIs(got);
    SentHeader(x, limit);
    SentParts(x);
    WireFormat(x);
    Small(|x.meta|);
    Small(|x.payload|);
    assert got[32..m] == x.meta && got[m..] == x.payload;
    hide Wire, HeaderError, Judge, Flags, Sequence, StatusCode, MetaLen, PayloadLen;
    SameHeaders(w, got);
    assert w[32..] == w[32..m] + w[m..];
    assert got[32..] == got[32..m] + got[m..];
  }

  // The message arrives complete, with all its bytes taken and its content unchanged, exactly when
  // both lengths fit into 32 bits and together into the receiver's limit.
  ghost predicate Arrives(x: Content, limit: nat) {
    var got := Feed([], Wire(x), limit);
    && got == Wire(x) && |got| >= RPC_HEADER_SIZE && |got| >= RPC_HEADER_SIZE + MetaLen(got) + PayloadLen(got)
    && Judge(got, limit) == Whole && Received(got) == x
  }

  lemma SentHeader(x: Content, limit: nat)
    ensures var w := Wire(x);
      && Flags(w) == x.flags && Sequence(w) == x.sequence && StatusCode(w) == x.status
      && MetaLen(w) == |x.meta| % 0x1_0000_0000 && PayloadLen(w) == |x.payload| % 0x1_0000_0000
      && HeaderError(w, limit) == if MetaLen(w) + PayloadLen(w) > limit then Some(EMSGSIZE) else None
  {
    HeaderFields(x, x.meta + x.payload);
    assert Wire(x) == HeaderOf(x) + (x.meta + x.payload);
    hide HeaderOf, Wire, Magic, Version, MetaLen, PayloadLen, Sequence, Flags, StatusCode;
  }

  lemma SentLengths(x: Content)
    requires |x.meta| < 0x1_0000_0000 && |x.payload| < 0x1_0000_0000
    ensures |Wire(x)| >= RPC_HEADER_SIZE && MetaLen(Wire(x)) == |x.meta| && PayloadLen(Wire(x)) == |x.payload|
  {
    hide *;
    SentHeader(x, 0);
    SentParts(x);
    Small(|x.meta|);
    Small(|x.payload|);
  }

  lemma Small(n: int)
    requires 0 <= n < 0x1_0000_0000
    ensures n % 0x1_0000_0000 == n
  {
  }

  lemma SentContent(x: Content)
    requires |x.meta| < 0x1_0000_0000 && |x.payload| < 0x1_0000_0000
    ensures |Wire(x)| == RPC_HEADER_SIZE + MetaLen(Wire(x)) + PayloadLen(Wire(x)) && Received(Wire(x)) == x
  {
    hide *;
    SentLengths(x);
    SentParts(x);
    SentRest(x);
    ContentOf(Wire(x), x);
  }

  lemma SentRest(x: Content)
    ensures Flags(Wire(x)) == x.flags && Sequence(Wire(x)) == x.sequence && StatusCode(Wire(x)) == x.status
  {
    hide *;
    SentHeader(x, 0);
  }

  lemma ContentOf(w: Bytes, x: Content)
    requires |w| == RPC_HEADER_SIZE + |x.meta| + |x.payload|
    requires MetaLen(w) == |x.meta| && PayloadLen(w) == |x.payload|
    requires Flags(w) == x.flags && Sequence(w) == x.sequence && StatusCode(w) == x.status
    requires w[RPC_HEADER_SIZE..RPC_HEADER_SIZE + |x.meta|] == x.meta && w[RPC_HEADER_SIZE + |x.meta|..] == x.payload
    ensures Received(w) == x
  {
    hide MetaLen, PayloadLen, Sequence, Flags, StatusCode;
  }

  lemma ArrivesThen(x: Content, limit: nat)
    requires |x.meta| < 0x1_0000_0000 && |x.payload| < 0x1_0000_0000 && |x.meta| + |x.payload| <= limit
    ensures Arrives(x, limit)
  {
    var w := Wire(x);
    SentHeader(x, limit);
    SentContent(x);
    hide Wire, MetaLen, PayloadLen, Sequence, Flags, StatusCode, HeaderError, Feed, Judge, Received;
    TakesExactly(w, limit);
    assert w[..|w|] == w;
  }

  lemma SentParts(x: Content)
    ensures var w, m := Wire(x), RPC_HEADER_SIZE + |x.meta|;
      |w| == m + |x.payload| && w[RPC_HEADER_SIZE..m] == x.meta && w[m..] == x.payload
  {
    hide HeaderOf;
  }

  lemma RoundTrip(x: Content, limit: nat)
    ensures Arrives(x, limit) <==>
      |x.meta| < 0x1_0000_0000 && |x.payload| < 0x1_0000_0000 && |x.meta| + |x.payload| <= limit
  {
    SentHeader(x, limit);
    hide Wire, MetaLen, PayloadLen, Sequence, Flags, StatusCode, Feed;
    if |x.meta| < 0x1_0000_0000 && |x.payload| < 0x1_0000_0000 && |x.meta| + |x.payload| <= limit {
      ArrivesThen(x, limit);
    }
  }

  /* ---------- the program ---------- */

  class RpcMessage {
    const sizeLimit: nat
    const sendHeader: array<Byte>
    const recvHeader: array<Byte>
    var recvHeaderBytes: nat
    var recvMetaBytes: nat
    var recvPayloadBytes: nat
    var expectedMetaLen: Uint32
    var expectedPayloadLen: Uint32
    var headerReady: bool
    var sequence: Uint64
    var flags: Uint16
    var status: Uint32
    var meta: Bytes
    var payload: Bytes
    ghost var got: Bytes    // what has been received so far

    constructor (limit: nat)
      ensures Valid() && got == [] && sizeLimit == limit && fresh(sendHeader) && fresh(recvHeader)
      ensures sequence == 0 && flags == 0 && status == 0 && meta == [] && payload == []
    {
      sizeLimit := limit;
      sendHeader, recvHeader := new Byte[RPC_HEADER_SIZE], new Byte[RPC_HEADER_SIZE];
      recvHeaderBytes, recvMetaBytes, recvPayloadBytes := 0, 0, 0;
      expectedMetaLen, expectedPayloadLen, headerReady := 0, 0, false;
      sequence, flags, status, meta, payload := 0, 0, 0, [], [];
      got := [];
    }

    ghost predicate HeaderValid()
      reads this, recvHeader
    {
      && recvHeader.Length == RPC_HEADER_SIZE
      && recvHeaderBytes == (if |got| < RPC_HEADER_SIZE then |got| else RPC_HEADER_SIZE)
      && recvHeader[..recvHeaderBytes] == got[..recvHeaderBytes]
      && (headerReady <==> |got| >= RPC_HEADER_SIZE && HeaderError(got, sizeLimit) == None)
      && (!headerReady ==> |got| <= RPC_HEADER_SIZE)
    }

    // The received part of the meta data and of the payload is in its place.
    ghost predicate BodyValid()
      reads this
    {
      |got| >= RPC_HEADER_SIZE
      && var m, k := MetaLen(got) as nat, |got| - RPC_HEADER_SIZE;
      && flags == Flags(got) && sequence == Sequence(got) && status == StatusCode(got)
      && expectedMetaLen == MetaLen(got) && expectedPayloadLen == PayloadLen(got)
      && |meta| == expectedMetaLen && |payload| == expectedPayloadLen
      && k <= m + |payload|
      && recvMetaBytes == (if k < m then k else m) && recvPayloadBytes == (if k < m then 0 else k - m)
      && meta[..recvMetaBytes] == got[RPC_HEADER_SIZE..RPC_HEADER_SIZE + recvMetaBytes]
      && (k >= m ==> payload[..recvPayloadBytes] == got[RPC_HEADER_SIZE + m..])
    }

    ghost predicate Valid()
      reads this, recvHeader
    {
      sendHeader.Length == RPC_HEADER_SIZE && sendHeader != recvHeader && HeaderValid() && (headerReady ==> BodyValid())
    }

    static function Zeros(n: nat): (s: Bytes)
      ensures |s| == n
    {
      seq(n, _ => 0)
    }

    // decode_header
    method DecodeHeader() returns (errno: Option<Errno>)
      requires recvHeader.Length == RPC_HEADER_SIZE == recvHeaderBytes == |got| && recvHeader[..] == got && !headerReady
      requires sendHeader.Length == RPC_HEADER_SIZE && sendHeader != recvHeader
      modifies this`flags, this`sequence, this`status, this`expectedMetaLen, this`expectedPayloadLen
      modifies this`meta, this`payload, this`recvMetaBytes, this`recvPayloadBytes, this`headerReady
      ensures errno == HeaderError(got, sizeLimit) && Valid() && headerReady == errno.None?
      ensures errno == (if got[..6] != [0x57, 0x52, 0x50, 0x43, 0, 1] then Some(EBADMSG)
        else if BigEndian(got[16..20]) + BigEndian(got[20..24]) > sizeLimit then Some(EMSGSIZE) else None)
    {
      RefusedExactly(got, sizeLimit);
      var h := recvHeader[..];
      assert h == got && recvHeader[..recvHeaderBytes] == h && got[..recvHeaderBytes] == h;
      hide Magic, Version, MetaLen, PayloadLen;
      if Magic(h) != RPC_MAGIC || Version(h) != RPC_VERSION {
        errno := Some(EBADMSG);
      } else if MetaLen(h) + PayloadLen(h) > sizeLimit {
        errno := Some(EMSGSIZE);
      } else {
        errno := None;
        TakeOver(h);
      }
    }

    method TakeOver(h: Bytes)
      requires recvHeaderBytes == |got| == RPC_HEADER_SIZE && h == got
      modifies this`flags, this`sequence, this`status, this`expectedMetaLen, this`expectedPayloadLen
      modifies this`meta, this`payload, this`recvMetaBytes, this`recvPayloadBytes, this`headerReady
      ensures BodyValid() && headerReady
    {
      hide Flags, Sequence, MetaLen, PayloadLen, StatusCode, Zeros;
      flags, sequence, status := Flags(h), Sequence(h), StatusCode(h);
      expectedMetaLen, expectedPayloadLen := MetaLen(h), PayloadLen(h);
      meta, payload := Zeros(MetaLen(h)), Zeros(PayloadLen(h));
      recvMetaBytes, recvPayloadBytes := 0, 0;
      headerReady := true;
      assert meta[..0] == got[RPC_HEADER_SIZE..RPC_HEADER_SIZE] && payload[..0] == got[RPC_HEADER_SIZE..];
    }

    // The next bytes go into the header, the meta data or the payload.
    method TakeHeader(piece: Bytes)
      requires Valid() && !headerReady && recvHeaderBytes + |piece| <= RPC_HEADER_SIZE
      modifies this`got, this`recvHeaderBytes, recvHeader
      ensures got == old(got) + piece && recvHeaderBytes == |got| && recvHeader[..|got|] == got
      ensures |got| < RPC_HEADER_SIZE ==> Valid()
    {
      assert recvHeader[..|got|] == got;
      for i := 0 to |piece|
        modifies recvHeader
        invariant recvHeader[..recvHeaderBytes + i] == got + piece[..i]
      {
        recvHeader[recvHeaderBytes + i] := piece[i];
      }
      assert piece[..|piece|] == piece;
      recvHeaderBytes := recvHeaderBytes + |piece|;
      got := got + piece;
      assert got[..|got|] == got;
    }

    method TakeMeta(piece: Bytes)
      requires Valid() && headerReady && recvMetaBytes + |piece| <= expectedMetaLen && recvPayloadBytes == 0
      requires recvMetaBytes < expectedMetaLen || piece == []
      modifies this`got, this`recvMetaBytes, this`meta
      ensures Valid() && got == old(got) + piece && recvMetaBytes == old(recvMetaBytes) + |piece|
    {
      SameHeader(got, piece);
      SameJudgement(got, piece, sizeLimit);
      hide Magic, Version, Flags, Sequence, MetaLen, PayloadLen, StatusCode, HeaderError;
      ghost var k := RPC_HEADER_SIZE + recvMetaBytes;
      assert got[..k] == got && (got + piece)[RPC_HEADER_SIZE..k + |piece|] == got[RPC_HEADER_SIZE..k] + piece;
      assert (got + piece)[..RPC_HEADER_SIZE] == got[..RPC_HEADER_SIZE];
      meta := meta[..recvMetaBytes] + piece + meta[recvMetaBytes + |piece|..];
      recvMetaBytes := recvMetaBytes + |piece|;
      got := got + piece;
    }

    method TakePayload(piece: Bytes)
      requires Valid() && headerReady && recvMetaBytes == expectedMetaLen
        && recvPayloadBytes + |piece| <= expectedPayloadLen
      modifies this`got, this`recvPayloadBytes, this`payload
      ensures Valid() && got == old(got) + piece && recvPayloadBytes == old(recvPayloadBytes) + |piece|
    {
      SameHeader(got, piece);
      SameJudgement(got, piece, sizeLimit);
      hide Magic, Version, Flags, Sequence, MetaLen, PayloadLen, StatusCode, HeaderError;
      ghost var k := RPC_HEADER_SIZE + recvMetaBytes;
      assert (got + piece)[k..] == got[k..] + piece && (got + piece)[RPC_HEADER_SIZE..k] == got[RPC_HEADER_SIZE..k];
      assert (got + piece)[..RPC_HEADER_SIZE] == got[..RPC_HEADER_SIZE];
      payload := payload[..recvPayloadBytes] + piece + payload[recvPayloadBytes + |piece|..];
      recvPayloadBytes := recvPayloadBytes + |piece|;
      got := got + piece;
    }

    // What the counters say about what is missing.
    lemma Counters()
      requires Valid()
      ensures recvHeader.Length == RPC_HEADER_SIZE
        && (!headerReady ==> |got| <= RPC_HEADER_SIZE && recvHeaderBytes == |got|)
      ensures !headerReady && |got| == RPC_HEADER_SIZE ==> HeaderError(got, sizeLimit) != None
      ensures headerReady ==> |got| >= RPC_HEADER_SIZE && HeaderError(got, sizeLimit) == None
      ensures headerReady ==> |got| <= RPC_HEADER_SIZE + MetaLen(got) + PayloadLen(got)
      ensures headerReady ==> Room(got) == expectedMetaLen - recvMetaBytes + (expectedPayloadLen - recvPayloadBytes)
      ensures headerReady ==> 0 <= recvMetaBytes <= expectedMetaLen && 0 <= recvPayloadBytes <= expectedPayloadLen
      ensures headerReady && recvMetaBytes < expectedMetaLen ==> recvPayloadBytes == 0
      ensures headerReady ==> Judge(got, sizeLimit) == if Room(got) == 0 then Whole else Wait
    {
    }

    // The body's part of append.
    method AppendBody(buf: Bytes, used0: nat) returns (done: bool, used: nat)
      requires Valid() && headerReady && used0 <= |buf|
      modifies this`got, this`recvMetaBytes, this`recvPayloadBytes, this`meta, this`payload
      ensures Valid() && headerReady && used0 <= used <= |buf| && got == old(got) + buf[used0..used]
      ensures Feed(got, buf[used..], sizeLimit) == Feed(old(got), buf[used0..], sizeLimit)
      ensures Judge(got, sizeLimit) == if done then Whole else Wait
      ensures !done ==> used == |buf|
    {
      hide Magic, Version, Flags, Sequence, MetaLen, PayloadLen, StatusCode, HeaderError, Feed, HeaderValid,
        BodyValid, Judge, Room;
      used := used0;
      Counters();
      if recvMetaBytes < expectedMetaLen {
        var n := if |buf| - used < expectedMetaLen - recvMetaBytes then |buf| - used
          else expectedMetaLen - recvMetaBytes;
        Pieces(got, buf, used, n, sizeLimit);
        TakeMeta(buf[used..used + n]);
        used := used + n;
        Counters();
        if recvMetaBytes < expectedMetaLen {
          return false, used;
        }
      }
      if recvPayloadBytes < expectedPayloadLen {
        var n := if |buf| - used < expectedPayloadLen - recvPayloadBytes then |buf| - used
          else expectedPayloadLen - recvPayloadBytes;
        Pieces(got, buf, used, n, sizeLimit);
        TakePayload(buf[used..used + n]);
        used := used + n;
        Counters();
        if recvPayloadBytes < expectedPayloadLen {
          return false, used;
        }
      }
      done := recvMetaBytes == expectedMetaLen && recvPayloadBytes == expectedPayloadLen;
    }

    lemma Arrived()
      requires Valid() && Judge(got, sizeLimit).Whole?
      ensures IsWhole(got) && Content(sequence, flags, status, meta, payload) == Received(got)
    {
      Counters();
      hide Magic, Version, Flags, Sequence, MetaLen, PayloadLen, StatusCode, HeaderError;
      assert meta[..|meta|] == meta && payload[..|payload|] == payload;
    }

    // append: takes what it can use of the buffer and says what it makes of it.
    method Append(buf: Bytes) returns (ret: int, used: nat, errno: Option<Errno>)
      requires Valid()
      modifies this`got, this`recvHeaderBytes, recvHeader, this`recvMetaBytes, this`recvPayloadBytes, this`meta,
        this`payload
      modifies this`flags, this`sequence, this`status, this`expectedMetaLen, this`expectedPayloadLen, this`headerReady
      ensures Valid() && got == Feed(old(got), buf, sizeLimit) && used == |got| - |old(got)|
      ensures ret ==
        (if buf == [] || Judge(got, sizeLimit).Wait? then 0 else if Judge(got, sizeLimit).Whole? then 1 else -1)
      ensures ret == -1 ==> errno == Some(Judge(got, sizeLimit).errno)
      ensures ret == 1 ==> IsWhole(got) && Content(sequence, flags, status, meta, payload) == Received(got)
    {
      hide Magic, Version, Flags, Sequence, MetaLen, PayloadLen, StatusCode, HeaderError, Feed, HeaderValid,
        BodyValid, Room;
      used := 0;
      errno := None;
      FeedNothing(got, sizeLimit);
      assert buf[0..] == buf;
      // The loop of the program never comes round: every path through it ends there.
      if |buf| - used > 0 {
        Counters();
        if !headerReady {
          var n := if |buf| - used < RPC_HEADER_SIZE - recvHeaderBytes then |buf| - used
            else RPC_HEADER_SIZE - recvHeaderBytes;
          HeaderPiece(got, buf, n, sizeLimit);
          TakeHeader(buf[used..used + n]);
          used := used + n;
          if recvHeaderBytes < RPC_HEADER_SIZE {
            assert buf[used..] == [];
            FeedNothing(got, sizeLimit);
            return 0, used, None;
          }
          errno := DecodeHeader();
          Counters();
          FeedSettled(got, buf[used..], sizeLimit);
          if errno.Some? {
            return -1, used, errno;
          }
          if expectedMetaLen == 0 && expectedPayloadLen == 0 {
            Arrived();
            return 1, used, None;
          }
        }
        var done;
        done, used := AppendBody(buf, used);
        FeedSettled(got, buf[used..], sizeLimit);
        if done {
          Arrived();
          return 1, used, None;
        } else {
          assert buf[used..] == [];
          FeedNothing(got, sizeLimit);
          return 0, used, None;
        }
      }
      ret := 0;
    }
    /* ----- sending ----- */

    ghost function Sent(): Content
      reads this
    {
      Content(sequence, flags, status, meta, payload)
    }

    // encode_header
    method EncodeHeader()
      requires sendHeader.Length == RPC_HEADER_SIZE
      modifies sendHeader
      ensures sendHeader[..] == HeaderOf(Sent())
    {
      hide Be16, Be32, Be64;
      var at := Copy(sendHeader, 0, Be32(RPC_MAGIC));
      at := Copy(sendHeader, at, Be16(RPC_VERSION));
      at := Copy(sendHeader, at, Be16(flags));
      at := Copy(sendHeader, at, Be64(sequence));
      at := Copy(sendHeader, at, Be32(|meta|));
      at := Copy(sendHeader, at, Be32(|payload|));
      at := Copy(sendHeader, at, Be32(status));
      at := Copy(sendHeader, at, Be32(0));
      assert sendHeader[..] == sendHeader[..RPC_HEADER_SIZE];
    }

    // encode: the buffers, empty ones left out, spell the message; there must be room for them.
    method Encode(max: int) returns (count: int, vectors: seq<Bytes>)
      requires sendHeader.Length == RPC_HEADER_SIZE
      modifies sendHeader
      ensures old(Valid()) ==> Valid()
      ensures var n := 1 + (if meta != [] then 1 else 0) + (if payload != [] then 1 else 0);
        if n > max then count == -1 else count == n == |vectors| && Joined(vectors) == Wire(Sent())
    {
      count := 1;
      vectors := [];
      if meta != [] {
        count := count + 1;
      }
      if payload != [] {
        count := count + 1;
      }
      if count > max {
        return -1, vectors;
      }
      hide HeaderOf, HeaderValid, BodyValid, Joined;
      EncodeHeader();
      ghost var h := HeaderOf(Sent());
      vectors := [sendHeader[..]];
      if meta != [] {
        vectors := vectors + [meta];
      }
      if payload != [] {
        vectors := vectors + [payload];
      }
      assert vectors == [h] + (if meta != [] then [meta] else []) + (if payload != [] then [payload] else []);
      JoinedParts(h, meta, payload);
    }

    // set_service_method
    method SetServiceMethod(service: Bytes, name: Bytes) returns (ok: bool)
      modifies this`meta
      ensures ok == (|service| <= 0xffff && |name| <= 0xffff)
      ensures old(Valid()) && (!headerReady || !ok) ==> Valid()
      ensures meta == if ok then ServiceMeta(service, name) else old(meta)
    {
      if |service| > 0xffff || |name| > 0xffff {
        return false;
      }
      meta := Be16(|service|) + Be16(|name|) + service + name;
      ok := true;
    }

    // get_service_method: exactly what set_service_method wrote.
    method GetServiceMethod() returns (ok: bool, service: Bytes, name: Bytes)
      ensures ok ==> |service| <= 0xffff && |name| <= 0xffff && meta == ServiceMeta(service, name)
      ensures !ok ==> forall s: Bytes, n: Bytes :: |s| <= 0xffff && |n| <= 0xffff ==> meta != ServiceMeta(s, n)
    {
      ok, service, name := ReadServiceMeta(meta);
    }
  }

  lemma FeedNothing(got: Bytes, limit: nat)
    ensures Feed(got, [], limit) == got
  {
  }

  // The next bytes of the header, none if it has been received, and refused, already.
  lemma HeaderPiece(got: Bytes, buf: Bytes, n: nat, limit: nat)
    requires n <= |buf| && |got| + n <= RPC_HEADER_SIZE
    ensures Feed(got, buf, limit) == Feed(got + buf[0..n], buf[n..], limit)
  {
    assert buf[0..] == buf;
    if n == 0 {
      assert got + buf[0..n] == got && buf[n..] == buf;
    } else {
      Pieces(got, buf, 0, n, limit);
    }
  }

  // The next `n` bytes of the buffer are certainly missing.
  lemma Pieces(got: Bytes, buf: Bytes, used: nat, n: nat, limit: nat)
    requires used + n <= |buf|
    requires |got| >= RPC_HEADER_SIZE ==>
      |got| <= RPC_HEADER_SIZE + MetaLen(got) + PayloadLen(got) && HeaderError(got, limit) == None
    requires n <= Room(got)
    ensures Feed(got, buf[used..], limit) == Feed(got + buf[used..used + n], buf[used + n..], limit)
    ensures buf[..used] + buf[used..used + n] == buf[..used + n]
  {
    assert buf[used..] == buf[used..used + n] + buf[used + n..];
    FeedPiece(got, buf[used..used + n], buf[used + n..], limit);
  }

  method Copy(out: array<Byte>, at: nat, bytes: Bytes) returns (next: nat)
    requires at + |bytes| <= out.Length
    modifies out
    ensures next == at + |bytes| && out[..next] == old(out[..at]) + bytes
  {
    for i := 0 to |bytes|
      invariant out[..at + i] == old(out[..at]) + bytes[..i]
    {
      out[at + i] := bytes[i];
    }
    next := at + |bytes|;
    assert bytes[..|bytes|] == bytes;
  }

  lemma JoinedParts(h: Bytes, m: Bytes, p: Bytes)
    ensures Joined([h] + (if m != [] then [m] else []) + (if p != [] then [p] else [])) == h + m + p
  {
    var l := [h] + (if m != [] then [m] else []) + (if p != [] then [p] else []);
    JoinedOf(l[1..]);
    assert l[1..] == (if m != [] then [m] else []) + (if p != [] then [p] else []);
  }

  lemma JoinedOf(l: seq<Bytes>)
    ensures |l| == 0 ==> Joined(l) == []
    ensures |l| == 1 ==> Joined(l) == l[0]
    ensures |l| == 2 ==> Joined(l) == l[0] + l[1]
  {
    if |l| >= 1 {
      assert |l[1..]| == 0 ==> Joined(l[1..]) == [];
      assert |l[1..]| == 1 ==> Joined(l[1..]) == l[1] + Joined(l[1..][1..]) && Joined(l[1..][1..]) == [];
    }
  }

  /* ---------- the service and the method in the meta data ---------- */

  function ServiceMeta(service: Bytes, name: Bytes): Bytes {
    Be16(|service|) + Be16(|name|) + service + name
  }

  lemma ServiceMetaParts(service: Bytes, name: Bytes)
    requires |service| <= 0xffff && |name| <= 0xffff
    ensures var m := ServiceMeta(service, name);
      && |m| == 4 + |service| + |name| && Num16(m[..2]) == |service| && Num16(m[2..4]) == |name|
      && m[4..4 + |service|] == service && m[4 + |service|..] == name
  {
    Num16Be(|service|);
    Num16Be(|name|);
    hide Num16, Be16;
    var m := ServiceMeta(service, name);
    assert m[..2] == Be16(|service|) && m[2..4] == Be16(|name|);
  }

  method ReadServiceMeta(meta: Bytes) returns (ok: bool, service: Bytes, name: Bytes)
    ensures ok ==> |service| <= 0xffff && |name| <= 0xffff && meta == ServiceMeta(service, name)
    ensures !ok ==> forall s: Bytes, n: Bytes :: |s| <= 0xffff && |n| <= 0xffff ==> meta != ServiceMeta(s, n)
  {
    forall s: Bytes, n: Bytes | |s| <= 0xffff && |n| <= 0xffff
      ensures meta == ServiceMeta(s, n) ==>
        |meta| >= 4 && 4 + Num16(meta[..2]) as int + Num16(meta[2..4]) as int == |meta|
    {
      ServiceMetaParts(s, n);
    }
    ok, service, name := false, [], [];
    if |meta| < 4 {
      return;
    }
    var sLen, mLen := Num16(meta[..2]) as int, Num16(meta[2..4]) as int;
    if 4 + sLen + mLen != |meta| {
      return;
    }
    service := meta[4..4 + sLen];
    name := meta[4 + sLen..4 + sLen + mLen];
    ok := true;
    Canonical(meta, service, name);
  }

  lemma Canonical(meta: Bytes, service: Bytes, name: Bytes)
    requires |meta| >= 4 && |service| <= 0xffff && |name| <= 0xffff
    requires Num16(meta[..2]) == |service| && Num16(meta[2..4]) == |name|
    requires 4 + |service| + |name| == |meta| && service == meta[4..4 + |service|] && name == meta[4 + |service|..]
    ensures meta == ServiceMeta(service, name)
  {
    Num16Be(|service|);
    Num16Be(|name|);
    Num16Injective(meta[..2], Be16(|service|));
    Num16Injective(meta[2..4], Be16(|name|));
    hide Num16, Be16;
    assert meta == meta[..2] + meta[2..4] + meta[4..4 + |service|] + meta[4 + |service|..];
  }

  /* ---------- putting it together ---------- */

  // A message with service, method and payload, sent and received in any pieces within the limit:
  // everything arrives, and the last piece is the one that says so.
  lemma SentAndReceived(x: Content, service: Bytes, name: Bytes, pieces: seq<Bytes>, limit: nat)
    requires |service| <= 0xffff && |name| <= 0xffff && x.meta == ServiceMeta(service, name)
    requires |x.payload| < 0x1_0000_0000 && |x.meta| + |x.payload| <= limit
    requires Joined(pieces) == Wire(x)
    ensures var got := FeedAll([], pieces, limit);
      got == Wire(x) && Judge(got, limit) == Whole && |got| == RPC_HEADER_SIZE + MetaLen(got) + PayloadLen(got)
        && Received(got) == x
  {
    PiecesDoNotMatter([], pieces, limit);
    ServiceMetaParts(service, name);
    ArrivesThen(x, limit);
    SentContent(x);
    hide Wire, Feed, FeedAll, Judge, MetaLen, PayloadLen, Received, ServiceMeta;
  }
}
