/**
 The framed format of rpc/src/tinypb_codec.cc: four strings and a code between two marks, with
 their lengths and a CRC-32.
 */
module TinyPbCodec {

  import opened Crc32
  import opened NetworkOrder
  import opened Wrappers

  const SIZE_MAX: int := 0xFFFF_FFFF_FFFF_FFFF
  const START: Byte := 0x02
  const END: Byte := 0x03
  const FIXED_HEADER_SIZE: int := 26

  datatype Message = Message(msgReq: Bytes, serviceName: Bytes, errCode: Uint32, errInfo: Bytes, pbData: Bytes)

  datatype Errno = EINVAL | EBADMSG | EMSGSIZE

  // A frame whose inner lengths lead past its end has no defined result: the program reads there.
  datatype Decoded = Ok(data: Message) | Error(errno: Errno) | Undefined

  /* ---------- numbers in a frame ---------- */

  // The number at position `p`.
  function At(s: Bytes, p: int): (n: int)
    requires 0 <= p <= |s| - 4
    ensures 0 <= n < 0x1_0000_0000
  {
    Num32(s[p..p + 4])
  }

  // The same for the checksum, which is a register.
  function BeWord(c: bv32): (s: Bytes)
    ensures |s| == 4
  {
    [Low(c >> 24), Low(c >> 16), Low(c >> 8), Low(c)]
  }

  function Word(s: Bytes): bv32
    requires |s| == 4
  {
    Together(Wide(s[0]), Wide(s[1]), Wide(s[2]), Wide(s[3]))
  }

  function Together(a: bv32, b: bv32, c: bv32, d: bv32): bv32 {
    (a << 24) | (b << 16) | (c << 8) | d
  }

  lemma WordBe(c: bv32)
    ensures Word(BeWord(c)) == c
  {
    WideOfLow(c >> 24);
    WideOfLow(c >> 16);
    WideOfLow(c >> 8);
    WideOfLow(c);
    Reassemble(c);
    hide Low, Wide, Together;
  }

  lemma Reassemble(c: bv32)
    ensures Together((c >> 24) & 0xFF, (c >> 16) & 0xFF, (c >> 8) & 0xFF, c & 0xFF) == c
  {
  }

  lemma TogetherInjective(a: bv32, b: bv32, c: bv32, d: bv32, x: bv32, y: bv32, z: bv32, w: bv32)
    requires a & 0xFF == a && b & 0xFF == b && c & 0xFF == c && d & 0xFF == d
    requires x & 0xFF == x && y & 0xFF == y && z & 0xFF == z && w & 0xFF == w
    requires Together(a, b, c, d) == Together(x, y, z, w)
    ensures a == x && b == y && c == z && d == w
  {
  }

  lemma WordInjective(s: Bytes, t: Bytes)
    requires |s| == 4 && |t| == 4 && Word(s) == Word(t)
    ensures s == t
  {
    hide Low, Wide, Together;
    forall i | 0 <= i < 4
      ensures Wide(s[i]) & 0xFF == Wide(s[i]) && Low(Wide(s[i])) == s[i]
      ensures Wide(t[i]) & 0xFF == Wide(t[i]) && Low(Wide(t[i])) == t[i]
    {
      LowOfWide(s[i]);
      LowOfWide(t[i]);
    }
    TogetherInjective(Wide(s[0]), Wide(s[1]), Wide(s[2]), Wide(s[3]), Wide(t[0]), Wide(t[1]), Wide(t[2]), Wide(t[3]));
  }

  /* ---------- frames ---------- */

  function VariableSize(x: Message): nat {
    |x.msgReq| + |x.serviceName| + |x.errInfo| + |x.pbData|
  }

  function TotalLen(x: Message): nat {
    FIXED_HEADER_SIZE + VariableSize(x)
  }

  // What the checksum covers: everything between the first mark and itself.
  function Body(x: Message): Bytes {
    Be32(TotalLen(x) - 2) + Be32(|x.msgReq|) + x.msgReq + Be32(|x.serviceName|) + x.serviceName
    + Be32(x.errCode) + Be32(|x.errInfo|) + x.errInfo + x.pbData
  }

  function Frame(x: Message): Bytes {
    [START] + Body(x) + BeWord(Checksum(Body(x))) + [END]
  }

  // The inner lengths lead to places inside the frame.
  predicate InBounds(s: Bytes) {
    && |s| >= FIXED_HEADER_SIZE
    && var p1 := 9 + At(s, 5);
    p1 + 4 <= |s|
    && var p2 := p1 + 4 + At(s, p1);
    p2 + 8 <= |s|
    && var p3 := p2 + 8 + At(s, p2 + 4);
    p3 <= |s| - 5
  }

  function ServiceLenAt(s: Bytes): (p: int)
    requires InBounds(s)
    ensures 9 <= p <= |s| - 4
  {
    9 + At(s, 5)
  }

  function ErrCodeAt(s: Bytes): (p: int)
    requires InBounds(s)
    ensures ServiceLenAt(s) + 4 <= p <= |s| - 8
  {
    ServiceLenAt(s) + 4 + At(s, ServiceLenAt(s))
  }

  function PbDataAt(s: Bytes): (p: int)
    requires InBounds(s)
    ensures ErrCodeAt(s) + 8 <= p <= |s| - 5
  {
    ErrCodeAt(s) + 8 + At(s, ErrCodeAt(s) + 4)
  }

  function Fields(s: Bytes): Message
    requires InBounds(s)
  {
    var p1, p2, p3 := ServiceLenAt(s), ErrCodeAt(s), PbDataAt(s);
    Message(s[9..p1], s[p1 + 4..p2], At(s, p2), s[p2 + 8..p3], s[p3..|s| - 5])
  }

  function Parse(s: Bytes): Decoded {
    if |s| < FIXED_HEADER_SIZE then Error(EINVAL)
    else if s[0] != START then Error(EBADMSG)
    else if (At(s, 1) + 2) % 0x1_0000_0000 != |s| then Error(EBADMSG)
    else if !InBounds(s) then Undefined
    else if Checksum(s[1..|s| - 5]) != Word(s[|s| - 5..|s| - 1]) then Error(EBADMSG)
    else if s[|s| - 1] != END then Error(EBADMSG)
    else Ok(Fields(s))
  }

  /* ---------- the program ---------- */

  // memcpy to a place in the buffer, behind what was written so far
  method Put(out: array<Byte>, at: nat, bytes: Bytes, ghost done: Bytes) returns (next: nat)
    requires at + |bytes| <= out.Length && at > 0 && out[..at] == [START] + done
    modifies out
    ensures next == at + |bytes| && out[..next] == [START] + (done + bytes)
  {
    for i := 0 to |bytes|
      invariant out[..at + i] == [START] + done + bytes[..i]
    {
      out[at + i] := bytes[i];
    }
    next := at + |bytes|;
    assert [START] + done + bytes[..|bytes|] == [START] + (done + bytes);
  }

  method Encode(crc: Table, data: Message) returns (errno: Option<Errno>, out: array<Byte>)
    requires crc.Valid()
    modifies crc`initialized, crc.entries
    ensures crc.Valid() && fresh(out)
    ensures VariableSize(data) > 0xFFFF_FFFF_FFFF_FFFF - 26 ==> errno == Some(EMSGSIZE)
    ensures VariableSize(data) <= 0xFFFF_FFFF_FFFF_FFFF - 26 ==> errno == None && out[..] == Frame(data)
  {
    var variableSize := |data.msgReq| + |data.serviceName| + |data.errInfo| + |data.pbData|;
    var totalLen := FIXED_HEADER_SIZE + variableSize;
    if variableSize > SIZE_MAX - FIXED_HEADER_SIZE {
      out := new Byte[0];
      return Some(EMSGSIZE), out;
    }
    hide Be32, BeWord, Checksum;
    out := new Byte[totalLen];
    out[0] := START;
    var ptr := PutFields(out, data);
    ghost var body := Body(data);
    hide Body;
    assert out[1..totalLen - 5] == body;
    var checksum := crc.Crc(out[1..totalLen - 5]);
    ptr := Put(out, ptr, BeWord(checksum), body);
    out[ptr] := END;
    assert out[..] == [START] + (body + BeWord(checksum)) + [END];
    errno := None;
  }

  method PutFields(out: array<Byte>, data: Message) returns (ptr: nat)
    requires out.Length == TotalLen(data) && out[0] == START
    modifies out
    ensures ptr == out.Length - 5 && out[..ptr] == [START] + Body(data)
  {
    hide Be32;
    ghost var done: Bytes := [];
    ptr := Put(out, 1, Be32(out.Length - 2), done);
    done := done + Be32(out.Length - 2);
    ptr := Put(out, ptr, Be32(|data.msgReq|), done);
    done := done + Be32(|data.msgReq|);
    ptr := Put(out, ptr, data.msgReq, done);
    done := done + data.msgReq;
    ptr := Put(out, ptr, Be32(|data.serviceName|), done);
    done := done + Be32(|data.serviceName|);
    ptr := Put(out, ptr, data.serviceName, done);
    done := done + data.serviceName;
    ptr := Put(out, ptr, Be32(data.errCode), done);
    done := done + Be32(data.errCode);
    ptr := Put(out, ptr, Be32(|data.errInfo|), done);
    done := done + Be32(|data.errInfo|);
    ptr := Put(out, ptr, data.errInfo, done);
    done := done + data.errInfo;
    ptr := Put(out, ptr, data.pbData, done);
    assert [] + Be32(out.Length - 2) == Be32(out.Length - 2);
  }

  // Reads a string whose length stands before it; `next` is past the end when the string is.
  method Take(input: Bytes, pos: nat) returns (bytes: Bytes, next: nat, ok: bool)
    ensures ok <==> pos + 4 <= |input| && pos + 4 + At(input, pos) <= |input|
    ensures ok ==> next == pos + 4 + At(input, pos) && bytes == input[pos + 4..next]
  {
    bytes, next, ok := [], pos, false;
    if pos + 4 <= |input| {
      var len := At(input, pos);
      if pos + 4 + len <= |input| {
        next := pos + 4 + len;
        bytes := input[pos + 4..next];
        ok := true;
      }
    }
  }

  method Decode(crc: Table, input: Bytes) returns (r: Decoded)
    requires crc.Valid()
    modifies crc`initialized, crc.entries
    ensures crc.Valid() && r == Parse(input)
  {
    hide Num32, Checksum, Word;
    if |input| < FIXED_HEADER_SIZE {
      return Error(EINVAL);
    }
    var pos := 0;
    if input[pos] != START {
      return Error(EBADMSG);
    }
    pos := pos + 1;
    var pkLen := At(input, pos);
    pos := pos + 4;
    if (pkLen + 2) % 0x1_0000_0000 != |input| {
      return Error(EBADMSG);
    }
    var msgReq, ok, serviceName, errInfo;
    msgReq, pos, ok := Take(input, pos);
    if !ok { return Undefined; }
    serviceName, pos, ok := Take(input, pos);
    if !ok || pos + 4 > |input| { return Undefined; }
    var errCode := At(input, pos);
    pos := pos + 4;
    errInfo, pos, ok := Take(input, pos);
    var pbDataEnd := |input| - 4 - 1;
    if !ok || pos > pbDataEnd { return Undefined; }
    var pbData := input[pos..pbDataEnd];
    var expected := Word(input[pbDataEnd..pbDataEnd + 4]);
    var actual := crc.Crc(input[1..pbDataEnd]);
    if actual != expected {
      return Error(EBADMSG);
    }
    if input[|input| - 1] != END {
      return Error(EBADMSG);
    }
    return Ok(Message(msgReq, serviceName, errCode, errInfo, pbData));
  }

  /* ---------- what was encoded is what is decoded ---------- */

  lemma Middle(a: Bytes, b: Bytes, c: Bytes, s: Bytes)
    requires s == a + b + c
    ensures s[|a|..|a| + |b|] == b
  {
  }

  // A number encoded behind `a`.
  lemma NumberAt(a: Bytes, n: int, c: Bytes, s: Bytes)
    requires n >= 0 && s == a + Be32(n) + c
    ensures At(s, |a|) == n % 0x1_0000_0000
  {
    Middle(a, Be32(n), c, s);
    Num32Be(n);
  }

  lemma FrameNumbers(x: Message)
    requires TotalLen(x) < 0x1_0000_0000
    ensures var s, r, v := Frame(x), |x.msgReq|, |x.serviceName|;
      && |s| == TotalLen(x) && At(s, 1) == TotalLen(x) - 2 && At(s, 5) == r && At(s, 9 + r) == v
      && At(s, 17 + r + v) == |x.errInfo|
  {
    var s, tail := Frame(x), BeWord(Checksum(Body(x))) + [END];
    hide Be32, Num32, At, BeWord, Checksum;
    var h := [START];
    var a1 := h + Be32(TotalLen(x) - 2);
    var a2 := a1 + Be32(|x.msgReq|) + x.msgReq;
    var a4 := a2 + Be32(|x.serviceName|) + x.serviceName + Be32(x.errCode);
    var b4 := x.errInfo + x.pbData + tail;
    var b2 := x.serviceName + Be32(x.errCode) + (Be32(|x.errInfo|) + b4);
    var b1 := x.msgReq + Be32(|x.serviceName|) + b2;
    assert s == h + Be32(TotalLen(x) - 2) + (Be32(|x.msgReq|) + b1);
    assert s == a1 + Be32(|x.msgReq|) + b1;
    assert s == a2 + Be32(|x.serviceName|) + b2;
    assert s == a4 + Be32(|x.errInfo|) + b4;
    hide Frame, Body;
    NumberAt(h, TotalLen(x) - 2, Be32(|x.msgReq|) + b1, s);
    NumberAt(a1, |x.msgReq|, b1, s);
    NumberAt(a2, |x.serviceName|, b2, s);
    NumberAt(a4, |x.errInfo|, b4, s);
  }

  // Where the parts of a frame are.
  lemma FrameLayout(x: Message)
    requires TotalLen(x) < 0x1_0000_0000
    ensures var s := Frame(x);
      && |s| == TotalLen(x) && s[0] == START && s[|s| - 1] == END && At(s, 1) == TotalLen(x) - 2
      && InBounds(s) && ServiceLenAt(s) == 9 + |x.msgReq|
      && ErrCodeAt(s) == 13 + |x.msgReq| + |x.serviceName|
      && PbDataAt(s) == 21 + |x.msgReq| + |x.serviceName| + |x.errInfo|
  {
    FrameNumbers(x);
    FrameStarts(x);
    hide Frame, Body, At, Checksum;
  }

  lemma FrameStrings(x: Message)
    ensures var s, r, v, e := Frame(x), |x.msgReq|, |x.serviceName|, |x.errInfo|;
      && |s| == TotalLen(x) && s[9..9 + r] == x.msgReq && s[13 + r..13 + r + v] == x.serviceName
      && s[21 + r + v..21 + r + v + e] == x.errInfo && s[21 + r + v + e..|s| - 5] == x.pbData
  {
    var s, tail := Frame(x), BeWord(Checksum(Body(x))) + [END];
    hide Be32, BeWord, Checksum;
    var a1 := [START] + Be32(TotalLen(x) - 2) + Be32(|x.msgReq|);
    var a2 := a1 + x.msgReq + Be32(|x.serviceName|);
    var a4 := a2 + x.serviceName + Be32(x.errCode) + Be32(|x.errInfo|);
    var b2 := Be32(x.errCode) + Be32(|x.errInfo|) + x.errInfo + x.pbData + tail;
    assert s == a1 + x.msgReq + (Be32(|x.serviceName|) + x.serviceName + b2);
    assert s == a2 + x.serviceName + b2;
    assert s == a4 + x.errInfo + (x.pbData + tail);
    assert s == a4 + x.errInfo + x.pbData + tail;
  }

  lemma FrameErrCode(x: Message)
    ensures At(Frame(x), 13 + |x.msgReq| + |x.serviceName|) == x.errCode
  {
    var s, tail := Frame(x), BeWord(Checksum(Body(x))) + [END];
    hide Be32, BeWord, Checksum, At;
    var a := [START] + Be32(TotalLen(x) - 2) + Be32(|x.msgReq|) + x.msgReq + Be32(|x.serviceName|) + x.serviceName;
    var b := Be32(|x.errInfo|) + x.errInfo + x.pbData + tail;
    assert s == a + Be32(x.errCode) + b;
    NumberAt(a, x.errCode, b, s);
  }

  lemma FrameChecksum(x: Message)
    ensures var s := Frame(x);
      |s| >= 6 && s[1..|s| - 5] == Body(x) && Word(s[|s| - 5..|s| - 1]) == Checksum(Body(x))
  {
    var s, w := Frame(x), BeWord(Checksum(Body(x)));
    WordBe(Checksum(Body(x)));
    hide BeWord, Checksum, Word, Body;
    Middle([START], Body(x), w + [END], s);
    Middle([START] + Body(x), w, [END], s);
  }

  lemma FieldsOf(s: Bytes, x: Message)
    requires InBounds(s) && ServiceLenAt(s) == 9 + |x.msgReq| && ErrCodeAt(s) == 13 + |x.msgReq| + |x.serviceName|
    requires PbDataAt(s) == 21 + |x.msgReq| + |x.serviceName| + |x.errInfo|
    requires s[9..ServiceLenAt(s)] == x.msgReq && s[ServiceLenAt(s) + 4..ErrCodeAt(s)] == x.serviceName
    requires At(s, ErrCodeAt(s)) == x.errCode && s[ErrCodeAt(s) + 8..PbDataAt(s)] == x.errInfo
    requires s[PbDataAt(s)..|s| - 5] == x.pbData
    ensures Fields(s) == x
  {
    hide InBounds, ServiceLenAt, ErrCodeAt, PbDataAt, At;
  }

  lemma FrameFields(x: Message)
    requires TotalLen(x) < 0x1_0000_0000
    ensures InBounds(Frame(x)) && Fields(Frame(x)) == x
  {
    hide *;
    FrameLayout(x);
    FrameStrings(x);
    FrameErrCode(x);
    FieldsOf(Frame(x), x);
  }

  // A message comes back exactly when its frame fits into 32 bits; a longer one is refused.
  lemma RoundTrip(x: Message)
    ensures Parse(Frame(x)) == if TotalLen(x) < 0x1_0000_0000 then Ok(x) else Error(EBADMSG)
  {
    FrameStarts(x);
    hide Frame, Body, At, InBounds, Fields, Word, Checksum, VariableSize;
    if TotalLen(x) < 0x1_0000_0000 {
      FrameLayout(x);
      FrameFields(x);
      FrameChecksum(x);
    }
  }

  lemma FrameStarts(x: Message)
    ensures |Frame(x)| == TotalLen(x) >= FIXED_HEADER_SIZE && Frame(x)[0] == START && Frame(x)[TotalLen(x) - 1] == END
  {
    hide Checksum, BeWord, Be32;
  }

  /* ---------- what is accepted is a frame ---------- */

  lemma WrittenAt(s: Bytes, p: int)
    requires 0 <= p <= |s| - 4
    ensures s[p..p + 4] == Be32(At(s, p))
  {
    Num32Exact(At(s, p));
    Num32Injective(s[p..p + 4], Be32(At(s, p)));
  }

  lemma FieldLengths(s: Bytes)
    requires InBounds(s)
    ensures var x := Fields(s);
      && ServiceLenAt(s) == 9 + |x.msgReq| && At(s, 5) == |x.msgReq|
      && ErrCodeAt(s) == ServiceLenAt(s) + 4 + |x.serviceName| && At(s, ServiceLenAt(s)) == |x.serviceName|
      && PbDataAt(s) == ErrCodeAt(s) + 8 + |x.errInfo| && At(s, ErrCodeAt(s) + 4) == |x.errInfo|
      && At(s, ErrCodeAt(s)) == x.errCode && |s| == TotalLen(x)
  {
    hide At;
  }

  lemma CutFrame(s: Bytes, p1: int, p2: int, p3: int, end: int)
    requires 9 <= p1 && p1 + 4 <= p2 && p2 + 8 <= p3 <= end <= |s|
    ensures s[1..end] == s[1..5] + s[5..9] + s[9..p1] + s[p1..p1 + 4] + s[p1 + 4..p2] + s[p2..p2 + 4]
      + s[p2 + 4..p2 + 8] + s[p2 + 8..p3] + s[p3..end]
  {
    CutAt(s, 1, 5, 9);
    CutAt(s, 1, 9, p1);
    CutAt(s, 1, p1, p1 + 4);
    CutAt(s, 1, p1 + 4, p2);
    CutAt(s, 1, p2, p2 + 4);
    CutAt(s, 1, p2 + 4, p2 + 8);
    CutAt(s, 1, p2 + 8, p3);
    CutAt(s, 1, p3, end);
  }

  lemma CutAt(s: Bytes, from: int, mid: int, to: int)
    requires 0 <= from <= mid <= to <= |s|
    ensures s[from..to] == s[from..mid] + s[mid..to]
  {
  }

  lemma BodyIs(s: Bytes)
    requires InBounds(s) && At(s, 1) == |s| - 2
    ensures s[1..|s| - 5] == Body(Fields(s))
  {
    var p1, p2, p3 := ServiceLenAt(s), ErrCodeAt(s), PbDataAt(s);
    FieldLengths(s);
    CutFrame(s, p1, p2, p3, |s| - 5);
    WrittenAt(s, 1);
    WrittenAt(s, 5);
    WrittenAt(s, p1);
    WrittenAt(s, p2);
    WrittenAt(s, p2 + 4);
    hide At, Be32, InBounds, ServiceLenAt, ErrCodeAt, PbDataAt;
  }

  lemma EndIs(s: Bytes, x: Message)
    requires |s| >= 6 && s[0] == START && s[|s| - 1] == END && s[1..|s| - 5] == Body(x)
    requires Checksum(Body(x)) == Word(s[|s| - 5..|s| - 1])
    ensures s == Frame(x)
  {
    var c := Checksum(Body(x));
    WordBe(c);
    WordInjective(s[|s| - 5..|s| - 1], BeWord(c));
    hide BeWord, Word, Checksum, Body;
    assert s == [s[0]] + s[1..|s| - 5] + s[|s| - 5..|s| - 1] + [s[|s| - 1]];
  }

  // The decoder accepts frames that fit into 32 bits, and nothing else.
  lemma AcceptsExactlyFrames(s: Bytes, x: Message)
    ensures Parse(s) == Ok(x) <==> TotalLen(x) < 0x1_0000_0000 && s == Frame(x)
  {
    RoundTrip(x);
    hide Frame, Body, Word, Checksum, Fields, InBounds;
    if Parse(s) == Ok(x) {
      assert At(s, 1) == |s| - 2;
      BodyIs(s);
      FieldLengths(s);
      EndIs(s, x);
    }
  }

  // What is refused, and why: too short, a wrong mark or a wrong length first, whatever follows.
  lemma RefusedFirst(s: Bytes)
    ensures Parse(s) == Error(EINVAL) <==> |s| < 26
    ensures |s| >= 26 && (s[0] != 2 || BigEndian(s[1..5]) != |s| - 2) ==> Parse(s) == Error(EBADMSG)
    ensures |s| >= 26 && Parse(s) == Undefined ==> !InBounds(s)
  {
    if |s| >= 26 {
      NumbersAreBigEndian(s[1..5]);
    }
    hide InBounds, Fields, Word, Checksum, BigEndian, Num32;
  }

  // A frame, byte by byte.
  lemma FrameFormat(x: Message)
    requires TotalLen(x) < 0x1_0000_0000
    ensures var s, r, v, e := Frame(x), |x.msgReq|, |x.serviceName|, |x.errInfo|;
      && |s| == 26 + r + v + e + |x.pbData| && s[0] == 2 && s[|s| - 1] == 3
      && BigEndian(s[1..5]) == |s| - 2 && BigEndian(s[5..9]) == r && s[9..9 + r] == x.msgReq
      && BigEndian(s[9 + r..13 + r]) == v && s[13 + r..13 + r + v] == x.serviceName
      && BigEndian(s[13 + r + v..17 + r + v]) == x.errCode && BigEndian(s[17 + r + v..21 + r + v]) == e
      && s[21 + r + v..21 + r + v + e] == x.errInfo && s[21 + r + v + e..|s| - 5] == x.pbData
  {
    var s, r, v := Frame(x), |x.msgReq|, |x.serviceName|;
    FrameStarts(x);
    FrameNumbers(x);
    FrameStrings(x);
    FrameErrCode(x);
    hide Frame, Body, At, BigEndian, Num32, Checksum;
    AtIsBigEndian(s, 1);
    AtIsBigEndian(s, 5);
    AtIsBigEndian(s, 9 + r);
    AtIsBigEndian(s, 13 + r + v);
    AtIsBigEndian(s, 17 + r + v);
  }

  lemma AtIsBigEndian(s: Bytes, p: int)
    requires 0 <= p <= |s| - 4
    ensures BigEndian(s[p..p + 4]) == At(s, p)
  {
    NumbersAreBigEndian(s[p..p + 4]);
  }

  // The checksum stands in the frame in network order.
  lemma WordOrder()
    ensures BeWord(0x12345678) == [0x12, 0x34, 0x56, 0x78]
  {
  }

  /* ---------- a changed byte is noticed ---------- */

  // The three lengths inside the frame, which say where its parts are.
  predicate InnerLength(s: Bytes, k: int) {
    InBounds(s) && (5 <= k < 9 || ServiceLenAt(s) <= k < ServiceLenAt(s) + 4
      || ErrCodeAt(s) + 4 <= k < ErrCodeAt(s) + 8)
  }

  lemma OtherPlace(s: Bytes, k: int, b: Byte, p: int)
    requires 0 <= k < |s| && 0 <= p <= |s| - 4 && !(p <= k < p + 4)
    ensures At(s[k := b], p) == At(s, p)
  {
    assert s[k := b][p..p + 4] == s[p..p + 4];
  }

  lemma SamePlaces(s: Bytes, k: int, b: Byte)
    requires 0 <= k < |s| && InBounds(s) && !InnerLength(s, k)
    ensures InBounds(s[k := b])
  {
    hide At;
    OtherPlace(s, k, b, 5);
    OtherPlace(s, k, b, ServiceLenAt(s));
    OtherPlace(s, k, b, ErrCodeAt(s) + 4);
  }

  // Whatever byte of a frame is changed, the frame is not accepted; and it is refused, without
  // reading past its end, unless the byte belongs to an inner length.
  lemma ChangedByteIsNoticed(x: Message, k: int, b: Byte)
    requires TotalLen(x) < 0x1_0000_0000 && 0 <= k < TotalLen(x)
    requires |Frame(x)| == TotalLen(x) && Frame(x)[k] != b
    ensures !Parse(Frame(x)[k := b]).Ok?
    ensures !InnerLength(Frame(x), k) ==> Parse(Frame(x)[k := b]) == Error(EBADMSG)
  {
    var s := Frame(x);
    FrameStarts(x);
    FrameLayout(x);
    FrameChecksum(x);
    hide Frame, Body, InnerLength, InBounds, Word, Checksum, At, VariableSize, TotalLen, Parse;
    if !InnerLength(s, k) { SamePlaces(s, k, b); }
    ChangedByte(s, k, b);
  }

  lemma ChangedByte(s: Bytes, k: int, b: Byte)
    requires FIXED_HEADER_SIZE <= |s| < 0x1_0000_0000 && 0 <= k < |s| && s[k] != b
    requires s[0] == START && s[|s| - 1] == END && At(s, 1) == |s| - 2
    requires Checksum(s[1..|s| - 5]) == Word(s[|s| - 5..|s| - 1])
    ensures !Parse(s[k := b]).Ok?
    ensures InBounds(s[k := b]) ==> Parse(s[k := b]) == Error(EBADMSG)
  {
    hide InBounds, Word, Checksum, At, Fields;
    if 1 <= k < 5 {
      LengthShows(s, k, b);
    } else if 5 <= k < |s| - 5 {
      ChecksumShows(s, k, b);
    } else if |s| - 5 <= k < |s| - 1 {
      assert s[k := b][1..|s| - 5] == s[1..|s| - 5];
      WordShows(s, k, b);
    }
  }

  lemma LengthShows(s: Bytes, k: int, b: Byte)
    requires 1 <= k < 5 <= |s| && s[k] != b && At(s, 1) + 2 < 0x1_0000_0000
    ensures (At(s[k := b], 1) + 2) % 0x1_0000_0000 != At(s, 1) + 2
  {
    var t := s[k := b];
    assert t[1..5][k - 1] != s[1..5][k - 1];
    hide Num32;
    if Num32(t[1..5]) == Num32(s[1..5]) { Num32Injective(t[1..5], s[1..5]); }
    Wraps(Num32(t[1..5]), Num32(s[1..5]));
  }

  lemma Wraps(m: int, n: int)
    requires 0 <= m < 0x1_0000_0000 && 0 <= n && n + 2 < 0x1_0000_0000 && m != n
    ensures (m + 2) % 0x1_0000_0000 != n + 2
  {
  }

  lemma ChecksumShows(s: Bytes, k: int, b: Byte)
    requires 1 <= k < |s| - 5 && s[k] != b
    ensures Checksum(s[k := b][1..|s| - 5]) != Checksum(s[1..|s| - 5])
    ensures s[k := b][|s| - 5..|s| - 1] == s[|s| - 5..|s| - 1]
  {
    hide Checksum;
    var front, back := s[1..k], s[k + 1..|s| - 5];
    assert s[1..|s| - 5] == front + [s[k]] + back;
    assert s[k := b][1..|s| - 5] == front + [b] + back;
    OneByteShows(front, s[k], b, back);
  }

  lemma WordShows(s: Bytes, k: int, b: Byte)
    requires |s| >= 5 && |s| - 5 <= k < |s| - 1 && s[k] != b
    ensures Word(s[k := b][|s| - 5..|s| - 1]) != Word(s[|s| - 5..|s| - 1])
  {
    hide Word;
    var t := s[k := b];
    assert t[|s| - 5..|s| - 1][k - (|s| - 5)] != s[|s| - 5..|s| - 1][k - (|s| - 5)];
    if Word(t[|s| - 5..|s| - 1]) == Word(s[|s| - 5..|s| - 1]) {
      WordInjective(t[|s| - 5..|s| - 1], s[|s| - 5..|s| - 1]);
    }
  }
}
