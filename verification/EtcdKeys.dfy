/**
 The two things the etcd client of rpc/src/rpc_service_registry.cc does to keys: base64, as in
 section 4 of RFC 4648, and the end of the range of keys with a given prefix.
 */
module EtcdKeys {

  import opened NetworkOrder
  import opened Wrappers

  type Digit = x: int | 0 <= x < 64

  /* ---------- the alphabet ---------- */

  const PAD: char := '='

  const UPPER: string := "ABCDEFGHIJKLMNOPQRSTUVWXYZ"
  const LOWER: string := "abcdefghijklmnopqrstuvwxyz"
  const OTHERS: string := "0123456789+/"
  const BASE64_CHARS: string := UPPER + LOWER + OTHERS

  // base64_chars[d]
  function Char(d: Digit): char {
    if d < 26 then 'A' + d as char
    else if d < 52 then 'a' + (d - 26) as char
    else if d < 62 then '0' + (d - 52) as char
    else if d == 62 then '+' else '/'
  }

  // Where strchr finds the character.
  function DigitOf(c: char): Option<Digit> {
    if 'A' <= c <= 'Z' then Some((c - 'A') as int)
    else if 'a' <= c <= 'z' then Some((c - 'a') as int + 26)
    else if '0' <= c <= '9' then Some((c - '0') as int + 52)
    else if c == '+' then Some(62) else if c == '/' then Some(63) else None
  }

  lemma CharAndBack(d: Digit)
    ensures DigitOf(Char(d)) == Some(d) && Char(d) != PAD
  {
  }

  lemma Alphabet(d: Digit)
    ensures |BASE64_CHARS| == 64 && Char(d) == BASE64_CHARS[d]
  {
    Uppers(d);
    Lowers(d);
    Rest(d);
  }

  lemma Uppers(d: Digit)
    ensures |UPPER| == 26 && (d < 26 ==> Char(d) == UPPER[d])
  {
  }

  lemma Lowers(d: Digit)
    ensures |LOWER| == 26 && (26 <= d < 52 ==> Char(d) == LOWER[d - 26])
  {
  }

  lemma Rest(d: Digit)
    ensures |OTHERS| == 12 && (52 <= d ==> Char(d) == OTHERS[d - 52])
  {
  }

  /* ---------- groups of 24 bits ---------- */

  function Number(a: Byte, b: Byte, c: Byte): (n: int)
    ensures 0 <= n < 0x100_0000
  {
    a as int * 0x1_0000 + b as int * 0x100 + c as int
  }

  // The 24 bits as four digits of six bits each, highest first.
  function Digits(n: int): (s: seq<Digit>)
    requires 0 <= n < 0x100_0000
    ensures |s| == 4
  {
    [n / 0x4_0000, n / 0x1000 % 64, n / 64 % 64, n % 64]
  }

  function Spell(s: seq<Digit>): (r: string)
    ensures |r| == |s|
  {
    if s == [] then [] else [Char(s[0])] + Spell(s[1..])
  }

  // Whole groups become four characters; a rest is filled up with zero bits, and padded.
  function Encoded(s: Bytes): string {
    if s == [] then ""
    else if |s| == 1 then Spell(Digits(Number(s[0], 0, 0))[..2]) + [PAD, PAD]
    else if |s| == 2 then Spell(Digits(Number(s[0], s[1], 0))[..3]) + [PAD]
    else Spell(Digits(Number(s[0], s[1], s[2]))) + Encoded(s[3..])
  }

  function Value(a: Digit, b: Digit, c: Digit, d: Digit): (n: int)
    ensures 0 <= n < 0x100_0000
  {
    a as int * 0x4_0000 + b as int * 0x1000 + c as int * 64 + d as int
  }

  function ThreeBytes(n: int): (s: Bytes)
    requires 0 <= n < 0x100_0000
    ensures |s| == 3
  {
    [n / 0x1_0000, n / 0x100 % 256, n % 256]
  }

  // Four digits are three bytes; of a rest, the bytes that are complete.
  function Octets(s: seq<Digit>): Bytes {
    if |s| < 2 then []
    else if |s| == 2 then ThreeBytes(Value(s[0], s[1], 0, 0))[..1]
    else if |s| == 3 then ThreeBytes(Value(s[0], s[1], s[2], 0))[..2]
    else ThreeBytes(Value(s[0], s[1], s[2], s[3])) + Octets(s[4..])
  }

  // The digits up to the padding, if all characters are in the alphabet.
  function Read(s: string): Option<seq<Digit>> {
    if s == [] || s[0] == PAD then Some([])
    else match DigitOf(s[0]) {
      case None => None
      case Some(d) => match Read(s[1..]) {
        case None => None
        case Some(r) => Some([d] + r)
      }
    }
  }

  function Decoded(s: string): Option<Bytes> {
    match Read(s)
    case None => None
    case Some(d) => Some(Octets(d))
  }

  lemma DigitsValue(n: int)
    requires 0 <= n < 0x100_0000
    ensures var d := Digits(n); Value(d[0], d[1], d[2], d[3]) == n
  {
  }

  lemma BytesNumber(a: Byte, b: Byte, c: Byte)
    ensures ThreeBytes(Number(a, b, c)) == [a, b, c]
  {
    var n := Number(a, b, c);
    var m := a as int * 0x100 + b as int;
    assert n == m * 0x100 + c as int;
    assert n / 0x100 == m && n % 256 == c && m / 0x100 == a && m % 256 == b;
    Twice(n, m);
  }

  lemma Twice(n: int, m: int)
    requires n >= 0 && m == n / 0x100
    ensures n / 0x1_0000 == m / 0x100
  {
  }

  /* ---------- the round trip ---------- */

  function AllDigits(s: Bytes): seq<Digit> {
    if s == [] then []
    else if |s| == 1 then Digits(Number(s[0], 0, 0))[..2]
    else if |s| == 2 then Digits(Number(s[0], s[1], 0))[..3]
    else Digits(Number(s[0], s[1], s[2])) + AllDigits(s[3..])
  }

  function Padding(s: Bytes): string {
    if |s| % 3 == 1 then [PAD, PAD] else if |s| % 3 == 2 then [PAD] else []
  }

  lemma {:induction false} SpellJoins(a: seq<Digit>, b: seq<Digit>)
    ensures Spell(a + b) == Spell(a) + Spell(b)
  {
    if a == [] {
      assert a + b == b;
    } else {
      assert (a + b)[1..] == a[1..] + b;
      SpellJoins(a[1..], b);
    }
  }

  lemma EncodedGroup(s: Bytes)
    requires |s| >= 3
    ensures Encoded(s) == Spell(Digits(Number(s[0], s[1], s[2]))) + Encoded(s[3..])
  {
    hide Spell, Digits, Number;
  }

  lemma PaddingOn(s: Bytes)
    requires |s| >= 3
    ensures Padding(s) == Padding(s[3..])
  {
    assert |s| == |s[3..]| + 3;
  }

  lemma DigitsOn(s: Bytes)
    requires |s| >= 3
    ensures AllDigits(s) == Digits(Number(s[0], s[1], s[2])) + AllDigits(s[3..])
  {
    hide Digits, Number;
  }

  lemma {:induction false} EncodedIs(s: Bytes)
    ensures Encoded(s) == Spell(AllDigits(s)) + Padding(s)
  {
    hide Spell, Digits, Number;
    if |s| >= 3 {
      hide Encoded, Padding, AllDigits;
      EncodedIs(s[3..]);
      EncodedGroup(s);
      PaddingOn(s);
      DigitsOn(s);
      SpellJoins(Digits(Number(s[0], s[1], s[2])), AllDigits(s[3..]));
    } else if s == [] {
      SpellNothing();
    }
  }

  lemma SpellNothing()
    ensures Spell([]) == []
  {
  }

  lemma ReadOne(d: Digit, rest: string)
    requires Read(rest).Some?
    ensures Read([Char(d)] + rest) == Some([d] + Read(rest).value)
  {
    CharAndBack(d);
    hide Char, DigitOf;
    assert ([Char(d)] + rest)[1..] == rest;
  }

  lemma {:induction false} ReadSpelled(d: seq<Digit>, pad: string)
    requires pad == [] || pad[0] == PAD
    ensures Read(Spell(d) + pad) == Some(d)
  {
    if d == [] {
      assert Spell(d) + pad == pad;
    } else {
      assert Spell(d) == [Char(d[0])] + Spell(d[1..]);
      hide *;
      ReadSpelled(d[1..], pad);
      ReadOne(d[0], Spell(d[1..]) + pad);
      assert Spell(d) + pad == [Char(d[0])] + (Spell(d[1..]) + pad);
      assert [d[0]] + d[1..] == d;
    }
  }

  // The four digits as the program computes them from three bytes.
  lemma ProgramDigits(a: Byte, b: Byte, c: Byte)
    ensures Digits(Number(a, b, c)) == [a / 4, a % 4 * 16 + b / 16, b % 16 * 4 + c / 64, c % 64]
  {
    var n := Number(a, b, c);
    var h := a as int * 0x400 + b as int * 4 + c as int / 64;
    assert n == h * 64 + c as int % 64;
    assert n / 64 == h && n % 64 == c % 64;
    var g := a as int * 16 + b as int / 16;
    assert h == g * 64 + (b as int % 16 * 4 + c as int / 64);
    assert h / 64 == g && h % 64 == b % 16 * 4 + c / 64;
    assert g == a as int / 4 * 64 + (a as int % 4 * 16 + b as int / 16);
    assert g / 64 == a / 4 && g % 64 == a % 4 * 16 + b / 16;
    SixtyFours(n);
  }

  lemma SixtyFours(n: int)
    requires n >= 0
    ensures n / 0x1000 == n / 64 / 64 && n / 0x4_0000 == n / 64 / 64 / 64
  {
  }

  // Zero bits fill the last digits of a rest.
  lemma RestDigits(a: Byte, b: Byte)
    ensures var d := Digits(Number(a, b, 0)); d[3] == 0 && (b == 0 ==> d[2] == 0)
  {
    ProgramDigits(a, b, 0);
    hide Digits, Number;
  }

  lemma {:induction false} OctetsOfDigits(s: Bytes)
    ensures Octets(AllDigits(s)) == s
  {
    hide Digits, ThreeBytes, Number, Value;
    if s == [] {
    } else if |s| == 1 {
      OneRest(s[0]);
      assert s == [s[0]];
    } else if |s| == 2 {
      TwoRest(s[0], s[1]);
      assert s == [s[0], s[1]];
    } else {
      var d := Digits(Number(s[0], s[1], s[2]));
      DigitsValue(Number(s[0], s[1], s[2]));
      BytesNumber(s[0], s[1], s[2]);
      OctetsOfDigits(s[3..]);
      assert (d + AllDigits(s[3..]))[4..] == AllDigits(s[3..]);
      assert s == [s[0], s[1], s[2]] + s[3..];
    }
  }

  lemma OneRest(a: Byte)
    ensures Octets(Digits(Number(a, 0, 0))[..2]) == [a]
  {
    RestDigits(a, 0);
    DigitsValue(Number(a, 0, 0));
    BytesNumber(a, 0, 0);
    hide Digits, ThreeBytes, Number;
    var d := Digits(Number(a, 0, 0));
    assert Value(d[0], d[1], 0, 0) == Number(a, 0, 0);
  }

  lemma TwoRest(a: Byte, b: Byte)
    ensures Octets(Digits(Number(a, b, 0))[..3]) == [a, b]
  {
    RestDigits(a, b);
    DigitsValue(Number(a, b, 0));
    BytesNumber(a, b, 0);
    hide Digits, ThreeBytes, Number;
    var d := Digits(Number(a, b, 0));
    assert Value(d[0], d[1], d[2], 0) == Number(a, b, 0);
  }

  // Every byte string comes back.
  lemma RoundTrip(s: Bytes)
    ensures Decoded(Encoded(s)) == Some(s)
  {
    EncodedIs(s);
    ReadSpelled(AllDigits(s), Padding(s));
    OctetsOfDigits(s);
    hide Encoded, Read, AllDigits, Spell, Octets;
  }

  // The text is a whole number of groups of four, and only its last group is padded.
  lemma {:induction false} EncodedLength(s: Bytes)
    ensures |Encoded(s)| == 4 * ((|s| + 2) / 3)
  {
    hide Digits, Number;
    if |s| >= 3 {
      EncodedLength(s[3..]);
    }
  }

  /* ---------- the program ---------- */

  // Examples of section 10 of RFC 4648.
  lemma KnownEncodings()
    ensures Encoded([0x66]) == "Zg==" && Encoded([0x66, 0x6F]) == "Zm8=" && Encoded([0x66, 0x6F, 0x6F]) == "Zm9v"
  {
    assert Digits(Number(0x66, 0, 0))[..2] == [25, 32];
    assert Digits(Number(0x66, 0x6F, 0))[..3] == [25, 38, 60];
    assert Digits(Number(0x66, 0x6F, 0x6F)) == [25, 38, 61, 47];
    assert [0x66, 0x6F, 0x6F][3..] == [];
    hide Digits, Number, Spell;
    SpellFour(25, 32, 0, 0);
    SpellFour(25, 38, 60, 0);
    SpellFour(25, 38, 61, 47);
  }

  lemma SpellFour(a: Digit, b: Digit, c: Digit, d: Digit)
    ensures Spell([a, b]) == [Char(a), Char(b)] && Spell([a, b, c]) == [Char(a), Char(b), Char(c)]
    ensures Spell([a, b, c, d]) == [Char(a), Char(b), Char(c), Char(d)]
  {
    SpellOne(a);
    SpellOne(b);
    SpellOne(c);
    SpellOne(d);
    hide Spell, Char;
    SpellJoins([a], [b]);
    SpellJoins([a] + [b], [c]);
    SpellJoins([a] + [b] + [c], [d]);
    assert [a] + [b] == [a, b] && [a, b] + [c] == [a, b, c] && [a, b, c] + [d] == [a, b, c, d];
  }

  method Emit(ret0: string, digits: array<Digit>, n: nat) returns (ret: string)
    requires n <= digits.Length
    ensures ret == ret0 + Spell(digits[..n])
  {
    hide Char;
    ret := ret0;
    for j := 0 to n
      invariant ret == ret0 + Spell(digits[..j])
    {
      SpellJoins(digits[..j], [digits[j]]);
      SpellOne(digits[j]);
      assert digits[..j + 1] == digits[..j] + [digits[j]];
      ret := ret + [Char(digits[j])];
    }
  }

  lemma SpellOne(d: Digit)
    ensures Spell([d]) == [Char(d)]
  {
    assert Spell([d][1..]) == [];
  }

  lemma EncodedRest(s: Bytes)
    ensures |s| == 1 ==> Encoded(s) == Spell(Digits(Number(s[0], 0, 0))[..2]) + [PAD, PAD]
    ensures |s| == 2 ==> Encoded(s) == Spell(Digits(Number(s[0], s[1], 0))[..3]) + [PAD]
    ensures s == [] ==> Encoded(s) == []
  {
    hide Spell, Digits, Number;
  }

  // Three bytes regrouped as four digits; of a rest, the first three.
  method Regroup(chars3: array<Byte>, chars4: array<Digit>, whole: bool)
    requires chars3.Length == 3 && chars4.Length == 4
    modifies chars4
    ensures chars4[..3] == Digits(Number(chars3[0], chars3[1], chars3[2]))[..3]
    ensures whole ==> chars4[..] == Digits(Number(chars3[0], chars3[1], chars3[2]))
  {
    ProgramDigits(chars3[0], chars3[1], chars3[2]);
    hide Digits, Number;
    chars4[0] := chars3[0] / 4;
    chars4[1] := chars3[0] % 4 * 16 + chars3[1] / 16;
    chars4[2] := chars3[1] % 16 * 4 + chars3[2] / 64;
    if whole {
      chars4[3] := chars3[2] % 64;
    }
  }

  method Base64Encode(input: Bytes) returns (ret: string)
    ensures ret == Encoded(input)
  {
    hide Spell, Digits, Number, Encoded;
    var chars3, chars4 := new Byte[3], new Digit[4];
    ret := "";
    var i, next, inLen := 0, 0, |input|;
    ghost var start := 0;
    assert input[start..] == input;
    while inLen > 0
      invariant 0 <= i < 3 && next == start + i && 0 <= start && inLen >= 0 && next + inLen == |input|
      invariant chars3[..i] == input[start..next]
      invariant ret + Encoded(input[start..]) == Encoded(input)
    {
      inLen := inLen - 1;
      chars3[i] := input[next];
      i, next := i + 1, next + 1;
      if i == 3 {
        ret := EncodeGroup(ret, chars3, chars4, input[start..]);
        assert input[start..][3..] == input[next..];
        i := 0;
        start := next;
      }
    }
    assert input[start..next] == input[start..];
    ret := EncodeTail(ret, chars3, chars4, i, input[start..]);
  }

  method EncodeGroup(ret0: string, chars3: array<Byte>, chars4: array<Digit>, ghost s: Bytes) returns (ret: string)
    requires chars3.Length == 3 && chars4.Length == 4 && |s| >= 3 && chars3[..3] == s[..3]
    modifies chars4
    ensures ret + Encoded(s[3..]) == ret0 + Encoded(s)
  {
    hide Spell, Digits, Number, Encoded;
    assert chars3[0] == s[..3][0] && chars3[1] == s[..3][1] && chars3[2] == s[..3][2];
    EncodedGroup(s);
    Regroup(chars3, chars4, true);
    assert chars4[..4] == chars4[..];
    ret := Emit(ret0, chars4, 4);
  }

  // What is left after the last whole group.
  method EncodeTail(ret0: string, chars3: array<Byte>, chars4: array<Digit>, i: nat, ghost s: Bytes)
    returns (ret: string)
    requires chars3.Length == 3 && chars4.Length == 4 && i < 3 && chars3[..i] == s
    modifies chars3, chars4
    ensures ret == ret0 + Encoded(s)
  {
    hide Spell, Digits, Number, Encoded;
    EncodedRest(s);
    ret := ret0;
    if i > 0 {
      for j := i to 3
        invariant chars3[..i] == s && forall k :: i <= k < j ==> chars3[k] == 0
      {
        chars3[j] := 0;
      }
      assert s[0] == chars3[0] && (i == 2 ==> s[1] == chars3[1]);
      Regroup(chars3, chars4, false);
      ghost var d := Digits(Number(chars3[0], chars3[1], chars3[2]))[..i + 1];
      assert chars4[..i + 1] == chars4[..3][..i + 1] == d;
      assert Encoded(s) == Spell(d) + (if i == 1 then [PAD, PAD] else [PAD]);
      ret := Emit(ret, chars4, i + 1);
      for j := i to 3
        invariant ret == ret0 + Spell(d) + seq(j - i, _ => PAD)
      {
        ret := ret + [PAD];
      }
      assert seq(3 - i, _ => PAD) == if i == 1 then [PAD, PAD] else [PAD];
    }
  }

  lemma DivideBy256(n: int, h: int, r: int)
    requires n == h * 256 + r && 0 <= r < 256
    ensures n / 256 == h && n % 256 == r
  {
  }

  lemma Masks(a: Digit, b: Digit, c: Digit, d: Digit)
    ensures (a * 4 + b % 64 / 16) % 256 == a * 4 + b / 16
    ensures (b % 16 * 16 + c % 64 / 4) % 256 == b % 16 * 16 + c / 4
    ensures (c % 4 * 64 + d) % 256 == c % 4 * 64 + d
  {
  }

  lemma BytesFrom(n: int, h: int, g: Byte, m: Byte, l: Byte)
    requires 0 <= n < 0x100_0000 && n == h * 256 + l && h == g * 256 + m
    ensures ThreeBytes(n) == [g, m, l]
  {
    DivideBy256(n, h, l);
    DivideBy256(h, g, m);
    Twice(n, h);
  }

  // The bytes as the program computes them from four digits.
  lemma ProgramBytes(a: Digit, b: Digit, c: Digit, d: Digit)
    ensures ThreeBytes(Value(a, b, c, d)) ==
      [(a * 4 + b % 64 / 16) % 256, (b % 16 * 16 + c % 64 / 4) % 256, (c % 4 * 64 + d) % 256]
  {
    Masks(a, b, c, d);
    BytesFrom(Value(a, b, c, d), a * 0x400 + b * 0x10 + c / 4, a * 4 + b / 16, b % 16 * 16 + c / 4, c % 4 * 64 + d);
  }

  // The characters up to the padding, and where strchr finds them; one outside the alphabet has no
  // place there.
  method Collect(input: string) returns (digits: seq<Digit>, ok: bool)
    ensures Read(input) == if ok then Some(digits) else None
  {
    hide Char, DigitOf;
    digits, ok := [], true;
    assert input[0..] == input;
    assert Read(input).Some? ==> [] + Read(input).value == Read(input).value;
    for k := 0 to |input|
      invariant Read(input) == (match Read(input[k..]) case None => None case Some(r) => Some(digits + r))
    {
      assert input[k..][0] == input[k] && input[k..][1..] == input[k + 1..];
      if input[k] == PAD {
        assert digits + [] == digits;
        return;
      }
      match DigitOf(input[k]) {
        case None => return digits, false;
        case Some(d) =>
          assert forall r: seq<Digit> :: digits + ([d] + r) == digits + [d] + r;
          digits := digits + [d];
      }
    }
    assert input[|input|..] == [] && digits + [] == digits;
  }

  lemma OctetsGroup(s: seq<Digit>)
    requires |s| >= 4
    ensures Octets(s) == ThreeBytes(Value(s[0], s[1], s[2], s[3])) + Octets(s[4..])
  {
    hide ThreeBytes, Value;
  }

  lemma OctetsRest(s: seq<Digit>)
    ensures |s| < 2 ==> Octets(s) == []
    ensures |s| == 2 ==> Octets(s) == ThreeBytes(Value(s[0], s[1], 0, 0))[..1]
    ensures |s| == 3 ==> Octets(s) == ThreeBytes(Value(s[0], s[1], s[2], 0))[..2]
  {
    hide ThreeBytes, Value;
  }

  // Bytes of a rest do not depend on the digits that are missing.
  lemma RestBytes(a: Digit, b: Digit, c: Digit, d: Digit)
    ensures ThreeBytes(Value(a, b, c, d))[..1] == ThreeBytes(Value(a, b, 0, 0))[..1]
    ensures ThreeBytes(Value(a, b, c, d))[..2] == ThreeBytes(Value(a, b, c, 0))[..2]
  {
    ProgramBytes(a, b, c, d);
    ProgramBytes(a, b, c, 0);
    ProgramBytes(a, b, 0, 0);
    hide ThreeBytes, Value;
  }

  // Four digits regrouped as three bytes; of a rest, the first two.
  method Ungroup(chars4: array<Digit>, chars3: array<Byte>, whole: bool)
    requires chars3.Length == 3 && chars4.Length == 4
    modifies chars3
    ensures chars3[..2] == ThreeBytes(Value(chars4[0], chars4[1], chars4[2], chars4[3]))[..2]
    ensures whole ==> chars3[..] == ThreeBytes(Value(chars4[0], chars4[1], chars4[2], chars4[3]))
  {
    ProgramBytes(chars4[0], chars4[1], chars4[2], chars4[3]);
    hide ThreeBytes, Value;
    chars3[0] := (chars4[0] as int * 4 + chars4[1] as int % 64 / 16) % 256;
    chars3[1] := (chars4[1] as int % 16 * 16 + chars4[2] as int % 64 / 4) % 256;
    if whole {
      chars3[2] := (chars4[2] as int % 4 * 64 + chars4[3] as int) % 256;
    }
  }

  // None when a character is outside the alphabet.  There strchr finds nothing, except for the zero
  // character, and the program computes with a null pointer.
  method Base64Decode(input: string) returns (r: Option<Bytes>)
    ensures r == Decoded(input)
  {
    var digits, ok := Collect(input);
    if !ok {
      return None;
    }
    var ret := DecodeDigits(digits);
    r := Some(ret);
  }

  method DecodeDigits(digits: seq<Digit>) returns (ret: Bytes)
    ensures ret == Octets(digits)
  {
    hide ThreeBytes, Value, Octets;
    var chars4, chars3 := new Digit[4], new Byte[3];
    ret := [];
    var i, next, inLen := 0, 0, |digits|;
    ghost var start := 0;
    assert digits[start..] == digits;
    while inLen > 0
      invariant 0 <= i < 4 && next == start + i && 0 <= start && inLen >= 0 && next + inLen == |digits|
      invariant chars4[..i] == digits[start..next]
      invariant ret + Octets(digits[start..]) == Octets(digits)
    {
      inLen := inLen - 1;
      chars4[i] := digits[next];
      i, next := i + 1, next + 1;
      if i == 4 {
        ret := DecodeGroup(ret, chars4, chars3, digits[start..]);
        assert digits[start..][4..] == digits[next..];
        i := 0;
        start := next;
      }
    }
    assert digits[start..next] == digits[start..];
    ret := DecodeTail(ret, chars4, chars3, i, digits[start..]);
  }

  method DecodeGroup(ret0: Bytes, chars4: array<Digit>, chars3: array<Byte>, ghost s: seq<Digit>) returns (ret: Bytes)
    requires chars3.Length == 3 && chars4.Length == 4 && |s| >= 4 && chars4[..4] == s[..4]
    modifies chars3
    ensures ret + Octets(s[4..]) == ret0 + Octets(s)
  {
    hide ThreeBytes, Value, Octets;
    assert chars4[0] == s[..4][0] && chars4[1] == s[..4][1] && chars4[2] == s[..4][2] && chars4[3] == s[..4][3];
    OctetsGroup(s);
    Ungroup(chars4, chars3, true);
    ret := ret0 + chars3[..];
  }

  method DecodeTail(ret0: Bytes, chars4: array<Digit>, chars3: array<Byte>, i: nat, ghost s: seq<Digit>)
    returns (ret: Bytes)
    requires chars3.Length == 3 && chars4.Length == 4 && i < 4 && chars4[..i] == s
    modifies chars3
    ensures ret == ret0 + Octets(s)
  {
    hide ThreeBytes, Value, Octets;
    OctetsRest(s);
    ret := ret0;
    if i > 0 {
      assert i >= 2 ==> s[0] == chars4[0] && s[1] == chars4[1];
      assert i == 3 ==> s[2] == chars4[2];
      RestBytes(chars4[0], chars4[1], chars4[2], chars4[3]);
      Ungroup(chars4, chars3, false);
      assert chars3[..i - 1] == chars3[..2][..i - 1];
      assert chars3[..i - 1] == Octets(s);
      ret := ret + chars3[..i - 1];
    }
  }

  /* ---------- the end of a range of keys ---------- */

  // Keys are compared byte by byte.
  predicate Less(a: Bytes, b: Bytes) {
    b != [] && (a == [] || a[0] < b[0] || (a[0] == b[0] && Less(a[1..], b[1..])))
  }

  predicate InRange(key: Bytes, from: Bytes, to: Bytes) {
    !Less(key, from) && Less(key, to)
  }

  // Some byte can be made larger.
  predicate HasRoom(p: Bytes) {
    p != [] && (p[0] < 255 || HasRoom(p[1..]))
  }

  // The last byte that can be made larger is, and what follows it dropped.
  function RangeEnd(p: Bytes): Bytes {
    if p == [] then []
    else if !HasRoom(p) then p + [1]
    else if HasRoom(p[1..]) then [p[0]] + RangeEnd(p[1..])
    else [p[0] + 1]
  }

  lemma {:induction false} AtLeastFull(p: Bytes, key: Bytes)
    requires !HasRoom(p)
    ensures !Less(key, p) <==> p <= key
  {
    if p != [] && key != [] && key[0] == p[0] {
      AtLeastFull(p[1..], key[1..]);
      assert p == [p[0]] + p[1..] && key == [key[0]] + key[1..];
    }
  }

  // With room in the prefix, the keys in the range are those that start with it.
  lemma {:induction false} RangeIsPrefix(p: Bytes, key: Bytes)
    requires HasRoom(p)
    ensures InRange(key, p, RangeEnd(p)) <==> p <= key
  {
    var end := RangeEnd(p);
    if key == [] || key[0] < p[0] {
      assert Less(key, p);
    } else if key[0] > p[0] {
      assert end[0] == p[0] || (end == [p[0] + 1] && end[1..] == []);
      assert !Less(key, end);
      assert !(p <= key);
    } else {
      assert p == [p[0]] + p[1..] && key == [key[0]] + key[1..];
      if HasRoom(p[1..]) {
        assert end[1..] == RangeEnd(p[1..]);
        RangeIsPrefix(p[1..], key[1..]);
      } else {
        AtLeastFull(p[1..], key[1..]);
      }
    }
  }

  lemma {:induction false} NotLessThanItself(a: Bytes)
    ensures !Less(a, a)
  {
    if a != [] { NotLessThanItself(a[1..]); }
  }

  // For a prefix without room, the empty one and the ones that are all 0xFF, the range misses keys.
  lemma RangeMisses(p: Bytes) returns (key: Bytes)
    requires !HasRoom(p)
    ensures p <= key && !InRange(key, p, RangeEnd(p))
  {
    key := RangeEnd(p);
    NotLessThanItself(key);
  }

  lemma RangeIsExact(p: Bytes)
    ensures (forall key: Bytes :: InRange(key, p, RangeEnd(p)) <==> p <= key) <==> HasRoom(p)
  {
    if HasRoom(p) {
      forall key: Bytes
        ensures InRange(key, p, RangeEnd(p)) <==> p <= key
      {
        RangeIsPrefix(p, key);
      }
    } else {
      var key := RangeMisses(p);
      assert p <= key && !InRange(key, p, RangeEnd(p));
    }
  }

  // What the range holds in these cases: nothing for the empty prefix, and for one that is all 0xFF
  // the prefix itself and the keys in which a zero byte follows it.
  lemma RangeWithoutRoom(p: Bytes, key: Bytes)
    requires !HasRoom(p)
    ensures InRange(key, p, RangeEnd(p)) <==> p != [] && (key == p || p + [0] <= key)
  {
    AtLeastFull(p, key);
    if p != [] && p <= key {
      AfterPrefix(p, key[|p|..], [1]);
      assert p + key[|p|..] == key;
      assert p + [0] <= key <==> key != p && key[|p|] == 0;
    }
  }

  lemma {:induction false} AfterPrefix(p: Bytes, a: Bytes, b: Bytes)
    ensures Less(p + a, p + b) <==> Less(a, b)
  {
    if p == [] {
      assert p + a == a && p + b == b;
    } else {
      AfterPrefix(p[1..], a, b);
      assert (p + a)[1..] == p[1..] + a && (p + b)[1..] == p[1..] + b;
    }
  }

  lemma {:induction false} NoRoomBehind(p: Bytes, i: nat)
    requires i <= |p| && forall k :: i <= k < |p| ==> p[k] == 255
    ensures !HasRoom(p[i..])
    decreases |p| - i
  {
    if i < |p| {
      NoRoomBehind(p, i + 1);
      assert p[i..][1..] == p[i + 1..];
    }
  }

  lemma {:induction false} EndAt(p: Bytes, i: nat)
    requires i < |p| && p[i] < 255 && forall k :: i < k < |p| ==> p[k] == 255
    ensures HasRoom(p) && RangeEnd(p) == p[..i] + [p[i] + 1]
    decreases i
  {
    if i == 0 {
      NoRoomBehind(p, 1);
    } else {
      EndAt(p[1..], i - 1);
      assert p[..i] == [p[0]] + p[1..][..i - 1];
    }
  }

  // The end of the range, as the client computes it from the prefix.
  method PrefixRange(prefix: Bytes) returns (end: Bytes)
    ensures end == RangeEnd(prefix)
  {
    end := prefix;
    if end == [] {
      // The literal "\x00" is an empty C string.
      return;
    }
    var i := |end| - 1;
    while i >= 0
      invariant -1 <= i < |prefix| && end == prefix && forall k :: i < k < |prefix| ==> prefix[k] == 255
    {
      if end[i] < 0xFF {
        EndAt(prefix, i);
        end := end[..i] + [end[i] + 1];
        return;
      }
      i := i - 1;
    }
    NoRoomBehind(prefix, 0);
    assert prefix[0..] == prefix;
    end := end + [0x01];
  }
}
