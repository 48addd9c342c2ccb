/**
 Bytes and numbers in network order, as htons, htonl and their likes lay them out.
 */
module NetworkOrder {

  type Byte = x: int | 0 <= x < 256
  type Bytes = seq<Byte>
  type Uint16 = x: int | 0 <= x < 0x1_0000
  type Uint32 = x: int | 0 <= x < 0x1_0000_0000
  type Uint64 = x: int | 0 <= x < 0x1_0000_0000_0000_0000

  function Be16(n: int): (s: Bytes)
    requires n >= 0
    ensures |s| == 2
  {
    [n / 0x100 % 256, n % 256]
  }

  function Be32(n: int): (s: Bytes)
    requires n >= 0
    ensures |s| == 4
  {
    Be16(n / 0x1_0000) + Be16(n)
  }

  // htonll64: the high half first, each half in network order.
  function Be64(n: int): (s: Bytes)
    requires n >= 0
    ensures |s| == 8
  {
    Be32(n / 0x1_0000_0000) + Be32(n)
  }

  function Num16(s: Bytes): Uint16
    requires |s| == 2
  {
    s[0] as int * 0x100 + s[1] as int
  }

  function Num32(s: Bytes): Uint32
    requires |s| == 4
  {
    Num16(s[..2]) as int * 0x1_0000 + Num16(s[2..]) as int
  }

  function Num64(s: Bytes): Uint64
    requires |s| == 8
  {
    Num32(s[..4]) as int * 0x1_0000_0000 + Num32(s[4..]) as int
  }

  lemma Num16Be(n: int)
    requires n >= 0
    ensures Num16(Be16(n)) == n % 0x1_0000
  {
    OnlyRemainder(n, n / 0x1_0000, n / 0x100 % 256 * 0x100 + n % 256, 0x1_0000);
  }

  lemma AtLeast(k: int, m: int)
    requires m > 0 && k != 0
    ensures k * m >= m || k * m <= -m
  {
    if k > 0 { assert (k - 1) * m >= 0; } else { assert (-k - 1) * m >= 0; }
  }

  lemma OnlyRemainder(n: int, d: int, r: int, m: int)
    requires m > 0 && n == d * m + r && 0 <= r < m
    ensures n % m == r
  {
    var q := n / m;
    assert n == q * m + n % m;
    assert (q - d) * m == r - n % m;
    if q != d { AtLeast(q - d, m); }
  }

  lemma Num32Be(n: int)
    requires n >= 0
    ensures Num32(Be32(n)) == n % 0x1_0000_0000
  {
    Num16Be(n);
    Num16Be(n / 0x1_0000);
    Halves32(n, n / 0x1_0000, n / 0x1_0000 / 0x1_0000);
  }

  lemma Num64Be(n: int)
    requires n >= 0
    ensures Num64(Be64(n)) == n % 0x1_0000_0000_0000_0000
  {
    Num32Be(n);
    Num32Be(n / 0x1_0000_0000);
    Halves64(n, n / 0x1_0000_0000, n / 0x1_0000_0000 / 0x1_0000_0000);
  }

  lemma Halves32(n: int, h: int, d: int)
    requires n >= 0 && h == n / 0x1_0000 && d == h / 0x1_0000
    ensures n % 0x1_0000_0000 == h % 0x1_0000 * 0x1_0000 + n % 0x1_0000
  {
    var r := h % 0x1_0000 * 0x1_0000 + n % 0x1_0000;
    assert n == h * 0x1_0000 + n % 0x1_0000 && h == d * 0x1_0000 + h % 0x1_0000;
    OnlyRemainder(n, d, r, 0x1_0000_0000);
  }

  lemma Halves64(n: int, h: int, d: int)
    requires n >= 0 && h == n / 0x1_0000_0000 && d == h / 0x1_0000_0000
    ensures n % 0x1_0000_0000_0000_0000 == h % 0x1_0000_0000 * 0x1_0000_0000 + n % 0x1_0000_0000
  {
    var r := h % 0x1_0000_0000 * 0x1_0000_0000 + n % 0x1_0000_0000;
    assert n == h * 0x1_0000_0000 + n % 0x1_0000_0000 && h == d * 0x1_0000_0000 + h % 0x1_0000_0000;
    OnlyRemainder(n, d, r, 0x1_0000_0000_0000_0000);
  }

  // Numbers in range come back.
  lemma Num16Exact(n: Uint16)
    ensures Num16(Be16(n)) == n
  {
    Num16Be(n);
    hide Num16, Be16;
  }

  lemma Num32Exact(n: Uint32)
    ensures Num32(Be32(n)) == n
  {
    Num32Be(n);
    hide Num32, Be32;
  }

  lemma Num64Exact(n: Uint64)
    ensures Num64(Be64(n)) == n
  {
    Num64Be(n);
    hide Num64, Be64;
  }

  lemma Num16Injective(s: Bytes, t: Bytes)
    requires |s| == 2 && |t| == 2 && Num16(s) == Num16(t)
    ensures s == t
  {
    var a, b, x, y := s[0], s[1], t[0], t[1];
    assert a == x && b == y;
  }

  lemma Num32Injective(s: Bytes, t: Bytes)
    requires |s| == 4 && |t| == 4 && Num32(s) == Num32(t)
    ensures s == t
  {
    Num16Injective(s[..2], t[..2]);
    Num16Injective(s[2..], t[2..]);
    assert s == s[..2] + s[2..] && t == t[..2] + t[2..];
  }

  lemma Num64Injective(s: Bytes, t: Bytes)
    requires |s| == 8 && |t| == 8 && Num64(s) == Num64(t)
    ensures s == t
  {
    hide Num32;
    Num32Injective(s[..4], t[..4]);
    Num32Injective(s[4..], t[4..]);
    assert s == s[..4] + s[4..] && t == t[..4] + t[4..];
  }

  /* ---------- what network order means ---------- */

  // The number that bytes spell, the most significant one first.
  function BigEndian(s: Bytes): (n: int)
    ensures n >= 0
  {
    if s == [] then 0 else 256 * BigEndian(s[..|s| - 1]) + s[|s| - 1] as int
  }

  lemma {:induction false} BigEndianJoins(a: Bytes, b: Bytes)
    ensures |b| == 2 ==> BigEndian(a + b) == 0x1_0000 * BigEndian(a) + BigEndian(b)
    ensures |b| == 4 ==> BigEndian(a + b) == 0x1_0000_0000 * BigEndian(a) + BigEndian(b)
  {
    if |b| == 2 {
      TwoMore(a, b);
    } else if |b| == 4 {
      TwoMore(a, b[..2]);
      TwoMore(a + b[..2], b[2..]);
      TwoMore(b[..2], b[2..]);
      assert a + b[..2] + b[2..] == a + b && b[..2] + b[2..] == b;
    }
  }

  lemma TwoMore(a: Bytes, b: Bytes)
    requires |b| == 2
    ensures BigEndian(a + b) == 0x1_0000 * BigEndian(a) + 0x100 * b[0] as int + b[1] as int
    ensures BigEndian(b) == 0x100 * b[0] as int + b[1] as int
  {
    var s := a + b;
    assert s[..|s| - 1] == a + [b[0]] && (a + [b[0]])[..|a|] == a;
    assert b[..1][..0] == [] && BigEndian(b[..1]) == 256 * BigEndian(b[..1][..0]) + b[0] as int;
  }

  lemma NumbersAreBigEndian(s: Bytes)
    ensures |s| == 2 ==> Num16(s) == BigEndian(s)
    ensures |s| == 4 ==> Num32(s) == BigEndian(s)
    ensures |s| == 8 ==> Num64(s) == BigEndian(s)
  {
    if |s| == 2 {
      TwoMore([], s);
    } else if |s| == 4 {
      FourAreBigEndian(s);
    } else if |s| == 8 {
      FourAreBigEndian(s[..4]);
      FourAreBigEndian(s[4..]);
      BigEndianJoins(s[..4], s[4..]);
      assert s[..4] + s[4..] == s;
    }
  }

  lemma FourAreBigEndian(s: Bytes)
    requires |s| == 4
    ensures Num32(s) == BigEndian(s)
  {
    TwoMore([], s[..2]);
    TwoMore([], s[2..]);
    BigEndianJoins(s[..2], s[2..]);
    assert s[..2] + s[2..] == s;
  }
}
