/**
 * The wire format shared by the bank server and its client: fixed-width
 * big-endian integers, the 8-byte packet header, length-prefixed strings,
 * UTF-8 well-formedness and the decimal rendering of account ids.
 *
 * Everything here is a pure value-level definition; the in-place buffer and
 * cursor operations of the two codec copies are specified against it.
 */
module Wire {

  type u8 = x: int | 0 <= x < 0x100
  type u16 = x: int | 0 <= x < 0x1_0000
  type u32 = x: int | 0 <= x < 0x1_0000_0000
  type u64 = x: int | 0 <= x < 0x1_0000_0000_0000_0000
  type i32 = x: int | -0x8000_0000 <= x < 0x8000_0000
  type i64 = x: int | -0x8000_0000_0000_0000 <= x < 0x8000_0000_0000_0000

  type Bytes = seq<u8>

  const U16_LIMIT: int := 0x1_0000
  const U32_LIMIT: int := 0x1_0000_0000
  const U64_LIMIT: int := 0x1_0000_0000_0000_0000

  datatype Option<+T> = None | Some(value: T)

  datatype Result<+T, +E> = Ok(value: T) | Err(error: E)

  /** A value read from the front of a cursor, and what the cursor holds afterwards. */
  datatype Take<+T> = Take(value: T, rest: Bytes)

  // ---------------------------------------------------------------------
  // Big-endian integers

  function Pow256(width: nat): (r: nat)
    ensures r >= 1
  {
    if width == 0 then 1 else 0x100 * Pow256(width - 1)
  }

  /** The `width` low-order bytes of `n`, most significant first. */
  function BeBytes(n: nat, width: nat): (r: Bytes)
    ensures |r| == width
  {
    if width == 0 then [] else BeBytes(n / 0x100, width - 1) + [n % 0x100]
  }

  /** The unsigned number whose big-endian representation is `b`. */
  function FromBe(b: Bytes): (r: nat)
    ensures r < Pow256(|b|)
  {
    if b == [] then 0
    else
      var high := FromBe(b[..|b| - 1]);
      assert high * 0x100 <= (Pow256(|b| - 1) - 1) * 0x100;
      high * 0x100 + b[|b| - 1]
  }

  lemma DivMod256(high: nat, low: nat)
    requires low < 0x100
    ensures (high * 0x100 + low) / 0x100 == high && (high * 0x100 + low) % 0x100 == low
  {
  }

  /** Decoding an encoding gives back any number that fits the width. */
  lemma {:induction false} FromBeBeBytes(n: nat, width: nat)
    requires n < Pow256(width)
    ensures FromBe(BeBytes(n, width)) == n
  {
    if width > 0 {
      var q := n / 0x100;
      assert 0x100 * q <= n < 0x100 * Pow256(width - 1);
      FromBeBeBytes(q, width - 1);
      var b := BeBytes(n, width);
      assert b[..width - 1] == BeBytes(q, width - 1);
    }
  }

  /** Encoding a decoded byte string reproduces it. */
  lemma {:induction false} BeBytesFromBe(b: Bytes)
    ensures BeBytes(FromBe(b), |b|) == b
  {
    if b != [] {
      var init, last := b[..|b| - 1], b[|b| - 1];
      BeBytesFromBe(init);
      DivMod256(FromBe(init), last);
      assert b == init + [last];
    }
  }

  lemma Pow256Values()
    ensures Pow256(2) == U16_LIMIT && Pow256(4) == U32_LIMIT && Pow256(8) == U64_LIMIT
  {
  }

  function Be16(n: u16): (r: Bytes)
    ensures |r| == 2 && FromBe(r) == n
  {
    Pow256Values();
    FromBeBeBytes(n, 2);
    BeBytes(n, 2)
  }

  function Be32(n: u32): (r: Bytes)
    ensures |r| == 4 && FromBe(r) == n
  {
    Pow256Values();
    FromBeBeBytes(n, 4);
    BeBytes(n, 4)
  }

  function Be64(n: u64): (r: Bytes)
    ensures |r| == 8 && FromBe(r) == n
  {
    Pow256Values();
    FromBeBeBytes(n, 8);
    BeBytes(n, 8)
  }

  /** Rust's `u32 as i32`: the same 32 bits read as two's complement. */
  function AsI32(n: u32): (r: i32)
    ensures r % U32_LIMIT == n
  {
    if n < 0x8000_0000 then n else n - U32_LIMIT
  }

  /** Rust's `i32 as u32`. */
  function AsU32(x: i32): (r: u32)
    ensures AsI32(r) == x
  {
    x % U32_LIMIT
  }

  /** Rust's `u64 as u32`: the low 32 bits. */
  function LowU32(n: u64): (r: u32)
    ensures r == n % U32_LIMIT
  {
    n % U32_LIMIT
  }

  /** The unsigned 64-bit pattern of an i64, then read back. */
  function AsI64(n: u64): (r: i64)
    ensures r % U64_LIMIT == n
  {
    if n < 0x8000_0000_0000_0000 then n else n - U64_LIMIT
  }

  function I32Bytes(x: i32): (r: Bytes)
    ensures |r| == 4 && AsI32(FromBe(r)) == x
  {
    Be32(AsU32(x))
  }

  function I64Bytes(x: i64): (r: Bytes)
    ensures |r| == 8 && AsI64(FromBe(r)) == x
  {
    Be64(x % U64_LIMIT)
  }

  /** Wrapping u32 addition, as a release build computes `a + b`. */
  function WrappingAdd32(a: u32, b: u32): (r: u32)
    ensures a + b < U32_LIMIT ==> r == a + b
    ensures a + b >= U32_LIMIT ==> r == a + b - U32_LIMIT && r < a && r < b
  {
    (a + b) % U32_LIMIT
  }

  /** Wrapping i32 negation, as a release build computes `-x`. */
  function WrappingNeg32(x: i32): (r: i32)
    ensures x != -0x8000_0000 ==> r == -x
    ensures x == -0x8000_0000 ==> r == x
  {
    if x == -0x8000_0000 then x else -x
  }

  // ---------------------------------------------------------------------
  // Reading fixed-width fields from the front of a byte string

  function TakeU8(c: Bytes): (r: Option<Take<u8>>)
    ensures r.Some? <==> |c| >= 1
    ensures r.Some? ==> c == [r.value.value] + r.value.rest
  {
    if |c| < 1 then None else Some(Take(c[0], c[1..]))
  }

  function TakeU32(c: Bytes): (r: Option<Take<u32>>)
    ensures r.Some? <==> |c| >= 4
    ensures r.Some? ==> c == Be32(r.value.value) + r.value.rest
  {
    if |c| < 4 then None
    else
      Pow256Values();
      BeBytesFromBe(c[..4]);
      assert c == c[..4] + c[4..];
      Some(Take(FromBe(c[..4]), c[4..]))
  }

  function TakeI32(c: Bytes): (r: Option<Take<i32>>)
    ensures r.Some? <==> |c| >= 4
    ensures r.Some? ==> c == I32Bytes(r.value.value) + r.value.rest
  {
    match TakeU32(c)
    case None => None
    case Some(t) => Some(Take(AsI32(t.value), t.rest))
  }

  function TakeI64(c: Bytes): (r: Option<Take<i64>>)
    ensures r.Some? <==> |c| >= 8
    ensures r.Some? ==> c == I64Bytes(r.value.value) + r.value.rest
  {
    if |c| < 8 then None
    else
      Pow256Values();
      BeBytesFromBe(c[..8]);
      assert c == c[..8] + c[8..];
      Some(Take(AsI64(FromBe(c[..8])), c[8..]))
  }

  lemma {:induction false} TakeU32Be32(n: u32, rest: Bytes)
    ensures TakeU32(Be32(n) + rest) == Some(Take(n, rest))
  {
    var c := Be32(n) + rest;
    assert c[..4] == Be32(n) && c[4..] == rest;
  }

  lemma {:induction false} TakeI32Bytes(x: i32, rest: Bytes)
    ensures TakeI32(I32Bytes(x) + rest) == Some(Take(x, rest))
  {
    TakeU32Be32(AsU32(x), rest);
  }

  lemma {:induction false} TakeI64Bytes(x: i64, rest: Bytes)
    ensures TakeI64(I64Bytes(x) + rest) == Some(Take(x, rest))
  {
    var c := I64Bytes(x) + rest;
    assert c[..8] == I64Bytes(x) && c[8..] == rest;
  }

  // ---------------------------------------------------------------------
  // The packet header

  /** The magic tag "rPtm" that opens every packet. */
  const MAGIC: Bytes := [0x72, 0x50, 0x74, 0x6D]

  /** The protocol version every packet carries after the magic tag. */
  const CURRENT_VERSION: u32 := 0

  /** The 8 header bytes: magic tag, then the big-endian version. */
  function Header(): (r: Bytes)
    ensures |r| == 8 && r[..4] == MAGIC && FromBe(r[4..8]) == CURRENT_VERSION
    ensures r == [0x72, 0x50, 0x74, 0x6D, 0, 0, 0, 0]
  {
    var h := MAGIC + Be32(CURRENT_VERSION);
    assert h[4..8] == Be32(CURRENT_VERSION);
    h
  }

  /** A packet whose magic tag and version check out starts with the header. */
  lemma HeaderBytes(data: Bytes)
    requires |data| >= 8 && data[..4] == MAGIC && FromBe(data[4..8]) == CURRENT_VERSION
    ensures data[..8] == Header() && data == Header() + data[8..]
  {
    BeBytesFromBe(data[4..8]);
    assert data[4..8] == Be32(CURRENT_VERSION);
    assert data[..8] == data[..4] + data[4..8];
    assert data == data[..8] + data[8..];
  }

  // Four-byte ASCII tags that follow the header of a server-to-client packet.
  const MENU_TAG: Bytes := [0x6D, 0x65, 0x6E, 0x75] // "menu"
  const MSGB_TAG: Bytes := [0x6D, 0x73, 0x67, 0x62] // "msgb"
  const ERRR_TAG: Bytes := [0x65, 0x72, 0x72, 0x72] // "errr"
  const INFO_TAG: Bytes := [0x69, 0x6E, 0x66, 0x6F] // "info"

  // ---------------------------------------------------------------------
  // UTF-8 well-formedness (the table of well-formed byte sequences of RFC 3629)

  predicate IsContinuation(b: u8) {
    0x80 <= b <= 0xBF
  }

  /** The number of bytes of the well-formed character that starts `s`, or 0 if `s` does not start with one. */
  function CharWidth(s: Bytes): (n: nat)
    ensures n <= |s| && n <= 4
    ensures |s| > 0 && s[0] < 0x80 ==> n == 1
    ensures |s| > 0 && 0x80 <= s[0] < 0xC2 ==> n == 0
  {
    if |s| == 0 then 0
    else if s[0] < 0x80 then 1
    else if 0xC2 <= s[0] <= 0xDF then
      if |s| >= 2 && IsContinuation(s[1]) then 2 else 0
    else if 0xE0 <= s[0] <= 0xEF then
      var lo := if s[0] == 0xE0 then 0xA0 else 0x80;
      var hi := if s[0] == 0xED then 0x9F else 0xBF;
      if |s| >= 3 && lo <= s[1] <= hi && IsContinuation(s[2]) then 3 else 0
    else if 0xF0 <= s[0] <= 0xF4 then
      var lo := if s[0] == 0xF0 then 0x90 else 0x80;
      var hi := if s[0] == 0xF4 then 0x8F else 0xBF;
      if |s| >= 4 && lo <= s[1] <= hi && IsContinuation(s[2]) && IsContinuation(s[3]) then 4 else 0
    else 0
  }

  /** `s` is a sequence of well-formed UTF-8 characters (what `String::from_utf8` accepts). */
  predicate ValidUtf8(s: Bytes)
    ensures ValidUtf8(s) && |s| > 0 ==> s[0] < 0x80 || 0xC2 <= s[0] <= 0xF4
    decreases |s|
  {
    |s| == 0 || (CharWidth(s) > 0 && ValidUtf8(s[CharWidth(s)..]))
  }

  predicate IsAscii(s: Bytes) {
    forall i :: 0 <= i < |s| ==> s[i] < 0x80
  }

  lemma {:induction false} AsciiIsUtf8(s: Bytes)
    requires IsAscii(s)
    ensures ValidUtf8(s)
  {
    if |s| > 0 {
      AsciiIsUtf8(s[1..]);
    }
  }

  /** A character that is complete in `a` keeps its width when more bytes follow. */
  lemma CharWidthPrefix(a: Bytes, b: Bytes)
    requires CharWidth(a) > 0
    ensures CharWidth(a + b) == CharWidth(a)
  {
    var ab := a + b;
    assert ab[0] == a[0];
    assert |a| >= 2 ==> ab[1] == a[1];
    assert |a| >= 3 ==> ab[2] == a[2];
    assert |a| >= 4 ==> ab[3] == a[3];
  }

  lemma {:induction false} Utf8Concat(a: Bytes, b: Bytes)
    requires ValidUtf8(a) && ValidUtf8(b)
    ensures ValidUtf8(a + b)
  {
    if a == [] {
      assert a + b == b;
    } else {
      var w := CharWidth(a);
      Utf8Concat(a[w..], b);
      Utf8Prepend(a, b, w);
    }
  }

  /** The first character of `a`, then the rest of `a` followed by `b`. */
  lemma Utf8Prepend(a: Bytes, b: Bytes, w: nat)
    requires 0 < w == CharWidth(a) && ValidUtf8(a[w..] + b)
    ensures ValidUtf8(a + b)
  {
    var ab := a + b;
    CharWidthPrefix(a, b);
    assert ab[w..] == a[w..] + b;
    Utf8Step(ab, w);
  }

  /** A whole character followed by valid UTF-8 is valid UTF-8. */
  lemma Utf8Step(s: Bytes, w: nat)
    requires 0 < w == CharWidth(s) && ValidUtf8(s[w..])
    ensures ValidUtf8(s)
  {
  }

  // ---------------------------------------------------------------------
  // Decimal text

  /** `n.to_string()`: the decimal digits of `n`, without sign or leading zeros. */
  function Decimal(n: nat): (r: Bytes)
    ensures 1 <= |r| && forall i :: 0 <= i < |r| ==> 0x30 <= r[i] <= 0x39
    ensures n >= 10 <==> |r| > 1
  {
    if n < 10 then [0x30 + n] else Decimal(n / 10) + [0x30 + n % 10]
  }

  /** Distinct ids render to distinct decimal strings. */
  lemma {:induction false} DecimalInjective(m: nat, n: nat)
    requires Decimal(m) == Decimal(n)
    ensures m == n
  {
    if m >= 10 && n >= 10 {
      var dm, dn := Decimal(m), Decimal(n);
      assert dm[..|dm| - 1] == Decimal(m / 10) && dn[..|dn| - 1] == Decimal(n / 10);
      DecimalInjective(m / 10, n / 10);
      assert dm[|dm| - 1] == dn[|dn| - 1];
    }
  }

  lemma DecimalIsUtf8(n: nat)
    ensures ValidUtf8(Decimal(n))
  {
    AsciiIsUtf8(Decimal(n));
  }

  // ---------------------------------------------------------------------
  // Length-prefixed strings

  /**
   * What `write_string` appends: the byte count truncated to 16 bits
   * (`len as u16`), big-endian, then the bytes themselves.
   */
  function StrField(s: Bytes): (r: Bytes)
    ensures |r| == |s| + 2 && r[2..] == s
    ensures FromBe(r[..2]) == |s| % U16_LIMIT
  {
    var r := Be16(|s| % U16_LIMIT) + s;
    assert r[..2] == Be16(|s| % U16_LIMIT);
    r
  }

  datatype StrError = Truncated | InvalidUtf8

  /** The outcome of `read_packet_string` and where it leaves the cursor. */
  datatype StrRead = StrRead(result: Result<Bytes, StrError>, rest: Bytes)

  /**
   * `read_packet_string` on a cursor holding `c`: the declared length is
   * consumed before the payload is checked, so only the "fewer than two
   * bytes" failure leaves the cursor where it was.
   */
  function ReadStr(c: Bytes): (r: StrRead)
    ensures |c| < 2 ==> r == StrRead(Err(Truncated), c)
    ensures |c| >= 2 && r.result.Err? ==> r.rest == c[2..]
    ensures |c| >= 2 ==> (r.result == Err(Truncated) <==> |c| - 2 < FromBe(c[..2]))
    ensures r.result.Ok? ==> ValidUtf8(r.result.value) && |r.result.value| < U16_LIMIT
    ensures r.result.Ok? ==> c == StrField(r.result.value) + r.rest
  {
    if |c| < 2 then StrRead(Err(Truncated), c)
    else
      var n := FromBe(c[..2]);
      var after := c[2..];
      if |after| < n then StrRead(Err(Truncated), after)
      else if !ValidUtf8(after[..n]) then StrRead(Err(InvalidUtf8), after)
      else
        StrFieldSplits(c);
        StrRead(Ok(after[..n]), after[n..])
  }

  /** A prefix that fits is a field: the declared bytes, then whatever follows. */
  lemma StrFieldSplits(c: Bytes)
    requires |c| >= 2 && FromBe(c[..2]) <= |c| - 2
    ensures var n := FromBe(c[..2]);
      n < U16_LIMIT && c == StrField(c[2..][..n]) + c[2..][n..]
  {
    var n, after := FromBe(c[..2]), c[2..];
    Pow256Values();
    BeBytesFromBe(c[..2]);
    assert StrField(after[..n]) == c[..2] + after[..n];
    assert c == c[..2] + after[..n] + after[n..];
  }

  /** Reading back what `write_string` wrote gives the string and the bytes after it. */
  lemma {:induction false} ReadStrField(s: Bytes, rest: Bytes)
    requires |s| < U16_LIMIT && ValidUtf8(s)
    ensures ReadStr(StrField(s) + rest) == StrRead(Ok(s), rest)
  {
    var c := StrField(s) + rest;
    assert c[..2] == StrField(s)[..2];
    assert FromBe(c[..2]) == |s|;
    var after := c[2..];
    assert after == s + rest;
    assert after[..|s|] == s && after[|s|..] == rest;
  }

  /** Invalid UTF-8 is refused after the prefix has been consumed. */
  lemma {:induction false} ReadStrFieldInvalid(s: Bytes, rest: Bytes)
    requires |s| < U16_LIMIT && !ValidUtf8(s)
    ensures ReadStr(StrField(s) + rest) == StrRead(Err(InvalidUtf8), s + rest)
  {
    var c := StrField(s) + rest;
    assert c[..2] == StrField(s)[..2];
    assert FromBe(c[..2]) == |s|;
    assert c[2..] == s + rest && c[2..][..|s|] == s;
  }

  /**
   * The 16-bit truncation of the length prefix: a string of exactly 65536
   * bytes is written with prefix 0, so it reads back as the empty string and
   * its own bytes are left on the cursor.
   */
  lemma {:induction false} StrFieldTruncates(s: Bytes, rest: Bytes)
    requires |s| == U16_LIMIT
    ensures ReadStr(StrField(s) + rest) == StrRead(Ok([]), s + rest)
  {
    var c := StrField(s) + rest;
    assert c[..2] == StrField(s)[..2];
    assert c[2..] == s + rest;
    assert ValidUtf8([]);
  }
}
