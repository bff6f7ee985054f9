/** Byte strings: the UTF-8 encoding of text and big-endian unsigned
    integers, as `str.encode('utf-8')` and `struct` produce and read them. */
module Bytes {

  import opened Results

  newtype byte = x: int | 0 <= x < 256

  predicate AsciiBytes(b: seq<byte>) {
    forall k :: 0 <= k < |b| ==> b[k] < 128
  }

  /** The UTF-8 encoding of one code point. */
  function Utf8Char(c: char): (r: seq<byte>)
    ensures 1 <= |r| <= 4
    ensures (c as int < 0x80) <==> |r| == 1
    ensures |r| == 1 ==> r[0] as int == c as int
    ensures |r| > 1 ==> forall k :: 0 <= k < |r| ==> r[k] >= 0x80
  {
    var n := c as int;
    if n < 0x80 then [n as byte]
    else if n < 0x800 then [(0xC0 + n / 64) as byte, (0x80 + n % 64) as byte]
    else if n < 0x10000 then
      [(0xE0 + n / 4096) as byte, (0x80 + n / 64 % 64) as byte, (0x80 + n % 64) as byte]
    else
      [(0xF0 + n / 262144) as byte, (0x80 + n / 4096 % 64) as byte,
       (0x80 + n / 64 % 64) as byte, (0x80 + n % 64) as byte]
  }

  /** `s.encode('utf-8')`. */
  function Utf8(s: string): (r: seq<byte>)
    ensures |r| >= |s|
  {
    if s == [] then [] else Utf8Char(s[0]) + Utf8(s[1..])
  }

  lemma {:induction false} Utf8Append(a: string, b: string)
    ensures Utf8(a + b) == Utf8(a) + Utf8(b)
  {
    if a == [] {
      assert a + b == b;
    } else {
      assert (a + b)[1..] == a[1..] + b;
      Utf8Append(a[1..], b);
    }
  }

  /** Only the NUL character encodes to a zero byte: every byte of a
      multi-byte sequence has its high bit set. */
  lemma {:induction false} Utf8Nul(s: string)
    ensures (0 as byte in Utf8(s)) <==> '\0' in s
  {
    if s != [] {
      Utf8Nul(s[1..]);
      assert s == [s[0]] + s[1..];
      var e := Utf8Char(s[0]);
      assert (0 as byte in e) <==> s[0] == '\0' by {
        if |e| > 1 { assert forall k :: 0 <= k < |e| ==> e[k] != 0; }
      }
    }
  }

  /** ASCII text encodes to its own character codes, one byte each. */
  lemma {:induction false} Utf8Ascii(s: string)
    requires forall k :: 0 <= k < |s| ==> s[k] as int < 128
    ensures |Utf8(s)| == |s|
    ensures forall k :: 0 <= k < |s| ==> Utf8(s)[k] as int == s[k] as int
  {
    if s != [] {
      Utf8Ascii(s[1..]);
      var r := Utf8(s);
      assert r == [s[0] as int as byte] + Utf8(s[1..]);
      forall k | 0 <= k < |s| ensures r[k] as int == s[k] as int {
        if k > 0 { assert r[k] == Utf8(s[1..])[k - 1]; }
      }
    }
  }

  /** A character outside ASCII encodes to bytes outside it. */
  lemma {:induction false} Utf8NotAscii(s: string)
    requires exists k :: 0 <= k < |s| && s[k] as int >= 128
    ensures !AsciiBytes(Utf8(s))
  {
    var e := Utf8Char(s[0]);
    assert Utf8(s) == e + Utf8(s[1..]);
    if s[0] as int >= 128 {
      assert Utf8(s)[0] == e[0];
    } else {
      var k :| 0 <= k < |s| && s[k] as int >= 128;
      assert s[1..][k - 1] == s[k];
      Utf8NotAscii(s[1..]);
      var j :| 0 <= j < |Utf8(s[1..])| && Utf8(s[1..])[j] >= 128;
      assert Utf8(s)[|e| + j] == Utf8(s[1..])[j];
    }
  }

  // ---------------------------------------------------------------------
  // decoding

  predicate IsContinuation(x: byte) {
    0x80 <= x < 0xC0
  }

  predicate IsScalar(n: int) {
    0 <= n < 0xD800 || 0xE000 <= n < 0x110000
  }

  /** The code point at the start of `b` and the number of bytes it takes,
      or `None` when `b` does not start with a well-formed UTF-8 sequence
      (a stray continuation byte, a truncated, overlong or surrogate
      sequence, or one beyond U+10FFFF). */
  function DecodeFirst(b: seq<byte>): (r: Option<(char, nat)>)
    requires b != []
    ensures r.Some? ==> 1 <= r.value.1 <= |b| && b[..r.value.1] == Utf8Char(r.value.0)
  {
    var lead := b[0] as int;
    if lead < 0x80 then
      Some((lead as char, 1))
    else if 0xC2 <= lead < 0xE0 && |b| >= 2 && IsContinuation(b[1]) then
      var n := (lead - 0xC0) * 64 + (b[1] as int - 0x80);
      Decode2(lead, b[1] as int);
      assert b[..2] == [b[0], b[1]];
      Some((n as char, 2))
    else if 0xE0 <= lead < 0xF0 && |b| >= 3 && IsContinuation(b[1]) && IsContinuation(b[2]) then
      var n := (lead - 0xE0) * 4096 + (b[1] as int - 0x80) * 64 + (b[2] as int - 0x80);
      if 0x800 <= n && IsScalar(n) then
        Decode3(lead, b[1] as int, b[2] as int);
        assert b[..3] == [b[0], b[1], b[2]];
        Some((n as char, 3))
      else None
    else if 0xF0 <= lead < 0xF5 && |b| >= 4 && IsContinuation(b[1]) && IsContinuation(b[2]) && IsContinuation(b[3]) then
      var n := (lead - 0xF0) * 262144 + (b[1] as int - 0x80) * 4096 + (b[2] as int - 0x80) * 64 + (b[3] as int - 0x80);
      if 0x10000 <= n < 0x110000 then
        Decode4(lead, b[1] as int, b[2] as int, b[3] as int);
        assert b[..4] == [b[0], b[1], b[2], b[3]];
        Some((n as char, 4))
      else None
    else None
  }

  lemma {:induction false} Decode2(lead: int, x: int)
    requires 0xC2 <= lead < 0xE0 && 0x80 <= x < 0xC0
    ensures var n := (lead - 0xC0) * 64 + (x - 0x80);
            0x80 <= n < 0x800 && Utf8Char(n as char) == [lead as byte, x as byte]
  {
    var n := (lead - 0xC0) * 64 + (x - 0x80);
    assert n / 64 == lead - 0xC0 && n % 64 == x - 0x80;
  }

  lemma {:induction false} Decode3(lead: int, x: int, y: int)
    requires 0xE0 <= lead < 0xF0 && 0x80 <= x < 0xC0 && 0x80 <= y < 0xC0
    requires var n := (lead - 0xE0) * 4096 + (x - 0x80) * 64 + (y - 0x80);
             0x800 <= n && IsScalar(n)
    ensures var n := (lead - 0xE0) * 4096 + (x - 0x80) * 64 + (y - 0x80);
            Utf8Char(n as char) == [lead as byte, x as byte, y as byte]
  {
    var n := (lead - 0xE0) * 4096 + (x - 0x80) * 64 + (y - 0x80);
    assert n / 4096 == lead - 0xE0;
    assert n / 64 == (lead - 0xE0) * 64 + (x - 0x80);
    assert n / 64 % 64 == x - 0x80 && n % 64 == y - 0x80;
  }

  lemma {:induction false} Decode4(lead: int, x: int, y: int, z: int)
    requires 0xF0 <= lead < 0xF5 && 0x80 <= x < 0xC0 && 0x80 <= y < 0xC0 && 0x80 <= z < 0xC0
    requires var n := (lead - 0xF0) * 262144 + (x - 0x80) * 4096 + (y - 0x80) * 64 + (z - 0x80);
             0x10000 <= n < 0x110000
    ensures var n := (lead - 0xF0) * 262144 + (x - 0x80) * 4096 + (y - 0x80) * 64 + (z - 0x80);
            Utf8Char(n as char) == [lead as byte, x as byte, y as byte, z as byte]
  {
    var n := (lead - 0xF0) * 262144 + (x - 0x80) * 4096 + (y - 0x80) * 64 + (z - 0x80);
    assert n / 262144 == lead - 0xF0;
    assert n / 64 == (lead - 0xF0) * 4096 + (x - 0x80) * 64 + (y - 0x80);
    assert n / 4096 == (lead - 0xF0) * 64 + (x - 0x80);
    assert n / 4096 % 64 == x - 0x80 && n / 64 % 64 == y - 0x80 && n % 64 == z - 0x80;
  }

  /** The encoding of a character is decoded as that character, whatever
      follows it. */
  lemma {:induction false} DecodeFirstOfChar(c: char, rest: seq<byte>)
    ensures DecodeFirst(Utf8Char(c) + rest) == Some((c, |Utf8Char(c)|))
  {
    var n := c as int;
    var b := Utf8Char(c) + rest;
    if n < 0x80 {
    } else if n < 0x800 {
      Encode2(n);
    } else if n < 0x10000 {
      Encode3(n);
    } else {
      Encode4(n);
    }
  }

  lemma {:induction false} Encode2(n: int)
    requires 0x80 <= n < 0x800
    ensures 0xC2 <= 0xC0 + n / 64 < 0xE0 && (n / 64) * 64 + n % 64 == n
  {
  }

  lemma {:induction false} Encode3(n: int)
    requires 0x800 <= n < 0x10000
    ensures 0xE0 <= 0xE0 + n / 4096 < 0xF0
    ensures (n / 4096) * 4096 + (n / 64 % 64) * 64 + n % 64 == n
  {
    assert n / 64 == (n / 4096) * 64 + n / 64 % 64;
  }

  lemma {:induction false} Encode4(n: int)
    requires 0x10000 <= n < 0x110000
    ensures 0xF0 <= 0xF0 + n / 262144 < 0xF5
    ensures (n / 262144) * 262144 + (n / 4096 % 64) * 4096 + (n / 64 % 64) * 64 + n % 64 == n
  {
    assert n / 64 == (n / 4096) * 64 + n / 64 % 64;
    assert n / 4096 == (n / 262144) * 64 + n / 4096 % 64;
  }

  /** `b.decode('utf-8')`: well-formed UTF-8 decoded character by character;
      anything else raises `UnicodeDecodeError`. */
  function Utf8Decode(b: seq<byte>): (r: Result<string>)
    ensures r.Ok? ==> Utf8(r.value) == b
    ensures r.Raise? ==> r.error == UnicodeDecodeError
    decreases |b|
  {
    if b == [] then Ok([])
    else
      match DecodeFirst(b)
      case None => Raise(UnicodeDecodeError)
      case Some((c, size)) =>
        match Utf8Decode(b[size..])
        case Raise(e) => Raise(e)
        case Ok(rest) =>
          Utf8Cons(c, rest, b, size);
          Ok([c] + rest)
  }

  lemma {:induction false} Utf8Cons(c: char, rest: string, b: seq<byte>, size: nat)
    requires size <= |b| && b[..size] == Utf8Char(c) && Utf8(rest) == b[size..]
    ensures Utf8([c] + rest) == b
  {
    var s := [c] + rest;
    assert s[0] == c && s[1..] == rest;
    assert b == b[..size] + b[size..];
  }

  /** Decoding reads back every encoded text. */
  lemma {:induction false} Utf8DecodeEncode(s: string)
    ensures Utf8Decode(Utf8(s)) == Ok(s)
  {
    if s != [] {
      var e := Utf8Char(s[0]);
      var rest := Utf8(s[1..]);
      DecodeFirstOfChar(s[0], rest);
      assert (e + rest)[|e|..] == rest;
      Utf8DecodeEncode(s[1..]);
      assert s == [s[0]] + s[1..];
    }
  }

  /** Different texts have different encodings. */
  lemma {:induction false} Utf8Injective(a: string, b: string)
    requires Utf8(a) == Utf8(b)
    ensures a == b
  {
    Utf8DecodeEncode(a);
    Utf8DecodeEncode(b);
  }

  /** `b.split(sep, 1)`: the bytes before the first `sep` and those after
      it, or `None` when there is no `sep`. */
  function SplitFirst(b: seq<byte>, sep: byte): (r: Parts)
    ensures r.Split? ==> b == r.before + [sep] + r.after && sep !in r.before
    ensures r.Whole? <==> sep !in b
  {
    if b == [] then Whole
    else if b[0] == sep then Split([], b[1..])
    else
      match SplitFirst(b[1..], sep)
      case Whole => Whole
      case Split(before, after) => Split([b[0]] + before, after)
  }

  datatype Parts = Whole | Split(before: seq<byte>, after: seq<byte>)

  /** Splitting at the first separator undoes a join whose first part has
      no separator. */
  lemma {:induction false} SplitFirstJoin(a: seq<byte>, sep: byte, b: seq<byte>)
    requires sep !in a
    ensures SplitFirst(a + [sep] + b, sep) == Split(a, b)
  {
    if a != [] {
      assert (a + [sep] + b)[1..] == a[1..] + [sep] + b;
      SplitFirstJoin(a[1..], sep, b);
    } else {
      assert a + [sep] + b == [sep] + b;
    }
  }

  /** `struct.unpack('>Q', b)[0]` for eight bytes: big-endian unsigned. */
  function BigEndian(b: seq<byte>): (r: nat)
    ensures r < Pow256(|b|)
  {
    if b == [] then 0 else BigEndian(b[..|b| - 1]) * 256 + b[|b| - 1] as int
  }

  function Pow256(n: nat): (r: nat)
    ensures r >= 1
  {
    if n == 0 then 1 else 256 * Pow256(n - 1)
  }

  /** `struct.pack('>Q', n)` for `n` below the bound of `n` bytes. */
  function ToBigEndian(n: nat, width: nat): (r: seq<byte>)
    ensures |r| == width
  {
    if width == 0 then [] else ToBigEndian(n / 256, width - 1) + [(n % 256) as byte]
  }

  /** Reading back the bytes written for a number gives the number. */
  lemma {:induction false} BigEndianRoundTrip(n: nat, width: nat)
    requires n < Pow256(width)
    ensures BigEndian(ToBigEndian(n, width)) == n
  {
    if width > 0 {
      var b := ToBigEndian(n, width);
      assert b[..width - 1] == ToBigEndian(n / 256, width - 1);
      BigEndianRoundTrip(n / 256, width - 1);
    }
  }

  /** Writing the number read gives back the bytes. */
  lemma {:induction false} ToBigEndianRoundTrip(b: seq<byte>)
    ensures ToBigEndian(BigEndian(b), |b|) == b
  {
    if b != [] {
      var init := b[..|b| - 1];
      ToBigEndianRoundTrip(init);
      var n := BigEndian(b);
      assert n / 256 == BigEndian(init) && n % 256 == b[|b| - 1] as int;
      assert b == init + [b[|b| - 1]];
    }
  }
}
