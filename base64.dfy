/**
 * Base 64 encoding as section 4 of RFC 4648 defines it, the contract of the
 * browser's `btoa`, and `toBase64` of app/api/download/route.ts, which turns
 * a byte buffer into a Latin-1 "binary string" one byte at a time and hands
 * it to `btoa`.
 */
module Base64 {
  import opened Wrappers

  type Byte = b: int | 0 <= b < 256

  /** A 6-bit group: the value one base 64 character stands for. */
  type Sextet = n: int | 0 <= n < 64

  /** The alphabet of Table 1 of RFC 4648: `A-Z`, `a-z`, `0-9`, `+`, `/`. */
  function CharOf(n: Sextet): (c: char)
    ensures c != '=' && c != ','
  {
    if n < 26 then ('A' as int + n) as char
    else if n < 52 then ('a' as int + (n - 26)) as char
    else if n < 62 then ('0' as int + (n - 52)) as char
    else if n == 62 then '+'
    else '/'
  }

  /** The value of an alphabet character; `None` for any other character. */
  function SextetOf(c: char): (r: Option<Sextet>)
    ensures r.Some? ==> c != '='
  {
    if 'A' <= c <= 'Z' then Some(c as int - 'A' as int)
    else if 'a' <= c <= 'z' then Some(c as int - 'a' as int + 26)
    else if '0' <= c <= '9' then Some(c as int - '0' as int + 52)
    else if c == '+' then Some(62)
    else if c == '/' then Some(63)
    else None
  }

  /** Every alphabet character decodes to the value that chose it. */
  lemma SextetOfCharOf(n: Sextet)
    ensures SextetOf(CharOf(n)) == Some(n)
  {
  }

  /** Three bytes cut into four 6-bit groups, most significant bits first. */
  function Sextets(b0: Byte, b1: Byte, b2: Byte): (c: seq<Sextet>)
    ensures |c| == 4
  {
    [b0 / 4, (b0 % 4) * 16 + b1 / 16, (b1 % 16) * 4 + b2 / 64, b2 % 64]
  }

  /** Four 6-bit groups put back together into three bytes. */
  function Octets(c0: Sextet, c1: Sextet, c2: Sextet, c3: Sextet): (b: seq<Byte>)
    ensures |b| == 3
  {
    [c0 * 4 + c1 / 16, (c1 % 16) * 16 + c2 / 4, (c2 % 4) * 64 + c3]
  }

  /** Cutting and joining undo each other. */
  lemma OctetsOfSextets(b0: Byte, b1: Byte, b2: Byte)
    ensures var c := Sextets(b0, b1, b2); Octets(c[0], c[1], c[2], c[3]) == [b0, b1, b2]
  {
  }

  /** The characters of the first `n` groups of `c`. */
  function Chars(c: seq<Sextet>, n: nat): (s: string)
    requires n <= |c|
    ensures |s| == n
    ensures forall i :: 0 <= i < n ==> s[i] == CharOf(c[i])
  {
    seq(n, i requires 0 <= i < n => CharOf(c[i]))
  }

  /** Base 64 encoding with padding (RFC 4648, section 4): a final group of one byte
      becomes two characters and `==`, one of two bytes three characters and `=`. */
  function Encode(b: seq<Byte>): (r: string)
    ensures ',' !in r
    decreases |b|
  {
    if |b| == 0 then []
    else if |b| == 1 then Chars(Sextets(b[0], 0, 0), 2) + "=="
    else if |b| == 2 then Chars(Sextets(b[0], b[1], 0), 3) + "="
    else Chars(Sextets(b[0], b[1], b[2]), 4) + Encode(b[3..])
  }

  /** The 6-bit values of a group's characters, if all are in the alphabet. */
  function Values(g: string): (r: Option<seq<Sextet>>)
    ensures r.Some? ==> |r.value| == |g|
    ensures r.Some? ==> forall i :: 0 <= i < |g| ==> SextetOf(g[i]) == Some(r.value[i])
    decreases |g|
  {
    if g == [] then Some([])
    else if SextetOf(g[0]).None? || Values(g[1..]).None? then None
    else Some([SextetOf(g[0]).value] + Values(g[1..]).value)
  }

  /** The last group of an encoding: `xx==` holds one byte, `xxx=` two, `xxxx` three. */
  function DecodeLast(g: string): (r: Option<seq<Byte>>)
    requires |g| == 4
  {
    if g[2] == '=' && g[3] == '=' then
      match Values(g[..2])
      case Some(c) => Some(Octets(c[0], c[1], 0, 0)[..1])
      case None => None
    else if g[3] == '=' then
      match Values(g[..3])
      case Some(c) => Some(Octets(c[0], c[1], c[2], 0)[..2])
      case None => None
    else
      match Values(g)
      case Some(c) => Some(Octets(c[0], c[1], c[2], c[3]))
      case None => None
  }

  /** Decoding, the inverse this model checks `Encode` against: padding may
      only close the last group. */
  function Decode(s: string): (r: Option<seq<Byte>>)
    decreases |s|
  {
    if s == [] then Some([])
    else if |s| < 4 then None
    else if |s| == 4 then DecodeLast(s)
    else
      match (Values(s[..4]), Decode(s[4..]))
      case (Some(c), Some(rest)) => Some(Octets(c[0], c[1], c[2], c[3]) + rest)
      case _ => None
  }

  /** The characters of `n` groups read back as those groups. */
  lemma ValuesChars(c: seq<Sextet>, n: nat)
    requires n <= |c|
    ensures Values(Chars(c, n)) == Some(c[..n])
  {
    if n > 0 {
      var s := Chars(c, n);
      assert s[1..] == Chars(c[1..], n - 1);
      ValuesChars(c[1..], n - 1);
      SextetOfCharOf(c[0]);
      assert c[..n] == [c[0]] + c[1..][..n - 1];
    }
  }

  /** A group holding one byte decodes to it. */
  lemma DecodeOne(b0: Byte)
    ensures Decode(Encode([b0])) == Some([b0])
  {
    var c := Sextets(b0, 0, 0);
    var s := Encode([b0]);
    assert s == Chars(c, 2) + "==";
    assert s[..2] == Chars(c, 2);
    ValuesChars(c, 2);
    var v := c[..2];
    assert v[0] == c[0] && v[1] == c[1];
    OctetsOfSextets(b0, 0, 0);
    calc {
      Decode(s);
      DecodeLast(s);
      Some(Octets(v[0], v[1], 0, 0)[..1]);
      { assert c[2] == 0 && c[3] == 0; }
      Some(Octets(c[0], c[1], c[2], c[3])[..1]);
      Some([b0, 0, 0][..1]);
      { assert [b0, 0, 0][..1] == [b0]; }
      Some([b0]);
    }
  }

  /** A group holding two bytes decodes to them. */
  lemma DecodeTwo(b0: Byte, b1: Byte)
    ensures Decode(Encode([b0, b1])) == Some([b0, b1])
  {
    var c := Sextets(b0, b1, 0);
    var s := Encode([b0, b1]);
    assert s == Chars(c, 3) + "=";
    assert s[..3] == Chars(c, 3);
    assert s[2] != '=';
    ValuesChars(c, 3);
    var v := c[..3];
    assert v[0] == c[0] && v[1] == c[1] && v[2] == c[2];
    OctetsOfSextets(b0, b1, 0);
    calc {
      Decode(s);
      DecodeLast(s);
      Some(Octets(v[0], v[1], v[2], 0)[..2]);
      { assert c[3] == 0; }
      Some(Octets(c[0], c[1], c[2], c[3])[..2]);
      Some([b0, b1, 0][..2]);
      { assert [b0, b1, 0][..2] == [b0, b1]; }
      Some([b0, b1]);
    }
  }

  /** An encoding of three bytes or more starts with one full group. */
  lemma EncodeFirstGroup(b: seq<Byte>)
    requires |b| >= 3
    ensures var s := Encode(b);
      && |s| >= 4
      && s[..4] == Chars(Sextets(b[0], b[1], b[2]), 4)
      && s[4..] == Encode(b[3..])
  {
  }

  /** A full group of characters reads back as its four values. */
  lemma ValuesGroup(c: seq<Sextet>)
    requires |c| == 4
    ensures Values(Chars(c, 4)) == Some(c)
    ensures Chars(c, 4)[3] != '='
  {
    ValuesChars(c, 4);
    assert c[..4] == c;
  }

  /** Joining the first group's values back gives the first three bytes. */
  lemma OctetsThenRest(b: seq<Byte>)
    requires |b| >= 3
    ensures var c := Sextets(b[0], b[1], b[2]);
      && Octets(c[0], c[1], c[2], c[3]) + b[3..] == b
      && (|b| == 3 ==> Octets(c[0], c[1], c[2], c[3]) == b)
  {
    OctetsOfSextets(b[0], b[1], b[2]);
    assert b == [b[0], b[1], b[2]] + b[3..];
  }

  /** Exactly three bytes: one unpadded last group. */
  lemma DecodeLastFullGroup(b: seq<Byte>)
    requires |b| == 3
    ensures Decode(Encode(b)) == Some(b)
  {
    var c := Sextets(b[0], b[1], b[2]);
    var s := Encode(b);
    EncodeFirstGroup(b);
    ValuesGroup(c);
    OctetsThenRest(b);
    assert s == Chars(c, 4);
    assert s[2] == CharOf(c[2]) && s[3] == CharOf(c[3]);
    calc {
      Decode(s);
      DecodeLast(s);
      Some(Octets(c[0], c[1], c[2], c[3]));
    }
  }

  /** More than three bytes: a full group, then the encoding of the rest. */
  lemma DecodeFullGroup(b: seq<Byte>)
    requires |b| > 3
    requires Decode(Encode(b[3..])) == Some(b[3..])
    ensures Decode(Encode(b)) == Some(b)
  {
    var c := Sextets(b[0], b[1], b[2]);
    var s := Encode(b);
    EncodeFirstGroup(b);
    ValuesGroup(c);
    OctetsThenRest(b);
    calc {
      Decode(s);
      Some(Octets(c[0], c[1], c[2], c[3]) + b[3..]);
    }
  }

  /** Decoding an encoding gives back the bytes. */
  lemma {:induction false} DecodeEncode(b: seq<Byte>)
    ensures Decode(Encode(b)) == Some(b)
    decreases |b|
  {
    if |b| == 1 {
      assert b == [b[0]];
      DecodeOne(b[0]);
    } else if |b| == 2 {
      assert b == [b[0], b[1]];
      DecodeTwo(b[0], b[1]);
    } else if |b| == 3 {
      DecodeLastFullGroup(b);
    } else if |b| > 3 {
      DecodeEncode(b[3..]);
      DecodeFullGroup(b);
    }
  }

  /** How many `=` end `s`, as `getBase64Size` of components/sku-processor.tsx counts them. */
  function Padding(s: string): (n: nat)
    ensures n <= 2 && n <= |s|
  {
    if |s| >= 2 && s[|s| - 2..] == "==" then 2
    else if |s| >= 1 && s[|s| - 1] == '=' then 1
    else 0
  }

  /** Three quarters of the encoded length, less the padding, is the number of
      bytes encoded; the padding is empty exactly when the bytes fill whole groups. */
  lemma {:induction false} EncodeSize(b: seq<Byte>)
    ensures var r := Encode(b);
      && 3 * |r| == 4 * (|b| + Padding(r))
      && (|b| == 0 <==> r == [])
    decreases |b|
  {
    var r := Encode(b);
    if |b| == 1 {
      assert r[2..] == "==";
    } else if |b| == 2 {
      assert r[2..] == [CharOf(Sextets(b[0], b[1], 0)[2]), '='];
    } else if |b| >= 3 {
      var rest := Encode(b[3..]);
      EncodeSize(b[3..]);
      var g := Chars(Sextets(b[0], b[1], b[2]), 4);
      assert r == g + rest;
      if rest == [] {
        assert r[2..] == [g[2], g[3]];
      } else {
        assert r[|r| - 2..] == rest[|rest| - 2..];
        assert r[|r| - 1] == rest[|rest| - 1];
      }
    }
  }

  // --------------------------------------------------------------- btoa

  /** The binary string `String.fromCharCode(b)` builds: one character per byte,
      every one below 256, and reading its characters back as bytes gives `b`. */
  function Latin1(b: seq<Byte>): (s: string)
    ensures forall i :: 0 <= i < |s| ==> s[i] as int < 256
    ensures Latin1Bytes(s) == b
  {
    seq(|b|, i requires 0 <= i < |b| => b[i] as char)
  }

  /** The bytes of a string whose characters are all below 256. */
  function Latin1Bytes(s: string): (b: seq<Byte>)
    requires forall i :: 0 <= i < |s| ==> s[i] as int < 256
    ensures |b| == |s|
    ensures forall i :: 0 <= i < |s| ==> b[i] == s[i] as int
  {
    seq(|s|, i requires 0 <= i < |s| => s[i] as int)
  }

  /** The other direction: a string of characters below 256 is the binary string
      of its own bytes. */
  lemma Latin1OfBytes(s: string)
    requires forall i :: 0 <= i < |s| ==> s[i] as int < 256
    ensures Latin1(Latin1Bytes(s)) == s
  {
    var b := Latin1Bytes(s);
    assert forall i :: 0 <= i < |s| ==> Latin1(b)[i] == (b[i] as char) == s[i];
  }

  /** `btoa`: the base 64 encoding of the string's Latin-1 bytes. (It throws on a
      character above 255, which a binary string never holds.) */
  function Btoa(binary: string): string
    requires forall i :: 0 <= i < |binary| ==> binary[i] as int < 256
  {
    Encode(Latin1Bytes(binary))
  }

  /** `toBase64`: the loop that appends `String.fromCharCode(bytes[i])`, then `btoa`. */
  method ToBase64(buffer: seq<Byte>) returns (s: string)
    ensures s == Encode(buffer)
    ensures Decode(s) == Some(buffer)
  {
    var binary := "";
    for i := 0 to |buffer|
      invariant binary == Latin1(buffer[..i])
    {
      assert buffer[..i + 1] == buffer[..i] + [buffer[i]];
      binary := binary + [buffer[i] as char];
    }
    assert buffer[..|buffer|] == buffer;
    s := Btoa(binary);
    DecodeEncode(buffer);
  }
}
