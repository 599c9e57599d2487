/** The fingerprint of an image (utils/helpers.ts, generateHash): the
    SHA-256 digest of the image's data URL, rendered byte by byte as
    lowercase hexadecimal, two characters per byte. The digest itself is a
    parameter of the model; what is modelled and proved here is the
    rendering and the fact that it loses nothing. */
module Hex {
  import opened Types

  type byte = x: int | 0 <= x < 256

  /** A SHA-256 digest: 32 bytes. */
  type Digest = d: seq<byte> | |d| == 32 witness seq(32, _ => 0)

  predicate IsLowerHex(c: char) {
    '0' <= c <= '9' || 'a' <= c <= 'f'
  }

  /** The digit `Number.prototype.toString(16)` writes for `d`. */
  function HexDigit(d: nat): (c: char)
    requires d < 16
    ensures IsLowerHex(c)
  {
    if d < 10 then ('0' as int + d) as char else ('a' as int + (d - 10)) as char
  }

  /** The value of a lowercase hex digit, or None for any other character. */
  function DigitValue(c: char): (r: Option<nat>)
    ensures r.Some? <==> IsLowerHex(c)
    ensures r.Some? ==> r.value < 16 && HexDigit(r.value) == c
  {
    if '0' <= c <= '9' then Some(c as int - '0' as int)
    else if 'a' <= c <= 'f' then Some(c as int - 'a' as int + 10)
    else None
  }

  lemma DigitValueOfHexDigit(d: nat)
    requires d < 16
    ensures DigitValue(HexDigit(d)) == Some(d)
  {
  }

  /** `n.toString(16)`: the base-16 digits of `n`, most significant first,
      without leading zeros ("0" for zero). */
  function ToBase16(n: nat): (s: string)
    ensures |s| >= 1
    ensures n < 16 <==> |s| == 1
    ensures forall k :: 0 <= k < |s| ==> IsLowerHex(s[k])
    decreases n
  {
    if n < 16 then [HexDigit(n)] else ToBase16(n / 16) + [HexDigit(n % 16)]
  }

  /** `s.padStart(width, fill)`: `s` preceded by as many `fill` characters
      as it takes to reach `width`; `s` itself when it is already as long. */
  function PadStart(s: string, width: nat, fill: char): string
  {
    if |s| >= width then s else seq(width - |s|, _ => fill) + s
  }

  /** `b.toString(16).padStart(2, '0')`: always the high and the low nibble. */
  function ByteToHex(b: byte): (r: string)
    ensures r == [HexDigit(b / 16), HexDigit(b % 16)]
  {
    if b < 16 then
      assert ToBase16(b) == [HexDigit(b)];
      PadStart(ToBase16(b), 2, '0')
    else
      assert ToBase16(b) == [HexDigit(b / 16), HexDigit(b % 16)];
      PadStart(ToBase16(b), 2, '0')
  }

  /** `hashArray.map(...).join('')`: the bytes rendered one after the other. */
  function Render(bytes: seq<byte>): (r: string)
    ensures |r| == 2 * |bytes|
    ensures forall k :: 0 <= k < |r| ==> IsLowerHex(r[k])
  {
    if bytes == [] then [] else ByteToHex(bytes[0]) + Render(bytes[1..])
  }

  /** Byte `i` of the input occupies characters `2 * i` and `2 * i + 1`. */
  lemma {:induction false} RenderAt(bytes: seq<byte>, i: nat)
    requires i < |bytes|
    ensures |Render(bytes)| == 2 * |bytes|
    ensures Render(bytes)[2 * i] == HexDigit(bytes[i] / 16)
    ensures Render(bytes)[2 * i + 1] == HexDigit(bytes[i] % 16)
  {
    var head, tail := ByteToHex(bytes[0]), Render(bytes[1..]);
    assert Render(bytes) == head + tail;
    if i > 0 {
      RenderAt(bytes[1..], i - 1);
      assert bytes[1..][i - 1] == bytes[i];
      assert (head + tail)[2 * i] == tail[2 * (i - 1)];
      assert (head + tail)[2 * i + 1] == tail[2 * (i - 1) + 1];
    }
  }

  /** Reads a string of hex-digit pairs back into bytes; None when the
      length is odd or a character is not a lowercase hex digit. */
  function ParseHex(s: string): (r: Option<seq<byte>>)
    ensures r.Some? ==> |s| == 2 * |r.value| && Render(r.value) == s
    decreases |s|
  {
    if s == [] then Some([])
    else if |s| == 1 then None
    else match (DigitValue(s[0]), DigitValue(s[1]), ParseHex(s[2..]))
      case (Some(hi), Some(lo), Some(rest)) =>
        var b: byte := hi * 16 + lo;
        assert b / 16 == hi && b % 16 == lo;
        assert Render([b] + rest) == ByteToHex(b) + Render(rest) by {
          assert ([b] + rest)[1..] == rest;
        }
        Some([b] + rest)
      case _ => None
  }

  /** Decoding the pairs of a rendering recovers the bytes. */
  lemma {:induction false} ParseRender(bytes: seq<byte>)
    ensures ParseHex(Render(bytes)) == Some(bytes)
  {
    if bytes != [] {
      var s := Render(bytes);
      var b := bytes[0];
      assert s == ByteToHex(b) + Render(bytes[1..]);
      assert s[2..] == Render(bytes[1..]);
      DigitValueOfHexDigit(b / 16);
      DigitValueOfHexDigit(b % 16);
      ParseRender(bytes[1..]);
      assert [b] + bytes[1..] == bytes;
    }
  }

  /** Distinct byte sequences render to distinct strings. */
  lemma RenderInjective(a: seq<byte>, b: seq<byte>)
    ensures Render(a) == Render(b) <==> a == b
  {
    ParseRender(a);
    ParseRender(b);
  }

  /** generateHash: the digest that `sha256` computes for `text` (the
      encoding of `text` is folded into it), rendered as hex; a failing
      digest is passed on as it is. */
  function GenerateHash(sha256: string -> Result<Digest>, text: string): (r: Result<string>)
    ensures r.Err? <==> sha256(text).Err?
    ensures r.Err? ==> r.message == sha256(text).message
    ensures r.Ok? ==> |r.value| == 64 && (forall k :: 0 <= k < 64 ==> IsLowerHex(r.value[k]))
    ensures r.Ok? ==> ParseHex(r.value) == Some(sha256(text).value)
  {
    match sha256(text)
    case Err(m) => Err(m)
    case Ok(d) => ParseRender(d); Ok(Render(d))
  }

  /** The same text always gets the same fingerprint, and two texts get the
      same fingerprint only when their digests are equal. */
  lemma FingerprintsMatchExactlyWhenDigestsDo(sha256: string -> Result<Digest>, x: string, y: string)
    requires sha256(x).Ok? && sha256(y).Ok?
    ensures GenerateHash(sha256, x).value == GenerateHash(sha256, y).value
        <==> sha256(x).value == sha256(y).value
  {
    RenderInjective(sha256(x).value, sha256(y).value);
  }
}
