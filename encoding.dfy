/** read_file and utf16le_to_utf8: how a captured file is read back, and the
    UTF-16LE to UTF-8 transcoding applied when the file starts with the
    UTF-16 little-endian byte-order mark FF FE (section 3.2 of RFC 2781).
    Each 16-bit unit is written in the one-, two- or three-byte form of
    section 3 of RFC 3629; surrogate pairs are not combined, so every unit,
    a surrogate included, is encoded on its own. */
module Encoding {
  import opened Text

  /** Byte i of the buffer handed to the transcoder; one past its end the
      transcoder reads the NUL that read_file puts after the file's bytes. */
  function ByteAt(b: seq<byte>, i: nat): byte
  {
    if i < |b| then b[i] else 0
  }

  /** The code unit the transcoder reads at byte offset i: low byte first. */
  function UnitAt(b: seq<byte>, i: nat): int
  {
    ByteAt(b, i + 1) as int * 256 + ByteAt(b, i) as int
  }

  /** The 16-bit units of b, read two bytes at a time; a trailing odd byte
      pairs with the terminating NUL. */
  function Units(b: seq<byte>): (us: seq<int>)
    ensures |us| == (|b| + 1) / 2
  {
    seq((|b| + 1) / 2, k requires 0 <= k < (|b| + 1) / 2 => UnitAt(b, 2 * k))
  }

  predicate ValidUnits(us: seq<int>)
  {
    forall k :: 0 <= k < |us| ==> 0 <= us[k] < 0x10000
  }

  /** Number of UTF-8 bytes for one unit, by the thresholds 0x80 and 0x800. */
  function Width(u: int): nat
  {
    if u < 0x80 then 1 else if u < 0x800 then 2 else 3
  }

  predicate Continuation(b: byte)
  {
    0x80 <= b < 0xC0
  }

  /** The UTF-8 form of one unit. The source writes `0xC0 | (u >> 6)`,
      `0x80 | (u & 0x3F)` and so on; the high and low parts never share a
      bit, so the sums below are the same values. */
  function EncodeUnit(u: int): (r: seq<byte>)
    requires 0 <= u < 0x10000
    ensures |r| == Width(u)
    ensures Width(u) == 1 ==> r[0] < 0x80
    ensures Width(u) == 2 ==> 0xC0 <= r[0] < 0xE0 && Continuation(r[1])
    ensures Width(u) == 3 ==> 0xE0 <= r[0] < 0xF0 && Continuation(r[1]) && Continuation(r[2])
  {
    if u < 0x80 then [u as byte]
    else if u < 0x800 then [(0xC0 + u / 64) as byte, (0x80 + u % 64) as byte]
    else [(0xE0 + u / 4096) as byte, (0x80 + (u / 64) % 64) as byte, (0x80 + u % 64) as byte]
  }

  /** The UTF-8 text for a sequence of units: their forms one after another. */
  function Encode(us: seq<int>): seq<byte>
    requires ValidUnits(us)
  {
    if us == [] then [] else EncodeUnit(us[0]) + Encode(us[1..])
  }

  function SumWidths(us: seq<int>): nat
  {
    if us == [] then 0 else Width(us[0]) + SumWidths(us[1..])
  }

  /** The output length is the sum of the unit widths, not the input length. */
  lemma {:induction false} EncodeLength(us: seq<int>)
    requires ValidUnits(us)
    ensures |Encode(us)| == SumWidths(us)
    ensures |us| <= SumWidths(us) <= 3 * |us|
    ensures SumWidths(us) == |us| <==> forall k :: 0 <= k < |us| ==> us[k] < 0x80
  {
    if us != [] {
      EncodeLength(us[1..]);
      assert forall k :: 1 <= k < |us| ==> us[1..][k - 1] == us[k];
    }
  }

  lemma {:induction false} EncodeAppend(a: seq<int>, b: seq<int>)
    requires ValidUnits(a) && ValidUnits(b)
    ensures ValidUnits(a + b)
    ensures Encode(a + b) == Encode(a) + Encode(b)
  {
    if a == [] {
      assert a + b == b;
    } else {
      assert (a + b)[0] == a[0] && (a + b)[1..] == a[1..] + b;
      EncodeAppend(a[1..], b);
    }
  }

  /** A reference reader for the one-, two- and three-byte forms of UTF-8;
      it stops at the first byte that begins none of them. */
  function Decode(bs: seq<byte>): seq<int>
    decreases |bs|
  {
    if bs == [] then []
    else if bs[0] < 0x80 then [bs[0] as int] + Decode(bs[1..])
    else if 0xC0 <= bs[0] < 0xE0 && |bs| >= 2 then
      [(bs[0] as int - 0xC0) * 64 + (bs[1] as int - 0x80)] + Decode(bs[2..])
    else if 0xE0 <= bs[0] < 0xF0 && |bs| >= 3 then
      [(bs[0] as int - 0xE0) * 4096 + (bs[1] as int - 0x80) * 64 + (bs[2] as int - 0x80)] + Decode(bs[3..])
    else []
  }

  lemma DecodeUnit(u: int, rest: seq<byte>)
    requires 0 <= u < 0x10000
    ensures Decode(EncodeUnit(u) + rest) == [u] + Decode(rest)
  {
    var e := EncodeUnit(u);
    var s := e + rest;
    if u < 0x80 {
      assert s[1..] == rest;
    } else if u < 0x800 {
      assert s[2..] == rest;
      assert (s[0] as int - 0xC0) * 64 + (s[1] as int - 0x80) == u;
    } else {
      assert s[3..] == rest;
      assert u / 64 == 64 * (u / 4096) + (u / 64) % 64;
      assert (s[0] as int - 0xE0) * 4096 + (s[1] as int - 0x80) * 64 + (s[2] as int - 0x80) == u;
    }
  }

  /** Reading the transcoder's output back gives every unit unchanged, for
      all 16-bit units: the encoding loses nothing. */
  lemma {:induction false} DecodeEncode(us: seq<int>)
    requires ValidUnits(us)
    ensures Decode(Encode(us)) == us
  {
    if us != [] {
      DecodeUnit(us[0], Encode(us[1..]));
      DecodeEncode(us[1..]);
      assert us == [us[0]] + us[1..];
    }
  }

  /** Encoding one more unit appends its form. */
  lemma EncodePrefixStep(us: seq<int>, k: nat)
    requires ValidUnits(us) && k < |us|
    ensures Encode(us[..k + 1]) == Encode(us[..k]) + EncodeUnit(us[k])
  {
    assert us[..k + 1] == us[..k] + [us[k]];
    EncodeAppend(us[..k], [us[k]]);
  }

  /** One unit's share of the second pass: its one, two or three bytes
      written at pos. */
  method WriteUnit(out: array<byte>, pos: nat, codepoint: int) returns (next: nat)
    requires 0 <= codepoint < 0x10000 && pos + Width(codepoint) <= out.Length
    modifies out
    ensures next == pos + Width(codepoint)
    ensures out[..next] == old(out[..pos]) + EncodeUnit(codepoint)
  {
    if codepoint < 0x80 {
      out[pos] := codepoint as byte;
      next := pos + 1;
    } else if codepoint < 0x800 {
      out[pos] := (0xC0 + codepoint / 64) as byte;
      out[pos + 1] := (0x80 + codepoint % 64) as byte;
      next := pos + 2;
    } else {
      out[pos] := (0xE0 + codepoint / 4096) as byte;
      out[pos + 1] := (0x80 + (codepoint / 64) % 64) as byte;
      out[pos + 2] := (0x80 + codepoint % 64) as byte;
      next := pos + 3;
    }
  }

  /** The unit the transcoder reads at byte offset 2k is unit k, a 16-bit
      value. */
  lemma UnitsAt(buf: seq<byte>, k: nat)
    requires k < |Units(buf)|
    ensures Units(buf)[k] == ByteAt(buf, 2 * k + 1) as int * 256 + ByteAt(buf, 2 * k) as int
    ensures ValidUnits(Units(buf))
  {
  }

  /** The first pass of utf16le_to_utf8: the number of UTF-8 bytes needed. */
  method Utf8Length(buf: seq<byte>) returns (utf8Len: nat)
    ensures utf8Len == |Encode(Units(buf))|
  {
    ghost var us := Units(buf);
    ghost var k := 0;
    utf8Len := 0;
    var i := 0;
    while i < |buf|
      invariant i == 2 * k && k <= |us|
      invariant utf8Len == |Encode(us[..k])|
    {
      var low := ByteAt(buf, i);
      var high := ByteAt(buf, i + 1);
      var codepoint := high as int * 256 + low as int;
      UnitsAt(buf, k);
      EncodePrefixStep(us, k);
      if codepoint < 0x80 {
        utf8Len := utf8Len + 1;
      } else if codepoint < 0x800 {
        utf8Len := utf8Len + 2;
      } else {
        utf8Len := utf8Len + 3;
      }
      i := i + 2;
      k := k + 1;
    }
    assert us[..k] == us;
  }

  /** utf16le_to_utf8: a first pass sums the widths to size the buffer, a
      second pass writes each unit's form through an advancing pointer; the
      buffer ends with a NUL. */
  method Utf16LeToUtf8(buf: seq<byte>) returns (out: array<byte>)
    ensures out[..] == Encode(Units(buf)) + [0]
    ensures fresh(out)
  {
    ghost var us := Units(buf);
    var utf8Len := Utf8Length(buf);
    out := new byte[utf8Len + 1];
    var pos := 0;
    ghost var k := 0;
    var i := 0;
    while i < |buf|
      invariant i == 2 * k && k <= |us|
      invariant pos == |Encode(us[..k])| <= utf8Len
      invariant out[..pos] == Encode(us[..k])
    {
      var low := ByteAt(buf, i);
      var high := ByteAt(buf, i + 1);
      var codepoint := high as int * 256 + low as int;
      UnitsAt(buf, k);
      assert codepoint == us[k];
      hide *;
      ghost var written := out[..pos];
      TranscodeStep(us, k, written, codepoint);
      pos := WriteUnit(out, pos, codepoint);
      i := i + 2;
      k := k + 1;
    }
    assert us[..k] == us;
    out[pos] := 0;
    assert out[..] == out[..pos] + [0];
  }

  /** One unit of the second pass: its form extends the text written for
      the units before it, which stays within the whole encoding. */
  lemma TranscodeStep(us: seq<int>, k: nat, written: seq<byte>, u: int)
    requires ValidUnits(us) && k < |us| && written == Encode(us[..k]) && u == us[k]
    ensures 0 <= u < 0x10000
    ensures written + EncodeUnit(u) == Encode(us[..k + 1])
    ensures |written| + Width(u) <= |Encode(us)|
  {
    EncodePrefixStep(us, k);
    EncodeLengthMono(us, k + 1);
  }

  /** The encoding of a prefix is no longer than the whole encoding. */
  lemma EncodeLengthMono(us: seq<int>, k: nat)
    requires ValidUnits(us) && k <= |us|
    ensures |Encode(us[..k])| <= |Encode(us)|
  {
    EncodeAppend(us[..k], us[k..]);
    assert us[..k] + us[k..] == us;
  }

  /** The file starts with the UTF-16LE byte-order mark. */
  predicate HasBom(contents: seq<byte>)
  {
    |contents| >= 2 && contents[0] == 0xFF && contents[1] == 0xFE
  }

  /** read_file (src/main version) for a file holding contents (None: it
      cannot be opened): nothing for an empty file, the transcoding of what
      follows a byte-order mark, the bytes themselves otherwise. */
  function ReadFileSpec(contents: Option<seq<byte>>): Option<seq<byte>>
  {
    match contents
    case None => None
    case Some(c) =>
      if |c| == 0 then None
      else if HasBom(c) then Some(Encode(Units(c[2..])))
      else Some(c)
  }

  /** After a byte-order mark only the bytes that follow it are converted: the
      result reads back as exactly their units, the mark itself is gone, and a
      file without the mark is returned byte for byte. */
  lemma ReadFileBom(c: seq<byte>)
    requires |c| > 0
    ensures ReadFileSpec(Some(c)).Some?
    ensures HasBom(c) ==> Decode(ReadFileSpec(Some(c)).value) == Units(c[2..])
    ensures !HasBom(c) ==> ReadFileSpec(Some(c)).value == c
  {
    if HasBom(c) {
      DecodeEncode(Units(c[2..]));
    }
  }

  /** read_file: the buffer it returns (null when the file cannot be opened
      or is empty), holding the file's text and a terminating NUL. */
  method ReadFile(contents: Option<seq<byte>>) returns (buf: array?<byte>)
    ensures buf == null <==> ReadFileSpec(contents).None?
    ensures buf != null ==> buf[..] == ReadFileSpec(contents).value + [0]
    ensures buf != null ==> fresh(buf)
  {
    if contents.None? || |contents.value| == 0 {
      return null;
    }
    var c := contents.value;
    var raw := new byte[|c| + 1];
    forall k | 0 <= k < |c| {
      raw[k] := c[k];
    }
    raw[|c|] := 0;
    assert raw[..] == c + [0];
    if |c| >= 2 && raw[0] == 0xFF && raw[1] == 0xFE {
      assert raw[2..|c|] == c[2..];
      buf := Utf16LeToUtf8(raw[2..|c|]);
    } else {
      buf := raw;
    }
  }
}
