/** Base64 as the source uses it through Python's `base64.b64encode` and
    `base64.b64decode`: the standard alphabet of RFC 4648 (section 4, table 1)
    with `=` padding (section 3.2). The decoder is the non-validating one that
    `b64decode` uses by default: characters outside the alphabet are skipped,
    decoding stops at the first complete padding sequence, and a final group
    of one character, or two or three characters without padding, is an error. */
module Base64 {
  import opened Common

  /** The character standing for a 6-bit value. */
  function AlphabetChar(v: int): (c: char)
    requires 0 <= v < 64
  {
    if v < 26 then ('A' as int + v) as char
    else if v < 52 then ('a' as int + (v - 26)) as char
    else if v < 62 then ('0' as int + (v - 52)) as char
    else if v == 62 then '+'
    else '/'
  }

  /** The 6-bit value of an alphabet character; None for every other character
      (including '=' and all non-ASCII characters). */
  function SextetOf(c: char): (r: Option<int>)
    ensures r.Some? ==> 0 <= r.value < 64 && AlphabetChar(r.value) == c
  {
    if 'A' <= c <= 'Z' then Some(c as int - 'A' as int)
    else if 'a' <= c <= 'z' then Some(c as int - 'a' as int + 26)
    else if '0' <= c <= '9' then Some(c as int - '0' as int + 52)
    else if c == '+' then Some(62)
    else if c == '/' then Some(63)
    else None
  }

  lemma SextetOfAlphabetChar(v: int)
    requires 0 <= v < 64
    ensures SextetOf(AlphabetChar(v)) == Some(v)
  {
  }

  predicate InAlphabet(c: char) { SextetOf(c).Some? }

  /** Number of '=' characters that end the encoding of n bytes. */
  function PadCount(n: nat): nat
  {
    if n % 3 == 0 then 0 else 3 - n % 3
  }

  /** Three bytes become four characters. */
  function Quad(b0: byte, b1: byte, b2: byte): (r: string)
    ensures |r| == 4 && Shape(r, 0)
  {
    SextetOfAlphabetChar(b0 / 4);
    SextetOfAlphabetChar((b0 % 4) * 16 + b1 / 16);
    SextetOfAlphabetChar((b1 % 16) * 4 + b2 / 64);
    SextetOfAlphabetChar(b2 % 64);
    [AlphabetChar(b0 / 4), AlphabetChar((b0 % 4) * 16 + b1 / 16),
     AlphabetChar((b1 % 16) * 4 + b2 / 64), AlphabetChar(b2 % 64)]
  }

  /** The shape of an encoding that ends in `pads` padding characters:
      alphabet characters, then exactly `pads` '='. */
  predicate Shape(r: string, pads: nat)
  {
    pads <= |r| &&
    (forall i :: 0 <= i < |r| - pads ==> InAlphabet(r[i])) &&
    (forall i :: |r| - pads <= i < |r| ==> r[i] == '=')
  }

  lemma ShapeConcat(q: string, rest: string, pads: nat)
    requires Shape(q, 0) && Shape(rest, pads)
    ensures Shape(q + rest, pads)
  {
    var r := q + rest;
    forall i | 0 <= i < |r| - pads ensures InAlphabet(r[i]) {
      if i >= |q| { assert r[i] == rest[i - |q|]; }
    }
    forall i | |r| - pads <= i < |r| ensures r[i] == '=' {
      assert r[i] == rest[i - |q|];
    }
  }

  /** The last group when two bytes remain: three characters and one '='. */
  function Tail2(b0: byte, b1: byte): (r: string)
    ensures |r| == 4 && Shape(r, 1)
  {
    SextetOfAlphabetChar(b0 / 4);
    SextetOfAlphabetChar((b0 % 4) * 16 + b1 / 16);
    SextetOfAlphabetChar((b1 % 16) * 4);
    [AlphabetChar(b0 / 4), AlphabetChar((b0 % 4) * 16 + b1 / 16), AlphabetChar((b1 % 16) * 4), '=']
  }

  /** The last group when one byte remains: two characters and two '='. */
  function Tail1(b0: byte): (r: string)
    ensures |r| == 4 && Shape(r, 2)
  {
    SextetOfAlphabetChar(b0 / 4);
    SextetOfAlphabetChar((b0 % 4) * 16);
    [AlphabetChar(b0 / 4), AlphabetChar((b0 % 4) * 16), '=', '=']
  }

  /** `base64.b64encode`: every group of three bytes gives four characters;
      a final group of two or one bytes gives three or two characters followed
      by one or two '='. */
  function Encode(bs: seq<byte>): (r: string)
    ensures |r| == (|bs| + 2) / 3 * 4
    ensures Shape(r, PadCount(|bs|))
  {
    if |bs| >= 3 then
      var q, rest := Quad(bs[0], bs[1], bs[2]), Encode(bs[3..]);
      assert PadCount(|bs| - 3) == PadCount(|bs|);
      GroupStep(|bs|);
      ShapeConcat(q, rest, PadCount(|bs|));
      q + rest
    else if |bs| == 2 then Tail2(bs[0], bs[1])
    else if |bs| == 1 then Tail1(bs[0])
    else []
  }

  lemma GroupStep(n: nat)
    requires n >= 3
    ensures 4 + (n - 3 + 2) / 3 * 4 == (n + 2) / 3 * 4
  {
    assert (n + 2) / 3 == (n - 1) / 3 + 1;
  }

  /** An encoding is whole groups of four characters, each from the
      alphabet or padding. */
  lemma EncodeText(bs: seq<byte>)
    ensures |Encode(bs)| % 4 == 0
    ensures forall i :: 0 <= i < |Encode(bs)| ==> InAlphabet(Encode(bs)[i]) || Encode(bs)[i] == '='
  {
    var r := Encode(bs);
    WholeGroups((|bs| + 2) / 3);
    ShapeText(r, PadCount(|bs|));
  }

  lemma WholeGroups(groups: nat)
    ensures (groups * 4) % 4 == 0
  {
  }

  lemma ShapeText(r: string, pads: nat)
    requires Shape(r, pads)
    ensures forall i :: 0 <= i < |r| ==> InAlphabet(r[i]) || r[i] == '='
  {
  }

  /** Which bits of a pending character are still owed to the output:
      after 1, 2, 3 characters of a group, 6, 4, 2 bits. */
  predicate PendingBits(quad: int, left: int)
  {
    (quad == 0 && left == 0) || (quad == 1 && 0 <= left < 64) ||
    (quad == 2 && 0 <= left < 16) || (quad == 3 && 0 <= left < 4)
  }

  /** The decoder as a scan over the characters: `quad` is the position in the
      current group, `left` the bits carried from the previous character,
      `pads` the '=' seen since the last alphabet character, `acc` the bytes
      produced so far. */
  function DecodeFrom(s: string, quad: int, left: int, pads: nat, acc: seq<byte>): Option<seq<byte>>
    requires PendingBits(quad, left)
    decreases |s|
  {
    if s == [] then
      if quad == 0 then Some(acc) else None
    else if s[0] == '=' then
      if quad >= 2 && quad + pads + 1 >= 4 then Some(acc)
      else DecodeFrom(s[1..], quad, left, if quad >= 2 then pads + 1 else pads, acc)
    else match SextetOf(s[0])
      case None => DecodeFrom(s[1..], quad, left, pads, acc)
      case Some(v) =>
        if quad == 0 then DecodeFrom(s[1..], 1, v, 0, acc)
        else if quad == 1 then DecodeFrom(s[1..], 2, v % 16, 0, acc + [left * 4 + v / 16])
        else if quad == 2 then DecodeFrom(s[1..], 3, v % 4, 0, acc + [left * 16 + v / 4])
        else DecodeFrom(s[1..], 0, 0, 0, acc + [left * 64 + v])
  }

  /** `base64.b64decode`: None where Python raises `binascii.Error`. */
  function Decode(s: string): Option<seq<byte>>
  {
    DecodeFrom(s, 0, 0, 0, [])
  }

  lemma DivMod16(x: int, y: int)
    requires 0 <= y < 16
    ensures (x * 16 + y) / 16 == x && (x * 16 + y) % 16 == y
  {
  }

  lemma DivMod4(x: int, y: int)
    requires 0 <= y < 4
    ensures (x * 4 + y) / 4 == x && (x * 4 + y) % 4 == y
  {
  }

  /** Reading back the four characters of one group restores its three bytes. */
  lemma QuadBytes(b0: byte, b1: byte, b2: byte)
    ensures var c0, c1, c2, c3 := b0 / 4, (b0 % 4) * 16 + b1 / 16, (b1 % 16) * 4 + b2 / 64, b2 % 64;
      c0 * 4 + c1 / 16 == b0 && (c1 % 16) * 16 + c2 / 4 == b1 && (c2 % 4) * 64 + c3 == b2
  {
    DivMod16(b0 % 4, b1 / 16);
    DivMod4(b1 % 16, b2 / 64);
  }

  /** One alphabet character fed to the scan. */
  lemma StepData(s: string, quad: int, left: int, pads: nat, acc: seq<byte>, v: int)
    requires s != [] && SextetOf(s[0]) == Some(v) && PendingBits(quad, left)
    ensures DecodeFrom(s, quad, left, pads, acc) ==
      if quad == 0 then DecodeFrom(s[1..], 1, v, 0, acc)
      else if quad == 1 then DecodeFrom(s[1..], 2, v % 16, 0, acc + [left * 4 + v / 16])
      else if quad == 2 then DecodeFrom(s[1..], 3, v % 4, 0, acc + [left * 16 + v / 4])
      else DecodeFrom(s[1..], 0, 0, 0, acc + [left * 64 + v])
  {
  }

  lemma {:induction false} DecodeQuad(b0: byte, b1: byte, b2: byte, rest: string, acc: seq<byte>)
    ensures DecodeFrom(Quad(b0, b1, b2) + rest, 0, 0, 0, acc) == DecodeFrom(rest, 0, 0, 0, acc + [b0, b1, b2])
  {
    var c0, c1, c2, c3 := b0 / 4, (b0 % 4) * 16 + b1 / 16, (b1 % 16) * 4 + b2 / 64, b2 % 64;
    QuadBytes(b0, b1, b2);
    SextetOfAlphabetChar(c0);
    SextetOfAlphabetChar(c1);
    SextetOfAlphabetChar(c2);
    SextetOfAlphabetChar(c3);
    var s0 := Quad(b0, b1, b2) + rest;
    var s1, s2, s3 := s0[1..], s0[2..], s0[3..];
    assert s0[0] == AlphabetChar(c0) && s1[0] == AlphabetChar(c1);
    assert s2[0] == AlphabetChar(c2) && s3[0] == AlphabetChar(c3);
    assert s1 == s0[1..] && s2 == s1[1..] && s3 == s2[1..] && rest == s3[1..];
    StepData(s0, 0, 0, 0, acc, c0);
    StepData(s1, 1, c0, 0, acc, c1);
    StepData(s2, 2, c1 % 16, 0, acc + [b0], c2);
    StepData(s3, 3, c2 % 4, 0, acc + [b0] + [b1], c3);
    assert acc + [b0] + [b1] + [b2] == acc + [b0, b1, b2];
  }

  lemma {:induction false} DecodeTail2(b0: byte, b1: byte, acc: seq<byte>)
    ensures DecodeFrom(Tail2(b0, b1), 0, 0, 0, acc) == Some(acc + [b0, b1])
  {
    var c0, c1, c2 := b0 / 4, (b0 % 4) * 16 + b1 / 16, (b1 % 16) * 4;
    QuadBytes(b0, b1, 0);
    SextetOfAlphabetChar(c0);
    SextetOfAlphabetChar(c1);
    SextetOfAlphabetChar(c2);
    var e := Tail2(b0, b1);
    StepData(e, 0, 0, 0, acc, c0);
    StepData(e[1..], 1, c0, 0, acc, c1);
    StepData(e[1..][1..], 2, c1 % 16, 0, acc + [b0], c2);
    assert e[1..][1..][1..] == ['='];
    assert acc + [b0] + [b1] == acc + [b0, b1];
  }

  lemma {:induction false} DecodeTail1(b0: byte, acc: seq<byte>)
    ensures DecodeFrom(Tail1(b0), 0, 0, 0, acc) == Some(acc + [b0])
  {
    var c0, c1 := b0 / 4, (b0 % 4) * 16;
    QuadBytes(b0, 0, 0);
    SextetOfAlphabetChar(c0);
    SextetOfAlphabetChar(c1);
    var e := Tail1(b0);
    StepData(e, 0, 0, 0, acc, c0);
    StepData(e[1..], 1, c0, 0, acc, c1);
    assert e[1..][1..] == ['=', '='];
    assert e[1..][1..][1..] == ['='];
  }

  /** Decoding undoes encoding, for every byte string, after any prefix. */
  lemma {:induction false} DecodeEncodeFrom(bs: seq<byte>, acc: seq<byte>)
    ensures DecodeFrom(Encode(bs), 0, 0, 0, acc) == Some(acc + bs)
    decreases |bs|
  {
    if |bs| >= 3 {
      DecodeQuad(bs[0], bs[1], bs[2], Encode(bs[3..]), acc);
      DecodeEncodeFrom(bs[3..], acc + [bs[0], bs[1], bs[2]]);
      assert acc + [bs[0], bs[1], bs[2]] + bs[3..] == acc + bs;
    } else if |bs| == 2 {
      DecodeTail2(bs[0], bs[1], acc);
      assert [bs[0], bs[1]] == bs;
    } else if |bs| == 1 {
      DecodeTail1(bs[0], acc);
      assert [bs[0]] == bs;
    } else {
      assert acc + bs == acc;
    }
  }

  /** RFC 4648 round trip: `b64decode(b64encode(b)) == b`. */
  lemma DecodeEncode(bs: seq<byte>)
    ensures Decode(Encode(bs)) == Some(bs)
  {
    DecodeEncodeFrom(bs, []);
    assert [] + bs == bs;
  }

  /** A text whose alphabet characters are one more than a multiple of four,
      with no padding at all, is rejected (Python raises "Invalid base64-encoded
      string"). */
  lemma {:induction false} LoneCharacterRejected(c: char)
    requires InAlphabet(c)
    ensures Decode([c]) == None
  {
    var v := SextetOf(c).value;
    StepData([c], 0, 0, 0, [], v);
    assert [c][1..] == [];
  }
}
