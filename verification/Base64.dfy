/** URL-safe base64 as Python writes and reads it: the alphabet of RFC 4648,
    section 5, and the decoder that skips what is not in the alphabet. */
module Base64 {
  import opened Bytes
  import opened Results

  function Digit(d: nat): (c: char)
    requires d < 64
    ensures c != '=' && c != '.'
  {
    if d < 26 then 'A' + d as char
    else if d < 52 then 'a' + (d - 26) as char
    else if d < 62 then '0' + (d - 52) as char
    else if d == 62 then '-' else '_'
  }

  // The URL-safe decoder maps its two characters to the standard ones and
  // accepts both.
  function Value(c: char): Option<nat> {
    if 'A' <= c <= 'Z' then Some((c - 'A') as nat)
    else if 'a' <= c <= 'z' then Some((c - 'a') as nat + 26)
    else if '0' <= c <= '9' then Some((c - '0') as nat + 52)
    else if c == '+' || c == '-' then Some(62)
    else if c == '/' || c == '_' then Some(63)
    else None
  }

  lemma ValueOfDigit(d: nat)
    requires d < 64
    ensures Value(Digit(d)) == Some(d)
  {
  }

  // The digits are read in either alphabet, and nothing else is.
  lemma ValueMeaning(c: char)
    ensures forall d :: 0 <= d < 64 && (c == Digit(d) || (d == 62 && c == '+') || (d == 63 && c == '/')) ==> Value(c) == Some(d)
    ensures Value(c).Some? ==> Value(c).value < 64 && (c == Digit(Value(c).value) || c == '+' || c == '/')
  {
  }

  // urlsafe_b64encode(b).rstrip("=")
  function Encode(b: Bytes): string {
    if b == [] then ""
    else if |b| == 1 then [Digit(b[0] / 4), Digit(b[0] % 4 * 16)]
    else if |b| == 2 then [Digit(b[0] / 4), Digit(b[0] % 4 * 16 + b[1] / 16), Digit(b[1] % 16 * 4)]
    else Group(b[..3]) + Encode(b[3..])
  }

  function Group(b: Bytes): string
    requires |b| == 3
  {
    [Digit(b[0] / 4), Digit(b[0] % 4 * 16 + b[1] / 16), Digit(b[1] % 16 * 4 + b[2] / 64), Digit(b[2] % 64)]
  }

  // The alphabet of RFC 4648, section 5, in order.
  const UPPER: string := "ABCDEFGHIJKLMNOPQRSTUVWXYZ"
  const LOWER: string := "abcdefghijklmnopqrstuvwxyz"
  const FIGURES: string := "0123456789"
  const ALPHABET: string := UPPER + LOWER + FIGURES + "-_"

  lemma UpperCodes(d: nat)
    requires d < 26
    ensures UPPER[d] as int == 'A' as int + d
  {
  }

  lemma LowerCodes(d: nat)
    requires d < 26
    ensures LOWER[d] as int == 'a' as int + d
  {
  }

  lemma FigureCodes(d: nat)
    requires d < 10
    ensures FIGURES[d] as int == '0' as int + d
  {
  }

  lemma DigitOfAlphabet(d: nat)
    requires d < 64
    ensures |ALPHABET| == 64 && Digit(d) == ALPHABET[d]
  {
    if d < 26 {
      UpperCodes(d);
      assert Digit(d) as int == 'A' as int + d;
    } else if d < 52 {
      LowerCodes(d - 26);
      assert Digit(d) as int == 'a' as int + (d - 26);
    } else if d < 62 {
      FigureCodes(d - 52);
      assert Digit(d) as int == '0' as int + (d - 52);
    }
  }

  // The i-th group of six bits of the byte string, as if zero bits followed.
  function Sextet(b: Bytes, i: nat): (d: nat)
    requires 6 * i < 8 * |b|
    ensures d < 64
  {
    var first, offset := 6 * i / 8, 6 * i % 8;
    var high: nat, low: nat := b[first], if first + 1 < |b| then b[first + 1] else 0;
    (high * 256 + low) / (if offset == 0 then 1024 else if offset == 2 then 256 else if offset == 4 then 64 else 16) % 64
  }

  // The encoding is the text of the groups of six bits, in order, and no more.
  lemma {:induction false} EncodesSextets(b: Bytes)
    ensures |Encode(b)| == (8 * |b| + 5) / 6
    ensures forall i :: 0 <= i < |Encode(b)| ==> 6 * i < 8 * |b| && Encode(b)[i] == Digit(Sextet(b, i)) == ALPHABET[Sextet(b, i)]
    decreases |b|
  {
    hide Digit;
    if |b| >= 3 {
      EncodesSextets(b[3..]);
    }
    forall i | 0 <= i < |Encode(b)| ensures 6 * i < 8 * |b| && Encode(b)[i] == Digit(Sextet(b, i)) == ALPHABET[Sextet(b, i)] {
      if i < 4 {
        FirstSextets(b, i);
      } else {
        LaterSextets(b, i);
      }
      DigitOfAlphabet(Sextet(b, i));
    }
  }

  lemma FirstSextets(b: Bytes, i: nat)
    requires i < 4 && i < |Encode(b)|
    ensures 6 * i < 8 * |b| && Encode(b)[i] == Digit(Sextet(b, i))
  {
    hide Digit, Encode, Sextet;
    EncodeStart(b);
    SextetStart(b, i);
    if i == 0 {
      TopBits(b[0], if 1 < |b| then b[1] else 0);
    } else if i == 1 {
      NextBits(b[0], if 1 < |b| then b[1] else 0);
    } else if i == 2 {
      LaterBits(b[1], if 2 < |b| then b[2] else 0);
    } else {
      LastBits(b[2], if 3 < |b| then b[3] else 0);
    }
  }

  lemma SextetStart(b: Bytes, i: nat)
    requires i < 4 && (if i < 2 then 0 else i - 1) < |b|
    ensures 6 * i < 8 * |b|
    ensures var first := if i < 2 then 0 else i - 1;
            var high: nat, low: nat := b[first], if first + 1 < |b| then b[first + 1] else 0;
            Sextet(b, i) == (high * 256 + low) / (if i == 0 then 1024 else if i == 1 then 16 else if i == 2 then 64 else 256) % 64
  {
  }

  // The first digits, with zero for the bytes that are not there.
  lemma EncodeStart(b: Bytes)
    ensures b == [] ==> Encode(b) == ""
    ensures b != [] ==>
              var y, z := if 1 < |b| then b[1] else 0, if 2 < |b| then b[2] else 0;
              && |Encode(b)| > |b| && (|b| < 3 ==> |Encode(b)| == |b| + 1)
              && Encode(b)[0] == Digit(b[0] / 4) && Encode(b)[1] == Digit(b[0] % 4 * 16 + y / 16)
              && (|b| > 1 ==> Encode(b)[2] == Digit(y % 16 * 4 + z / 64))
              && (|b| > 2 ==> Encode(b)[3] == Digit(z % 64))
  {
    hide Digit;
    if |b| >= 3 {
      EncodeLonger(b[3..]);
    }
  }

  lemma {:induction false} EncodeLonger(b: Bytes)
    ensures |Encode(b)| >= |b| && (b != [] ==> |Encode(b)| > |b|)
  {
    hide Digit;
    if |b| >= 3 {
      EncodeLonger(b[3..]);
    }
  }

  lemma TopBits(x: Byte, y: Byte)
    ensures (x * 256 + y) / 1024 % 64 == x / 4
  {
    assert (x * 256 + y) / 1024 == x / 4;
  }

  lemma NextBits(x: Byte, y: Byte)
    ensures (x * 256 + y) / 16 % 64 == x % 4 * 16 + y / 16
  {
    assert (x * 256 + y) / 16 == x / 4 * 64 + (x % 4 * 16 + y / 16);
  }

  lemma LaterBits(x: Byte, y: Byte)
    ensures (x * 256 + y) / 64 % 64 == x % 16 * 4 + y / 64
  {
    assert (x * 256 + y) / 64 == x / 16 * 64 + (x % 16 * 4 + y / 64);
  }

  lemma LastBits(x: Byte, y: Byte)
    ensures (x * 256 + y) / 256 % 64 == x % 64
  {
    assert (x * 256 + y) / 256 == x;
  }

  lemma LaterSextets(b: Bytes, i: nat)
    requires |b| >= 3 && 4 <= i && 6 * (i - 4) < 8 * |b[3..]|
    ensures 6 * i < 8 * |b| && Sextet(b, i) == Sextet(b[3..], i - 4)
  {
    assert 6 * i == 6 * (i - 4) + 24;
    assert 6 * i / 8 == 6 * (i - 4) / 8 + 3;
  }

  lemma {:induction false} EncodeHasNoDot(b: Bytes)
    ensures forall i :: 0 <= i < |Encode(b)| ==> Encode(b)[i] != '.' && Encode(b)[i] != '='
  {
    if |b| >= 3 {
      EncodeHasNoDot(b[3..]);
    }
  }

  // "=" * (-len(s) % 4)
  function Padding(length: nat): (s: string)
    ensures (length + |s|) % 4 == 0 && |s| < 4
  {
    if length % 4 == 0 then "" else if length % 4 == 1 then "===" else if length % 4 == 2 then "==" else "="
  }

  // The decoder after some characters: its place in the group of four, the
  // bits left over, and the padding seen; None when the text ends inside a
  // group.  Enough padding ends the text.
  function DecodeFrom(s: string, place: nat, left: nat, pads: nat): Option<Bytes>
    requires place < 4 && left < 64
    requires place == 2 ==> left < 16
    requires place == 3 ==> left < 4
  {
    if s == "" then if place == 0 then Some([]) else None
    else if s[0] == '=' then
      if place >= 2 && place + pads + 1 >= 4 then Some([])
      else DecodeFrom(s[1..], place, left, if place >= 2 then pads + 1 else pads)
    else match Value(s[0])
      case None => DecodeFrom(s[1..], place, left, pads)
      case Some(v) =>
        match place
        case 0 => DecodeFrom(s[1..], 1, v, 0)
        case 1 => Prepend(left * 4 + v / 16, DecodeFrom(s[1..], 2, v % 16, 0))
        case 2 => Prepend(left * 16 + v / 4, DecodeFrom(s[1..], 3, v % 4, 0))
        case _ => Prepend(left * 64 + v, DecodeFrom(s[1..], 0, 0, 0))
  }

  function Prepend(b: Byte, rest: Option<Bytes>): Option<Bytes> {
    match rest
    case None => None
    case Some(bytes) => Some([b] + bytes)
  }

  // urlsafe_b64decode of a text without its padding; text outside ASCII is
  // refused.
  function Decode(s: string): Option<Bytes> {
    if exists i :: 0 <= i < |s| && s[i] as int >= 128 then None
    else DecodeFrom(s + Padding(|s|), 0, 0, 0)
  }

  lemma DecodeDigit(v: nat, rest: string, place: nat, left: nat)
    requires v < 64 && place < 4 && left < 64
    requires place == 2 ==> left < 16
    requires place == 3 ==> left < 4
    ensures DecodeFrom([Digit(v)] + rest, place, left, 0)
         == match place
            case 0 => DecodeFrom(rest, 1, v, 0)
            case 1 => Prepend(left * 4 + v / 16, DecodeFrom(rest, 2, v % 16, 0))
            case 2 => Prepend(left * 16 + v / 4, DecodeFrom(rest, 3, v % 4, 0))
            case _ => Prepend(left * 64 + v, DecodeFrom(rest, 0, 0, 0))
  {
    ValueOfDigit(v);
    hide Value, Digit;
    assert ([Digit(v)] + rest)[1..] == rest;
  }

  // A character of no alphabet is skipped wherever it stands.
  lemma {:induction false} SkipsForeign(a: string, x: char, b: string, place: nat, left: nat, pads: nat)
    requires place < 4 && left < 64 && (place == 2 ==> left < 16) && (place == 3 ==> left < 4)
    requires Value(x).None? && x != '='
    ensures DecodeFrom(a + [x] + b, place, left, pads) == DecodeFrom(a + b, place, left, pads)
    decreases |a|
  {
    if a == "" {
      assert (a + [x] + b)[1..] == b && a + b == b;
    } else {
      hide Value;
      var s, t := a + [x] + b, a + b;
      assert s[0] == t[0] == a[0];
      assert s[1..] == a[1..] + [x] + b && t[1..] == a[1..] + b;
      if a[0] == '=' {
        SkipsForeign(a[1..], x, b, place, left, if place >= 2 then pads + 1 else pads);
      } else {
        match Value(a[0])
        case None => SkipsForeign(a[1..], x, b, place, left, pads);
        case Some(v) =>
          ValueMeaning(a[0]);
          match place
          case 0 => SkipsForeign(a[1..], x, b, 1, v, 0);
          case 1 => SkipsForeign(a[1..], x, b, 2, v % 16, 0);
          case 2 => SkipsForeign(a[1..], x, b, 3, v % 4, 0);
          case _ => SkipsForeign(a[1..], x, b, 0, 0, 0);
      }
    }
  }

  // Two digits need two signs of padding and three need one, and text outside
  // ASCII is refused.
  lemma PaddingMustBeWhole(u: nat, v: nat)
    requires u < 64 && v < 64
    ensures DecodeFrom([Digit(u), Digit(v)] + "==", 0, 0, 0).Some? && DecodeFrom([Digit(u), Digit(v)] + "=", 0, 0, 0) == None
    ensures DecodeFrom([Digit(u), Digit(v)], 0, 0, 0) == None
  {
    hide DecodeFrom, Digit;
    var second := [Digit(v)];
    forall tail: string ensures DecodeFrom([Digit(u), Digit(v)] + tail, 0, 0, 0)
        == Prepend(u * 4 + v / 16, DecodeFrom(tail, 2, v % 16, 0))
    {
      assert [Digit(u), Digit(v)] + tail == [Digit(u)] + (second + tail);
      DecodeDigit(u, second + tail, 0, 0);
      DecodeDigit(v, tail, 1, u);
    }
    assert [Digit(u), Digit(v)] + "" == [Digit(u), Digit(v)];
    PaddingAlone(v % 16);
  }

  lemma PaddingAlone(left: nat)
    requires left < 16
    ensures DecodeFrom("==", 2, left, 0).Some? && DecodeFrom("=", 2, left, 0) == None && DecodeFrom("", 2, left, 0) == None
  {
    assert "=="[1..] == "=" && "="[1..] == "";
  }

  lemma OutsideAsciiRefused(s: string, i: nat)
    requires i < |s| && s[i] as int >= 128
    ensures Decode(s) == None
  {
  }

  lemma DecodePadding(place: nat, left: nat)
    requires (place == 2 && left < 16) || (place == 3 && left < 4)
    ensures DecodeFrom(Padding(place), place, left, 0) == Some([])
  {
    if place == 2 {
      var s := Padding(place);
      assert s == "==" && s[1..] == "=";
    }
  }

  lemma DecodeGroup(b: Bytes, rest: string)
    requires |b| == 3
    ensures DecodeFrom(Group(b) + rest, 0, 0, 0)
         == match DecodeFrom(rest, 0, 0, 0) case None => None case Some(more) => Some(b + more)
  {
    hide DecodeFrom, Digit;
    var d0, d1, d2, d3 := b[0] / 4, b[0] % 4 * 16 + b[1] / 16, b[1] % 16 * 4 + b[2] / 64, b[2] % 64;
    var s3 := [Digit(d3)] + rest;
    var s2 := [Digit(d2)] + s3;
    var s1 := [Digit(d1)] + s2;
    assert Group(b) + rest == [Digit(d0)] + s1;
    DecodeDigit(d0, s1, 0, 0);
    DecodeDigit(d1, s2, 1, d0);
    DecodeDigit(d2, s3, 2, b[1] / 16);
    DecodeDigit(d3, rest, 3, b[2] / 64);
    if DecodeFrom(rest, 0, 0, 0).Some? {
      var more := DecodeFrom(rest, 0, 0, 0).value;
      assert [b[0]] + ([b[1]] + ([b[2]] + more)) == b + more;
    }
  }

  lemma DecodeTail(b: Bytes)
    requires |b| < 3
    ensures DecodeFrom(Encode(b) + Padding(|Encode(b)|), 0, 0, 0) == Some(b)
  {
    hide DecodeFrom, Digit;
    if |b| == 0 {
      DecodeNothing();
    } else if |b| == 1 {
      DecodeOne(b[0]);
      assert b == [b[0]];
    } else {
      DecodeTwo(b[0], b[1]);
      assert b == [b[0], b[1]];
    }
  }

  lemma DecodeOne(x: Byte)
    ensures DecodeFrom([Digit(x / 4), Digit(x % 4 * 16)] + Padding(2), 0, 0, 0) == Some([x])
  {
    hide DecodeFrom, Digit;
    var d0, d1 := x / 4, x % 4 * 16;
    var s1 := [Digit(d1)] + Padding(2);
    assert [Digit(d0), Digit(d1)] + Padding(2) == [Digit(d0)] + s1;
    DecodeDigit(d0, s1, 0, 0);
    DecodeDigit(d1, Padding(2), 1, d0);
    DecodePadding(2, d1 % 16);
    assert d0 * 4 + d1 / 16 == x;
    assert [x] + [] == [x];
  }

  lemma DecodeTwo(x: Byte, y: Byte)
    ensures DecodeFrom([Digit(x / 4), Digit(x % 4 * 16 + y / 16), Digit(y % 16 * 4)] + Padding(3), 0, 0, 0) == Some([x, y])
  {
    hide DecodeFrom, Digit;
    var d0, d1, d2 := x / 4, x % 4 * 16 + y / 16, y % 16 * 4;
    var s2 := [Digit(d2)] + Padding(3);
    var s1 := [Digit(d1)] + s2;
    assert [Digit(d0), Digit(d1), Digit(d2)] + Padding(3) == [Digit(d0)] + s1;
    DecodeDigit(d0, s1, 0, 0);
    DecodeDigit(d1, s2, 1, d0);
    DecodeDigit(d2, Padding(3), 2, d1 % 16);
    DecodePadding(3, d2 % 4);
    assert d0 * 4 + d1 / 16 == x;
    assert d1 % 16 * 16 + d2 / 4 == y;
    assert [y] + [] == [y] && [x] + [y] == [x, y];
  }

  lemma DecodeNothing()
    ensures DecodeFrom("" + Padding(0), 0, 0, 0) == Some([])
  {
  }

  lemma {:induction false} DecodeOfEncode(b: Bytes)
    ensures DecodeFrom(Encode(b) + Padding(|Encode(b)|), 0, 0, 0) == Some(b)
  {
    if |b| < 3 {
      DecodeTail(b);
    } else {
      hide DecodeFrom, Group;
      DecodeOfEncode(b[3..]);
      var rest := Encode(b[3..]);
      GroupSize(b[..3]);
      DecodeGroup(b[..3], rest + Padding(|rest|));
      EncodeUnfold(b);
      assert b == b[..3] + b[3..];
    }
  }

  lemma EncodeUnfold(b: Bytes)
    requires |b| >= 3
    ensures var rest := Encode(b[3..]);
            Encode(b) + Padding(|Encode(b)|) == Group(b[..3]) + (rest + Padding(|rest|))
  {
    GroupSize(b[..3]);
    hide Group;
    var rest := Encode(b[3..]);
    assert Encode(b) == Group(b[..3]) + rest;
    hide Encode;
    PaddingRepeats(|rest|);
    Regroup(Group(b[..3]), rest, Padding(|rest|));
  }

  lemma PaddingRepeats(length: nat)
    ensures Padding(length + 4) == Padding(length)
  {
  }

  lemma DecodeInvertsEncode(b: Bytes)
    ensures Decode(Encode(b)) == Some(b)
  {
    hide DecodeFrom, Encode;
    DecodeOfEncode(b);
    EncodeIsAscii(b);
  }

  lemma GroupSize(b: Bytes)
    requires |b| == 3
    ensures |Group(b)| == 4
  {
  }

  lemma {:induction false} EncodeIsAscii(b: Bytes)
    ensures forall i :: 0 <= i < |Encode(b)| ==> (Encode(b)[i] as int) < 128
  {
    if |b| >= 3 {
      EncodeIsAscii(b[3..]);
    }
  }
}
