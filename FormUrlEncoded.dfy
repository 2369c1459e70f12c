/**
 * The application/x-www-form-urlencoded format of the WHATWG URL Standard, which `URLSearchParams`
 * uses to print its entries: the serializer, the parser's byte stage, and the round trip between them.
 */
module FormUrlEncoded {
  import opened Sequences

  newtype byte = x: int | 0 <= x < 256

  /** The UTF-8 encoding of one Unicode scalar value. */
  function Utf8Char(c: char): (bs: seq<byte>)
    ensures 1 <= |bs| <= 4
    ensures c as int < 0x80 <==> |bs| == 1
    ensures c as int < 0x80 ==> bs == [c as int as byte]
    ensures |bs| > 1 ==> 0xC0 <= bs[0]
    ensures forall i :: 1 <= i < |bs| ==> 0x80 <= bs[i] < 0xC0
  {
    var n := c as int;
    if n < 0x80 then [n as byte]
    else if n < 0x800 then [(0xC0 + n / 64) as byte, (0x80 + n % 64) as byte]
    else if n < 0x10000 then
      [(0xE0 + n / 4096) as byte, (0x80 + (n / 64) % 64) as byte, (0x80 + n % 64) as byte]
    else
      [(0xF0 + n / 262144) as byte, (0x80 + (n / 4096) % 64) as byte,
       (0x80 + (n / 64) % 64) as byte, (0x80 + n % 64) as byte]
  }

  /** The scalar value a well-formed UTF-8 sequence of one to four bytes stands for. */
  function CodePoint(bs: seq<byte>): int
    requires 1 <= |bs| <= 4
  {
    if |bs| == 1 then bs[0] as int
    else if |bs| == 2 then (bs[0] as int - 0xC0) * 64 + (bs[1] as int - 0x80)
    else if |bs| == 3 then
      (bs[0] as int - 0xE0) * 4096 + (bs[1] as int - 0x80) * 64 + (bs[2] as int - 0x80)
    else
      (bs[0] as int - 0xF0) * 262144 + (bs[1] as int - 0x80) * 4096
        + (bs[2] as int - 0x80) * 64 + (bs[3] as int - 0x80)
  }

  /** Decoding the bytes of a character gives the character back. */
  lemma Utf8CharDecodes(c: char)
    ensures CodePoint(Utf8Char(c)) == c as int
  {
    var n := c as int;
    var a, r0 := n / 64, n % 64;
    var b, r1 := a / 64, a % 64;
    var d, r2 := b / 64, b % 64;
    assert n == a * 64 + r0;
    assert a == b * 64 + r1;
    assert b == d * 64 + r2;
    if n < 0x800 {
    } else if n < 0x10000 {
      assert n / 4096 == b;
    } else {
      assert n / 4096 == b;
      assert n / 262144 == d;
    }
  }

  function Utf8Encode(s: string): (bs: seq<byte>)
  {
    if |s| == 0 then [] else Utf8Char(s[0]) + Utf8Encode(s[1..])
  }

  lemma {:induction false} Utf8Append(a: string, b: string)
    ensures Utf8Encode(a + b) == Utf8Encode(a) + Utf8Encode(b)
  {
    if |a| > 0 {
      assert (a + b)[1..] == a[1..] + b;
      Utf8Append(a[1..], b);
    } else {
      assert a + b == b;
    }
  }

  /** The bytes the serializer leaves as they are: `*`, `-`, `.`, `_`, digits and ASCII letters. */
  predicate IsUnreservedByte(b: byte)
  {
    b == 0x2A || b == 0x2D || b == 0x2E || 0x30 <= b <= 0x39 || 0x41 <= b <= 0x5A || b == 0x5F
      || 0x61 <= b <= 0x7A
  }

  predicate IsUnreservedChar(c: char)
  {
    c as int < 0x80 && IsUnreservedByte(c as int as byte)
  }

  /** The characters the serializer can produce. */
  predicate IsSerializedChar(c: char)
  {
    IsUnreservedChar(c) || c == '+' || c == '%'
  }

  predicate IsHexChar(c: char)
  {
    '0' <= c <= '9' || 'A' <= c <= 'F' || 'a' <= c <= 'f'
  }

  function HexValue(c: char): (v: nat)
    requires IsHexChar(c)
    ensures v < 16
  {
    if '0' <= c <= '9' then c as int - '0' as int
    else if 'A' <= c <= 'F' then c as int - 'A' as int + 10
    else c as int - 'a' as int + 10
  }

  /** The upper-case hexadecimal digit that percent-encoding writes. */
  function HexDigit(d: nat): (c: char)
    requires d < 16
    ensures IsHexChar(c) && IsUnreservedChar(c) && HexValue(c) == d
  {
    if d < 10 then ('0' as int + d) as char else ('A' as int + d - 10) as char
  }

  /** The urlencoded byte serializer for one byte: space as `+`, unreserved as is, the rest as `%XX`. */
  function EncodeByte(b: byte): (s: string)
  {
    if b == 0x20 then "+"
    else if IsUnreservedByte(b) then [b as int as char]
    else ['%', HexDigit(b as int / 16), HexDigit(b as int % 16)]
  }

  function EncodeBytes(bs: seq<byte>): (s: string)
    ensures forall i :: 0 <= i < |s| ==> IsSerializedChar(s[i])
  {
    if |bs| == 0 then [] else EncodeByte(bs[0]) + EncodeBytes(bs[1..])
  }

  /** A name or value as the serializer prints it: its UTF-8 bytes, byte-serialized. */
  function Serialize(s: string): (r: string)
    ensures '&' !in r && '=' !in r
  {
    var r := EncodeBytes(Utf8Encode(s));
    assert forall i :: 0 <= i < |r| ==> r[i] != '&' && r[i] != '=' by {
      forall i | 0 <= i < |r| ensures r[i] != '&' && r[i] != '=' {
        assert IsSerializedChar(r[i]);
      }
    }
    r
  }

  /** One `name=value` sequence per entry. */
  function Pieces(pairs: seq<(string, string)>): (ps: seq<string>)
    ensures |ps| == |pairs|
    ensures forall i :: 0 <= i < |ps| ==> ps[i] == Serialize(pairs[i].0) + "=" + Serialize(pairs[i].1)
  {
    if |pairs| == 0 then [] else [Serialize(pairs[0].0) + "=" + Serialize(pairs[0].1)] + Pieces(pairs[1..])
  }

  /** The application/x-www-form-urlencoded serializer: the sequences joined by `&`. */
  function SerializePairs(pairs: seq<(string, string)>): string
  {
    Join(Pieces(pairs), '&')
  }

  /**
   * Percent-decoding with `+` read as a space, as the parser does to each name and value: `%XX`
   * becomes that byte, any other character its UTF-8 bytes.
   */
  function PercentDecode(s: string): (bs: seq<byte>)
  {
    if |s| == 0 then []
    else if s[0] == '+' then [0x20] + PercentDecode(s[1..])
    else if s[0] == '%' && |s| >= 3 && IsHexChar(s[1]) && IsHexChar(s[2]) then
      [(HexValue(s[1]) * 16 + HexValue(s[2])) as byte] + PercentDecode(s[3..])
    else Utf8Char(s[0]) + PercentDecode(s[1..])
  }

  /** One sequence split at its first `=`; without `=` the whole sequence is the name. */
  function ParsePiece(p: string): (seq<byte>, seq<byte>)
  {
    var i := IndexOf(p, '=');
    if i < |p| then (PercentDecode(p[..i]), PercentDecode(p[i + 1..])) else (PercentDecode(p), [])
  }

  /** Empty sequences are skipped; every other one yields an entry. */
  function ParsePieces(ps: seq<string>): seq<(seq<byte>, seq<byte>)>
  {
    if |ps| == 0 then []
    else (if ps[0] == [] then [] else [ParsePiece(ps[0])]) + ParsePieces(ps[1..])
  }

  /**
   * The application/x-www-form-urlencoded parser up to its last step: the name and value bytes of
   * each entry, before they are decoded from UTF-8.
   */
  function Parse(q: string): seq<(seq<byte>, seq<byte>)>
  {
    ParsePieces(Split(q, '&'))
  }

  /** What the parser yields for entries that were sent as these strings. */
  function Utf8Pairs(pairs: seq<(string, string)>): (r: seq<(seq<byte>, seq<byte>)>)
    ensures |r| == |pairs|
    ensures forall i :: 0 <= i < |r| ==> r[i] == (Utf8Encode(pairs[i].0), Utf8Encode(pairs[i].1))
  {
    if |pairs| == 0 then [] else [(Utf8Encode(pairs[0].0), Utf8Encode(pairs[0].1))] + Utf8Pairs(pairs[1..])
  }

  lemma {:induction false} Utf8PairsAppend(a: seq<(string, string)>, b: seq<(string, string)>)
    ensures Utf8Pairs(a + b) == Utf8Pairs(a) + Utf8Pairs(b)
  {
  }

  lemma {:induction false} DecodeEncodeByte(b: byte, rest: string)
    ensures PercentDecode(EncodeByte(b) + rest) == [b] + PercentDecode(rest)
  {
    var s := EncodeByte(b) + rest;
    if b == 0x20 {
      assert s[1..] == rest;
    } else if IsUnreservedByte(b) {
      assert s[0] == b as int as char && s[1..] == rest;
    } else {
      assert s[0] == '%' && s[1] == HexDigit(b as int / 16) && s[2] == HexDigit(b as int % 16);
      assert s[3..] == rest;
    }
  }

  /** Percent-decoding undoes the byte serializer. */
  lemma {:induction false} DecodeEncodeBytes(bs: seq<byte>)
    ensures PercentDecode(EncodeBytes(bs)) == bs
  {
    if |bs| > 0 {
      DecodeEncodeByte(bs[0], EncodeBytes(bs[1..]));
      DecodeEncodeBytes(bs[1..]);
    }
  }

  lemma ParsePieceAt(a: string, b: string)
    requires '=' !in a
    ensures ParsePiece(a + "=" + b) == (PercentDecode(a), PercentDecode(b))
  {
    var p := a + "=" + b;
    assert p == a + ['='] + b;
    IndexOfAfter(a, '=', b);
    assert p[..|a|] == a && p[|a| + 1..] == b;
  }

  lemma {:induction false} ParsePiecesAppend(a: seq<string>, b: seq<string>)
    ensures ParsePieces(a + b) == ParsePieces(a) + ParsePieces(b)
  {
    if |a| > 0 {
      assert (a + b)[1..] == a[1..] + b;
      ParsePiecesAppend(a[1..], b);
    } else {
      assert a + b == b;
    }
  }

  lemma {:induction false} ParseSerializedPieces(pairs: seq<(string, string)>)
    ensures ParsePieces(Pieces(pairs)) == Utf8Pairs(pairs)
  {
    if |pairs| > 0 {
      var k, v := pairs[0].0, pairs[0].1;
      ParsePieceAt(Serialize(k), Serialize(v));
      DecodeEncodeBytes(Utf8Encode(k));
      DecodeEncodeBytes(Utf8Encode(v));
      assert Pieces(pairs)[1..] == Pieces(pairs[1..]);
      ParseSerializedPieces(pairs[1..]);
    }
  }

  /** Parsing what the serializer printed gives back every entry, in order, as UTF-8 bytes. */
  lemma ParseSerialize(pairs: seq<(string, string)>)
    ensures Parse(SerializePairs(pairs)) == Utf8Pairs(pairs)
  {
    var ps := Pieces(pairs);
    if |pairs| == 0 {
      assert Split(SerializePairs(pairs), '&') == [[]];
    } else {
      SplitJoinInverse(ps, '&');
      ParseSerializedPieces(pairs);
    }
  }

  predicate IsUnreservedString(s: string)
  {
    forall i :: 0 <= i < |s| ==> IsUnreservedChar(s[i])
  }

  /** Strings made only of unreserved characters are printed unchanged. */
  lemma {:induction false} SerializeUnreserved(s: string)
    requires IsUnreservedString(s)
    ensures Serialize(s) == s
  {
    if |s| > 0 {
      SerializeUnreserved(s[1..]);
      assert Utf8Encode(s) == [s[0] as int as byte] + Utf8Encode(s[1..]);
      assert EncodeBytes(Utf8Encode(s))[..1] == EncodeByte(s[0] as int as byte);
      assert [s[0]] + s[1..] == s;
    }
  }

  /** Without `+` or `%`, percent-decoding is plain UTF-8 encoding. */
  lemma {:induction false} PercentDecodePlain(s: string)
    requires '+' !in s && '%' !in s
    ensures PercentDecode(s) == Utf8Encode(s)
  {
    if |s| > 0 {
      PercentDecodePlain(s[1..]);
    }
  }
}
