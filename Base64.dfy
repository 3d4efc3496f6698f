/**
  The base64 alphabet and encoding of RFC 4648 section 4: every 3 bytes
  become 4 characters of 6 bits each, and a final group of 1 or 2 bytes is
  completed with `==` or `=`. The same alphabet carries the digits of the
  VLQ numbers in source map `mappings`.
 */
module Base64 {
  import opened Results

  type byte = x: int | 0 <= x < 256
  type sextet = x: int | 0 <= x < 64

  const Pad: char := '='

  predicate IsBase64Char(c: char)
  {
    'A' <= c <= 'Z' || 'a' <= c <= 'z' || '0' <= c <= '9' || c == '+' || c == '/'
  }

  /** The character that stands for a 6-bit value. */
  function CharOf(v: sextet): (c: char)
    ensures IsBase64Char(c)
  {
    if v < 26 then (65 + v) as char
    else if v < 52 then (97 + v - 26) as char
    else if v < 62 then (48 + v - 52) as char
    else if v == 62 then '+'
    else '/'
  }

  /** The 6-bit value a character of the alphabet stands for. */
  function SextetOf(c: char): (v: sextet)
    requires IsBase64Char(c)
    ensures CharOf(v) == c
  {
    if 'A' <= c <= 'Z' then c as int - 65
    else if 'a' <= c <= 'z' then c as int - 97 + 26
    else if '0' <= c <= '9' then c as int - 48 + 52
    else if c == '+' then 62
    else 63
  }

  /** Distinct values have distinct characters, so the alphabet decodes back. */
  lemma SextetOfCharOf(v: sextet)
    ensures SextetOf(CharOf(v)) == v
  {
  }

  /** How many `=` end `s`: two, one or none. */
  function PaddingLength(s: string): (n: nat)
    ensures n <= 2 && n <= |s|
  {
    if |s| >= 2 && s[|s| - 2] == Pad && s[|s| - 1] == Pad then 2
    else if |s| >= 1 && s[|s| - 1] == Pad then 1
    else 0
  }

  /**
    Well-formed base64 text: whole 4-character groups, every character of
    the alphabet except for at most two `=` at the very end.
   */
  predicate IsBase64Text(s: string)
  {
    |s| % 4 == 0 && forall i :: 0 <= i < |s| - PaddingLength(s) ==> IsBase64Char(s[i])
  }

  /** The bytes of one 4-character group; `last` allows it to be padded. */
  function DecodeQuad(q: string, last: bool): (r: Result<seq<byte>, DecodeError>)
    requires |q| == 4
  {
    if !IsBase64Char(q[0]) || !IsBase64Char(q[1]) then Err(InvalidBase64)
    else
      var a, b := SextetOf(q[0]), SextetOf(q[1]);
      if IsBase64Char(q[2]) && IsBase64Char(q[3]) then
        var c, d := SextetOf(q[2]), SextetOf(q[3]);
        Ok([a * 4 + b / 16, (b % 16) * 16 + c / 4, (c % 4) * 64 + d])
      else if last && IsBase64Char(q[2]) && q[3] == Pad then
        var c := SextetOf(q[2]);
        Ok([a * 4 + b / 16, (b % 16) * 16 + c / 4])
      else if last && q[2] == Pad && q[3] == Pad then
        Ok([a * 4 + b / 16])
      else Err(InvalidBase64)
  }

  /** The bytes of a run of whole groups, of which only the final one may be padded. */
  function DecodeGroups(s: string): (r: Result<seq<byte>, DecodeError>)
    requires |s| % 4 == 0
    ensures r.Ok? <==> IsBase64Text(s)
    ensures r.Ok? ==> |r.value| == |s| / 4 * 3 - PaddingLength(s)
    decreases |s|
  {
    if |s| == 0 then Ok([])
    else
      var rest := DecodeGroups(s[4..]);
      var quad := DecodeQuad(s[..4], |s| == 4);
      GroupsShape(s);
      if quad.Err? then Err(quad.error)
      else if rest.Err? then Err(rest.error)
      else Ok(quad.value + rest.value)
  }

  /** How a run of groups is well formed: its first group and its remainder. */
  lemma GroupsShape(s: string)
    requires |s| % 4 == 0 && |s| >= 4
    ensures |s| > 4 ==> PaddingLength(s) == PaddingLength(s[4..])
    ensures IsBase64Text(s) <==>
      (if |s| == 4 then DecodeQuad(s[..4], true).Ok?
       else (forall i :: 0 <= i < 4 ==> IsBase64Char(s[i])) && IsBase64Text(s[4..]))
    ensures DecodeQuad(s[..4], |s| == 4).Ok? ==>
      |DecodeQuad(s[..4], |s| == 4).value| == (if |s| == 4 then 3 - PaddingLength(s) else 3)
  {
    var n := |s|;
    if n > 4 {
      assert s[4..][n - 4 - 1] == s[n - 1];
      assert s[4..][n - 4 - 2] == s[n - 2];
      if IsBase64Text(s) {
        forall i | 0 <= i < n - 4 - PaddingLength(s[4..])
          ensures IsBase64Char(s[4..][i])
        {
          assert s[4..][i] == s[i + 4];
        }
      }
      if (forall i :: 0 <= i < 4 ==> IsBase64Char(s[i])) && IsBase64Text(s[4..]) {
        forall i | 0 <= i < n - PaddingLength(s)
          ensures IsBase64Char(s[i])
        {
          if i >= 4 { assert s[i] == s[4..][i - 4]; }
        }
      }
    }
  }

  /** RFC 4648 base64 decoding; fails unless the text is well formed. */
  function Decode(s: string): (r: Result<seq<byte>, DecodeError>)
    ensures r.Ok? <==> IsBase64Text(s)
    ensures r.Ok? ==> |r.value| == |s| / 4 * 3 - PaddingLength(s)
  {
    if |s| % 4 != 0 then Err(InvalidBase64) else DecodeGroups(s)
  }

  /** The four characters of a whole group of three bytes. */
  function EncodeTriple(x: byte, y: byte, z: byte): (q: string)
    ensures |q| == 4
  {
    [CharOf(x / 4), CharOf((x % 4) * 16 + y / 16), CharOf((y % 16) * 4 + z / 64), CharOf(z % 64)]
  }

  /** RFC 4648 base64 encoding with `=` padding. */
  function Encode(b: seq<byte>): (s: string)
    ensures |s| % 4 == 0 && (|s| == 0 <==> |b| == 0)
    decreases |b|
  {
    if |b| == 0 then ""
    else if |b| == 1 then [CharOf(b[0] / 4), CharOf((b[0] % 4) * 16), Pad, Pad]
    else if |b| == 2 then
      [CharOf(b[0] / 4), CharOf((b[0] % 4) * 16 + b[1] / 16), CharOf((b[1] % 16) * 4), Pad]
    else EncodeTriple(b[0], b[1], b[2]) + Encode(b[3..])
  }

  /** Splitting a byte at a bit boundary and joining the halves gives it back. */
  lemma BitSplit(x: int, high: nat, low: nat)
    requires low > 0 && 0 <= x < high * low
    ensures 0 <= x / low < high && x % low < low
    ensures (x / low) * low + x % low == x
  {
  }

  /** Shifting left by 4 bits and right again, with low bits `r` in between, gives back `a`. */
  lemma ScaledDiv16(a: int, r: int)
    requires 0 <= r < 16
    ensures (a * 16 + r) / 16 == a && (a * 16 + r) % 16 == r
  {
  }

  /** Shifting left by 2 bits and right again, with low bits `r` in between, gives back `a`. */
  lemma ScaledDiv4(a: int, r: int)
    requires 0 <= r < 4
    ensures (a * 4 + r) / 4 == a && (a * 4 + r) % 4 == r
  {
  }

  lemma TripleRoundTrip(x: byte, y: byte, z: byte, last: bool)
    ensures DecodeQuad(EncodeTriple(x, y, z), last) == Ok([x, y, z])
  {
    var q := EncodeTriple(x, y, z);
    BitSplit(x, 64, 4);
    BitSplit(y, 16, 16);
    BitSplit(z, 4, 64);
    var a, b, c, d := x / 4, (x % 4) * 16 + y / 16, (y % 16) * 4 + z / 64, z % 64;
    SextetOfCharOf(a);
    SextetOfCharOf(b);
    SextetOfCharOf(c);
    SextetOfCharOf(d);
    ScaledDiv16(x % 4, y / 16);
    ScaledDiv4(y % 16, z / 64);
    assert a * 4 + b / 16 == x;
    assert (b % 16) * 16 + c / 4 == y;
    assert (c % 4) * 64 + d == z;
  }

  /** The final group of a single byte: two characters and `==`. */
  lemma SingleRoundTrip(x: byte)
    ensures Decode(Encode([x])) == Ok([x])
  {
    var s := Encode([x]);
    BitSplit(x, 64, 4);
    var a, b := x / 4, (x % 4) * 16;
    SextetOfCharOf(a);
    SextetOfCharOf(b);
    ScaledDiv16(x % 4, 0);
    assert a * 4 + b / 16 == x;
    assert s[..4] == s;
    assert DecodeQuad(s, true) == Ok([x]);
    assert s[4..] == "";
    assert DecodeGroups(s) == Ok([x] + []);
    assert [x] + [] == [x];
  }

  /** The final group of two bytes: three characters and `=`. */
  lemma PairRoundTrip(x: byte, y: byte)
    ensures Decode(Encode([x, y])) == Ok([x, y])
  {
    var s := Encode([x, y]);
    BitSplit(x, 64, 4);
    BitSplit(y, 16, 16);
    var a, b, c := x / 4, (x % 4) * 16 + y / 16, (y % 16) * 4;
    SextetOfCharOf(a);
    SextetOfCharOf(b);
    SextetOfCharOf(c);
    ScaledDiv16(x % 4, y / 16);
    ScaledDiv4(y % 16, 0);
    assert a * 4 + b / 16 == x;
    assert (b % 16) * 16 + c / 4 == y;
    assert s[..4] == s;
    assert DecodeQuad(s, true) == Ok([x, y]);
    assert s[4..] == "";
    assert DecodeGroups(s) == Ok([x, y] + []);
    assert [x, y] + [] == [x, y];
  }

  /** A run of groups decodes to its first group's bytes followed by the rest's. */
  lemma DecodeGroupsCons(q: string, rest: string)
    requires |q| == 4 && |rest| % 4 == 0
    requires DecodeQuad(q, |rest| == 0).Ok? && DecodeGroups(rest).Ok?
    ensures DecodeGroups(q + rest) == Ok(DecodeQuad(q, |rest| == 0).value + DecodeGroups(rest).value)
  {
    var s := q + rest;
    assert s[..4] == q && s[4..] == rest;
  }

  lemma FirstThree(b: seq<byte>)
    requires |b| >= 3
    ensures [b[0], b[1], b[2]] + b[3..] == b
  {
  }

  /** One whole group in front of a string that round-trips still round-trips. */
  lemma ConsRoundTrip(b: seq<byte>)
    requires |b| >= 3 && Decode(Encode(b[3..])) == Ok(b[3..])
    ensures Decode(Encode(b)) == Ok(b)
  {
    FirstThree(b);
    var rest := Encode(b[3..]);
    var q := EncodeTriple(b[0], b[1], b[2]);
    TripleRoundTrip(b[0], b[1], b[2], |rest| == 0);
    ConsGeneral(q, rest, [b[0], b[1], b[2]], b[3..]);
    assert Encode(b) == q + rest;
  }

  /** A whole group in front of a decodable run decodes to both parts' bytes. */
  lemma ConsGeneral(q: string, rest: string, v: seq<byte>, w: seq<byte>)
    requires |q| == 4 && |rest| % 4 == 0
    requires DecodeQuad(q, |rest| == 0) == Ok(v) && Decode(rest) == Ok(w)
    ensures Decode(q + rest) == Ok(v + w)
  {
    DecodeGroupsCons(q, rest);
  }

  /** Decoding undoes encoding, for every byte string. */
  lemma {:induction false} DecodeEncode(b: seq<byte>)
    ensures Decode(Encode(b)) == Ok(b)
    decreases |b|
  {
    if |b| == 1 {
      assert b == [b[0]];
      SingleRoundTrip(b[0]);
    } else if |b| == 2 {
      assert b == [b[0], b[1]];
      PairRoundTrip(b[0], b[1]);
    } else if |b| >= 3 {
      DecodeEncode(b[3..]);
      ConsRoundTrip(b);
    }
  }

  /** Whatever is encoded is well-formed base64 text. */
  lemma EncodeIsBase64Text(b: seq<byte>)
    ensures IsBase64Text(Encode(b))
  {
    DecodeEncode(b);
  }

  lemma Associative(a: string, b: string, c: string)
    ensures a + (b + c) == (a + b) + c
  {
  }

  lemma DropAppend(x: seq<byte>, y: seq<byte>)
    requires |x| >= 3
    ensures (x + y)[3..] == x[3..] + y
    ensures (x + y)[0] == x[0] && (x + y)[1] == x[1] && (x + y)[2] == x[2]
  {
  }

  /** Encoding works group by group: whole groups in front encode independently. */
  lemma {:induction false} EncodeAppend(x: seq<byte>, y: seq<byte>)
    requires |x| % 3 == 0
    ensures Encode(x + y) == Encode(x) + Encode(y)
    decreases |x|
  {
    if |x| == 0 {
      assert x + y == y;
    } else {
      EncodeAppend(x[3..], y);
      DropAppend(x, y);
      var t := EncodeTriple(x[0], x[1], x[2]);
      assert Encode(x + y) == t + Encode(x[3..] + y);
      assert Encode(x) == t + Encode(x[3..]);
      Associative(t, Encode(x[3..]), Encode(y));
    }
  }
}
