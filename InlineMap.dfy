/**
  The groups of the inline map's payload, twelve document characters (four
  base64 groups) at a time.
 */
module InlineMapPieces {
  import opened Base64
  import opened DataUri

  /** One step of the encoding: the first three bytes make the first group. */
  lemma EncodeStep(b: seq<byte>)
    requires |b| >= 3
    ensures Encode(b) == EncodeTriple(b[0], b[1], b[2]) + Encode(b[3..])
  {
  }

  lemma EncodeTwelve(b: seq<byte>)
    requires |b| == 12
    ensures Encode(b) == EncodeTriple(b[0], b[1], b[2]) + EncodeTriple(b[3], b[4], b[5])
      + EncodeTriple(b[6], b[7], b[8]) + EncodeTriple(b[9], b[10], b[11])
  {
    var r1 := b[3..];
    var r2 := r1[3..];
    var r3 := r2[3..];
    EncodeStep(b);
    EncodeStep(r1);
    EncodeStep(r2);
    EncodeStep(r3);
    assert Encode(r3[3..]) == "";
    var q0, q1, q2, q3 := EncodeTriple(b[0], b[1], b[2]), EncodeTriple(b[3], b[4], b[5]),
      EncodeTriple(b[6], b[7], b[8]), EncodeTriple(b[9], b[10], b[11]);
    assert Encode(r3) == q3;
    assert Encode(r2) == q2 + q3;
    assert Encode(r1) == q1 + (q2 + q3);
    Associative(q1, q2, q3);
    Associative(q0, q1 + q2, q3);
    Associative(q0, q1, q2);
  }

  /** One whole group, with its four 6-bit values written out. */
  lemma TripleOf(x: byte, y: byte, z: byte, a: sextet, b: sextet, c: sextet, d: sextet)
    requires a == x / 4 && b == (x % 4) * 16 + y / 16 && c == (y % 16) * 4 + z / 64 && d == z % 64
    ensures EncodeTriple(x, y, z) == [CharOf(a), CharOf(b), CharOf(c), CharOf(d)]
  {
  }

  /** A final group of two bytes, with its three 6-bit values written out. */
  lemma PairOf(x: byte, y: byte, a: sextet, b: sextet, c: sextet)
    requires a == x / 4 && b == (x % 4) * 16 + y / 16 && c == (y % 16) * 4
    ensures Encode([x, y]) == [CharOf(a), CharOf(b), CharOf(c), Pad]
  {
  }

  lemma EncodeEight(b: seq<byte>)
    requires |b| == 8
    ensures Encode(b) == EncodeTriple(b[0], b[1], b[2]) + EncodeTriple(b[3], b[4], b[5]) + Encode(b[6..])
  {
    var r1 := b[3..];
    EncodeStep(b);
    EncodeStep(r1);
    assert r1[3..] == b[6..];
    Associative(EncodeTriple(b[0], b[1], b[2]), EncodeTriple(b[3], b[4], b[5]), Encode(b[6..]));
  }

  lemma Bytes0(t: string) returns (b: seq<byte>)
    requires t == "{\"version\":3"
    ensures IsAscii(t) && b == AsciiBytes(t)
    ensures |b| == 12
    ensures b[0] == 123 && b[1] == 34 && b[2] == 118 && b[3] == 101 && b[4] == 114 && b[5] == 115
    ensures b[6] == 105 && b[7] == 111 && b[8] == 110 && b[9] == 34 && b[10] == 58 && b[11] == 51
  {
    b := AsciiBytes(t);
  }

  lemma Groups0(b: seq<byte>, p: string)
    requires |b| == 12
    requires b[0] == 123 && b[1] == 34 && b[2] == 118 && b[3] == 101 && b[4] == 114 && b[5] == 115
    requires b[6] == 105 && b[7] == 111 && b[8] == 110 && b[9] == 34 && b[10] == 58 && b[11] == 51
    requires p == "eyJ2ZXJzaW9uIjoz"
    ensures Encode(b) == p
  {
    EncodeTwelve(b);
    TripleOf(123, 34, 118, 30, 50, 9, 54);
    TripleOf(101, 114, 115, 25, 23, 9, 51);
    TripleOf(105, 111, 110, 26, 22, 61, 46);
    TripleOf(34, 58, 51, 8, 35, 40, 51);
  }

  lemma Piece0(t: string, p: string)
    requires t == "{\"version\":3" && p == "eyJ2ZXJzaW9uIjoz"
    ensures IsAscii(t) && Encode(AsciiBytes(t)) == p && |t| == 12
  {
    var b := Bytes0(t);
    Groups0(b, p);
  }

  lemma Bytes1(t: string) returns (b: seq<byte>)
    requires t == ",\"file\":\"gen"
    ensures IsAscii(t) && b == AsciiBytes(t)
    ensures |b| == 12
    ensures b[0] == 44 && b[1] == 34 && b[2] == 102 && b[3] == 105 && b[4] == 108 && b[5] == 101
    ensures b[6] == 34 && b[7] == 58 && b[8] == 34 && b[9] == 103 && b[10] == 101 && b[11] == 110
  {
    b := AsciiBytes(t);
  }

  lemma Groups1(b: seq<byte>, p: string)
    requires |b| == 12
    requires b[0] == 44 && b[1] == 34 && b[2] == 102 && b[3] == 105 && b[4] == 108 && b[5] == 101
    requires b[6] == 34 && b[7] == 58 && b[8] == 34 && b[9] == 103 && b[10] == 101 && b[11] == 110
    requires p == "LCJmaWxlIjoiZ2Vu"
    ensures Encode(b) == p
  {
    EncodeTwelve(b);
    TripleOf(44, 34, 102, 11, 2, 9, 38);
    TripleOf(105, 108, 101, 26, 22, 49, 37);
    TripleOf(34, 58, 34, 8, 35, 40, 34);
    TripleOf(103, 101, 110, 25, 54, 21, 46);
  }

  lemma Piece1(t: string, p: string)
    requires t == ",\"file\":\"gen" && p == "LCJmaWxlIjoiZ2Vu"
    ensures IsAscii(t) && Encode(AsciiBytes(t)) == p && |t| == 12
  {
    var b := Bytes1(t);
    Groups1(b, p);
  }

  lemma Bytes2(t: string) returns (b: seq<byte>)
    requires t == "erated.js\",\""
    ensures IsAscii(t) && b == AsciiBytes(t)
    ensures |b| == 12
    ensures b[0] == 101 && b[1] == 114 && b[2] == 97 && b[3] == 116 && b[4] == 101 && b[5] == 100
    ensures b[6] == 46 && b[7] == 106 && b[8] == 115 && b[9] == 34 && b[10] == 44 && b[11] == 34
  {
    b := AsciiBytes(t);
  }

  lemma Groups2(b: seq<byte>, p: string)
    requires |b| == 12
    requires b[0] == 101 && b[1] == 114 && b[2] == 97 && b[3] == 116 && b[4] == 101 && b[5] == 100
    requires b[6] == 46 && b[7] == 106 && b[8] == 115 && b[9] == 34 && b[10] == 44 && b[11] == 34
    requires p == "ZXJhdGVkLmpzIiwi"
    ensures Encode(b) == p
  {
    EncodeTwelve(b);
    TripleOf(101, 114, 97, 25, 23, 9, 33);
    TripleOf(116, 101, 100, 29, 6, 21, 36);
    TripleOf(46, 106, 115, 11, 38, 41, 51);
    TripleOf(34, 44, 34, 8, 34, 48, 34);
  }

  lemma Piece2(t: string, p: string)
    requires t == "erated.js\",\"" && p == "ZXJhdGVkLmpzIiwi"
    ensures IsAscii(t) && Encode(AsciiBytes(t)) == p && |t| == 12
  {
    var b := Bytes2(t);
    Groups2(b, p);
  }

  lemma Bytes3(t: string) returns (b: seq<byte>)
    requires t == "sources\":[\"/"
    ensures IsAscii(t) && b == AsciiBytes(t)
    ensures |b| == 12
    ensures b[0] == 115 && b[1] == 111 && b[2] == 117 && b[3] == 114 && b[4] == 99 && b[5] == 101
    ensures b[6] == 115 && b[7] == 34 && b[8] == 58 && b[9] == 91 && b[10] == 34 && b[11] == 47
  {
    b := AsciiBytes(t);
  }

  lemma Groups3(b: seq<byte>, p: string)
    requires |b| == 12
    requires b[0] == 115 && b[1] == 111 && b[2] == 117 && b[3] == 114 && b[4] == 99 && b[5] == 101
    requires b[6] == 115 && b[7] == 34 && b[8] == 58 && b[9] == 91 && b[10] == 34 && b[11] == 47
    requires p == "c291cmNlcyI6WyIv"
    ensures Encode(b) == p
  {
    EncodeTwelve(b);
    TripleOf(115, 111, 117, 28, 54, 61, 53);
    TripleOf(114, 99, 101, 28, 38, 13, 37);
    TripleOf(115, 34, 58, 28, 50, 8, 58);
    TripleOf(91, 34, 47, 22, 50, 8, 47);
  }

  lemma Piece3(t: string, p: string)
    requires t == "sources\":[\"/" && p == "c291cmNlcyI6WyIv"
    ensures IsAscii(t) && Encode(AsciiBytes(t)) == p && |t| == 12
  {
    var b := Bytes3(t);
    Groups3(b, p);
  }

  lemma Bytes4(t: string) returns (b: seq<byte>)
    requires t == "test.js\"],\"n"
    ensures IsAscii(t) && b == AsciiBytes(t)
    ensures |b| == 12
    ensures b[0] == 116 && b[1] == 101 && b[2] == 115 && b[3] == 116 && b[4] == 46 && b[5] == 106
    ensures b[6] == 115 && b[7] == 34 && b[8] == 93 && b[9] == 44 && b[10] == 34 && b[11] == 110
  {
    b := AsciiBytes(t);
  }

  lemma Groups4(b: seq<byte>, p: string)
    requires |b| == 12
    requires b[0] == 116 && b[1] == 101 && b[2] == 115 && b[3] == 116 && b[4] == 46 && b[5] == 106
    requires b[6] == 115 && b[7] == 34 && b[8] == 93 && b[9] == 44 && b[10] == 34 && b[11] == 110
    requires p == "dGVzdC5qcyJdLCJu"
    ensures Encode(b) == p
  {
    EncodeTwelve(b);
    TripleOf(116, 101, 115, 29, 6, 21, 51);
    TripleOf(116, 46, 106, 29, 2, 57, 42);
    TripleOf(115, 34, 93, 28, 50, 9, 29);
    TripleOf(44, 34, 110, 11, 2, 9, 46);
  }

  lemma Piece4(t: string, p: string)
    requires t == "test.js\"],\"n" && p == "dGVzdC5qcyJdLCJu"
    ensures IsAscii(t) && Encode(AsciiBytes(t)) == p && |t| == 12
  {
    var b := Bytes4(t);
    Groups4(b, p);
  }

  lemma Bytes5(t: string) returns (b: seq<byte>)
    requires t == "ames\":[],\"ma"
    ensures IsAscii(t) && b == AsciiBytes(t)
    ensures |b| == 12
    ensures b[0] == 97 && b[1] == 109 && b[2] == 101 && b[3] == 115 && b[4] == 34 && b[5] == 58
    ensures b[6] == 91 && b[7] == 93 && b[8] == 44 && b[9] == 34 && b[10] == 109 && b[11] == 97
  {
    b := AsciiBytes(t);
  }

  lemma Groups5(b: seq<byte>, p: string)
    requires |b| == 12
    requires b[0] == 97 && b[1] == 109 && b[2] == 101 && b[3] == 115 && b[4] == 34 && b[5] == 58
    requires b[6] == 91 && b[7] == 93 && b[8] == 44 && b[9] == 34 && b[10] == 109 && b[11] == 97
    requires p == "YW1lcyI6W10sIm1h"
    ensures Encode(b) == p
  {
    EncodeTwelve(b);
    TripleOf(97, 109, 101, 24, 22, 53, 37);
    TripleOf(115, 34, 58, 28, 50, 8, 58);
    TripleOf(91, 93, 44, 22, 53, 52, 44);
    TripleOf(34, 109, 97, 8, 38, 53, 33);
  }

  lemma Piece5(t: string, p: string)
    requires t == "ames\":[],\"ma" && p == "YW1lcyI6W10sIm1h"
    ensures IsAscii(t) && Encode(AsciiBytes(t)) == p && |t| == 12
  {
    var b := Bytes5(t);
    Groups5(b, p);
  }

  lemma Bytes6(t: string) returns (b: seq<byte>)
    requires t == "ppings\":\";AA"
    ensures IsAscii(t) && b == AsciiBytes(t)
    ensures |b| == 12
    ensures b[0] == 112 && b[1] == 112 && b[2] == 105 && b[3] == 110 && b[4] == 103 && b[5] == 115
    ensures b[6] == 34 && b[7] == 58 && b[8] == 34 && b[9] == 59 && b[10] == 65 && b[11] == 65
  {
    b := AsciiBytes(t);
  }

  lemma Groups6(b: seq<byte>, p: string)
    requires |b| == 12
    requires b[0] == 112 && b[1] == 112 && b[2] == 105 && b[3] == 110 && b[4] == 103 && b[5] == 115
    requires b[6] == 34 && b[7] == 58 && b[8] == 34 && b[9] == 59 && b[10] == 65 && b[11] == 65
    requires p == "cHBpbmdzIjoiO0FB"
    ensures Encode(b) == p
  {
    EncodeTwelve(b);
    TripleOf(112, 112, 105, 28, 7, 1, 41);
    TripleOf(110, 103, 115, 27, 38, 29, 51);
    TripleOf(34, 58, 34, 8, 35, 40, 34);
    TripleOf(59, 65, 65, 14, 52, 5, 1);
  }

  lemma Piece6(t: string, p: string)
    requires t == "ppings\":\";AA" && p == "cHBpbmdzIjoiO0FB"
    ensures IsAscii(t) && Encode(AsciiBytes(t)) == p && |t| == 12
  {
    var b := Bytes6(t);
    Groups6(b, p);
  }

  lemma Bytes7(t: string) returns (b: seq<byte>)
    requires t == "AA\",\"sources"
    ensures IsAscii(t) && b == AsciiBytes(t)
    ensures |b| == 12
    ensures b[0] == 65 && b[1] == 65 && b[2] == 34 && b[3] == 44 && b[4] == 34 && b[5] == 115
    ensures b[6] == 111 && b[7] == 117 && b[8] == 114 && b[9] == 99 && b[10] == 101 && b[11] == 115
  {
    b := AsciiBytes(t);
  }

  lemma Groups7(b: seq<byte>, p: string)
    requires |b| == 12
    requires b[0] == 65 && b[1] == 65 && b[2] == 34 && b[3] == 44 && b[4] == 34 && b[5] == 115
    requires b[6] == 111 && b[7] == 117 && b[8] == 114 && b[9] == 99 && b[10] == 101 && b[11] == 115
    requires p == "QUEiLCJzb3VyY2Vz"
    ensures Encode(b) == p
  {
    EncodeTwelve(b);
    TripleOf(65, 65, 34, 16, 20, 4, 34);
    TripleOf(44, 34, 115, 11, 2, 9, 51);
    TripleOf(111, 117, 114, 27, 55, 21, 50);
    TripleOf(99, 101, 115, 24, 54, 21, 51);
  }

  lemma Piece7(t: string, p: string)
    requires t == "AA\",\"sources" && p == "QUEiLCJzb3VyY2Vz"
    ensures IsAscii(t) && Encode(AsciiBytes(t)) == p && |t| == 12
  {
    var b := Bytes7(t);
    Groups7(b, p);
  }

  lemma Bytes8(t: string) returns (b: seq<byte>)
    requires t == "Content\":[\"c"
    ensures IsAscii(t) && b == AsciiBytes(t)
    ensures |b| == 12
    ensures b[0] == 67 && b[1] == 111 && b[2] == 110 && b[3] == 116 && b[4] == 101 && b[5] == 110
    ensures b[6] == 116 && b[7] == 34 && b[8] == 58 && b[9] == 91 && b[10] == 34 && b[11] == 99
  {
    b := AsciiBytes(t);
  }

  lemma Groups8(b: seq<byte>, p: string)
    requires |b| == 12
    requires b[0] == 67 && b[1] == 111 && b[2] == 110 && b[3] == 116 && b[4] == 101 && b[5] == 110
    requires b[6] == 116 && b[7] == 34 && b[8] == 58 && b[9] == 91 && b[10] == 34 && b[11] == 99
    requires p == "Q29udGVudCI6WyJj"
    ensures Encode(b) == p
  {
    EncodeTwelve(b);
    TripleOf(67, 111, 110, 16, 54, 61, 46);
    TripleOf(116, 101, 110, 29, 6, 21, 46);
    TripleOf(116, 34, 58, 29, 2, 8, 58);
    TripleOf(91, 34, 99, 22, 50, 9, 35);
  }

  lemma Piece8(t: string, p: string)
    requires t == "Content\":[\"c" && p == "Q29udGVudCI6WyJj"
    ensures IsAscii(t) && Encode(AsciiBytes(t)) == p && |t| == 12
  {
    var b := Bytes8(t);
    Groups8(b, p);
  }

  lemma Bytes9(t: string) returns (b: seq<byte>)
    requires t == "onsole.log(\\"
    ensures IsAscii(t) && b == AsciiBytes(t)
    ensures |b| == 12
    ensures b[0] == 111 && b[1] == 110 && b[2] == 115 && b[3] == 111 && b[4] == 108 && b[5] == 101
    ensures b[6] == 46 && b[7] == 108 && b[8] == 111 && b[9] == 103 && b[10] == 40 && b[11] == 92
  {
    b := AsciiBytes(t);
  }

  lemma Groups9(b: seq<byte>, p: string)
    requires |b| == 12
    requires b[0] == 111 && b[1] == 110 && b[2] == 115 && b[3] == 111 && b[4] == 108 && b[5] == 101
    requires b[6] == 46 && b[7] == 108 && b[8] == 111 && b[9] == 103 && b[10] == 40 && b[11] == 92
    requires p == "b25zb2xlLmxvZyhc"
    ensures Encode(b) == p
  {
    EncodeTwelve(b);
    TripleOf(111, 110, 115, 27, 54, 57, 51);
    TripleOf(111, 108, 101, 27, 54, 49, 37);
    TripleOf(46, 108, 111, 11, 38, 49, 47);
    TripleOf(103, 40, 92, 25, 50, 33, 28);
  }

  lemma Piece9(t: string, p: string)
    requires t == "onsole.log(\\" && p == "b25zb2xlLmxvZyhc"
    ensures IsAscii(t) && Encode(AsciiBytes(t)) == p && |t| == 12
  {
    var b := Bytes9(t);
    Groups9(b, p);
  }

  lemma Bytes10(t: string) returns (b: seq<byte>)
    requires t == "\"hello, Worl"
    ensures IsAscii(t) && b == AsciiBytes(t)
    ensures |b| == 12
    ensures b[0] == 34 && b[1] == 104 && b[2] == 101 && b[3] == 108 && b[4] == 108 && b[5] == 111
    ensures b[6] == 44 && b[7] == 32 && b[8] == 87 && b[9] == 111 && b[10] == 114 && b[11] == 108
  {
    b := AsciiBytes(t);
  }

  lemma Groups10(b: seq<byte>, p: string)
    requires |b| == 12
    requires b[0] == 34 && b[1] == 104 && b[2] == 101 && b[3] == 108 && b[4] == 108 && b[5] == 111
    requires b[6] == 44 && b[7] == 32 && b[8] == 87 && b[9] == 111 && b[10] == 114 && b[11] == 108
    requires p == "ImhlbGxvLCBXb3Js"
    ensures Encode(b) == p
  {
    EncodeTwelve(b);
    TripleOf(34, 104, 101, 8, 38, 33, 37);
    TripleOf(108, 108, 111, 27, 6, 49, 47);
    TripleOf(44, 32, 87, 11, 2, 1, 23);
    TripleOf(111, 114, 108, 27, 55, 9, 44);
  }

  lemma Piece10(t: string, p: string)
    requires t == "\"hello, Worl" && p == "ImhlbGxvLCBXb3Js"
    ensures IsAscii(t) && Encode(AsciiBytes(t)) == p && |t| == 12
  {
    var b := Bytes10(t);
    Groups10(b, p);
  }

  lemma Bytes11(t: string) returns (b: seq<byte>)
    requires t == "d!\\\")\"]}"
    ensures IsAscii(t) && b == AsciiBytes(t)
    ensures |b| == 8
    ensures b[0] == 100 && b[1] == 33 && b[2] == 92 && b[3] == 34
    ensures b[4] == 41 && b[5] == 34 && b[6] == 93 && b[7] == 125
  {
    b := AsciiBytes(t);
  }

  lemma Groups11(b: seq<byte>, p: string)
    requires |b| == 8
    requires b[0] == 100 && b[1] == 33 && b[2] == 92 && b[3] == 34
    requires b[4] == 41 && b[5] == 34 && b[6] == 93 && b[7] == 125
    requires p == "ZCFcIikiXX0="
    ensures Encode(b) == p
  {
    EncodeEight(b);
    TripleOf(100, 33, 92, 25, 2, 5, 28);
    TripleOf(34, 41, 34, 8, 34, 36, 34);
    assert b[6..] == [b[6], b[7]];
    PairOf(93, 125, 23, 23, 52);
  }

  lemma Piece11(t: string, p: string)
    requires t == "d!\\\")\"]}" && p == "ZCFcIikiXX0="
    ensures IsAscii(t) && Encode(AsciiBytes(t)) == p && |t| == 8
  {
    var b := Bytes11(t);
    Groups11(b, p);
  }

}

/**
  The inline source map of `FetchBase64SourcemapTest` and
  `ExpandJavascriptSourceTest.test_inlined_sources`: a `data:` URI whose
  payload is the base64 text of a one-source map document. The payload is
  written as 16-character pieces and the document as the 12-character
  pieces they encode, so that the decoding can be followed piece by piece.
 */
module InlineMap {
  import opened Results
  import opened Text
  import opened Base64
  import opened DataUri
  import opened InlineMapPieces

  /** The base64 payload, in pieces of four groups. */
  const PayloadPieces: seq<string> := [
    "eyJ2ZXJzaW9uIjoz",
    "LCJmaWxlIjoiZ2Vu",
    "ZXJhdGVkLmpzIiwi",
    "c291cmNlcyI6WyIv",
    "dGVzdC5qcyJdLCJu",
    "YW1lcyI6W10sIm1h",
    "cHBpbmdzIjoiO0FB",
    "QUEiLCJzb3VyY2Vz",
    "Q29udGVudCI6WyJj",
    "b25zb2xlLmxvZyhc",
    "ImhlbGxvLCBXb3Js",
    "ZCFcIikiXX0="
  ]

  /** The map document the payload carries, in pieces of twelve characters. */
  const DocumentPieces: seq<string> := [
    "{\"version\":3",
    ",\"file\":\"gen",
    "erated.js\",\"",
    "sources\":[\"/",
    "test.js\"],\"n",
    "ames\":[],\"ma",
    "ppings\":\";AA",
    "AA\",\"sources",
    "Content\":[\"c",
    "onsole.log(\\",
    "\"hello, Worl",
    "d!\\\")\"]}"
  ]

  /** The reference `data:application/json;base64,<payload>`. */
  const InlineMapUri: string := DataScheme + (JsonMediaType + ";" + Base64Marker) + "," + Concat(PayloadPieces)

  /** The JSON text of the map document. */
  const InlineMapJson: string := Concat(DocumentPieces)

  /** The payload is exactly the base64 encoding of the document text. */
  lemma PayloadEncodesDocument(texts: seq<string>, payloads: seq<string>)
    requires texts == DocumentPieces && payloads == PayloadPieces
    ensures IsAscii(Concat(texts))
    ensures Encode(AsciiBytes(Concat(texts))) == Concat(payloads)
  {
    assert |texts| == |payloads| == 12;
    forall k | 0 <= k < |texts|
      ensures IsAscii(texts[k]) && Encode(AsciiBytes(texts[k])) == payloads[k]
      ensures k < |texts| - 1 ==> |texts[k]| % 3 == 0
    {
      if k == 0 {
        Piece0(texts[0], payloads[0]);
      } else if k == 1 {
        Piece1(texts[1], payloads[1]);
      } else if k == 2 {
        Piece2(texts[2], payloads[2]);
      } else if k == 3 {
        Piece3(texts[3], payloads[3]);
      } else if k == 4 {
        Piece4(texts[4], payloads[4]);
      } else if k == 5 {
        Piece5(texts[5], payloads[5]);
      } else if k == 6 {
        Piece6(texts[6], payloads[6]);
      } else if k == 7 {
        Piece7(texts[7], payloads[7]);
      } else if k == 8 {
        Piece8(texts[8], payloads[8]);
      } else if k == 9 {
        Piece9(texts[9], payloads[9]);
      } else if k == 10 {
        Piece10(texts[10], payloads[10]);
      } else {
        Piece11(texts[11], payloads[11]);
      }
    }
    EncodePieces(texts, payloads);
  }

  /** `fetch_sourcemap(base64_sourcemap)` reads the document text out of the URI. */
  lemma InlineMapDecodes(uri: string, json: string)
    requires uri == InlineMapUri && json == InlineMapJson
    ensures DecodeDataUri(uri) == Ok(json)
  {
    PayloadEncodesDocument(DocumentPieces, PayloadPieces);
    CarriesText(uri, Concat(PayloadPieces), Concat(DocumentPieces));
  }

  /** A JSON base64 data URI whose payload encodes ASCII text decodes to that text. */
  lemma CarriesText(uri: string, payload: string, text: string)
    requires uri == DataScheme + (JsonMediaType + ";" + Base64Marker) + "," + payload
    requires IsAscii(text) && Encode(AsciiBytes(text)) == payload
    ensures DecodeDataUri(uri) == Ok(text)
  {
    JsonDataUriRoundTrip(JsonMediaType, Base64Marker, text);
  }
}
