/**
  Inline source maps: a `data:` URI (RFC 2397 section 3) whose media type
  is `application/json`, whose parameters end in `;base64`, and whose
  payload is the base64 text of the map document.
 */
module DataUri {
  import opened Results
  import opened Text
  import opened Base64

  const DataScheme: string := "data:"
  const JsonMediaType: string := "application/json"
  const Base64Marker: string := "base64"

  predicate IsAscii(t: string)
  {
    forall i :: 0 <= i < |t| ==> t[i] as int < 128
  }

  /** The bytes of 7-bit text, one per character. */
  function AsciiBytes(t: string): (b: seq<byte>)
    requires IsAscii(t)
    ensures |b| == |t| && forall i :: 0 <= i < |t| ==> b[i] == t[i] as int
  {
    seq(|t|, i requires 0 <= i < |t| => t[i] as int)
  }

  /** The text of a byte string, which must be 7-bit ASCII. */
  function AsciiText(b: seq<byte>): (r: Result<string, DecodeError>)
    ensures r.Ok? <==> forall i :: 0 <= i < |b| ==> b[i] < 128
    ensures r.Ok? ==> IsAscii(r.value) && AsciiBytes(r.value) == b
    ensures r.Err? ==> r.error == NotAscii
  {
    if forall i :: 0 <= i < |b| ==> b[i] < 128 then
      var t := seq(|b|, i requires 0 <= i < |b| => b[i] as char);
      assert AsciiBytes(t) == b;
      Ok(t)
    else Err(NotAscii)
  }

  lemma AsciiTextOfBytes(t: string)
    requires IsAscii(t)
    ensures AsciiText(AsciiBytes(t)) == Ok(t)
  {
    var b := AsciiBytes(t);
    var r := AsciiText(b);
    assert |r.value| == |t|;
    assert forall i :: 0 <= i < |t| ==> r.value[i] as int == t[i] as int;
    assert r.value == t;
  }

  lemma AsciiBytesAppend(x: string, y: string)
    requires IsAscii(x) && IsAscii(y)
    ensures IsAscii(x + y)
    ensures AsciiBytes(x + y) == AsciiBytes(x) + AsciiBytes(y)
  {
    assert forall i :: 0 <= i < |x + y| ==> (x + y)[i] == if i < |x| then x[i] else y[i - |x|];
  }

  /** The parameter list of a data URI header names JSON and ends in `base64`. */
  predicate IsJsonBase64Header(header: string)
  {
    var ps := Split(header, ';');
    |ps| >= 2 && ps[0] == JsonMediaType && ps[|ps| - 1] == Base64Marker
  }

  /**
    The text carried by an inline map reference. Fails unless the reference
    is a `data:` URI with a header up to the first `,` that is
    `application/json`, optionally further parameters, and `base64` last;
    the payload after that `,` must be base64 text of 7-bit ASCII.
   */
  function DecodeDataUri(uri: string): (r: Result<string, DecodeError>)
    ensures !StartsWith(uri, DataScheme) ==> r == Err(NotDataUri)
    ensures ',' !in uri ==> r.Err?
    ensures r.Ok? ==> IsAscii(r.value)
    ensures r.Ok? ==> (StartsWith(uri, DataScheme)
      && var rest := uri[|DataScheme|..];
         IndexOf(rest, ',').Some? && IsJsonBase64Header(rest[..IndexOf(rest, ',').value]))
  {
    if !StartsWith(uri, DataScheme) then Err(NotDataUri)
    else
      var rest := uri[|DataScheme|..];
      match IndexOf(rest, ',')
      case None =>
        assert forall c :: c in rest ==> c in uri;
        Err(NotDataUri)
      case Some(i) =>
        var header := Split(rest[..i], ';');
        if |header| < 2 || header[|header| - 1] != Base64Marker then Err(NotBase64DataUri)
        else if header[0] != JsonMediaType then Err(NotJsonMediaType)
        else match Decode(rest[i + 1..])
          case Err(e) => Err(e)
          case Ok(bytes) => AsciiText(bytes)
  }

  /** The first `c` of `a + [c] + b` is just after `a` when `a` holds none. */
  lemma IndexOfAfter(a: string, c: char, b: string)
    requires c !in a
    ensures IndexOf(a + [c] + b, c) == Some(|a|)
  {
    var s := a + [c] + b;
    assert s[..|a|] == a;
    IndexOfIs(s, c, |a|);
  }

  /** Encoding ASCII text into a JSON data URI and decoding it gives the text back. */
  lemma DataUriRoundTrip(header: string, text: string)
    requires ',' !in header && IsJsonBase64Header(header)
    requires IsAscii(text)
    ensures DecodeDataUri(DataScheme + header + "," + Encode(AsciiBytes(text))) == Ok(text)
  {
    var payload := Encode(AsciiBytes(text));
    JsonPayload(header, payload);
    DecodeEncode(AsciiBytes(text));
    AsciiTextOfBytes(text);
  }

  /** Behind a JSON base64 header, a data URI decodes as its payload does. */
  lemma JsonPayload(header: string, payload: string)
    requires ',' !in header && IsJsonBase64Header(header)
    ensures DecodeDataUri(DataScheme + header + "," + payload) ==
      match Decode(payload)
      case Err(e) => Err(e)
      case Ok(bytes) => AsciiText(bytes)
  {
    var uri := DataScheme + header + "," + payload;
    PrefixedParts(DataScheme, header, ',', payload);
    IndexOfAfter(header, ',', payload);
    assert StartsWith(uri, DataScheme);
  }

  /** A header of two parameters splits into exactly those two. */
  lemma TwoParameters(first: string, second: string)
    requires ';' !in first && ';' !in second
    ensures Split(first + ";" + second, ';') == [first, second]
  {
    SplitAppend(first, ';', second);
    SplitNoSep(first, ';');
    SplitNoSep(second, ';');
    assert first + ";" + second == first + [';'] + second;
  }

  /** The header `application/json;base64` qualifies. */
  lemma PlainJsonHeader(media: string, marker: string)
    requires media == JsonMediaType && marker == Base64Marker
    ensures ',' !in media + ";" + marker
    ensures IsJsonBase64Header(media + ";" + marker)
  {
    assert ';' !in media && ';' !in marker;
    assert ',' !in media && ',' !in marker;
    TwoParameters(media, marker);
  }

  /** The round trip through the plain header `application/json;base64`. */
  lemma JsonDataUriRoundTrip(media: string, marker: string, text: string)
    requires media == JsonMediaType && marker == Base64Marker
    requires IsAscii(text)
    ensures DecodeDataUri(DataScheme + (media + ";" + marker) + "," + Encode(AsciiBytes(text))) == Ok(text)
  {
    PlainJsonHeader(media, marker);
    DataUriRoundTrip(media + ";" + marker, text);
  }

  /**
    Text cut into pieces whose lengths are multiples of 3 (all but the last)
    encodes piece by piece.
   */
  lemma {:induction false} EncodePieces(texts: seq<string>, payloads: seq<string>)
    requires |texts| == |payloads| >= 1
    requires forall k :: 0 <= k < |texts| ==> IsAscii(texts[k]) && Encode(AsciiBytes(texts[k])) == payloads[k]
    requires forall k :: 0 <= k < |texts| - 1 ==> |texts[k]| % 3 == 0
    ensures IsAscii(Concat(texts))
    ensures Encode(AsciiBytes(Concat(texts))) == Concat(payloads)
    decreases |texts|
  {
    if |texts| == 1 {
      assert Concat(texts) == texts[0] + "";
      assert Concat(payloads) == payloads[0] + "";
      assert texts[0] + "" == texts[0] && payloads[0] + "" == payloads[0];
    } else {
      EncodePieces(texts[1..], payloads[1..]);
      AsciiBytesAppend(texts[0], Concat(texts[1..]));
      EncodeAppend(AsciiBytes(texts[0]), AsciiBytes(Concat(texts[1..])));
    }
  }
}
