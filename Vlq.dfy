/**
  The Base64 VLQ numbers of the source map `mappings` field (Source Map
  Revision 3, "Base64 VLQ"). Each base64 digit carries 5 bits of the number
  and a continuation bit (value 32); digits come least significant first.
  The lowest bit of the assembled number is the sign, the rest the
  magnitude.
 */
module Vlq {
  import opened Results
  import opened Base64

  const Continuation: nat := 32

  /**
    The unsigned number at the front of `s` and how many characters it
    takes. A digit without the continuation bit ends the number.
   */
  function DecodeDigits(s: string): (r: Result<(nat, nat), DecodeError>)
    ensures r.Ok? ==> 1 <= r.value.1 <= |s|
    ensures |s| == 0 ==> r == Err(TruncatedVlq)
    ensures |s| > 0 && !IsBase64Char(s[0]) ==> r == Err(InvalidVlqDigit)
  {
    if |s| == 0 then Err(TruncatedVlq)
    else if !IsBase64Char(s[0]) then Err(InvalidVlqDigit)
    else
      var d := SextetOf(s[0]);
      if d < Continuation then Ok((d, 1))
      else match DecodeDigits(s[1..])
        case Err(e) => Err(e)
        case Ok((v, n)) => Ok((d - Continuation + Continuation * v, n + 1))
  }

  /** The digits of an unsigned number, least significant 5 bits first. */
  function EncodeDigits(raw: nat): (s: string)
    ensures |s| >= 1
    ensures forall i :: 0 <= i < |s| ==> IsBase64Char(s[i])
    decreases raw
  {
    if raw < Continuation then [CharOf(raw)]
    else [CharOf(raw % Continuation + Continuation)] + EncodeDigits(raw / Continuation)
  }

  /** The signed value of a raw number: the low bit is the sign. */
  function FromRaw(raw: nat): int
  {
    if raw % 2 == 1 then -(raw / 2) else raw / 2
  }

  /** The raw number of a signed value. */
  function ToRaw(v: int): (raw: nat)
    ensures FromRaw(raw) == v
    ensures v < 0 <==> raw % 2 == 1
  {
    if v < 0 then -v * 2 + 1 else v * 2
  }

  /** Every raw number but 1 (a "negative zero") is the raw form of its value. */
  lemma RawOfValue(raw: nat)
    requires raw != 1
    ensures ToRaw(FromRaw(raw)) == raw
  {
  }

  /** The digits of a number decode to it, whatever follows them. */
  lemma {:induction false} DecodeEncodeDigits(raw: nat, tail: string)
    ensures DecodeDigits(EncodeDigits(raw) + tail) == Ok((raw, |EncodeDigits(raw)|))
    decreases raw
  {
    var s := EncodeDigits(raw) + tail;
    if raw < Continuation {
      SextetOfCharOf(raw);
    } else {
      var d := raw % Continuation + Continuation;
      SextetOfCharOf(d);
      assert s[1..] == EncodeDigits(raw / Continuation) + tail;
      DecodeEncodeDigits(raw / Continuation, tail);
    }
  }

  /** The values of one segment: VLQ numbers back to back up to its end. */
  function DecodeValues(s: string): (r: Result<seq<int>, DecodeError>)
    ensures r.Ok? ==> |r.value| <= |s|
    ensures s == "" ==> r == Ok([])
    decreases |s|
  {
    if s == "" then Ok([])
    else match DecodeDigits(s)
      case Err(e) => Err(e)
      case Ok((raw, n)) =>
        match DecodeValues(s[n..])
        case Err(e) => Err(e)
        case Ok(vs) => Ok([FromRaw(raw)] + vs)
  }

  /** The text of a segment of values. */
  function EncodeValues(vs: seq<int>): (s: string)
    ensures (s == "") <==> (vs == [])
  {
    if vs == [] then "" else EncodeDigits(ToRaw(vs[0])) + EncodeValues(vs[1..])
  }

  /** Encoding values as VLQ text and decoding it gives the values back. */
  lemma {:induction false} DecodeEncodeValues(vs: seq<int>)
    ensures DecodeValues(EncodeValues(vs)) == Ok(vs)
    decreases |vs|
  {
    if vs != [] {
      var head := EncodeDigits(ToRaw(vs[0]));
      var s := EncodeValues(vs);
      DecodeEncodeDigits(ToRaw(vs[0]), EncodeValues(vs[1..]));
      assert s[|head|..] == EncodeValues(vs[1..]);
      DecodeEncodeValues(vs[1..]);
      assert [vs[0]] + vs[1..] == vs;
    }
  }

  /** A segment of values is written in the base64 alphabet only. */
  lemma {:induction false} EncodeValuesAlphabet(vs: seq<int>)
    ensures forall i :: 0 <= i < |EncodeValues(vs)| ==> IsBase64Char(EncodeValues(vs)[i])
    decreases |vs|
  {
    if vs != [] {
      var head := EncodeDigits(ToRaw(vs[0]));
      var s := EncodeValues(vs);
      EncodeValuesAlphabet(vs[1..]);
      forall i | 0 <= i < |s|
        ensures IsBase64Char(s[i])
      {
        if i >= |head| {
          assert s[i] == EncodeValues(vs[1..])[i - |head|];
        }
      }
    }
  }

  /** `AAAA`, the segment of the inline example map, is four zeros. */
  lemma ZeroSegment(s: string)
    requires s == "AAAA"
    ensures DecodeValues(s) == Ok([0, 0, 0, 0])
  {
    assert EncodeValues([0, 0, 0, 0]) == s;
    DecodeEncodeValues([0, 0, 0, 0]);
  }
}
