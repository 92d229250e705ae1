/** What a response head says about the body that follows it. */
module HttpFraming {
  import opened Prelude
  import opened HttpSyntax
  import Decimal
  import Utf8

  /** Which part of a response the decoder is waiting for. */
  datatype StreamState = Headers | RawData(length: Option<nat>) | ChunkedData

  datatype Interpretation = Interpretation(state: StreamState, contentType: Option<string>)

  const CONTENT_TYPE: bytes := Ascii("content-type")
  const CONTENT_LENGTH: bytes := Ascii("content-length")
  const TRANSFER_ENCODING: bytes := Ascii("transfer-encoding")
  const CHUNKED: string := "chunked"

  function LowerByte(b: byte): byte {
    if 65 <= b <= 90 then b + 32 else b
  }

  function Lower(b: bytes): (l: bytes)
    ensures |l| == |b|
  {
    seq(|b|, i requires 0 <= i < |b| => LowerByte(b[i]))
  }

  /** Lower case, exact for every character whose lower case is a letter of "chunked" (U+212A is the Kelvin sign). */
  function LowerChar(c: char): char {
    if 'A' <= c <= 'Z' then c + 32 as char else if c == '\U{212A}' then 'k' else c
  }

  predicate StartsWithChunked(s: string) {
    |s| >= |CHUNKED| && forall i :: 0 <= i < |CHUNKED| ==> LowerChar(s[i]) == CHUNKED[i]
  }

  /** The length that a field announces, when it is a Content-Length the client can read. */
  function LengthOf(h: Header): Option<nat> {
    if Lower(h.name) == CONTENT_LENGTH && Utf8.Decode(h.value).Some? then Decimal.ParseUsize(h.value) else None
  }

  predicate IsChunked(h: Header) {
    && Lower(h.name) == TRANSFER_ENCODING
    && Utf8.Decode(h.value).Some?
    && StartsWithChunked(Utf8.Decode(h.value).value)
  }

  function ApplyHeader(i: Interpretation, h: Header): Interpretation {
    var name := Lower(h.name);
    if name == CONTENT_TYPE then i.(contentType := Utf8.Decode(h.value))
    else if name == CONTENT_LENGTH then
      match LengthOf(h) { case Some(n) => i.(state := RawData(Some(n))) case None => i }
    else if name == TRANSFER_ENCODING then
      if IsChunked(h) then i.(state := ChunkedData) else i
    else i
  }

  /** The fields are applied in the order in which they arrived. */
  function Interpret(headers: seq<Header>): (i: Interpretation)
    ensures !i.state.Headers?
  {
    if headers == [] then Interpretation(RawData(None), None)
    else ApplyHeader(Interpret(headers[..|headers| - 1]), headers[|headers| - 1])
  }

  predicate Frames(h: Header) {
    IsChunked(h) || LengthOf(h).Some?
  }

  lemma NamesDiffer()
    ensures CONTENT_TYPE != CONTENT_LENGTH && CONTENT_TYPE != TRANSFER_ENCODING && CONTENT_LENGTH != TRANSFER_ENCODING
  {
  }

  // ---- Which fields are heeded ------------------------------------------------------------------------------

  predicate IsLower(name: bytes) {
    forall i :: 0 <= i < |name| ==> !(65 <= name[i] <= 90)
  }

  /** Lower case and a comparison without regard to case are the same thing. */
  lemma LowerIsSameName(a: bytes, name: bytes)
    requires IsLower(name)
    ensures Lower(a) == name <==> SameName(a, name)
  {
    if |a| == |name| {
      forall i | 0 <= i < |a|
        ensures Lower(a)[i] == name[i] <==> SameLetter(a[i], name[i])
      {
      }
    }
  }

  lemma HeededNamesAreLower()
    ensures IsLower(CONTENT_TYPE) && IsLower(CONTENT_LENGTH) && IsLower(TRANSFER_ENCODING)
  {
  }

  /** The text begins with the letters of "chunked" in any case; the Kelvin sign is a capital K, too. */
  predicate SaysChunked(s: string) {
    && |s| >= 7
    && s[0] in {'c', 'C'} && s[1] in {'h', 'H'} && s[2] in {'u', 'U'} && s[3] in {'n', 'N'}
    && s[4] in {'k', 'K', '\U{212A}'} && s[5] in {'e', 'E'} && s[6] in {'d', 'D'}
  }

  lemma StartsAsItSays(s: string)
    ensures StartsWithChunked(s) <==> SaysChunked(s)
  {
    if |s| >= 7 {
      assert CHUNKED[0] == 'c' && CHUNKED[1] == 'h' && CHUNKED[2] == 'u' && CHUNKED[3] == 'n';
      assert CHUNKED[4] == 'k' && CHUNKED[5] == 'e' && CHUNKED[6] == 'd';
      assert StartsWithChunked(s) <==>
        LowerChar(s[0]) == 'c' && LowerChar(s[1]) == 'h' && LowerChar(s[2]) == 'u' && LowerChar(s[3]) == 'n' &&
        LowerChar(s[4]) == 'k' && LowerChar(s[5]) == 'e' && LowerChar(s[6]) == 'd';
    }
  }

  /** What a field says, told by its name without regard to case. */
  ghost predicate Heeded(i: Interpretation, h: Header, after: Interpretation) {
    var text := Utf8.Decode(h.value);
    if SameName(h.name, Ascii("content-type")) then after == i.(contentType := text)
    else if SameName(h.name, Ascii("content-length")) then
      after == if text.Some? && Decimal.ParseUsize(h.value).Some? then
                 i.(state := RawData(Decimal.ParseUsize(h.value))) else i
    else if SameName(h.name, Ascii("transfer-encoding")) then
      after == if text.Some? && SaysChunked(text.value) then i.(state := ChunkedData) else i
    else after == i
  }

  /** Exactly the three fields are heeded, whatever the case of their names. */
  lemma FieldsAreHeededByName(i: Interpretation, h: Header)
    ensures Heeded(i, h, ApplyHeader(i, h))
  {
    HeededNamesAreLower();
    NamesDiffer();
    LowerIsSameName(h.name, CONTENT_TYPE);
    LowerIsSameName(h.name, CONTENT_LENGTH);
    LowerIsSameName(h.name, TRANSFER_ENCODING);
    if Utf8.Decode(h.value).Some? {
      StartsAsItSays(Utf8.Decode(h.value).value);
    }
    hide Lower, SameName, SaysChunked, StartsWithChunked, Utf8.Decode, Decimal.ParseUsize;
  }

  /** The fields that frame, told by name and value. */
  lemma FramesByName(h: Header)
    ensures IsChunked(h) <==>
      SameName(h.name, Ascii("transfer-encoding")) && Utf8.Decode(h.value).Some? &&
      SaysChunked(Utf8.Decode(h.value).value)
    ensures LengthOf(h) == if SameName(h.name, Ascii("content-length")) && Utf8.Decode(h.value).Some? then
                             Decimal.ParseUsize(h.value) else None
  {
    HeededNamesAreLower();
    LowerIsSameName(h.name, CONTENT_LENGTH);
    LowerIsSameName(h.name, TRANSFER_ENCODING);
    if Utf8.Decode(h.value).Some? {
      StartsAsItSays(Utf8.Decode(h.value).value);
    }
    hide Lower, SameName, SaysChunked, StartsWithChunked, Utf8.Decode, Decimal.ParseUsize;
  }

  /** The type that the last Content-Type gives, if there is one and it is text. */
  function DeclaredType(headers: seq<Header>): Option<string> {
    if headers == [] then None
    else
      var last := headers[|headers| - 1];
      if SameName(last.name, Ascii("content-type")) then Utf8.Decode(last.value)
      else DeclaredType(headers[..|headers| - 1])
  }

  lemma {:induction false} TypeIsDeclared(headers: seq<Header>)
    ensures Interpret(headers).contentType == DeclaredType(headers)
  {
    hide SameName, Utf8.Decode, ApplyHeader;
    if headers != [] {
      TypeIsDeclared(headers[..|headers| - 1]);
      FieldsAreHeededByName(Interpret(headers[..|headers| - 1]), headers[|headers| - 1]);
    }
  }

  // ---- Which field frames -----------------------------------------------------------------------------------

  /** The last of the fields that frame. */
  ghost predicate FramesLast(headers: seq<Header>, i: nat) {
    i < |headers| && Frames(headers[i]) && forall j :: i < j < |headers| ==> !Frames(headers[j])
  }

  /** The framing is that of the last field that frames, whichever kind it is. */
  lemma {:induction false} LastFramingFieldWins(headers: seq<Header>, i: nat)
    requires FramesLast(headers, i)
    ensures Interpret(headers).state == if IsChunked(headers[i]) then ChunkedData else RawData(LengthOf(headers[i]))
  {
    var before, last := headers[..|headers| - 1], headers[|headers| - 1];
    ApplyFrames(Interpret(before), last);
    hide IsChunked, LengthOf, ApplyHeader;
    if i < |headers| - 1 {
      LastFramingFieldWins(before, i);
    }
  }

  /** Without such a field the body runs to the end of the connection. */
  lemma {:induction false} WithoutFramingToTheEnd(headers: seq<Header>)
    requires forall i :: 0 <= i < |headers| ==> !Frames(headers[i])
    ensures Interpret(headers).state == RawData(None)
  {
    if headers != [] {
      hide IsChunked, LengthOf, ApplyHeader;
      WithoutFramingToTheEnd(headers[..|headers| - 1]);
      ApplyFrames(Interpret(headers[..|headers| - 1]), headers[|headers| - 1]);
    }
  }

  lemma {:induction false} SomeFieldIsLast(headers: seq<Header>, i: nat) returns (last: nat)
    requires i < |headers| && Frames(headers[i])
    ensures FramesLast(headers, last) && i <= last
    decreases |headers| - i
  {
    hide Frames;
    last := i;
    if !FramesLast(headers, i) {
      var j :| i < j < |headers| && Frames(headers[j]);
      last := SomeFieldIsLast(headers, j);
    }
  }

  lemma ApplyFrames(i: Interpretation, h: Header)
    ensures ApplyHeader(i, h).state ==
      if IsChunked(h) then ChunkedData else if LengthOf(h).Some? then RawData(LengthOf(h)) else i.state
    ensures !(IsChunked(h) && LengthOf(h).Some?)
  {
    hide StartsWithChunked, Utf8.Decode, Decimal.ParseUsize, Lower;
    NamesDiffer();
  }

  /** A field that the client takes for a chunked Transfer-Encoding overrides the lengths exactly when no readable
    * Content-Length comes after the last such field. */
  lemma ChunkedOverridesLengthExactly(headers: seq<Header>, last: nat)
    requires last < |headers| && IsChunked(headers[last])
    requires forall j :: last < j < |headers| ==> !IsChunked(headers[j])
    ensures Interpret(headers).state.ChunkedData? <==> forall j :: last < j < |headers| ==> LengthOf(headers[j]).None?
  {
    hide IsChunked, LengthOf, Interpret;
    if forall j :: last < j < |headers| ==> LengthOf(headers[j]).None? {
      LastFramingFieldWins(headers, last);
    } else {
      var j: nat :| last < j < |headers| && LengthOf(headers[j]).Some?;
      var k := SomeFieldIsLast(headers, j);
      LastFramingFieldWins(headers, k);
    }
  }

  const SAMPLE_CHUNKED: Header := Header(TRANSFER_ENCODING, Ascii("chunked"))
  const SAMPLE_LENGTH: Header := Header(CONTENT_LENGTH, Decimal.Octets(0))

  /** Of the same two fields the client takes whichever comes last. */
  lemma LengthAfterChunkedIsTakenInstead()
    ensures Interpret([SAMPLE_CHUNKED, SAMPLE_LENGTH]).state == RawData(Some(0))
    ensures Interpret([SAMPLE_LENGTH, SAMPLE_CHUNKED]).state == ChunkedData
  {
    CanonicalChunked();
    CanonicalLength(0);
    hide IsChunked, LengthOf, Interpret;
    ApplyFrames(Interpretation(RawData(None), None), SAMPLE_LENGTH);
    LastFramingFieldWins([SAMPLE_CHUNKED, SAMPLE_LENGTH], 1);
    LastFramingFieldWins([SAMPLE_LENGTH, SAMPLE_CHUNKED], 1);
  }

  lemma CanonicalChunked()
    ensures IsChunked(Header(TRANSFER_ENCODING, Ascii(CHUNKED)))
  {
    hide Utf8.Decode, Utf8.Encode;
    assert Lower(TRANSFER_ENCODING) == TRANSFER_ENCODING;
    EncodeAscii(CHUNKED);
    Utf8.DecodeEncode(CHUNKED);
  }

  lemma CanonicalLength(n: nat)
    requires n < Decimal.USIZE_LIMIT
    ensures LengthOf(Header(CONTENT_LENGTH, Decimal.Octets(n))) == Some(n)
  {
    assert Lower(CONTENT_LENGTH) == CONTENT_LENGTH;
    assert Ascii(Decimal.Text(n)) == Decimal.Octets(n);
    EncodeAscii(Decimal.Text(n));
    Utf8.DecodeEncode(Decimal.Text(n));
    Decimal.ParseOctets(n);
  }

  lemma {:induction false} EncodeAscii(s: string)
    requires IsAscii(s)
    ensures Utf8.Encode(s) == Ascii(s)
  {
    if s != [] {
      EncodeAscii(s[1..]);
      assert Ascii(s) == [Ascii(s)[0]] + Ascii(s[1..]);
    }
  }
}
