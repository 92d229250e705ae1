/** Section 3.3.3 of RFC 7230 in its own terms: how long the body of a message is. And when the client sees it so. */
module HttpMessageLength {
  import opened Prelude
  import opened HttpSyntax
  import opened HttpFraming
  import Decimal
  import Utf8

  const COMMA: byte := 44
  const DQUOTE: byte := 34
  const BACKSLASH: byte := 92
  const CHUNKED_CODING: bytes := [99, 104, 117, 110, 107, 101, 100]

  /** The fields with this name, in order. */
  function Named(headers: seq<Header>, name: bytes): (r: seq<Header>)
    ensures forall h :: h in r <==> h in headers && SameName(h.name, name)
  {
    if headers == [] then []
    else if SameName(headers[0].name, name) then [headers[0]] + Named(headers[1..], name)
    else Named(headers[1..], name)
  }

  // ---- Transfer codings -------------------------------------------------------------------------------------

  function TrimLeft(v: bytes): bytes {
    if v != [] && IsBlank(v[0]) then TrimLeft(v[1..]) else v
  }

  function Trim(v: bytes): bytes {
    TrimRight(TrimLeft(v))
  }

  /** The same list with some octets put in front of its first element. */
  function Before(octets: bytes, elements: seq<bytes>): (r: seq<bytes>)
    requires elements != []
    ensures |r| == |elements|
  {
    [octets + elements[0]] + elements[1..]
  }

  /** The elements of a list (section 7 of RFC 7230): between the commas that do not stand in a quoted string. */
  function Elements(v: bytes, quoted: bool): (elements: seq<bytes>)
    ensures elements != []
    decreases |v|
  {
    if v == [] then [[]]
    else if quoted && v[0] == BACKSLASH && |v| > 1 then Before(v[..2], Elements(v[2..], true))
    else if v[0] == DQUOTE then Before(v[..1], Elements(v[1..], !quoted))
    else if v[0] == COMMA && !quoted then [[]] + Elements(v[1..], false)
    else Before(v[..1], Elements(v[1..], quoted))
  }

  /** The last element that is not empty. */
  function LastElement(elements: seq<bytes>): Option<bytes> {
    if elements == [] then None
    else
      var last := Trim(elements[|elements| - 1]);
      if last != [] then Some(last) else LastElement(elements[..|elements| - 1])
  }

  /** The coding applied last, over all fields together. */
  function FinalCoding(fields: seq<Header>): Option<bytes> {
    if fields == [] then None
    else
      match LastElement(Elements(fields[|fields| - 1].value, false))
      case Some(coding) => Some(coding)
      case None => FinalCoding(fields[..|fields| - 1])
  }

  /** Codings, too, are compared without regard to case. */
  predicate IsFinallyChunked(fields: seq<Header>) {
    var coding := FinalCoding(fields);
    coding.Some? && SameName(coding.value, CHUNKED_CODING)
  }

  // ---- Lengths ----------------------------------------------------------------------------------------------

  /** A Content-Length is a decimal number of any size. */
  function Announced(h: Header): Option<nat> {
    if h.value != [] && Decimal.AllDigits(h.value) then Some(Decimal.Value(Decimal.DigitsOf(h.value))) else None
  }

  /** Several fields must announce the same length. */
  function CommonLength(fields: seq<Header>): Option<nat>
    requires fields != []
  {
    if forall h :: h in fields ==>
      Announced(h).Some? && Announced(h) == Announced(fields[0]) then Announced(fields[0]) else None
  }

  // ---- Message bodies ---------------------------------------------------------------------------------------

  datatype Body = NoBody | Chunked | Sized(length: nat) | ToTheEnd | Invalid

  predicate NeverHasABody(code: nat) {
    100 <= code < 200 || code == 204 || code == 304
  }

  /** The body of a response, other than to HEAD and CONNECT, which the client does not send. */
  function ResponseBody(code: nat, headers: seq<Header>): Body {
    var codings, lengths := Named(headers, TRANSFER_ENCODING), Named(headers, CONTENT_LENGTH);
    if NeverHasABody(code) then NoBody
    else if codings != [] then if IsFinallyChunked(codings) then Chunked else ToTheEnd
    else if lengths != [] then match CommonLength(lengths) { case Some(n) => Sized(n) case None => Invalid }
    else ToTheEnd
  }

  /** The body of a request. */
  function RequestBody(headers: seq<Header>): Body {
    var codings, lengths := Named(headers, TRANSFER_ENCODING), Named(headers, CONTENT_LENGTH);
    if codings != [] then if IsFinallyChunked(codings) then Chunked else Invalid
    else if lengths != [] then match CommonLength(lengths) { case Some(n) => Sized(n) case None => Invalid }
    else NoBody
  }

  // ---- The client's view ------------------------------------------------------------------------------------

  /** The state in which the client should be after the head of a response with this body. There is none for a message
    * that is to be given up. */
  function StateFor(body: Body): Option<StreamState> {
    match body
    case NoBody => Some(RawData(Some(0)))
    case Chunked => Some(ChunkedData)
    case Sized(n) => Some(RawData(Some(n)))
    case ToTheEnd => Some(RawData(None))
    case Invalid => None
  }

  /** The last field that the client frames by has this property. */
  ghost predicate LastFraming(headers: seq<Header>, p: Header -> bool) {
    exists i: nat :: FramesLast(headers, i) && p(headers[i])
  }

  predicate AnnouncesZero(h: Header) {
    LengthOf(h) == Some(0)
  }

  /** What must be so of the fields: for a status without body, that the last framing field announces 0; with a final
    * chunked coding, that the last framing field is one that the client takes for chunked; with another final coding,
    * that no field frames; with lengths only, that they are the same and fit into a machine word. */
  ghost predicate FieldsFit(code: nat, headers: seq<Header>) {
    var codings, lengths := Named(headers, TRANSFER_ENCODING), Named(headers, CONTENT_LENGTH);
    if NeverHasABody(code) then LastFraming(headers, AnnouncesZero)
    else if codings != [] then
      if IsFinallyChunked(codings) then LastFraming(headers, IsChunked)
      else forall h :: h in headers ==> !Frames(h)
    else lengths != [] ==> CommonLength(lengths).Some? && CommonLength(lengths).value < Decimal.USIZE_LIMIT
  }

  /** The client frames a response as section 3.3.3 of RFC 7230 says exactly when its fields fit. */
  lemma FramingAgreesExactly(code: nat, headers: seq<Header>)
    ensures StateFor(ResponseBody(code, headers)) == Some(Interpret(headers).state) <==> FieldsFit(code, headers)
  {
    hide Interpret, IsChunked, LengthOf, FinalCoding, CommonLength;
    ClientFrames(headers);
    if Named(headers, TRANSFER_ENCODING) == [] {
      WithoutCodings(headers);
    }
  }

  /** The client's state in terms of its last framing field. */
  lemma ClientFrames(headers: seq<Header>)
    ensures Interpret(headers).state == ChunkedData <==> LastFraming(headers, IsChunked)
    ensures Interpret(headers).state == RawData(Some(0)) <==> LastFraming(headers, AnnouncesZero)
    ensures Interpret(headers).state == RawData(None) <==> forall h :: h in headers ==> !Frames(h)
  {
    hide Interpret, IsChunked, LengthOf, ApplyHeader;
    if i: nat :| i < |headers| && Frames(headers[i]) {
      var last := SomeFieldIsLast(headers, i);
      LastFramingFieldWins(headers, last);
      OneKindOnly(headers[last]);
      assert headers[last] in headers;
    } else {
      forall h | h in headers
        ensures !Frames(h)
      {
        var i :| 0 <= i < |headers| && headers[i] == h;
      }
      WithoutFramingToTheEnd(headers);
    }
  }

  lemma OneKindOnly(h: Header)
    ensures !(IsChunked(h) && LengthOf(h).Some?)
  {
    NamesDiffer();
    hide Lower, StartsWithChunked;
  }

  /** Without a coding the client has only the lengths to go by, and reads those that fit into a machine word. */
  lemma WithoutCodings(headers: seq<Header>)
    requires Named(headers, TRANSFER_ENCODING) == []
    ensures var lengths := Named(headers, CONTENT_LENGTH);
      && (lengths == [] ==> Interpret(headers).state == RawData(None))
      && (lengths != [] && CommonLength(lengths).Some? ==>
            (Interpret(headers).state == RawData(CommonLength(lengths)) <==>
             CommonLength(lengths).value < Decimal.USIZE_LIMIT))
  {
    hide Interpret, IsChunked, LengthOf, ApplyHeader;
    var lengths := Named(headers, CONTENT_LENGTH);
    forall h | h in headers
      ensures !IsChunked(h) && (LengthOf(h).Some? ==> h in lengths)
    {
      assert h !in Named(headers, TRANSFER_ENCODING);
      FramesByName(h);
    }
    if lengths != [] && CommonLength(lengths).Some? {
      var n := CommonLength(lengths).value;
      forall h | h in lengths
        ensures LengthOf(h) == if n < Decimal.USIZE_LIMIT then Some(n) else None
      {
        AnnouncedIsRead(h);
      }
      if n < Decimal.USIZE_LIMIT {
        assert lengths[0] in lengths;
        var i :| 0 <= i < |headers| && headers[i] == lengths[0];
        var last := SomeFieldIsLast(headers, i);
        assert headers[last] in headers;
        LastFramingFieldWins(headers, last);
      } else {
        WithoutFramingToTheEnd(headers);
      }
    } else if lengths == [] {
      WithoutFramingToTheEnd(headers);
    }
  }

  /** The client reads a decimal number as the length it announces, unless it is too large. */
  lemma AnnouncedIsRead(h: Header)
    requires SameName(h.name, CONTENT_LENGTH) && Announced(h).Some?
    ensures LengthOf(h) == if Announced(h).value < Decimal.USIZE_LIMIT then Announced(h) else None
  {
    hide SameName, Utf8.Decode, Utf8.Encode, LengthOf;
    FramesByName(h);
    DigitsAreText(h.value);
    assert Decimal.IsDigit(h.value[0]);
  }

  lemma DigitsAreText(v: bytes)
    requires Decimal.AllDigits(v)
    ensures Utf8.Decode(v).Some?
  {
    hide Utf8.Decode, Utf8.Encode;
    assert forall i :: 0 <= i < |v| ==> Decimal.IsDigit(v[i]);
    var s := seq(|v|, i requires 0 <= i < |v| => v[i] as char);
    EncodeAscii(s);
    assert Ascii(s) == v;
    Utf8.DecodeEncode(s);
  }

  // ---- Lists of codings -------------------------------------------------------------------------------------

  predicate IsPlainOctet(b: byte) {
    b != COMMA && b != DQUOTE
  }

  lemma {:induction false} FirstElement(v: bytes, rest: bytes)
    requires forall i :: 0 <= i < |v| ==> IsPlainOctet(v[i])
    ensures Elements(v + rest, false) == Before(v, Elements(rest, false))
  {
    if v == [] {
      assert v + rest == rest;
      var e := Elements(rest, false);
      assert v + e[0] == e[0] && e == [e[0]] + e[1..];
    } else {
      FirstElement(v[1..], rest);
      assert (v + rest)[1..] == v[1..] + rest && (v + rest)[..1] == v[..1];
      assert v[..1] + (v[1..] + Elements(rest, false)[0]) == v + Elements(rest, false)[0];
    }
  }

  /** A coding, with parameters or without, as long as nothing in it is quoted. */
  predicate IsCoding(s: string) {
    && s != "" && (forall i :: 0 <= i < |s| ==> ' ' <= s[i] <= '~' && s[i] != ',' && s[i] != '"')
    && s[0] != ' ' && s[|s| - 1] != ' '
  }

  lemma CodingsArePlain(s: string)
    requires IsCoding(s)
    ensures IsAscii(s) && Trim(Ascii(s)) == Trim([SP] + Ascii(s)) == Ascii(s)
    ensures forall i :: 0 <= i < |s| ==> IsPlainOctet(Ascii(s)[i])
  {
    assert ([SP] + Ascii(s))[1..] == Ascii(s);
    assert !IsBlank(Ascii(s)[0]) && !IsBlank(Ascii(s)[|s| - 1]);
  }

  /** Two codings, as a field value. */
  function TwoCodings(first: string, second: string): string {
    first + ", " + second
  }

  lemma SecondIsFinal(first: string, second: string)
    requires IsCoding(first) && IsCoding(second)
    ensures IsAscii(TwoCodings(first, second))
    ensures FinalCoding([Header(TRANSFER_ENCODING, Ascii(TwoCodings(first, second)))]) == Some(Ascii(second))
  {
    CodingsArePlain(first);
    CodingsArePlain(second);
    var a, b, v := Ascii(first), Ascii(second), Ascii(TwoCodings(first, second));
    assert v == a + [COMMA, SP] + b;
    TwoElements(a, b);
    hide Elements, LastElement;
    assert [Header(TRANSFER_ENCODING, v)][..0] == [];
  }

  lemma TwoElements(a: bytes, b: bytes)
    requires b != [] && Trim([SP] + b) == b
    requires forall i :: 0 <= i < |a| ==> IsPlainOctet(a[i])
    requires forall i :: 0 <= i < |b| ==> IsPlainOctet(b[i])
    ensures LastElement(Elements(a + [COMMA, SP] + b, false)) == Some(b)
  {
    hide Trim, LastElement;
    var c := [SP] + b;
    assert a + [COMMA, SP] + b == a + ([COMMA] + c);
    FirstElement(a, [COMMA] + c);
    assert ([COMMA] + c)[1..] == c;
    FirstElement(c, []);
    hide Elements;
    assert c + [] == c && Before(c, [[]]) == [c];
    LastOfTwo(Elements(a + [COMMA, SP] + b, false));
  }

  lemma LastOfTwo(elements: seq<bytes>)
    requires elements != [] && Trim(elements[|elements| - 1]) != []
    ensures LastElement(elements) == Some(Trim(elements[|elements| - 1]))
  {
  }

  /** Lists of codings on which the client and section 3.3.3 of RFC 7230 disagree: with a coding after `chunked` the
    * body runs to the end of the connection, with one before it the body is chunked; the client looks at the beginning
    * of the field and sees the opposite. */
  lemma CodingListsAreMisread(code: nat, other: string)
    requires IsCoding(other) && !NeverHasABody(code) && !StartsWithChunked(other)
    ensures IsAscii(TwoCodings(CHUNKED, other)) && IsAscii(TwoCodings(other, CHUNKED))
    ensures var headers := [Header(TRANSFER_ENCODING, Ascii(TwoCodings(CHUNKED, other)))];
      ResponseBody(code, headers) == ToTheEnd && Interpret(headers).state == ChunkedData
    ensures var headers := [Header(TRANSFER_ENCODING, Ascii(TwoCodings(other, CHUNKED)))];
      ResponseBody(code, headers) == Chunked && Interpret(headers).state == RawData(None)
  {
    SecondIsFinal(CHUNKED, other);
    SecondIsFinal(other, CHUNKED);
    ChunkedCoding();
    OtherIsOther(other);
    FirstIsFirst(other, CHUNKED);
    OneField(TwoCodings(CHUNKED, other));
    OneField(TwoCodings(other, CHUNKED));
    hide FinalCoding, Interpret, StartsWithChunked, Ascii;
  }

  lemma StartsWithItself(rest: string)
    ensures StartsWithChunked(CHUNKED + rest)
  {
    var s := CHUNKED + rest;
    forall i | 0 <= i < |CHUNKED|
      ensures LowerChar(s[i]) == CHUNKED[i]
    {
      assert s[i] == CHUNKED[i] && 'a' <= CHUNKED[i] <= 'z';
    }
  }

  lemma OtherIsOther(other: string)
    requires IsCoding(other) && !StartsWithChunked(other)
    ensures IsAscii(other) && !SameName(Ascii(other), CHUNKED_CODING) && StartsWithChunked(TwoCodings(CHUNKED, other))
  {
    SplitCodings(CHUNKED, other);
    StartsWithItself(", " + other);
    if SameName(Ascii(other), CHUNKED_CODING) {
      LowersToChunked(other);
    }
  }

  lemma NoCommaInChunked()
    ensures LowerChar(',') == ',' && forall i :: 0 <= i < |CHUNKED| ==> 'a' <= CHUNKED[i] <= 'z'
  {
  }

  /** A list begins as its first coding does. */
  lemma FirstIsFirst(first: string, second: string)
    ensures StartsWithChunked(TwoCodings(first, second)) ==> StartsWithChunked(first)
  {
    var s := TwoCodings(first, second);
    assert forall i :: 0 <= i < |first| ==> s[i] == first[i];
    assert s[|first|] == ',';
    NoCommaInChunked();
  }

  lemma LowersToChunked(s: string)
    requires IsAscii(s) && SameName(Ascii(s), CHUNKED_CODING)
    ensures StartsWithChunked(s)
  {
    ChunkedCoding();
    forall i | 0 <= i < |CHUNKED|
      ensures LowerChar(s[i]) == CHUNKED[i]
    {
      assert SameLetter(Ascii(s)[i], CHUNKED_CODING[i]) && CHUNKED_CODING[i] == Ascii(CHUNKED)[i];
    }
  }

  lemma SplitCodings(first: string, second: string)
    ensures TwoCodings(first, second) == first + (", " + second) == first + ", " + second
  {
  }

  lemma ChunkedCoding()
    ensures IsAscii(CHUNKED) && Ascii(CHUNKED) == CHUNKED_CODING && SameName(CHUNKED_CODING, CHUNKED_CODING) &&
      IsCoding(CHUNKED)
  {
  }

  /** What the client makes of a single coding field. */
  lemma OneField(value: string)
    requires IsAscii(value)
    ensures var headers := [Header(TRANSFER_ENCODING, Ascii(value))];
      && Named(headers, TRANSFER_ENCODING) == headers && Named(headers, CONTENT_LENGTH) == []
      && Interpret(headers).state == if StartsWithChunked(value) then ChunkedData else RawData(None)
  {
    var h := Header(TRANSFER_ENCODING, Ascii(value));
    NamesDiffer();
    assert SameName(TRANSFER_ENCODING, TRANSFER_ENCODING);
    FramesByName(h);
    StartsAsItSays(value);
    hide SameName, SaysChunked, LengthOf, Utf8.Encode, Utf8.Decode, StartsWithChunked;
    EncodeAscii(value);
    Utf8.DecodeEncode(value);
    assert IsChunked(h) <==> StartsWithChunked(value);
    hide Interpret;
    if IsChunked(h) {
      LastFramingFieldWins([h], 0);
    } else {
      WithoutFramingToTheEnd([h]);
    }
  }
}
