/** Responses as a server writes them, and the proof that the client's decoder reads them back. */
module HttpMessage {
  import opened Prelude
  import opened Network
  import opened HttpSyntax
  import opened HttpFraming
  import opened HttpParser
  import opened HttpStream
  import HttpMessageLength

  // ---- Chunk sizes ------------------------------------------------------------------------------------------

  function HexDigit(d: nat): byte
    requires d < 16
  {
    if d < 10 then (48 + d) as byte else (87 + d) as byte
  }

  /** The digits are read in either case, and nothing else is. */
  lemma HexDigitsExactly(b: byte, d: nat)
    requires d < 16
    ensures HexValue(b) == Some(d) <==> SameLetter(b, HexDigit(d))
  {
  }

  function HexOf(n: nat): (h: bytes)
    ensures |h| > 0
  {
    if n < 16 then [HexDigit(n)] else HexOf(n / 16) + [HexDigit(n % 16)]
  }

  function Pow16(k: nat): nat {
    if k == 0 then 1 else 16 * Pow16(k - 1)
  }

  lemma {:induction false} HexLength(n: nat, k: nat)
    requires 0 < k && n < Pow16(k)
    ensures |HexOf(n)| <= k
  {
    if n >= 16 {
      HexLength(n / 16, k - 1);
    }
  }

  lemma {:induction false} ScanHex(n: nat, rest: bytes)
    requires |HexOf(n)| <= 16
    ensures ScanSize(SIZE_START, HexOf(n) + rest) == ScanSize(SizeScan(Hex(|HexOf(n)|), n), rest).Shift(|HexOf(n)|)
    decreases n
  {
    if n < 16 {
      assert (HexOf(n) + rest)[1..] == rest;
    } else {
      var tail := [HexDigit(n % 16)] + rest;
      assert HexOf(n) + rest == HexOf(n / 16) + tail;
      ScanHex(n / 16, tail);
      assert tail[1..] == rest;
    }
  }

  /** The canonical size line of section 4.1 of RFC 7230: hexadecimal digits and a line end. */
  function SizeLine(n: nat): bytes {
    HexOf(n) + CRLF
  }

  lemma SizesFit(n: nat)
    requires n < Decimal.USIZE_LIMIT
    ensures |HexOf(n)| <= 16
  {
    assert Pow16(16) == Decimal.USIZE_LIMIT by {
      assert Pow16(4) == 0x1_0000;
      assert Pow16(8) == 0x1_0000 * Pow16(4);
      assert Pow16(12) == 0x1_0000 * Pow16(8);
      assert Pow16(16) == 0x1_0000 * Pow16(12);
    }
    HexLength(n, 16);
  }

  lemma SizeLineReadsBack(n: nat)
    requires n < Decimal.USIZE_LIMIT
    ensures ParseChunkSize(SizeLine(n)) == SizeComplete(|SizeLine(n)|, n)
  {
    SizesFit(n);
    ScanHex(n, CRLF);
    var s := SizeScan(Hex(|HexOf(n)|), n);
    assert CRLF[1..] == [LF] && CRLF[1..][1..] == [];
    assert ScanSize(s.To(SizeCr), CRLF[1..]) == ScanSize(s.To(SizeDone), []).Shift(1);
  }

  /** A size line with a chunk extension, perhaps after some blanks. */
  function ExtendedSizeLine(n: nat, blanks: bytes, extension: bytes): bytes {
    HexOf(n) + (blanks + [59] + (extension + CRLF))
  }

  lemma {:induction false} ScanBlanks(s: SizeScan, blanks: bytes, rest: bytes)
    requires s.phase.Hex? || s.phase.Blanks?
    requires forall i :: 0 <= i < |blanks| ==> IsBlank(blanks[i])
    ensures ScanSize(s, blanks + [59] + rest) == ScanSize(s.To(Extension), rest).Shift(|blanks| + 1)
    decreases |blanks|
  {
    var b := blanks + [59] + rest;
    if blanks == [] {
      assert b[1..] == rest;
    } else {
      assert b[1..] == blanks[1..] + [59] + rest;
      ScanBlanks(s.To(Blanks), blanks[1..], rest);
    }
  }

  lemma {:induction false} ScanExtension(s: SizeScan, extension: bytes)
    requires s.phase.Extension? && CR !in extension
    ensures ScanSize(s, extension + CRLF) == SizeComplete(|extension| + 2, s.size)
    decreases |extension|
  {
    var b := extension + CRLF;
    if extension == [] {
      assert b[1..] == [LF] && b[1..][1..] == [];
      assert ScanSize(s.To(SizeCr), b[1..]) == ScanSize(s.To(SizeDone), []).Shift(1);
    } else {
      assert b[1..] == extension[1..] + CRLF;
      assert extension[0] in extension;
      ScanExtension(s, extension[1..]);
    }
  }

  /** Extensions do not matter. */
  lemma ExtendedSizeLineReadsBack(n: nat, blanks: bytes, extension: bytes)
    requires n < Decimal.USIZE_LIMIT && CR !in extension
    requires forall i :: 0 <= i < |blanks| ==> IsBlank(blanks[i])
    ensures ParseChunkSize(ExtendedSizeLine(n, blanks, extension)) ==
      SizeComplete(|ExtendedSizeLine(n, blanks, extension)|, n)
  {
    hide ScanSize, HexOf;
    SizesFit(n);
    ScanHex(n, blanks + [59] + (extension + CRLF));
    ScanBlanks(SizeScan(Hex(|HexOf(n)|), n), blanks, extension + CRLF);
    ScanExtension(SizeScan(Extension, n), extension);
  }

  // ---- Chunked bodies ---------------------------------------------------------------------------------------

  /** A chunk on the wire: any size line the scanner accepts, the data, and the two octets that end it. */
  datatype Chunk = Chunk(line: bytes, data: bytes, after: bytes) {
    predicate Valid() {
      ParseChunkSize(line) == SizeComplete(|line|, |data|) && |after| == 2
    }

    function Wire(): bytes {
      line + data + after
    }
  }

  function CanonicalChunk(data: bytes): Chunk {
    Chunk(SizeLine(|data|), data, CRLF)
  }

  predicate ValidChunks(chunks: seq<Chunk>) {
    forall i :: 0 <= i < |chunks| ==> chunks[i].Valid() && chunks[i].data != []
  }

  function ChunksWire(chunks: seq<Chunk>): bytes {
    if chunks == [] then [] else chunks[0].Wire() + ChunksWire(chunks[1..])
  }

  function ChunksData(chunks: seq<Chunk>): bytes {
    if chunks == [] then [] else chunks[0].data + ChunksData(chunks[1..])
  }

  lemma OneChunk(chunk: Chunk, partial: Response, rest: bytes)
    requires chunk.Valid()
    ensures Step(Parser(chunk.Wire() + rest, ChunkedData, partial)) ==
      if chunk.data == [] then Deliver(partial, Between(rest))
      else Go(Parser(rest, ChunkedData, partial.(data := partial.data + chunk.data)))
  {
    var b := chunk.Wire() + rest;
    var read, size := |chunk.line|, |chunk.data|;
    assert b == chunk.line + (chunk.data + chunk.after + rest);
    SizeStable(SIZE_START, chunk.line, chunk.data + chunk.after + rest);
    assert b[read + size + 2..] == rest;
    assert b[read..read + size] == chunk.data;
  }

  /** A chunked body is delivered as the concatenation of its chunks, and exactly what follows it is left over. */
  lemma {:induction false} ChunkedRoundTrip(chunks: seq<Chunk>, last: Chunk, partial: Response, rest: bytes)
    requires ValidChunks(chunks) && last.Valid() && last.data == []
    ensures Advance(Parser(ChunksWire(chunks) + last.Wire() + rest, ChunkedData, partial)) ==
      Emit(partial.(data := partial.data + ChunksData(chunks)), Between(rest))
    decreases |chunks|
  {
    hide Step;
    if chunks == [] {
      OneChunk(last, partial, rest);
      assert ChunksWire(chunks) + last.Wire() + rest == last.Wire() + rest;
      assert partial.data + [] == partial.data;
    } else {
      hide ChunksWire, ChunksData, Chunk.Wire;
      var more := ChunksWire(chunks[1..]) + last.Wire() + rest;
      OneChunk(chunks[0], partial, more);
      FirstChunk(chunks, last.Wire(), rest, partial.data);
      ChunkedRoundTrip(chunks[1..], last, partial.(data := partial.data + chunks[0].data), rest);
    }
  }

  lemma FirstChunk(chunks: seq<Chunk>, last: bytes, rest: bytes, data: bytes)
    requires chunks != []
    ensures ChunksWire(chunks) + last + rest == chunks[0].Wire() + (ChunksWire(chunks[1..]) + last + rest)
    ensures data + ChunksData(chunks) == data + chunks[0].data + ChunksData(chunks[1..])
  {
    var wire, others := chunks[0].Wire(), ChunksWire(chunks[1..]);
    assert ChunksWire(chunks) == wire + others && ChunksData(chunks) == chunks[0].data + ChunksData(chunks[1..]);
    hide *;
    Regroup(wire, others, last);
    Regroup(wire, others + last, rest);
    Regroup(data, chunks[0].data, ChunksData(chunks[1..]));
  }

  /** Until the last octet of a chunked body is there, nothing of it is delivered. */
  lemma ChunkedBodyIsNeverPartial(chunks: seq<Chunk>, last: Chunk, partial: Response, arrived: bytes, missing: bytes)
    requires ValidChunks(chunks) && last.Valid() && last.data == []
    requires arrived + missing == ChunksWire(chunks) + last.Wire() && missing != []
    ensures Advance(Parser(arrived, ChunkedData, partial)).Starved?
  {
    ChunkedRoundTrip(chunks, last, partial, []);
    var p := Parser(arrived, ChunkedData, partial);
    assert p.Append(missing).buffer == ChunksWire(chunks) + last.Wire() + [];
    NothingIsExposedEarly(p, missing);
  }

  lemma CanonicalChunks(pieces: seq<bytes>) returns (chunks: seq<Chunk>)
    requires forall i :: 0 <= i < |pieces| ==> 0 < |pieces[i]| < Decimal.USIZE_LIMIT
    ensures |chunks| == |pieces| && forall i :: 0 <= i < |pieces| ==> chunks[i] == CanonicalChunk(pieces[i])
    ensures ValidChunks(chunks) && ChunksData(chunks) == Flatten(pieces)
    decreases |pieces|
  {
    if pieces == [] {
      chunks := [];
    } else {
      SizeLineReadsBack(|pieces[0]|);
      var others := CanonicalChunks(pieces[1..]);
      chunks := [CanonicalChunk(pieces[0])] + others;
      assert chunks[1..] == others;
    }
  }

  /** Section 4.1 of RFC 7230 lets trailer fields come between the last chunk and the final line end. The client skips
    * two octets there and so leaves the next response intact exactly when there is no trailer. */
  lemma TrailersLeakIntoNextResponse(partial: Response, trailer: bytes, following: bytes)
    ensures var p := Parser(SizeLine(0) + trailer + CRLF + following, ChunkedData, partial);
      && Advance(p).Emit?
      && (Advance(p).next == Between(following) <==> trailer == [])
  {
    hide Advance, ParseChunkSize, HexOf;
    SizeLineReadsBack(0);
    var tail := trailer + CRLF + following;
    var last := Chunk(SizeLine(0), [], tail[..2]);
    ChunkedRoundTrip([], last, partial, tail[2..]);
    assert SizeLine(0) + trailer + CRLF + following == ChunksWire([]) + last.Wire() + tail[2..];
    if trailer == [] {
      assert tail[2..] == following;
    }
  }

  // ---- Heads ------------------------------------------------------------------------------------------------

  predicate ValidHead(head: Head, reason: bytes) {
    && head.code < 1000 && |head.headers| <= MAX_HEADERS
    && (forall i :: 0 <= i < |reason| ==> IsValueOctet(reason[i]))
    && (forall i :: 0 <= i < |head.headers| ==> ValidField(head.headers[i]))
  }

  function FieldWire(h: Header): bytes {
    h.name + [COLON, SP] + h.value + CRLF
  }

  function FieldsWire(headers: seq<Header>): bytes {
    if headers == [] then [] else FieldWire(headers[0]) + FieldsWire(headers[1..])
  }

  function CodeWire(code: nat): bytes
    requires code < 1000
  {
    [Decimal.DigitByte(code / 100), Decimal.DigitByte(code / 10 % 10), Decimal.DigitByte(code % 10)]
  }

  function HeadWire(head: Head, reason: bytes): bytes
    requires head.code < 1000
  {
    VERSION + [49, SP] + CodeWire(head.code) + [SP] + reason + CRLF + FieldsWire(head.headers) + CRLF
  }

  /** The scanner is at `s` and has `b` before it. */
  lemma OneOctet(s: Scan, b: byte, rest: bytes)
    requires !s.phase.Done? && !s.phase.Bad?
    ensures ScanHead(s, [b] + rest) == ScanHead(HeadStep(s, b), rest).Shift(1)
  {
    assert ([b] + rest)[1..] == rest;
  }

  lemma HeadEnds(s: Scan, rest: bytes)
    requires s.phase.Done?
    ensures ScanHead(s, rest) == Complete(0, Head(s.code, s.headers))
  {
  }

  lemma {:induction false} ScanVersion(s: Scan, seen: nat, rest: bytes)
    requires seen <= |VERSION| && (s.phase == Version(seen) || (seen == 0 && s.phase == Blank))
    ensures ScanHead(s, VERSION[seen..] + [49, SP] + rest) ==
      ScanHead(s.To(Code(0)), rest).Shift(|VERSION| - seen + 2)
    decreases |VERSION| - seen
  {
    hide ScanHead;
    if seen == |VERSION| {
      OneOctet(s, 49, [SP] + rest);
      OneOctet(s.To(Version(seen + 1)), SP, rest);
      assert VERSION[seen..] + [49, SP] + rest == [49] + ([SP] + rest);
    } else {
      var more := VERSION[seen + 1..] + [49, SP] + rest;
      OneOctet(s, VERSION[seen], more);
      ScanVersion(s.To(Version(seen + 1)), seen + 1, rest);
      assert VERSION[seen..] + [49, SP] + rest == [VERSION[seen]] + more;
    }
  }

  lemma ShiftAgain(r: HeadParse, m: nat, n: nat)
    ensures r.Shift(m).Shift(n) == r.Shift(n + m)
  {
  }

  lemma ThreeOctets(a: byte, b: byte, c: byte, rest: bytes)
    ensures [a, b, c] + rest == [a] + ([b, c] + rest) && [b, c] + rest == [b] + ([c] + rest)
  {
  }

  lemma DigitSteps(s: Scan, count: nat, d: Decimal.Digit)
    requires s.phase == Code(count) && count < 3
    ensures HeadStep(s, Decimal.DigitByte(d)) ==
      s.(code := s.code * 10 + d, phase := if count == 2 then AfterCode else Code(count + 1))
  {
    hide StepVersion;
  }

  lemma ThreeDigits(code: nat)
    requires code < 1000
    ensures (code / 100 * 10 + code / 10 % 10) * 10 + code % 10 == code && code / 100 < 10
  {
  }

  lemma ThreeSteps(s: Scan, s1: Scan, s2: Scan, s3: Scan, a: byte, b: byte, c: byte, rest: bytes)
    requires s.phase.Code? && s1.phase.Code? && s2.phase.Code?
    requires HeadStep(s, a) == s1 && HeadStep(s1, b) == s2 && HeadStep(s2, c) == s3
    ensures ScanHead(s, [a, b, c] + rest) == ScanHead(s3, rest).Shift(3)
  {
    hide ScanHead, HeadStep, HeadParse.Shift;
    ThreeOctets(a, b, c, rest);
    OneOctet(s, a, [b, c] + rest);
    OneOctet(s1, b, [c] + rest);
    OneOctet(s2, c, rest);
    ShiftAgain(ScanHead(s3, rest), 1, 1);
    ShiftAgain(ScanHead(s3, rest), 2, 1);
  }

  lemma ScanCode(s: Scan, code: nat, rest: bytes)
    requires s.phase == Code(0) && s.code == 0 && code < 1000
    ensures ScanHead(s, CodeWire(code) + rest) == ScanHead(s.(code := code, phase := AfterCode), rest).Shift(3)
  {
    ThreeDigits(code);
    hide ScanHead, HeadStep, Decimal.DigitByte, HeadParse.Shift;
    var i, j, k := code / 100, code / 10 % 10, code % 10;
    var s1, s2 := s.(code := i, phase := Code(1)), s.(code := i * 10 + j, phase := Code(2));
    DigitSteps(s, 0, i);
    DigitSteps(s1, 1, j);
    DigitSteps(s2, 2, k);
    ThreeSteps(s, s1, s2, s.(code := code, phase := AfterCode),
               Decimal.DigitByte(i), Decimal.DigitByte(j), Decimal.DigitByte(k), rest);
  }

  lemma {:induction false} ScanReason(s: Scan, reason: bytes, rest: bytes)
    requires s.phase == Reason && forall i :: 0 <= i < |reason| ==> IsValueOctet(reason[i])
    ensures ScanHead(s, reason + CRLF + rest) == ScanHead(s.To(LineStart), rest).Shift(|reason| + 2)
    decreases |reason|
  {
    hide ScanHead;
    if reason == [] {
      OneOctet(s, CR, [LF] + rest);
      OneOctet(s.To(StatusCr), LF, rest);
      assert reason + CRLF + rest == [CR] + ([LF] + rest);
    } else {
      OneOctet(s, reason[0], reason[1..] + CRLF + rest);
      ScanReason(s, reason[1..], rest);
      assert reason + CRLF + rest == [reason[0]] + (reason[1..] + CRLF + rest);
    }
  }

  lemma {:induction false} ScanName(s: Scan, name: bytes, rest: bytes)
    requires s.phase == Name && forall i :: 0 <= i < |name| ==> IsToken(name[i])
    ensures ScanHead(s, name + [COLON] + rest) ==
      ScanHead(s.(phase := Gap, name := s.name + name), rest).Shift(|name| + 1)
    decreases |name|
  {
    hide ScanHead;
    if name == [] {
      OneOctet(s, COLON, rest);
      assert name + [COLON] + rest == [COLON] + rest;
      assert s.name + name == s.name;
    } else {
      OneOctet(s, name[0], name[1..] + [COLON] + rest);
      ScanName(s.(name := s.name + [name[0]]), name[1..], rest);
      assert name + [COLON] + rest == [name[0]] + (name[1..] + [COLON] + rest);
      assert s.name + [name[0]] + name[1..] == s.name + name;
    }
  }

  lemma {:induction false} ScanValue(s: Scan, value: bytes, rest: bytes)
    requires s.phase == Value || (s.phase == Gap && (value != [] ==> !IsBlank(value[0])))
    requires forall i :: 0 <= i < |value| ==> IsValueOctet(value[i])
    ensures ScanHead(s, value + CRLF + rest) == ScanHead(s.(value := s.value + value).Push(), rest).Shift(|value| + 2)
    decreases |value|
  {
    hide ScanHead;
    if value == [] {
      OneOctet(s, CR, [LF] + rest);
      OneOctet(s.To(ValueCr), LF, rest);
      assert value + CRLF + rest == [CR] + ([LF] + rest);
      assert s.value + value == s.value;
    } else {
      var next := s.(phase := Value, value := s.value + [value[0]]);
      OneOctet(s, value[0], value[1..] + CRLF + rest);
      ScanValue(next, value[1..], rest);
      assert value + CRLF + rest == [value[0]] + (value[1..] + CRLF + rest);
      assert s.value + [value[0]] + value[1..] == s.value + value;
    }
  }

  /** The scanner at the start of a line, with `headers` read. */
  function AtLine(code: nat, headers: seq<Header>): Scan {
    Scan(LineStart, code, headers, [], [])
  }

  lemma FieldSteps(code: nat, headers: seq<Header>, h: Header)
    requires ValidField(h) && |headers| < MAX_HEADERS
    ensures HeadStep(AtLine(code, headers), h.name[0]) == Scan(Name, code, headers, [h.name[0]], [])
    ensures HeadStep(Scan(Gap, code, headers, h.name, []), SP) == Scan(Gap, code, headers, h.name, [])
    ensures Scan(Gap, code, headers, h.name, h.value).Push() == AtLine(code, headers + [h])
  {
    hide StepVersion;
  }

  /** The value of a field, after the colon. */
  lemma ScanAfterColon(code: nat, headers: seq<Header>, h: Header, rest: bytes)
    requires ValidField(h) && |headers| < MAX_HEADERS
    ensures ScanHead(Scan(Gap, code, headers, h.name, []), [SP] + (h.value + CRLF + rest)) ==
      ScanHead(AtLine(code, headers + [h]), rest).Shift(|h.value| + 3)
  {
    FieldSteps(code, headers, h);
    hide ScanHead, HeadStep, IsToken, IsValueOctet, IsBlank, AtLine, HeadParse.Shift;
    var gap := Scan(Gap, code, headers, h.name, []);
    OneOctet(gap, SP, h.value + CRLF + rest);
    ScanValue(gap, h.value, rest);
    assert [] + h.value == h.value;
    ShiftAgain(ScanHead(AtLine(code, headers + [h]), rest), |h.value| + 2, 1);
  }

  /** The name of a field, up to the colon. */
  lemma ScanToColon(code: nat, headers: seq<Header>, h: Header, after: bytes)
    requires ValidField(h) && |headers| < MAX_HEADERS
    ensures ScanHead(AtLine(code, headers), [h.name[0]] + (h.name[1..] + [COLON] + after)) ==
      ScanHead(Scan(Gap, code, headers, h.name, []), after).Shift(|h.name| + 1)
  {
    FieldSteps(code, headers, h);
    hide ScanHead, HeadStep, IsToken, IsValueOctet, IsBlank, HeadParse.Shift;
    assert [h.name[0]] + h.name[1..] == h.name;
    assert !AtLine(code, headers).phase.Done? && !AtLine(code, headers).phase.Bad?;
    hide AtLine;
    OneOctet(AtLine(code, headers), h.name[0], h.name[1..] + [COLON] + after);
    ScanName(Scan(Name, code, headers, [h.name[0]], []), h.name[1..], after);
    ShiftAgain(ScanHead(Scan(Gap, code, headers, h.name, []), after), |h.name|, 1);
  }

  lemma ScanField(code: nat, headers: seq<Header>, h: Header, rest: bytes)
    requires ValidField(h) && |headers| < MAX_HEADERS
    ensures ScanHead(AtLine(code, headers), FieldWire(h) + rest) ==
      ScanHead(AtLine(code, headers + [h]), rest).Shift(|FieldWire(h)|)
  {
    FieldParts(h, rest);
    hide ScanHead, IsToken, IsValueOctet, IsBlank, AtLine, HeadParse.Shift, FieldWire;
    ScanToColon(code, headers, h, [SP] + (h.value + CRLF + rest));
    ScanAfterColon(code, headers, h, rest);
    ShiftAgain(ScanHead(AtLine(code, headers + [h]), rest), |h.value| + 3, |h.name| + 1);
  }

  lemma FieldParts(h: Header, rest: bytes)
    requires h.name != []
    ensures FieldWire(h) + rest == [h.name[0]] + (h.name[1..] + [COLON] + ([SP] + (h.value + CRLF + rest)))
    ensures |FieldWire(h)| == |h.name| + |h.value| + 4
    ensures [h.name[0]] + h.name[1..] == h.name && [] + h.value == h.value
  {
  }

  lemma ScanEmptyLine(code: nat, before: seq<Header>, rest: bytes)
    ensures ScanHead(AtLine(code, before), FieldsWire([]) + CRLF + rest) ==
      Complete(|FieldsWire([])| + 2, Head(code, before + []))
  {
    hide ScanHead;
    OneOctet(AtLine(code, before), CR, [LF] + rest);
    OneOctet(AtLine(code, before).To(FinalCr), LF, rest);
    HeadEnds(AtLine(code, before).To(Done), rest);
    assert FieldsWire([]) + CRLF + rest == [CR] + ([LF] + rest);
    assert before + [] == before;
  }

  lemma FieldsWireCons(headers: seq<Header>, rest: bytes)
    requires headers != []
    ensures FieldsWire(headers) + CRLF + rest == FieldWire(headers[0]) + (FieldsWire(headers[1..]) + CRLF + rest)
    ensures |FieldsWire(headers)| == |FieldWire(headers[0])| + |FieldsWire(headers[1..])|
  {
    hide FieldWire;
    Regroup(FieldWire(headers[0]), FieldsWire(headers[1..]), CRLF + rest);
  }

  /** One field, and then what the others come to. */
  lemma ScanFieldThen(code: nat, before: seq<Header>, headers: seq<Header>, rest: bytes, others: bytes, read: nat)
    requires headers != [] && ValidField(headers[0]) && |before| < MAX_HEADERS
    requires others == FieldsWire(headers[1..]) + CRLF + rest
    requires ScanHead(AtLine(code, before + [headers[0]]), others) ==
      Complete(read, Head(code, before + [headers[0]] + headers[1..]))
    ensures ScanHead(AtLine(code, before), FieldsWire(headers) + CRLF + rest) ==
      Complete(read + |FieldWire(headers[0])|, Head(code, before + headers))
  {
    hide ScanHead, FieldsWire, FieldWire, ValidField, AtLine;
    FieldsWireCons(headers, rest);
    ScanField(code, before, headers[0], others);
    assert before + [headers[0]] + headers[1..] == before + headers;
  }

  lemma {:induction false} ScanFields(code: nat, before: seq<Header>, headers: seq<Header>, rest: bytes)
    requires |before| + |headers| <= MAX_HEADERS && forall i :: 0 <= i < |headers| ==> ValidField(headers[i])
    ensures ScanHead(AtLine(code, before), FieldsWire(headers) + CRLF + rest) ==
      Complete(|FieldsWire(headers)| + 2, Head(code, before + headers))
    decreases |headers|
  {
    hide *;
    if headers == [] {
      ScanEmptyLine(code, before, rest);
    } else {
      var others := FieldsWire(headers[1..]);
      FieldsWireCons(headers, rest);
      ScanFields(code, before + [headers[0]], headers[1..], rest);
      ScanFieldThen(code, before, headers, rest, others + CRLF + rest, |others| + 2);
    }
  }

  /** Every well-formed head is read back as written, and the scanner stops right behind it. */
  lemma HeadRoundTrip(head: Head, reason: bytes, rest: bytes)
    requires ValidHead(head, reason)
    ensures ParseHead(HeadWire(head, reason) + rest) == Complete(|HeadWire(head, reason)|, head)
  {
    hide ScanHead;
    var fields := FieldsWire(head.headers) + CRLF + rest;
    var status := reason + CRLF + fields;
    var afterCode := [SP] + status;
    var afterVersion := CodeWire(head.code) + afterCode;
    assert HeadWire(head, reason) + rest == VERSION[0..] + [49, SP] + afterVersion;
    ScanVersion(START, 0, afterVersion);
    ScanCode(START.To(Code(0)), head.code, afterCode);
    var s := Scan(AfterCode, head.code, [], [], []);
    OneOctet(s, SP, status);
    ScanReason(s.To(Reason), reason, fields);
    ScanFields(head.code, [], head.headers, rest);
    assert [] + head.headers == head.headers;
  }

  // ---- Whole messages ---------------------------------------------------------------------------------------

  datatype Body = Sized(data: bytes) | Chunked(chunks: seq<Chunk>, last: Chunk)

  datatype Message = Message(head: Head, reason: bytes, body: Body) {
    /** The head announces the body that follows it. */
    predicate Valid() {
      && ValidHead(head, reason)
      && match body {
           case Sized(data) => Interpret(head.headers).state == RawData(Some(|data|))
           case Chunked(chunks, last) =>
             Interpret(head.headers).state == ChunkedData && ValidChunks(chunks) && last.Valid() && last.data == []
         }
    }

    function BodyWire(): bytes {
      match body
      case Sized(data) => data
      case Chunked(chunks, last) => ChunksWire(chunks) + last.Wire()
    }

    function Wire(): bytes
      requires head.code < 1000
    {
      HeadWire(head, reason) + BodyWire()
    }

    function Meaning(): Response {
      Response(head.code, DeclaredType(head.headers),
               match body { case Sized(data) => data case Chunked(chunks, _) => ChunksData(chunks) })
    }
  }

  predicate ValidMessages(messages: seq<Message>) {
    forall i :: 0 <= i < |messages| ==> messages[i].Valid()
  }

  function MessagesWire(messages: seq<Message>): bytes
    requires ValidMessages(messages)
  {
    if messages == [] then [] else messages[0].Wire() + MessagesWire(messages[1..])
  }

  function Meanings(messages: seq<Message>): seq<Response> {
    if messages == [] then [] else [messages[0].Meaning()] + Meanings(messages[1..])
  }

  lemma MessageRoundTrip(m: Message, rest: bytes)
    requires m.Valid()
    ensures Advance(Between(m.Wire() + rest)) == Emit(m.Meaning(), Between(rest))
  {
    var b := m.Wire() + rest;
    var body := m.BodyWire() + rest;
    assert b == HeadWire(m.head, m.reason) + body;
    HeadRoundTrip(m.head, m.reason, body);
    assert b[|HeadWire(m.head, m.reason)|..] == body;
    var after := AfterHead(body, m.head);
    assert Step(Between(b)) == Go(after);
    TypeIsDeclared(m.head.headers);
    hide Step, Message.Meaning, Message.BodyWire, HeadWire;
    assert Advance(Between(b)) == Advance(after);
    BodyRoundTrip(m, after, rest);
  }

  lemma BodyRoundTrip(m: Message, after: Parser, rest: bytes)
    requires m.Valid() && after == AfterHead(m.BodyWire() + rest, m.head)
    ensures Advance(after) == Emit(m.Meaning(), Between(rest))
  {
    TypeIsDeclared(m.head.headers);
    hide DeclaredType, Interpret;
    var body := m.BodyWire() + rest;
    match m.body
    case Sized(data) =>
      assert body[..|data|] == data && body[|data|..] == rest;
    case Chunked(chunks, last) =>
      ChunkedRoundTrip(chunks, last, after.partial, rest);
      assert [] + ChunksData(chunks) == ChunksData(chunks);
  }

  lemma DecodeEmitted(p: Parser, ending: Ending)
    requires Advance(p).Emit?
    ensures DecodeAll(p, ending) == DecodeAll(Advance(p).next, ending).Prepend(Advance(p).response)
  {
  }

  lemma {:induction false} StreamRoundTrip(messages: seq<Message>, rest: bytes, ending: Ending)
    requires ValidMessages(messages)
    ensures DecodeAll(Between(MessagesWire(messages) + rest), ending) ==
      DecodeAll(Between(rest), ending).PrependAll(Meanings(messages))
    decreases |messages|
  {
    hide Advance, DecodeAll, Message.Wire, Message.Meaning;
    if messages == [] {
      assert MessagesWire(messages) + rest == rest;
    } else {
      var first, others := messages[0], messages[1..];
      var more := MessagesWire(others) + rest;
      assert first.Valid() && ValidMessages(others);
      MessageRoundTrip(first, more);
      DecodeEmitted(Between(first.Wire() + more), ending);
      StreamRoundTrip(others, rest, ending);
      assert MessagesWire(messages) + rest == first.Wire() + more;
      assert [first.Meaning()] + Meanings(others) == Meanings(messages);
    }
  }

  lemma NothingToDecode()
    ensures DecodeAll(Between([]), Open) == Decoded([], Waiting(FRESH))
  {
    assert Advance(FRESH) == Starved(FRESH);
  }

  /** A server that writes well-formed responses is understood completely, however the network cuts its stream: the
    * polls deliver those responses, in order and nothing else, and the decoder ends up as good as new. */
  lemma EveryFragmentationDeliversTheMessages(messages: seq<Message>, script: seq<ReadEvent>)
    requires ValidMessages(messages) && Arriving(script) == MessagesWire(messages)
    ensures RunPolls(FRESH, script, Open) == Decoded(Meanings(messages), Waiting(FRESH))
  {
    hide MessagesWire, Arriving, Advance, Step, DecodeAll, RunPolls, Meanings, ValidMessages;
    NothingToDecode();
    FragmentationIndependence(FRESH, script, Open);
    StreamRoundTrip(messages, [], Open);
    assert FRESH.Append(Arriving(script)) == Between(MessagesWire(messages) + []);
    assert Meanings(messages) + [] == Meanings(messages);
  }

  // ---- Servers that keep to section 3.3.3 of RFC 7230 -------------------------------------------------------

  /** The body is the one that the section finds for this head, in a head that the client frames like it. */
  ghost predicate WellFramed(m: Message) {
    && ValidHead(m.head, m.reason)
    && HttpMessageLength.FieldsFit(m.head.code, m.head.headers)
    && var body := HttpMessageLength.ResponseBody(m.head.code, m.head.headers);
    match m.body
    case Sized(data) => body == HttpMessageLength.Sized(|data|) || (body.NoBody? && data == [])
    case Chunked(chunks, last) => body.Chunked? && ValidChunks(chunks) && last.Valid() && last.data == []
  }

  lemma WellFramedIsValid(m: Message)
    requires WellFramed(m)
    ensures m.Valid()
  {
    HttpMessageLength.FramingAgreesExactly(m.head.code, m.head.headers);
    hide HttpMessageLength.FieldsFit, HttpMessageLength.ResponseBody, Interpret, ValidHead, ValidChunks, Chunk.Valid;
  }

  /** The responses of such a server are all delivered, with their codes, their types and their bodies. */
  lemma ServersAreUnderstood(messages: seq<Message>, script: seq<ReadEvent>)
    requires forall i :: 0 <= i < |messages| ==> WellFramed(messages[i])
    ensures ValidMessages(messages)
    ensures Arriving(script) == MessagesWire(messages) ==>
      RunPolls(FRESH, script, Open) == Decoded(Meanings(messages), Waiting(FRESH))
  {
    hide WellFramed, Message.Valid, Meanings, RunPolls, MessagesWire, Arriving;
    forall i | 0 <= i < |messages|
      ensures messages[i].Valid()
    {
      WellFramedIsValid(messages[i]);
    }
    if Arriving(script) == MessagesWire(messages) {
      EveryFragmentationDeliversTheMessages(messages, script);
    }
  }

  // ---- Streams that end too early ---------------------------------------------------------------------------

  /** Where a message was cut off. */
  function CutAt(m: Message, arrived: nat): HttpError
    requires m.head.code < 1000
  {
    if arrived == 0 then EofBeforeResponse
    else if arrived < |HeadWire(m.head, m.reason)| then EofInHeaders
    else match m.body { case Sized(_) => EofInBody case Chunked(_, _) => EofInChunkedBody }
  }

  /** A head is not taken for complete, nor for malformed, before its last octet. */
  lemma HeadIsNeverPartial(head: Head, reason: bytes, arrived: bytes, missing: bytes)
    requires ValidHead(head, reason) && arrived + missing == HeadWire(head, reason) && missing != []
    ensures HeadersStep(arrived).Wait?
  {
    HeadRoundTrip(head, reason, []);
    assert HeadWire(head, reason) + [] == arrived + missing;
    if !ParseHead(arrived).Partial? {
      HeadStable(START, arrived, missing);
    }
    hide ScanHead, HeadWire;
  }

  lemma {:induction false} StaysInTheChunks(p: Parser)
    requires p.state.ChunkedData? && Advance(p).Starved?
    ensures Advance(p).next.state.ChunkedData?
    decreases |p.buffer|
  {
    if Step(p).Go? {
      StaysInTheChunks(Step(p).next);
    }
  }

  /** The same octets cut in two in two ways. */
  lemma TwoCuts(a: bytes, b: bytes, c: bytes, d: bytes)
    requires a + b == c + d
    ensures |a| < |c| ==> a + b[..|c| - |a|] == c && |c| - |a| <= |b|
    ensures |a| >= |c| ==> a == c + a[|c|..] && a[|c|..] + b == d
  {
    var all := a + b;
    if |a| < |c| {
      assert a + b[..|c| - |a|] == all[..|c|];
    } else {
      assert a == all[..|a|] && d == all[|c|..];
    }
  }

  /** A message that is cut off is not delivered, and the error says where it was cut. */
  lemma CutMessageIsNoticed(m: Message, arrived: bytes, missing: bytes)
    requires m.Valid() && arrived + missing == m.Wire() && missing != []
    ensures var decoded := DecodeAll(Between(arrived), Closed);
      decoded.responses == [] && decoded.outcome.Stopped? && decoded.outcome.error == CutAt(m, |arrived|)
  {
    var n := |HeadWire(m.head, m.reason)|;
    TwoCuts(arrived, missing, HeadWire(m.head, m.reason), m.BodyWire());
    hide HeadWire, Message.BodyWire;
    if |arrived| < n {
      HeadIsNeverPartial(m.head, m.reason, arrived, missing[..n - |arrived|]);
      assert Advance(Between(arrived)) == Starved(Between(arrived));
    } else {
      var body := arrived[n..];
      HeadRoundTrip(m.head, m.reason, body);
      var after := AfterHead(body, m.head);
      assert Advance(Between(arrived)) == Advance(after);
      SameAdvanceSameDecoding(Between(arrived), after, Closed);
      CutBodyIsNoticed(m, body, missing);
    }
  }

  lemma CutBodyIsNoticed(m: Message, arrived: bytes, missing: bytes)
    requires m.Valid() && arrived + missing == m.BodyWire() && missing != []
    ensures var decoded := DecodeAll(AfterHead(arrived, m.head), Closed);
      && decoded.responses == [] && decoded.outcome.Stopped?
      && decoded.outcome.error == if m.body.Sized? then EofInBody else EofInChunkedBody
  {
    var after := AfterHead(arrived, m.head);
    match m.body
    case Sized(data) =>
      assert Advance(after) == Starved(after);
    case Chunked(chunks, last) =>
      ChunkedBodyIsNeverPartial(chunks, last, after.partial, arrived, missing);
      StaysInTheChunks(after);
  }

  /** After any number of whole responses, the one that is cut off is missing, and nothing of it is delivered. */
  lemma CutStreamIsNoticed(messages: seq<Message>, m: Message, arrived: bytes, missing: bytes)
    requires ValidMessages(messages) && m.Valid() && arrived + missing == m.Wire() && missing != []
    ensures var decoded := DecodeAll(Between(MessagesWire(messages) + arrived), Closed);
      && decoded.responses == Meanings(messages)
      && decoded.outcome.Stopped? && decoded.outcome.error == CutAt(m, |arrived|)
  {
    hide DecodeAll, Meanings, MessagesWire, Message.Wire, Message.Valid, CutAt, ValidMessages;
    StreamRoundTrip(messages, arrived, Closed);
    CutMessageIsNoticed(m, arrived, missing);
    assert Meanings(messages) + [] == Meanings(messages);
  }
}
