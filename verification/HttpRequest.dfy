/** Requests as the client writes them on a connection, and a server's reading of them. */
module HttpRequest {
  import opened Prelude
  import opened HttpSyntax
  import opened HttpFraming
  import opened HttpMessageLength
  import Decimal

  /** The texts are the octets that the client writes for them. */
  datatype Request = Request(verb: bytes, path: bytes, headers: seq<Header>, body: bytes)

  // "HTTP/1.1", "Host", "Connection", "keep-alive", "Content-Length"
  const HTTP_1_1: bytes := VERSION + [49]
  const HOST: bytes := [72, 111, 115, 116]
  const CONNECTION: bytes := [67, 111, 110, 110, 101, 99, 116, 105, 111, 110]
  const KEEP_ALIVE: bytes := [107, 101, 101, 112, 45, 97, 108, 105, 118, 101]
  const LENGTH: bytes := [67, 111, 110, 116, 101, 110, 116, 45, 76, 101, 110, 103, 116, 104]

  function RequestLine(r: Request): bytes {
    r.verb + [SP] + r.path + [SP] + HTTP_1_1
  }

  function FieldLine(h: Header): bytes {
    h.name + [COLON, SP] + h.value
  }

  /** The fields that the client writes before the caller's. */
  function OwnFields(host: bytes, r: Request): seq<Header> {
    [Header(HOST, host), Header(CONNECTION, KEEP_ALIVE), Header(LENGTH, Decimal.Octets(|r.body|))]
  }

  function FieldLines(headers: seq<Header>): (lines: seq<bytes>)
    ensures |lines| == |headers|
  {
    seq(|headers|, i requires 0 <= i < |headers| => FieldLine(headers[i]))
  }

  function Wire(host: bytes, r: Request): bytes {
    Ended(CRLF, [RequestLine(r)] + FieldLines(OwnFields(host, r) + r.headers)) + CRLF + r.body
  }

  // ---- A server ---------------------------------------------------------------------------------------------

  datatype LinesRead = LinesRead(lines: seq<bytes>, rest: bytes)

  /** The lines up to the empty one; None while that has not arrived. */
  function ReadLines(b: bytes): Option<LinesRead>
    decreases |b|
  {
    var i := IndexOf(b, CR);
    if i + 1 >= |b| || b[i + 1] != LF then None
    else if i == 0 then Some(LinesRead([], b[2..]))
    else
      match ReadLines(b[i + 2..])
      case None => None
      case Some(more) => Some(more.(lines := [b[..i]] + more.lines))
  }

  /** A field line in the sense of section 3.2 of RFC 7230. */
  function ReadField(line: bytes): Option<Header> {
    var i := IndexOf(line, COLON);
    if i == |line| then None
    else
      var h := Header(line[..i], Trim(line[i + 1..]));
      if ValidField(h) then Some(h) else None
  }

  function ReadFields(lines: seq<bytes>): Option<seq<Header>> {
    if lines == [] then Some([])
    else
      match (ReadField(lines[0]), ReadFields(lines[1..]))
      case (Some(h), Some(more)) => Some([h] + more)
      case _ => None
  }

  predicate ValidVerb(verb: bytes) {
    verb != [] && forall i :: 0 <= i < |verb| ==> IsToken(verb[i])
  }

  predicate ValidTarget(path: bytes) {
    path != [] && forall i :: 0 <= i < |path| ==> 32 < path[i] < 127
  }

  /** The verb and the target of a request line. */
  function ReadRequestLine(line: bytes): Option<(bytes, bytes)> {
    var i := IndexOf(line, SP);
    if i == |line| then None
    else
      var rest := line[i + 1..];
      var j := IndexOf(rest, SP);
      if j < |rest| && rest[j + 1..] == HTTP_1_1 && ValidVerb(line[..i]) && ValidTarget(rest[..j])
      then Some((line[..i], rest[..j])) else None
  }

  datatype BodyRead = BodyRead(body: bytes, rest: bytes)

  /** Section 4.1 of RFC 7230: chunks up to one of size 0, trailer fields, and an empty line. */
  function ReadChunks(b: bytes): Option<BodyRead>
    decreases |b|
  {
    match ParseChunkSize(b)
    case SizePartial => None
    case SizeMalformed => None
    case SizeComplete(read, size) =>
      if size == 0 then
        match ReadLines(b[read..]) { case Some(trailer) => Some(BodyRead([], trailer.rest)) case None => None }
      else if |b| < read + size + 2 || b[read + size..read + size + 2] != CRLF then None
      else
        match ReadChunks(b[read + size + 2..])
        case Some(more) => Some(more.(body := b[read..read + size] + more.body))
        case None => None
  }

  /** What the fields say about the body, applied to what follows the head. */
  function ReadBody(headers: seq<Header>, b: bytes): Option<BodyRead> {
    match RequestBody(headers)
    case Sized(n) => if n <= |b| then Some(BodyRead(b[..n], b[n..])) else None
    case NoBody => Some(BodyRead([], b))
    case Chunked => ReadChunks(b)
    case _ => None
  }

  datatype Received = Received(verb: bytes, path: bytes, headers: seq<Header>, body: bytes)

  datatype RequestRead = RequestRead(request: Received, rest: bytes)

  function Assemble(read: LinesRead): Option<RequestRead> {
    if read.lines == [] then None
    else
      match (ReadRequestLine(read.lines[0]), ReadFields(read.lines[1..]))
      case (Some((verb, path)), Some(headers)) => (
        match ReadBody(headers, read.rest)
        case Some(b) => Some(RequestRead(Received(verb, path, headers, b.body), b.rest))
        case None => None
      )
      case _ => None
  }

  function ReadRequest(b: bytes): Option<RequestRead> {
    match ReadLines(b)
    case None => None
    case Some(read) => Assemble(read)
  }

  lemma {:induction false} ReadLinesShrinks(b: bytes)
    requires ReadLines(b).Some?
    ensures |ReadLines(b).value.rest| < |b|
    decreases |b|
  {
    var i := IndexOf(b, CR);
    if i > 0 {
      ReadLinesShrinks(b[i + 2..]);
    }
  }

  /** A chunked body takes more octets than it holds. */
  lemma {:induction false} ReadChunksShrinks(b: bytes)
    requires ReadChunks(b).Some?
    ensures |ReadChunks(b).value.body| + |ReadChunks(b).value.rest| < |b|
    decreases |b|
  {
    hide ReadLines, ParseChunkSize;
    var size := ParseChunkSize(b);
    if size.size == 0 {
      ReadLinesShrinks(b[size.read..]);
    } else {
      ReadChunksShrinks(b[size.read + size.size + 2..]);
    }
  }

  lemma ReadRequestShrinks(b: bytes)
    requires ReadRequest(b).Some?
    ensures |ReadRequest(b).value.rest| < |b|
  {
    hide ReadLines, ReadChunks, ReadFields, ReadRequestLine, RequestBody;
    ReadLinesShrinks(b);
    var read := ReadLines(b).value;
    var headers := ReadFields(read.lines[1..]).value;
    if RequestBody(headers).Chunked? {
      ReadChunksShrinks(read.rest);
    }
  }

  /** Reads requests off the stream for as long as a whole one is there. */
  function ReadAll(b: bytes): seq<Received>
    decreases |b|
  {
    match ReadRequest(b)
    case None => []
    case Some(read) => ReadRequestShrinks(b); [read.request] + ReadAll(read.rest)
  }

  // ---- The server reads what the client writes --------------------------------------------------------------

  /** What makes the request line and the fields of a request what they are meant to be. */
  predicate WellFormed(host: bytes, r: Request) {
    && ValidVerb(r.verb) && ValidTarget(r.path)
    && ValidField(Header(HOST, host))
    && forall i :: 0 <= i < |r.headers| ==> ValidField(r.headers[i])
  }

  /** Every Content-Length the caller adds announces the length that the client announces. */
  predicate LengthsAgree(r: Request) {
    forall h :: h in Named(r.headers, CONTENT_LENGTH) ==> Announced(h) == Some(|r.body|)
  }

  /** The caller adds no Transfer-Encoding. */
  predicate NoCodings(r: Request) {
    Named(r.headers, TRANSFER_ENCODING) == []
  }

  function AsReceived(host: bytes, r: Request): Received {
    Received(r.verb, r.path, OwnFields(host, r) + r.headers, r.body)
  }

  lemma {:induction false} LinesReadBack(lines: seq<bytes>, rest: bytes)
    requires forall i :: 0 <= i < |lines| ==> lines[i] != [] && CR !in lines[i]
    ensures ReadLines(Ended(CRLF, lines) + CRLF + rest) == Some(LinesRead(lines, rest))
    decreases |lines|
  {
    var b := Ended(CRLF, lines) + CRLF + rest;
    if lines == [] {
      IndexOfUnique(b, CR, 0);
      assert b[2..] == rest;
    } else {
      var n := |lines[0]|;
      assert b == lines[0] + CRLF + (Ended(CRLF, lines[1..]) + CRLF + rest);
      assert b[..n] == lines[0];
      IndexOfUnique(b, CR, n);
      assert b[n + 2..] == Ended(CRLF, lines[1..]) + CRLF + rest;
      LinesReadBack(lines[1..], rest);
      assert lines == [lines[0]] + lines[1..];
    }
  }

  lemma TrimmedStays(v: bytes)
    requires v != [] ==> !IsBlank(v[0]) && !IsBlank(v[|v| - 1])
    ensures Trim([SP] + v) == v
  {
    assert ([SP] + v)[1..] == v;
    assert TrimLeft([SP] + v) == TrimLeft(v) == v;
    assert TrimRight(v) == v;
  }

  lemma FieldOctets(h: Header)
    requires ValidField(h)
    ensures COLON !in h.name && CR !in h.name && CR !in h.value
    ensures h.value != [] ==> !IsBlank(h.value[0]) && !IsBlank(h.value[|h.value| - 1])
  {
  }

  lemma FieldReadsBack(h: Header)
    requires ValidField(h)
    ensures ReadField(FieldLine(h)) == Some(h) && CR !in FieldLine(h)
  {
    FieldOctets(h);
    hide ValidField, Trim, IndexOf;
    TrimmedStays(h.value);
    CutAt(COLON, h.name, [SP] + h.value);
    assert FieldLine(h) == h.name + [COLON] + ([SP] + h.value);
  }

  lemma {:induction false} FieldsReadBack(headers: seq<Header>)
    requires forall i :: 0 <= i < |headers| ==> ValidField(headers[i])
    ensures ReadFields(FieldLines(headers)) == Some(headers)
    decreases |headers|
  {
    hide ValidField, ReadField, FieldLine;
    if headers != [] {
      FieldReadsBack(headers[0]);
      FieldsReadBack(headers[1..]);
      assert FieldLines(headers)[1..] == FieldLines(headers[1..]);
      assert headers == [headers[0]] + headers[1..];
    }
  }

  lemma {:induction false} FieldsReadAreValid(lines: seq<bytes>)
    requires ReadFields(lines).Some?
    ensures forall i :: 0 <= i < |ReadFields(lines).value| ==> ValidField(ReadFields(lines).value[i])
  {
    hide ValidField;
    if lines != [] {
      FieldsReadAreValid(lines[1..]);
    }
  }

  lemma RequestLineReadsBack(r: Request)
    requires ValidVerb(r.verb) && ValidTarget(r.path)
    ensures ReadRequestLine(RequestLine(r)) == Some((r.verb, r.path))
  {
    assert SP !in r.verb && SP !in r.path;
    hide ValidVerb, ValidTarget, IndexOf, RequestLine;
    var rest := r.path + [SP] + HTTP_1_1;
    CutAt(SP, r.verb, rest);
    CutAt(SP, r.path, HTTP_1_1);
    RequestLineParts(r);
  }

  lemma RequestLineParts(r: Request)
    ensures RequestLine(r) == r.verb + [SP] + (r.path + [SP] + HTTP_1_1)
  {
  }

  lemma RequestLineIsALine(r: Request)
    requires ValidVerb(r.verb) && ValidTarget(r.path)
    ensures CR !in RequestLine(r) && RequestLine(r) != []
  {
    assert CR !in r.verb && CR !in r.path && CR !in HTTP_1_1;
    hide ValidVerb, ValidTarget;
  }

  lemma CutAt(sep: byte, a: bytes, rest: bytes)
    requires sep !in a
    ensures var b := a + [sep] + rest;
      IndexOf(b, sep) == |a| && b[..|a|] == a && b[|a| + 1..] == rest
  {
    var b := a + [sep] + rest;
    assert b[..|a|] == a;
    IndexOfUnique(b, sep, |a|);
  }

  lemma OwnNames()
    ensures !SameName(HOST, CONTENT_LENGTH) && !SameName(CONNECTION, CONTENT_LENGTH) && SameName(LENGTH, CONTENT_LENGTH)
    ensures !SameName(HOST, TRANSFER_ENCODING) && !SameName(CONNECTION, TRANSFER_ENCODING) &&
      !SameName(LENGTH, TRANSFER_ENCODING)
  {
    assert |HOST| == 4 && |CONNECTION| == 10 && |LENGTH| == 14 && |TRANSFER_ENCODING| == 17;
  }

  lemma ConnectionIsValid()
    ensures ValidField(Header(CONNECTION, KEEP_ALIVE))
  {
  }

  lemma LengthIsValid(n: nat)
    ensures ValidField(Header(LENGTH, Decimal.Octets(n))) && Announced(Header(LENGTH, Decimal.Octets(n))) == Some(n)
  {
    Decimal.ParseOctets(n);
    assert forall i :: 0 <= i < |Decimal.Octets(n)| ==> Decimal.IsDigit(Decimal.Octets(n)[i]);
  }

  lemma OwnFieldsAreValid(host: bytes, r: Request)
    ensures ValidField(OwnFields(host, r)[1]) && ValidField(OwnFields(host, r)[2])
    ensures Announced(OwnFields(host, r)[2]) == Some(|r.body|)
  {
    LengthIsValid(|r.body|);
    ConnectionIsValid();
    hide ValidField, Decimal.Octets;
  }

  /** The fields of a request that matter for its body: the client's own length, and what the caller added. */
  lemma OwnNamed(host: bytes, r: Request)
    ensures var all := OwnFields(host, r) + r.headers;
      && Named(all, TRANSFER_ENCODING) == Named(r.headers, TRANSFER_ENCODING)
      && Named(all, CONTENT_LENGTH) == [OwnFields(host, r)[2]] + Named(r.headers, CONTENT_LENGTH)
  {
    OwnNames();
    hide SameName, Named;
    var own, all := OwnFields(host, r), OwnFields(host, r) + r.headers;
    var two := [own[2]] + r.headers;
    assert all == [own[0]] + ([own[1]] + two);
    forall name
      ensures Named(all, name) ==
        if !SameName(HOST, name) && !SameName(CONNECTION, name) then Named(two, name) else Named(all, name)
    {
      NamedCons(own[0], [own[1]] + two, name);
      NamedCons(own[1], two, name);
    }
    NamedCons(own[2], r.headers, TRANSFER_ENCODING);
    NamedCons(own[2], r.headers, CONTENT_LENGTH);
  }

  lemma NamedCons(h: Header, headers: seq<Header>, name: bytes)
    ensures Named([h] + headers, name) ==
      if SameName(h.name, name) then [h] + Named(headers, name) else Named(headers, name)
  {
    hide SameName;
    assert ([h] + headers)[1..] == headers;
  }

  /** Section 3.3.3 of RFC 7230 gives the body its true length exactly when the caller adds no other length and no
    * transfer coding. */
  lemma LengthReadsBack(host: bytes, r: Request)
    ensures RequestBody(OwnFields(host, r) + r.headers) == Sized(|r.body|) <==> LengthsAgree(r) && NoCodings(r)
    ensures LengthsAgree(r) || RequestBody(OwnFields(host, r) + r.headers) in {Chunked, Invalid}
    ensures NoCodings(r) || RequestBody(OwnFields(host, r) + r.headers) in {Chunked, Invalid}
  {
    OwnNamed(host, r);
    OwnFieldsAreValid(host, r);
    hide Named, FinalCoding, Announced, ValidField;
    var own, added := OwnFields(host, r)[2], Named(r.headers, CONTENT_LENGTH);
    var lengths := [own] + added;
    assert forall h :: h in lengths <==> h == own || h in added;
    assert lengths[0] == own;
  }

  lemma HeadLinesAreLines(host: bytes, r: Request)
    requires WellFormed(host, r)
    ensures var lines := [RequestLine(r)] + FieldLines(OwnFields(host, r) + r.headers);
      forall i :: 0 <= i < |lines| ==> lines[i] != [] && CR !in lines[i]
  {
    var fields := OwnFields(host, r) + r.headers;
    AllFieldsAreValid(host, r);
    RequestLineIsALine(r);
    hide ValidField, RequestLine;
    var lines := [RequestLine(r)] + FieldLines(fields);
    forall i | 0 <= i < |lines|
      ensures lines[i] != [] && CR !in lines[i]
    {
      if i > 0 {
        FieldReadsBack(fields[i - 1]);
        assert lines[i] == FieldLine(fields[i - 1]);
      }
    }
  }

  lemma AllFieldsAreValid(host: bytes, r: Request)
    requires WellFormed(host, r)
    ensures forall i :: 0 <= i < 3 + |r.headers| ==> ValidField((OwnFields(host, r) + r.headers)[i])
  {
    OwnFieldsAreValid(host, r);
    hide ValidField;
    var fields := OwnFields(host, r) + r.headers;
    forall i | 0 <= i < 3 + |r.headers|
      ensures ValidField(fields[i])
    {
      if i >= 3 {
        assert fields[i] == r.headers[i - 3];
      }
    }
  }

  /** What a server reads off the octets of a well-formed request: all but the body is as it was. */
  lemma HeadReadsBack(host: bytes, r: Request, rest: bytes)
    requires WellFormed(host, r)
    ensures var fields := OwnFields(host, r) + r.headers;
      var body := ReadBody(fields, r.body + rest);
      ReadRequest(Wire(host, r) + rest) ==
        if body.Some? then Some(RequestRead(Received(r.verb, r.path, fields, body.value.body), body.value.rest))
          else None
  {
    var fields := OwnFields(host, r) + r.headers;
    var lines := [RequestLine(r)] + FieldLines(fields);
    HeadLinesAreLines(host, r);
    AllFieldsAreValid(host, r);
    RequestLineReadsBack(r);
    hide ReadLines, ReadBody, ReadFields, ReadRequestLine, ValidField, RequestLine, Ended, OwnFields;
    LinesReadBack(lines, r.body + rest);
    assert Wire(host, r) + rest == Ended(CRLF, lines) + CRLF + (r.body + rest);
    assert lines[1..] == FieldLines(fields);
    FieldsReadBack(fields);
  }

  /** Whatever a server reads is well-formed. */
  lemma ReadIsWellFormed(b: bytes, host: bytes, r: Request)
    requires ReadRequest(b).Some? && ReadRequest(b).value.request == AsReceived(host, r)
    ensures WellFormed(host, r)
  {
    hide ReadLines, ReadBody, ReadFields, ValidField;
    var read := ReadLines(b).value;
    FieldsReadAreValid(read.lines[1..]);
    var fields := OwnFields(host, r) + r.headers;
    assert fields == ReadFields(read.lines[1..]).value;
    assert ValidField(fields[0]);
    forall i | 0 <= i < |r.headers|
      ensures ValidField(r.headers[i])
    {
      assert fields[3 + i] == r.headers[i];
    }
  }

  /** The body that a server finds is the caller's, with the next request right behind it, exactly when the fields give
    * it that length. */
  lemma BodyReadsBack(host: bytes, r: Request, rest: bytes)
    ensures ReadBody(OwnFields(host, r) + r.headers, r.body + rest) == Some(BodyRead(r.body, rest)) <==>
      LengthsAgree(r) && NoCodings(r)
  {
    LengthReadsBack(host, r);
    hide RequestBody, ReadChunks, LengthsAgree, NoCodings;
    var b := r.body + rest;
    assert b[..|r.body|] == r.body && b[|r.body|..] == rest;
    if ReadChunks(b).Some? {
      ReadChunksShrinks(b);
    }
  }

  /** A server recovers a request, and finds the next one right behind it, exactly when the request is well-formed,
    * every Content-Length of the caller announces the length of the body, and there is no Transfer-Encoding. */
  lemma RequestRoundTrip(host: bytes, r: Request, rest: bytes)
    ensures ReadRequest(Wire(host, r) + rest) == Some(RequestRead(AsReceived(host, r), rest))
      <==> WellFormed(host, r) && LengthsAgree(r) && NoCodings(r)
  {
    hide ReadRequest, Wire, WellFormed, LengthsAgree, NoCodings, ReadBody, OwnFields;
    if WellFormed(host, r) {
      HeadReadsBack(host, r, rest);
      BodyReadsBack(host, r, rest);
    } else if ReadRequest(Wire(host, r) + rest) == Some(RequestRead(AsReceived(host, r), rest)) {
      ReadIsWellFormed(Wire(host, r) + rest, host, r);
    }
  }

  function WireAll(host: bytes, requests: seq<Request>): bytes {
    if requests == [] then [] else Wire(host, requests[0]) + WireAll(host, requests[1..])
  }

  lemma {:induction false} WireAllConcat(host: bytes, a: seq<Request>, b: seq<Request>)
    ensures WireAll(host, a + b) == WireAll(host, a) + WireAll(host, b)
  {
    hide Wire;
    if a == [] {
      assert a + b == b;
    } else {
      WireAllConcat(host, a[1..], b);
      assert (a + b)[1..] == a[1..] + b;
    }
  }

  /** What a server needs to recover a request. */
  predicate Recoverable(host: bytes, r: Request) {
    WellFormed(host, r) && LengthsAgree(r) && NoCodings(r)
  }

  predicate Decodable(host: bytes, requests: seq<Request>) {
    forall i :: 0 <= i < |requests| ==> Recoverable(host, requests[i])
  }

  function AllReceived(host: bytes, requests: seq<Request>): (all: seq<Received>)
    ensures |all| == |requests|
  {
    seq(|requests|, i requires 0 <= i < |requests| => AsReceived(host, requests[i]))
  }

  lemma NothingToRead()
    ensures ReadRequest([]).None?
  {
    assert IndexOf<byte>([], CR) == 0;
  }

  lemma {:induction false} StreamReadsBack(host: bytes, requests: seq<Request>)
    requires Decodable(host, requests)
    ensures ReadAll(WireAll(host, requests)) == AllReceived(host, requests)
    decreases |requests|
  {
    hide Wire, ReadRequest, AsReceived;
    if requests == [] {
      NothingToRead();
    } else {
      var more := WireAll(host, requests[1..]);
      RequestRoundTrip(host, requests[0], more);
      StreamReadsBack(host, requests[1..]);
      assert AllReceived(host, requests) == [AsReceived(host, requests[0])] + AllReceived(host, requests[1..]);
    }
  }

  /** Two lists of requests that give the same octets are the same list. */
  lemma UniquelyDecodable(host: bytes, a: seq<Request>, b: seq<Request>)
    requires Decodable(host, a) && Decodable(host, b)
    requires WireAll(host, a) == WireAll(host, b)
    ensures a == b
  {
    StreamReadsBack(host, a);
    StreamReadsBack(host, b);
    forall i | 0 <= i < |a|
      ensures a[i] == b[i]
    {
      var x, y := AsReceived(host, a[i]), AsReceived(host, b[i]);
      assert x == AllReceived(host, a)[i] == AllReceived(host, b)[i] == y;
      assert a[i].headers == x.headers[3..] && b[i].headers == y.headers[3..];
    }
  }

  lemma {:induction false} ReadLinesAppend(b: bytes, more: bytes)
    requires ReadLines(b).Some?
    ensures ReadLines(b + more) == Some(ReadLines(b).value.(rest := ReadLines(b).value.rest + more))
    decreases |b|
  {
    var i := IndexOf(b, CR);
    CrLater(b, more);
    if i > 0 {
      ReadLinesAppend(b[i + 2..], more);
    }
  }

  /** A line end that has arrived stays where it is. */
  lemma CrLater(b: bytes, more: bytes)
    requires IndexOf(b, CR) + 1 < |b|
    ensures var i := IndexOf(b, CR);
      IndexOf(b + more, CR) == i && (b + more)[i + 1] == b[i + 1] && (b + more)[..i] == b[..i] &&
        (b + more)[i + 2..] == b[i + 2..] + more
  {
    hide IndexOf;
    var i := IndexOf(b, CR);
    assert (b + more)[..i] == b[..i];
    IndexOfUnique(b + more, CR, i);
  }

  lemma ReadRequestAppend(b: bytes, more: bytes)
    requires ReadRequest(b).Some?
    ensures ReadRequest(b + more) == Some(ReadRequest(b).value.(rest := ReadRequest(b).value.rest + more))
  {
    hide ReadLines, Assemble;
    ReadLinesAppend(b, more);
    AssembleAppend(ReadLines(b).value, more);
  }

  lemma AssembleAppend(read: LinesRead, more: bytes)
    requires Assemble(read).Some?
    ensures Assemble(read.(rest := read.rest + more)) ==
      Some(Assemble(read).value.(rest := Assemble(read).value.rest + more))
  {
    hide ReadRequestLine, ReadFields, ReadBody;
    ReadBodyAppend(ReadFields(read.lines[1..]).value, read.rest, more);
  }

  lemma ReadBodyAppend(headers: seq<Header>, b: bytes, more: bytes)
    requires ReadBody(headers, b).Some?
    ensures ReadBody(headers, b + more) ==
      Some(ReadBody(headers, b).value.(rest := ReadBody(headers, b).value.rest + more))
  {
    hide RequestBody, ReadChunks;
    match RequestBody(headers)
    case Sized(n) =>
      assert (b + more)[..n] == b[..n] && (b + more)[n..] == b[n..] + more;
    case Chunked => ReadChunksAppend(b, more);
    case _ =>
  }

  lemma {:induction false} ReadChunksAppend(b: bytes, more: bytes)
    requires ReadChunks(b).Some?
    ensures ReadChunks(b + more) == Some(ReadChunks(b).value.(rest := ReadChunks(b).value.rest + more))
    decreases |b|
  {
    SizeStable(SIZE_START, b, more);
    assert ParseChunkSize(b + more) == ParseChunkSize(b);
    hide ReadLines, ParseChunkSize;
    var read, size := ParseChunkSize(b).read, ParseChunkSize(b).size;
    CutLater(b, more, 0, read);
    if size == 0 {
      ReadLinesAppend(b[read..], more);
    } else {
      CutLater(b, more, read, read + size);
      CutLater(b, more, read + size, read + size + 2);
      ReadChunksAppend(b[read + size + 2..], more);
    }
  }

  lemma CutLater(b: bytes, more: bytes, from: nat, to: nat)
    requires from <= to <= |b|
    ensures (b + more)[from..to] == b[from..to] && (b + more)[to..] == b[to..] + more
  {
  }

  /** However far the writing has got, the server has seen the first requests of the list and nothing else. */
  lemma {:induction false} ServerSeesAPrefix(host: bytes, requests: seq<Request>, written: bytes, unwritten: bytes)
    requires Decodable(host, requests) && written + unwritten == WireAll(host, requests)
    ensures ReadAll(written) <= AllReceived(host, requests)
    decreases |requests|
  {
    hide Wire, ReadRequest, AsReceived;
    if ReadRequest(written).Some? {
      ReadRequestAppend(written, unwritten);
      var read := ReadRequest(written).value;
      if requests == [] {
        NothingToRead();
      } else {
        var more := WireAll(host, requests[1..]);
        RequestRoundTrip(host, requests[0], more);
        ServerSeesAPrefix(host, requests[1..], read.rest, unwritten);
        assert AllReceived(host, requests) == [AsReceived(host, requests[0])] + AllReceived(host, requests[1..]);
      }
    }
  }
}
