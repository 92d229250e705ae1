/** The two scanners that the HTTP client calls: a response head and a chunk-size line.
  *
  * Both read one octet at a time, so they are automata with two absorbing states. The octet classes, the limit of
  * 32 header fields and the limit of 16 hexadecimal digits are those of the scanner library that the client uses,
  * which is not part of this model. */
module HttpSyntax {
  import opened Prelude
  import Decimal

  datatype Header = Header(name: bytes, value: bytes)

  datatype Head = Head(code: nat, headers: seq<Header>)

  /** `read` counts the octets up to and including the empty line. */
  datatype HeadParse = Complete(read: nat, head: Head) | Partial | Malformed {
    /** The same verdict, `n` octets further on. */
    function Shift(n: nat): HeadParse {
      match this
      case Complete(read, head) => Complete(read + n, head)
      case _ => this
    }
  }

  datatype Phase =
    | Blank | BlankCr
    | Version(seen: nat)
    | Code(digits: nat) | AfterCode | Reason | StatusCr
    | LineStart | FinalCr
    | Name | Gap | Value | ValueCr
    | Done | Bad

  datatype Scan = Scan(phase: Phase, code: nat, headers: seq<Header>, name: bytes, value: bytes) {
    function To(next: Phase): Scan {
      this.(phase := next)
    }

    /** Ends the current field; blanks at the end of a value do not belong to it. */
    function Push(): Scan {
      Scan(LineStart, code, headers + [Header(name, TrimRight(value))], [], [])
    }
  }

  const START: Scan := Scan(Blank, 0, [], [], [])
  const MAX_HEADERS: nat := 32

  // "HTTP/1."
  const VERSION: bytes := [72, 84, 84, 80, 47, 49, 46]

  predicate IsBlank(b: byte) {
    b == SP || b == TAB
  }

  predicate IsAlpha(b: byte) {
    65 <= b <= 90 || 97 <= b <= 122
  }

  predicate SameLetter(a: byte, b: byte) {
    a == b || (65 <= a <= 90 && b == a + 32) || (65 <= b <= 90 && a == b + 32)
  }

  /** Equal but for the case of letters, as section 3.2 of RFC 7230 compares the names of fields. */
  predicate SameName(a: bytes, b: bytes) {
    |a| == |b| && forall i :: 0 <= i < |a| ==> SameLetter(a[i], b[i])
  }

  /** The token characters of section 3.2.6 of RFC 7230. */
  predicate IsToken(b: byte) {
    Decimal.IsDigit(b) || IsAlpha(b) || b in [33, 35, 36, 37, 38, 39, 42, 43, 45, 46, 94, 95, 96, 124, 126]
  }

  predicate IsValueOctet(b: byte) {
    b == TAB || (32 <= b && b != 127)
  }

  function TrimRight(v: bytes): bytes {
    if v != [] && IsBlank(v[|v| - 1]) then TrimRight(v[..|v| - 1]) else v
  }

  /** A field as section 3.2 of RFC 7230 has it: a token, and a value without blanks around it. */
  predicate ValidField(h: Header) {
    && h.name != [] && (forall i :: 0 <= i < |h.name| ==> IsToken(h.name[i]))
    && (forall i :: 0 <= i < |h.value| ==> IsValueOctet(h.value[i]))
    && (h.value != [] ==> !IsBlank(h.value[0]) && !IsBlank(h.value[|h.value| - 1]))
  }

  function HeadStep(s: Scan, b: byte): Scan {
    match s.phase
    case Blank => if b == CR then s.To(BlankCr) else if b == LF then s else StepVersion(s, 0, b)
    case BlankCr => if b == LF then s.To(Blank) else s.To(Bad)
    case Version(seen) => StepVersion(s, seen, b)
    case Code(digits) =>
      if !Decimal.IsDigit(b) then s.To(Bad)
      else s.(code := s.code * 10 + (b as int - 48), phase := if digits >= 2 then AfterCode else Code(digits + 1))
    case AfterCode =>
      if b == SP then s.To(Reason) else if b == CR then s.To(StatusCr) else if b == LF then s.To(LineStart)
        else s.To(Bad)
    case Reason =>
      if b == CR then s.To(StatusCr) else if b == LF then s.To(LineStart) else if IsValueOctet(b) then s else s.To(Bad)
    case StatusCr => if b == LF then s.To(LineStart) else s.To(Bad)
    case LineStart =>
      if b == CR then s.To(FinalCr) else if b == LF then s.To(Done)
      else if !IsToken(b) || |s.headers| >= MAX_HEADERS then s.To(Bad)
      else s.(phase := Name, name := [b], value := [])
    case FinalCr => if b == LF then s.To(Done) else s.To(Bad)
    case Name => if b == COLON then s.To(Gap) else if IsToken(b) then s.(name := s.name + [b]) else s.To(Bad)
    case Gap => if IsBlank(b) then s else StepValue(s, b)
    case Value => StepValue(s, b)
    case ValueCr => if b == LF then s.Push() else s.To(Bad)
    case Done => s
    case Bad => s
  }

  function StepVersion(s: Scan, seen: nat, b: byte): Scan {
    if seen < |VERSION| then if b == VERSION[seen] then s.To(Version(seen + 1)) else s.To(Bad)
    else if seen == |VERSION| then if b == 48 || b == 49 then s.To(Version(seen + 1)) else s.To(Bad)
    else if b == SP then s.To(Code(0)) else s.To(Bad)
  }

  function StepValue(s: Scan, b: byte): Scan {
    if b == CR then s.To(ValueCr)
    else if b == LF then s.Push()
    else if IsValueOctet(b) then s.(phase := Value, value := s.value + [b])
    else s.To(Bad)
  }

  function ScanHead(s: Scan, buf: bytes): (r: HeadParse)
    ensures r.Complete? ==> r.read <= |buf|
    decreases |buf|
  {
    if s.phase.Done? then Complete(0, Head(s.code, s.headers))
    else if s.phase.Bad? then Malformed
    else if buf == [] then Partial
    else ScanHead(HeadStep(s, buf[0]), buf[1..]).Shift(1)
  }

  /** The response head at the front of `buf`. */
  function ParseHead(buf: bytes): (r: HeadParse)
    ensures r.Complete? ==> 0 < r.read <= |buf|
  {
    ScanHead(START, buf)
  }

  /** A verdict does not depend on what arrives later. */
  lemma {:induction false} HeadStable(s: Scan, buf: bytes, more: bytes)
    requires !ScanHead(s, buf).Partial?
    ensures ScanHead(s, buf + more) == ScanHead(s, buf)
    decreases |buf|
  {
    if !s.phase.Done? && !s.phase.Bad? {
      HeadStable(HeadStep(s, buf[0]), buf[1..], more);
      assert (buf + more)[1..] == buf[1..] + more;
    }
  }

  datatype SizeParse = SizeComplete(read: nat, size: nat) | SizePartial | SizeMalformed {
    function Shift(n: nat): SizeParse {
      match this
      case SizeComplete(read, size) => SizeComplete(read + n, size)
      case _ => this
    }
  }

  /** How far into a chunk-size line (section 4.1 of RFC 7230) the scanner is. */
  datatype SizePhase = Hex(count: nat) | Blanks | Extension | SizeCr | SizeDone | SizeBad

  datatype SizeScan = SizeScan(phase: SizePhase, size: nat) {
    function To(next: SizePhase): SizeScan {
      this.(phase := next)
    }
  }

  const SIZE_START: SizeScan := SizeScan(Hex(0), 0)

  function HexValue(b: byte): Option<nat> {
    if Decimal.IsDigit(b) then Some(b as int - 48)
    else if 97 <= b <= 102 then Some(b as int - 87)
    else if 65 <= b <= 70 then Some(b as int - 55)
    else None
  }

  function SizeStep(s: SizeScan, b: byte): SizeScan {
    match s.phase
    case Hex(count) =>
      if HexValue(b).Some? then
        if count > 15 then s.To(SizeBad) else SizeScan(Hex(count + 1), s.size * 16 + HexValue(b).value)
      else if IsBlank(b) then s.To(Blanks)
      else SizeEnd(s, b)
    case Blanks => if IsBlank(b) then s else SizeEnd(s, b)
    case Extension => if b == CR then s.To(SizeCr) else s
    case SizeCr => if b == LF then s.To(SizeDone) else s.To(SizeBad)
    case SizeDone => s
    case SizeBad => s
  }

  function SizeEnd(s: SizeScan, b: byte): SizeScan {
    if b == 59 then s.To(Extension) else if b == CR then s.To(SizeCr) else s.To(SizeBad)
  }

  function ScanSize(s: SizeScan, buf: bytes): (r: SizeParse)
    ensures r.SizeComplete? ==> r.read <= |buf|
    decreases |buf|
  {
    if s.phase.SizeDone? then SizeComplete(0, s.size)
    else if s.phase.SizeBad? then SizeMalformed
    else if buf == [] then SizePartial
    else ScanSize(SizeStep(s, buf[0]), buf[1..]).Shift(1)
  }

  /** The chunk-size line at the front of `buf`. */
  function ParseChunkSize(buf: bytes): (r: SizeParse)
    ensures r.SizeComplete? ==> 0 < r.read <= |buf|
  {
    ScanSize(SIZE_START, buf)
  }

  lemma {:induction false} SizeStable(s: SizeScan, buf: bytes, more: bytes)
    requires !ScanSize(s, buf).SizePartial?
    ensures ScanSize(s, buf + more) == ScanSize(s, buf)
    decreases |buf|
  {
    if !s.phase.SizeDone? && !s.phase.SizeBad? {
      SizeStable(SizeStep(s, buf[0]), buf[1..], more);
      assert (buf + more)[1..] == buf[1..] + more;
    }
  }
}
