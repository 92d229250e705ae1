/** The grammar of IRC lines: what the parser accepts, and what it takes each line apart into. */
module IrcGrammar {
  import opened Prelude

  /** Any character but NUL, CR, LF, space and colon, up to the end of the second plane. */
  predicate IsPlain(c: char) {
    || '\U{01}' <= c <= '\U{09}'
    || '\U{0B}' <= c <= '\U{0C}'
    || '\U{0E}' <= c <= '\U{1F}'
    || '\U{21}' <= c <= '\U{39}'
    || '\U{3B}' <= c <= '\U{1FFFF}'
  }

  predicate IsSpace(c: char) {
    c == ' '
  }

  predicate IsWord(c: char) {
    c == ':' || IsPlain(c)
  }

  predicate IsTrailing(c: char) {
    c == ' ' || IsWord(c)
  }

  /** The classes by what they leave out. */
  lemma ClassesLeaveOut(c: char)
    ensures IsTrailing(c) <==> c !in {'\0', '\r', '\n'} && c <= '\U{1FFFF}'
    ensures IsWord(c) <==> c !in {'\0', '\r', '\n', ' '} && c <= '\U{1FFFF}'
    ensures IsPlain(c) <==> c !in {'\0', '\r', '\n', ' ', ':'} && c <= '\U{1FFFF}'
  {
  }

  predicate IsUpper(c: char) {
    'A' <= c <= 'Z'
  }

  predicate IsDigit(c: char) {
    '0' <= c <= '9'
  }

  predicate All(p: char -> bool, s: string) {
    forall i :: 0 <= i < |s| ==> p(s[i])
  }

  /** How far a greedy repetition of `p` gets: it never gives anything back. */
  function Span(p: char -> bool, s: string): (n: nat)
    ensures n <= |s| && All(p, s[..n])
    ensures n < |s| ==> !p(s[n])
  {
    if s == [] || !p(s[0]) then 0
    else
      var n := Span(p, s[1..]);
      assert s[..n + 1] == [s[0]] + s[1..][..n];
      n + 1
  }

  lemma {:induction false} SpanUnique(p: char -> bool, s: string, rest: string)
    requires All(p, s) && (rest != [] ==> !p(rest[0]))
    ensures Span(p, s + rest) == |s|
  {
    if s == [] {
      assert s + rest == rest;
    } else {
      SpanUnique(p, s[1..], rest);
      assert (s + rest)[1..] == s[1..] + rest;
    }
  }

  /** A line taken apart, with the last argument kept apart when it was introduced by a colon. */
  datatype Line = Line(prefix: Option<string>, command: string, params: seq<string>, trailing: Option<string>) {
    function Args(): seq<string> {
      params + (match trailing { case None => [] case Some(t) => [t] })
    }
  }

  datatype ParamsMatch = ParamsMatch(params: seq<string>, trailing: Option<string>, rest: string)

  /** (space param)* (space ":" trailing)? */
  function MatchParams(s: string): ParamsMatch
    decreases |s|
  {
    var n := Span(IsSpace, s);
    if n > 0 && n < |s| && IsPlain(s[n]) then
      var end := n + 1 + Span(IsWord, s[n + 1..]);
      var more := MatchParams(s[end..]);
      more.(params := [s[n..end]] + more.params)
    else if n > 0 && n < |s| && s[n] == ':' then
      var end := n + 1 + Span(IsTrailing, s[n + 1..]);
      ParamsMatch([], Some(s[n + 1..end]), s[end..])
    else ParamsMatch([], None, s)
  }

  /** The length of the command at the front: letters if there is one, else three digits; 0 if there is none. */
  function MatchCommand(s: string): (n: nat)
    ensures n <= |s|
  {
    var letters := Span(IsUpper, s);
    if letters > 0 then letters
    else if |s| >= 3 && All(IsDigit, s[..3]) then 3
    else 0
  }

  function MatchFromCommand(prefix: Option<string>, s: string): Option<Line> {
    var n := MatchCommand(s);
    var m := MatchParams(s[n..]);
    if n > 0 && m.rest == [] then Some(Line(prefix, s[..n], m.params, m.trailing)) else None
  }

  /** (":" prefix space)? command params, up to the end of the input. */
  function ParseLine(s: string): Option<Line> {
    var prefixed := if s != [] && s[0] == ':' then Span(IsWord, s[1..]) else 0;
    var spaces := if prefixed > 0 then Span(IsSpace, s[1 + prefixed..]) else 0;
    if spaces > 0 then MatchFromCommand(Some(s[1..1 + prefixed]), s[1 + prefixed + spaces..])
    else MatchFromCommand(None, s)
  }

  // ---- The lines of the protocol, written down --------------------------------------------------------------

  predicate ValidParam(p: string) {
    p != [] && IsPlain(p[0]) && All(IsWord, p)
  }

  predicate ValidCommand(c: string) {
    (c != [] && All(IsUpper, c)) || (|c| == 3 && All(IsDigit, c))
  }

  /** A line in the sense of section 2.3.1 of RFC 2812. */
  predicate ValidLine(l: Line) {
    && (l.prefix.Some? ==> l.prefix.value != [] && All(IsWord, l.prefix.value))
    && ValidCommand(l.command)
    && (forall i :: 0 <= i < |l.params| ==> ValidParam(l.params[i]))
    && (l.trailing.Some? ==> All(IsTrailing, l.trailing.value))
  }

  /** How many spaces there are after the prefix, before each parameter, and before the trailing one. */
  datatype Gaps = Gaps(lead: nat, each: seq<nat>, last: nat)

  predicate ValidGaps(params: seq<string>, g: Gaps) {
    g.lead > 0 && |g.each| == |params| && g.last > 0 && forall i :: 0 <= i < |g.each| ==> g.each[i] > 0
  }

  function Spaces(n: nat): (s: string)
    ensures |s| == n && All(IsSpace, s)
  {
    seq(n, _ => ' ')
  }

  function PrintParams(params: seq<string>, trailing: Option<string>, each: seq<nat>, last: nat): string
    requires |each| == |params|
  {
    if params != [] then Spaces(each[0]) + params[0] + PrintParams(params[1..], trailing, each[1..], last)
    else match trailing { case None => [] case Some(t) => Spaces(last) + ":" + t }
  }

  function PrintLine(l: Line, g: Gaps): string
    requires |g.each| == |l.params|
  {
    (match l.prefix { case None => [] case Some(p) => ":" + p + Spaces(g.lead) })
    + (l.command + PrintParams(l.params, l.trailing, g.each, g.last))
  }

  function SingleGaps(n: nat): (g: Gaps)
    ensures |g.each| == n && forall i :: 0 <= i < n ==> g.each[i] == 1
  {
    Gaps(1, seq(n, _ => 1), 1)
  }

  // ---- Printed lines are read back --------------------------------------------------------------------------

  lemma Classes()
    ensures !IsPlain(' ') && !IsPlain(':') && !IsWord(' ') && IsWord(':') && !IsSpace(':')
    ensures forall c :: IsPlain(c) ==> !IsSpace(c) && IsWord(c)
    ensures forall c :: IsUpper(c) || IsDigit(c) ==> c != ' ' && c != ':'
  {
  }

  lemma OneParamReadsBack(n: nat, p: string, more: string)
    requires n > 0 && ValidParam(p) && (more != [] ==> more[0] == ' ')
    ensures MatchParams(Spaces(n) + p + more) == MatchParams(more).(params := [p] + MatchParams(more).params)
  {
    hide IsPlain, IsWord, All;
    Classes();
    var s := Spaces(n) + p + more;
    assert s == Spaces(n) + (p + more);
    SpanUnique(IsSpace, Spaces(n), p + more);
    assert s[n + 1..] == p[1..] + more;
    assert All(IsWord, p[1..]) by {
      AllTail(IsWord, p);
    }
    SpanUnique(IsWord, p[1..], more);
    assert s[n..n + |p|] == p && s[n + |p|..] == more;
  }

  lemma AllTail(p: char -> bool, s: string)
    requires s != [] && All(p, s)
    ensures p(s[0]) && All(p, s[1..])
  {
  }

  lemma TrailingMatches(s: string, n: nat, end: nat)
    requires n == Span(IsSpace, s) && 0 < n < |s| && s[n] == ':' && end == n + 1 + Span(IsTrailing, s[n + 1..])
    ensures end <= |s| && MatchParams(s) == ParamsMatch([], Some(s[n + 1..end]), s[end..])
  {
    hide Span, IsTrailing, IsWord;
  }

  /** Where the pieces of a concatenation are. */
  lemma Pieces(a: string, b: string, c: string)
    ensures (a + b + c)[|a| + |b|..] == c && a + b + c == a + (b + c) && (a + b + c)[|a|..] == b + c
    ensures (a + b + c)[|a|..|a| + |b|] == b
  {
  }

  lemma TrailingReadsBack(n: nat, t: string)
    requires n > 0 && All(IsTrailing, t)
    ensures MatchParams(Spaces(n) + ":" + t) == ParamsMatch([], Some(t), [])
  {
    hide IsPlain, IsWord, IsTrailing, All, MatchParams, Span, Spaces;
    Classes();
    var s := Spaces(n) + ":" + t;
    Pieces(Spaces(n), ":", t);
    SpanUnique(IsSpace, Spaces(n), ":" + t);
    assert t + [] == t;
    SpanUnique(IsTrailing, t, []);
    TrailingMatches(s, n, n + 1 + |t|);
    assert s[n + 1..n + 1 + |t|] == s[n + 1..];
    assert s[n + 1 + |t|..] == [];
  }

  lemma NoParamReadsBack(trailing: Option<string>, last: nat)
    requires last > 0 && (trailing.Some? ==> All(IsTrailing, trailing.value))
    ensures var s := PrintParams([], trailing, [], last);
      MatchParams(s) == ParamsMatch([], trailing, []) && (s != [] ==> s[0] == ' ')
  {
    if trailing.Some? {
      TrailingReadsBack(last, trailing.value);
      assert Spaces(last)[0] == ' ';
      hide MatchParams, All;
    } else {
      assert Span(IsSpace, []) == 0;
    }
  }

  lemma FirstParamReadsBack(params: seq<string>, trailing: Option<string>, each: seq<nat>, last: nat, more: string)
    requires |each| == |params| > 0 && ValidParam(params[0]) && each[0] > 0
    requires more == PrintParams(params[1..], trailing, each[1..], last) && (more != [] ==> more[0] == ' ')
    requires MatchParams(more) == ParamsMatch(params[1..], trailing, [])
    ensures var s := PrintParams(params, trailing, each, last);
      MatchParams(s) == ParamsMatch(params, trailing, []) && (s != [] ==> s[0] == ' ')
  {
    assert PrintParams(params, trailing, each, last) == Spaces(each[0]) + params[0] + more;
    assert Spaces(each[0])[0] == ' ';
    hide MatchParams, ValidParam, All, PrintParams, Spaces;
    OneParamReadsBack(each[0], params[0], more);
    assert params == [params[0]] + params[1..];
  }

  lemma {:induction false} ParamsReadBack(params: seq<string>, trailing: Option<string>, each: seq<nat>, last: nat)
    requires |each| == |params| && last > 0
    requires forall i :: 0 <= i < |params| ==> ValidParam(params[i]) && each[i] > 0
    requires trailing.Some? ==> All(IsTrailing, trailing.value)
    ensures MatchParams(PrintParams(params, trailing, each, last)) == ParamsMatch(params, trailing, [])
    ensures PrintParams(params, trailing, each, last) != [] ==> PrintParams(params, trailing, each, last)[0] == ' '
    decreases |params|
  {
    hide *;
    if params == [] {
      NoParamReadsBack(trailing, last);
    } else {
      ParamsReadBack(params[1..], trailing, each[1..], last);
      FirstParamReadsBack(params, trailing, each, last, PrintParams(params[1..], trailing, each[1..], last));
    }
  }

  lemma CommandReadsBack(prefix: Option<string>, l: Line, g: Gaps)
    requires ValidLine(l) && ValidGaps(l.params, g)
    ensures MatchFromCommand(prefix, l.command + PrintParams(l.params, l.trailing, g.each, g.last)) ==
      Some(l.(prefix := prefix))
  {
    var tail := PrintParams(l.params, l.trailing, g.each, g.last);
    ParamsReadBack(l.params, l.trailing, g.each, g.last);
    var s := l.command + tail;
    assert s[|l.command|..] == tail && s[..|l.command|] == l.command;
    if All(IsUpper, l.command) {
      SpanUnique(IsUpper, l.command, tail);
    } else {
      assert !IsUpper(s[0]);
      assert s[..3] == l.command;
    }
  }

  lemma PrefixReadsBack(p: string, n: nat, tail: string)
    requires p != [] && All(IsWord, p) && n > 0 && (tail != [] ==> !IsSpace(tail[0]))
    ensures ParseLine(":" + p + Spaces(n) + tail) == MatchFromCommand(Some(p), tail)
  {
    hide MatchFromCommand, All, IsWord, IsPlain, Span;
    Classes();
    var s := ":" + p + Spaces(n) + tail;
    Pieces(":", p, Spaces(n) + tail);
    Pieces(":" + p, Spaces(n), tail);
    assert s == ":" + p + (Spaces(n) + tail);
    assert (Spaces(n) + tail)[0] == ' ';
    hide Spaces;
    SpanUnique(IsWord, p, Spaces(n) + tail);
    SpanUnique(IsSpace, Spaces(n), tail);
  }

  /** However many spaces separate its parts, a printed line is parsed into exactly those parts. */
  lemma PrintedLinesParse(l: Line, g: Gaps)
    requires ValidLine(l) && ValidGaps(l.params, g)
    ensures ParseLine(PrintLine(l, g)) == Some(l)
  {
    hide PrintParams, MatchFromCommand, Span, ValidParam;
    var tail := l.command + PrintParams(l.params, l.trailing, g.each, g.last);
    CommandReadsBack(l.prefix, l, g);
    Classes();
    assert tail[0] == l.command[0] && (IsUpper(tail[0]) || IsDigit(tail[0]));
    match l.prefix
    case None =>
      assert PrintLine(l, g) == tail;
    case Some(p) =>
      PrefixReadsBack(p, g.lead, tail);
  }

  // ---- Accepted lines are printed lines ---------------------------------------------------------------------

  lemma SpanIsSpaces(s: string)
    ensures s[..Span(IsSpace, s)] == Spaces(Span(IsSpace, s))
  {
  }

  /** A parameter that was matched at `n` and ended at `end`. */
  lemma MatchedParam(s: string, n: nat, end: nat)
    requires n < |s| && IsPlain(s[n]) && end == n + 1 + Span(IsWord, s[n + 1..])
    ensures end <= |s| && ValidParam(s[n..end]) && s == s[..n] + s[n..end] + s[end..]
  {
    hide IsPlain, Span;
    Classes();
    var p := s[n..end];
    assert p[1..] == s[n + 1..][..end - n - 1];
    assert All(IsWord, p);
  }

  lemma MatchedTrailing(s: string, n: nat, end: nat)
    requires n < |s| && s[n] == ':' && end == n + 1 + Span(IsTrailing, s[n + 1..])
    ensures end <= |s| && All(IsTrailing, s[n + 1..end]) && s == s[..n] + ":" + s[n + 1..end] + s[end..]
  {
    hide IsTrailing, Span;
    assert s[n + 1..][..end - n - 1] == s[n + 1..end];
  }

  /** The spaces that separate what was matched. */
  ghost predicate Separates(s: string, each: seq<nat>, last: nat) {
    var m := MatchParams(s);
    && |each| == |m.params| && last > 0
    && (forall i :: 0 <= i < |m.params| ==> ValidParam(m.params[i]) && each[i] > 0)
    && (m.trailing.Some? ==> All(IsTrailing, m.trailing.value))
    && s == PrintParams(m.params, m.trailing, each, last) + m.rest
  }

  lemma ParamMatches(s: string, n: nat, end: nat)
    requires n == Span(IsSpace, s) && 0 < n < |s| && IsPlain(s[n]) && end == n + 1 + Span(IsWord, s[n + 1..])
    ensures end <= |s| && MatchParams(s) == MatchParams(s[end..]).(params := [s[n..end]] + MatchParams(s[end..]).params)
  {
    hide IsPlain, Span;
  }

  lemma PrintOneMore(p: string, params: seq<string>, trailing: Option<string>, n: nat, each: seq<nat>, last: nat)
    requires |each| == |params|
    ensures PrintParams([p] + params, trailing, [n] + each, last) ==
      Spaces(n) + p + PrintParams(params, trailing, each, last)
  {
    hide Spaces;
    assert ([n] + each)[1..] == each && ([p] + params)[1..] == params;
  }

  lemma SeparatesOneMore(s: string, n: nat, end: nat, each: seq<nat>, last: nat)
    requires n == Span(IsSpace, s) && 0 < n < |s| && IsPlain(s[n]) && end == n + 1 + Span(IsWord, s[n + 1..])
    requires end <= |s| && Separates(s[end..], each, last)
    ensures Separates(s, [n] + each, last)
  {
    hide ValidParam, All, IsPlain, IsSpace, IsWord, IsTrailing, Span, MatchParams, PrintParams, Spaces;
    MatchedParam(s, n, end);
    ParamMatches(s, n, end);
    SpanIsSpaces(s);
    var p, m := s[n..end], MatchParams(s[end..]);
    PrintOneMore(p, m.params, m.trailing, n, each, last);
    Pieces(Spaces(n) + p, PrintParams(m.params, m.trailing, each, last), m.rest);
    OneGapMore(m.params, p, n, each);
  }

  lemma OneGapMore(params: seq<string>, p: string, n: nat, each: seq<nat>)
    requires |each| == |params| && ValidParam(p) && n > 0
    requires forall i :: 0 <= i < |params| ==> ValidParam(params[i]) && each[i] > 0
    ensures forall i :: 0 <= i < |[p] + params| ==> ValidParam(([p] + params)[i]) && ([n] + each)[i] > 0
  {
    hide ValidParam;
  }

  lemma {:induction false} MatchedParams(s: string) returns (each: seq<nat>, last: nat)
    ensures Separates(s, each, last)
    decreases |s|
  {
    hide ValidParam, All, IsPlain, IsWord, IsTrailing, Span;
    var n := Span(IsSpace, s);
    each, last := [], 1;
    if n > 0 && n < |s| && IsPlain(s[n]) {
      hide MatchParams, Separates;
      var end := n + 1 + Span(IsWord, s[n + 1..]);
      each, last := MatchedParams(s[end..]);
      SeparatesOneMore(s, n, end, each, last);
      each := [n] + each;
    } else if n > 0 && n < |s| && s[n] == ':' {
      last := n;
      SpanIsSpaces(s);
      MatchedTrailing(s, n, n + 1 + Span(IsTrailing, s[n + 1..]));
    }
  }

  lemma MatchedFromCommand(prefix: Option<string>, s: string) returns (each: seq<nat>, last: nat)
    requires MatchFromCommand(prefix, s).Some?
    ensures var l := MatchFromCommand(prefix, s).value;
      && l.prefix == prefix && ValidLine(l.(prefix := None)) && ValidGaps(l.params, Gaps(1, each, last))
      && s == l.command + PrintParams(l.params, l.trailing, each, last)
  {
    hide ValidParam, IsWord, IsTrailing, PrintParams, MatchParams;
    var n := MatchCommand(s);
    each, last := MatchedParams(s[n..]);
    assert s == s[..n] + s[n..];
  }

  /** Every accepted input is the print of its parse, up to the number of separating spaces. */
  lemma AcceptedLinesArePrinted(s: string) returns (g: Gaps)
    requires ParseLine(s).Some?
    ensures ValidLine(ParseLine(s).value) && ValidGaps(ParseLine(s).value.params, g)
    ensures s == PrintLine(ParseLine(s).value, g)
  {
    hide MatchFromCommand, PrintParams, Span, ValidParam, IsWord, IsTrailing;
    var prefixed := if s != [] && s[0] == ':' then Span(IsWord, s[1..]) else 0;
    var spaces := if prefixed > 0 then Span(IsSpace, s[1 + prefixed..]) else 0;
    if spaces > 0 {
      var p, start := s[1..1 + prefixed], 1 + prefixed + spaces;
      var each, last := MatchedFromCommand(Some(p), s[start..]);
      g := Gaps(spaces, each, last);
      SpanIsSpaces(s[1 + prefixed..]);
      assert s[1..][..prefixed] == p;
      assert s[1 + prefixed..][..spaces] == s[1 + prefixed..start];
      assert s == ":" + p + s[1 + prefixed..start] + s[start..];
    } else {
      var each, last := MatchedFromCommand(None, s);
      g := Gaps(1, each, last);
    }
  }

  /** The parser accepts exactly the lines of the protocol and takes each apart in the only possible way. */
  lemma GrammarIsExact(s: string, l: Line)
    ensures ParseLine(s) == Some(l) <==>
      ValidLine(l) && exists g :: ValidGaps(l.params, g) && |g.each| == |l.params| && s == PrintLine(l, g)
  {
    if ParseLine(s) == Some(l) {
      var g := AcceptedLinesArePrinted(s);
    }
    if ValidLine(l) && exists g :: ValidGaps(l.params, g) && |g.each| == |l.params| && s == PrintLine(l, g) {
      var g :| ValidGaps(l.params, g) && |g.each| == |l.params| && s == PrintLine(l, g);
      PrintedLinesParse(l, g);
    }
  }

  /** Hence no text can be read as two different lines. */
  lemma DecompositionIsUnique(a: Line, g: Gaps, b: Line, h: Gaps)
    requires ValidLine(a) && ValidGaps(a.params, g) && ValidLine(b) && ValidGaps(b.params, h)
    requires PrintLine(a, g) == PrintLine(b, h)
    ensures a == b
  {
    PrintedLinesParse(a, g);
    PrintedLinesParse(b, h);
  }
}
