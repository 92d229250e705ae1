/** How the lines of an IRC client are heard, whichever blanks and line ends it puts behind them. */
module Hearing {
  import opened Prelude
  import opened Network
  import opened IrcGrammar
  import opened IrcCommands
  import opened IrcLines
  import Utf8

  // ---- Blanks at the end ------------------------------------------------------------------------------------

  /** The characters with the property White_Space. */
  const WHITE_SPACE: set<char> := {
    '\U{09}', '\U{0A}', '\U{0B}', '\U{0C}', '\U{0D}', '\U{20}', '\U{85}', '\U{A0}', '\U{1680}',
    '\U{2000}', '\U{2001}', '\U{2002}', '\U{2003}', '\U{2004}', '\U{2005}', '\U{2006}', '\U{2007}', '\U{2008}',
    '\U{2009}', '\U{200A}', '\U{2028}', '\U{2029}', '\U{202F}', '\U{205F}', '\U{3000}'
  }

  lemma BlanksAreWhiteSpace(c: char)
    ensures IsWhitespace(c) <==> c in WHITE_SPACE
  {
  }

  predicate AllBlank(s: string) {
    forall i :: 0 <= i < |s| ==> s[i] in WHITE_SPACE
  }

  predicate EndsVisibly(s: string) {
    s != "" ==> s[|s| - 1] !in WHITE_SPACE
  }

  lemma {:induction false} TrimsBlanks(text: string, blanks: string)
    requires EndsVisibly(text) && AllBlank(blanks)
    ensures TrimEnd(text + blanks) == text
    decreases |blanks|
  {
    hide IsWhitespace;
    if blanks == "" {
      assert text + blanks == text;
      if text != "" {
        BlanksAreWhiteSpace(text[|text| - 1]);
      }
    } else {
      var s := text + blanks;
      BlanksAreWhiteSpace(s[|s| - 1]);
      assert s[..|s| - 1] == text + blanks[..|blanks| - 1];
      TrimsBlanks(text, blanks[..|blanks| - 1]);
    }
  }

  // ---- One line ---------------------------------------------------------------------------------------------

  /** The octets of a line with this text and blanks behind it. */
  function OnTheWire(text: string, blanks: string): bytes {
    Utf8.Encode(text) + Utf8.Encode(blanks)
  }

  lemma {:induction false} EncodesLineFeed(s: string)
    ensures LF in Utf8.Encode(s) <==> '\n' in s
  {
    if s != "" {
      EncodesLineFeed(s[1..]);
      EncodesOne(s[0]);
      hide Utf8.EncodeChar;
      assert s == [s[0]] + s[1..];
    }
  }

  lemma EncodesOne(c: char)
    ensures LF in Utf8.EncodeChar(c) <==> c == '\n'
    ensures c < '\U{80}' ==> Utf8.EncodeChar(c) == [c as int as byte]
  {
  }

  lemma LineFeedOnly()
    ensures Utf8.Encode("\n") == [LF]
  {
    EncodesOne('\n');
    hide Utf8.EncodeChar;
    assert Utf8.Encode([]) == [];
    assert "\n"[1..] == "";
  }

  /** A line is heard as the command that its text is, without the blanks behind it. */
  lemma LineIsHeard(text: string, blanks: string, rest: bytes, ending: Ending)
    requires ParseCommand(text).Some? && EndsVisibly(text) && '\n' !in text
    requires AllBlank(blanks) && '\n' !in blanks && |OnTheWire(text, blanks)| < 2048
    ensures var after := ReadAll(rest, ending);
      ReadAll(OnTheWire(text, blanks) + [LF] + rest, ending)
        == after.(commands := [ParseCommand(text).value] + after.commands)
  {
    hide ReadAll, ParseCommand, TrimEnd, Utf8.Decode, Utf8.Encode, AllBlank, EndsVisibly;
    var line := OnTheWire(text, blanks);
    EncodesLineFeed(text);
    EncodesLineFeed(blanks);
    LineFeedOnly();
    Utf8.EncodeConcat(text, blanks);
    Utf8.EncodeConcat(text + blanks, "\n");
    Utf8.DecodeEncode(text + blanks + "\n");
    BlanksAndLineFeed(blanks);
    assert text + blanks + "\n" == text + (blanks + "\n");
    TrimsBlanks(text, blanks + "\n");
    assert Readable(line);
    AfterOneLine(line, rest, ending);
  }

  lemma BlanksAndLineFeed(blanks: string)
    requires AllBlank(blanks)
    ensures AllBlank(blanks + "\n")
  {
  }

  // ---- All lines --------------------------------------------------------------------------------------------

  /** A line of the grammar that carries a command, as a client may send it: with spaces behind it, and with or without
    * a CR before the LF. */
  datatype Sent = Sent(line: Line, gaps: Gaps, command: IrcCommand, spaces: nat, cr: bool) {
    ghost predicate Valid() {
      && ValidLine(line) && ValidGaps(line.params, gaps)
      && line.command == NameOf(CommandOf(command)) && line.Args() == Words(command)
      && EndsVisibly(Text())
      && |Utf8.Encode(Text())| + spaces + (if cr then 1 else 0) < 2048
    }

    function Text(): string {
      if |gaps.each| == |line.params| then PrintLine(line, gaps) else ""
    }

    function Octets(): bytes {
      Utf8.Encode(Text()) + seq(spaces, _ => SP) + (if cr then [CR, LF] else [LF])
    }
  }

  lemma {:induction false} SpacesEncode(n: nat)
    ensures Utf8.Encode(Spaces(n)) == seq(n, _ => SP)
  {
    if n > 0 {
      SpacesEncode(n - 1);
      assert Spaces(n) == [' '] + Spaces(n - 1);
      Utf8.EncodeMore(Spaces(n - 1), ' ');
      EncodesOne(' ');
    }
  }

  lemma CarriageReturnOnly()
    ensures Utf8.Encode("\r") == [CR]
  {
    EncodesOne('\r');
    hide Utf8.EncodeChar;
    assert "\r"[1..] == "";
    assert Utf8.Encode([]) == [];
  }

  /** What stands behind the text of a line, up to the LF. */
  function Behind(s: Sent): string {
    Spaces(s.spaces) + (if s.cr then "\r" else "")
  }

  lemma BehindIsBlank(s: Sent)
    ensures AllBlank(Behind(s)) && '\n' !in Behind(s)
    ensures Utf8.Encode(Behind(s)) == seq(s.spaces, _ => SP) + (if s.cr then [CR] else [])
  {
    hide Utf8.Encode;
    SpacesEncode(s.spaces);
    CarriageReturnOnly();
    EmptyEncodes();
    Utf8.EncodeConcat(Spaces(s.spaces), if s.cr then "\r" else "");
  }

  lemma EmptyEncodes()
    ensures Utf8.Encode("") == []
  {
  }

  lemma PrintsNoLineFeed(s: Sent)
    requires s.Valid()
    ensures '\n' !in s.Text()
  {
    var l, g := s.line, s.gaps;
    ParamsPrintNoLineFeed(l.params, l.trailing, g.each, g.last);
    hide PrintParams;
    assert '\n' !in l.command;
    if l.prefix.Some? {
      assert '\n' !in l.prefix.value;
    }
  }

  lemma {:induction false} ParamsPrintNoLineFeed(params: seq<string>, trailing: Option<string>, each: seq<nat>,
                                                 last: nat)
    requires |each| == |params| && (forall i :: 0 <= i < |params| ==> ValidParam(params[i]))
    requires trailing.Some? ==> All(IsTrailing, trailing.value)
    ensures '\n' !in PrintParams(params, trailing, each, last)
  {
    if params != [] {
      ParamsPrintNoLineFeed(params[1..], trailing, each[1..], last);
      hide PrintParams;
    }
  }

  lemma SentIsHeard(s: Sent, rest: bytes, ending: Ending)
    requires s.Valid()
    ensures var after := ReadAll(rest, ending);
      ReadAll(s.Octets() + rest, ending) == after.(commands := [s.command] + after.commands)
  {
    hide ReadAll, ParseCommand, Utf8.Encode, Utf8.Decode, PrintLine, ValidLine, Says, Words, EndsVisibly;
    CommandsAreUnderstood(s.command, s.line, s.gaps);
    PrintsNoLineFeed(s);
    BehindIsBlank(s);
    var text := s.Text();
    assert s.Octets() == OnTheWire(text, Behind(s)) + [LF];
    LineIsHeard(text, Behind(s), rest, ending);
  }

  function AllOctets(lines: seq<Sent>): bytes {
    if lines == [] then [] else lines[0].Octets() + AllOctets(lines[1..])
  }

  function Commands(lines: seq<Sent>): (commands: seq<IrcCommand>)
    ensures |commands| == |lines|
  {
    seq(|lines|, i requires 0 <= i < |lines| => lines[i].command)
  }

  lemma FirstOfAll(lines: seq<Sent>, rest: bytes)
    requires lines != []
    ensures AllOctets(lines) + rest == lines[0].Octets() + (AllOctets(lines[1..]) + rest)
    ensures Commands(lines) == [lines[0].command] + Commands(lines[1..])
  {
    hide Sent.Octets;
    Regroup(lines[0].Octets(), AllOctets(lines[1..]), rest);
  }

  lemma NoneAtAll(rest: bytes, commands: seq<IrcCommand>)
    ensures AllOctets([]) + rest == rest && Commands([]) + commands == commands
  {
  }

  /** Whatever way a client ends its lines, all that it says is heard, in order. */
  lemma {:induction false} EveryClientIsHeard(lines: seq<Sent>, rest: bytes, ending: Ending)
    requires forall i :: 0 <= i < |lines| ==> lines[i].Valid()
    ensures var after := ReadAll(rest, ending);
      ReadAll(AllOctets(lines) + rest, ending) == after.(commands := Commands(lines) + after.commands)
  {
    hide *;
    var after := ReadAll(rest, ending);
    if lines == [] {
      NoneAtAll(rest, after.commands);
    } else {
      FirstOfAll(lines, rest);
      SentIsHeard(lines[0], AllOctets(lines[1..]) + rest, ending);
      EveryClientIsHeard(lines[1..], rest, ending);
      Regroup([lines[0].command], Commands(lines[1..]), after.commands);
    }
  }

  // ---- What the words mean ----------------------------------------------------------------------------------

  /** The commands about one argument. */
  ghost predicate MeansOne(name: string, args: seq<string>, c: Option<IrcCommand>) {
    && (name in {"NICK", "JOIN", "PART", "PING", "PONG", "PASS", "WHO"} && args == [] ==> c == None)
    && (args != [] ==>
          && (name == "NICK" ==> c == Some(NickCmd(args[0])))
          && (name == "JOIN" ==> c == Some(JoinCmd(args[0])))
          && (name == "PART" ==> c == Some(PartCmd(args[0])))
          && (name == "PING" ==> c == Some(PingCmd(args[0])))
          && (name == "PONG" ==> c == Some(PongCmd(args[0])))
          && (name == "PASS" ==> c == Some(PassCmd(args[0])))
          && (name == "WHO" ==> c == Some(WhoCmd(args[0]))))
  }

  /** The other commands. */
  ghost predicate MeansMore(name: string, args: seq<string>, c: Option<IrcCommand>) {
    && (name in {"PRIVMSG", "TOPIC"} && |args| < 2 ==> c == None)
    && (|args| >= 2 ==>
          && (name == "PRIVMSG" ==> c == Some(PrivMsgCmd(args[0], args[1])))
          && (name == "TOPIC" ==> c == Some(TopicCmd(args[0], args[1]))))
    && (name == "MODE" ==>
          c == if args == [] then None else Some(ModeCmd(args[0], if |args| == 1 then None else Some(args[1]))))
    && (name == "USER" ==> c == if |args| < 4 then None else Some(UserCmd(args[0], args[3])))
    && (name == "AWAY" ==> c == Some(AwayCmd(if args == [] then "" else args[0])))
    && (name == "QUIT" ==> c == Some(QuitCmd))
    && (name !in NAMES ==> c == None)
  }

  /** Every line of the grammar means what its name and its arguments say. */
  lemma LinesMean(l: Line, g: Gaps)
    requires ValidLine(l) && ValidGaps(l.params, g)
    ensures MeansOne(l.command, l.Args(), ParseCommand(PrintLine(l, g)))
    ensures MeansMore(l.command, l.Args(), ParseCommand(PrintLine(l, g)))
  {
    PrintedLinesParse(l, g);
    hide ParseLine, ValidLine, PrintLine;
    CommandMeansOne(l.command, l.Args());
    CommandMeansMore(l.command, l.Args());
    hide MeansOne, MeansMore;
  }

  const NAMES: set<string> :=
    {"NICK", "JOIN", "PART", "PING", "PONG", "PASS", "WHO", "MODE", "PRIVMSG", "TOPIC", "USER", "AWAY", "QUIT"}

  lemma NamesAreKnown(name: string)
    ensures (name == "NICK" ==> FromString(name) == Nick) && (name == "USER" ==> FromString(name) == User) &&
      (name == "JOIN" ==> FromString(name) == Join)
    ensures (name == "PART" ==> FromString(name) == Part) && (name == "QUIT" ==> FromString(name) == Quit) &&
      (name == "PING" ==> FromString(name) == Ping)
    ensures (name == "PONG" ==> FromString(name) == Pong) && (name == "MODE" ==> FromString(name) == Mode) &&
      (name == "PASS" ==> FromString(name) == Pass)
    ensures (name == "PRIVMSG" ==> FromString(name) == PrivMsg) && (name == "TOPIC" ==> FromString(name) == Topic) &&
      (name == "WHO" ==> FromString(name) == Who)
    ensures (name == "AWAY" ==> FromString(name) == Away)
    ensures name !in NAMES ==> FromString(name).Numeric? || FromString(name).Unknown?
  {
    hide Utf8.Encode, ParseU16;
  }

  lemma CommandMeansOne(name: string, args: seq<string>)
    ensures MeansOne(name, args, FromLine(FromString(name), args))
  {
    NamesAreKnown(name);
    hide FromString;
  }

  lemma CommandMeansMore(name: string, args: seq<string>)
    ensures MeansMore(name, args, FromLine(FromString(name), args))
  {
    NamesAreKnown(name);
    hide FromString;
  }
}
