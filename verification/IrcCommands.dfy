/** IRC commands: from the words of a line to what the bridge acts on. */
module IrcCommands {
  import opened Prelude
  import opened IrcGrammar
  import Decimal
  import Utf8

  datatype Command =
    | Nick | User | Join | Part | Quit | Ping | Pong | Mode | Pass | PrivMsg | Topic | Who | Away
    | Numeric(code: nat, text: bytes)
    | Unknown

  /** `u16::from_str`: an optional plus sign, then digits only, and no overflow. */
  function ParseU16(s: string): Option<nat> {
    var digits := if s != [] && s[0] == '+' then s[1..] else s;
    if digits == [] || !All(IsDigit, digits) || Number(digits) >= 0x1_0000 then None else Some(Number(digits))
  }

  function Number(s: string): nat
    requires All(IsDigit, s)
  {
    Decimal.Value(seq(|s|, i requires 0 <= i < |s| => s[i] as int - '0' as int))
  }

  function Named(s: string): Option<Command> {
    if s == "NICK" then Some(Nick)
    else if s == "USER" then Some(User)
    else if s == "JOIN" then Some(Join)
    else if s == "PART" then Some(Part)
    else if s == "QUIT" then Some(Quit)
    else if s == "PING" then Some(Ping)
    else if s == "PONG" then Some(Pong)
    else if s == "MODE" then Some(Mode)
    else if s == "PASS" then Some(Pass)
    else if s == "PRIVMSG" then Some(PrivMsg)
    else if s == "TOPIC" then Some(Topic)
    else if s == "WHO" then Some(Who)
    else if s == "AWAY" then Some(Away)
    else None
  }

  /** The conversion that the parser uses. */
  function FromString(s: string): Command {
    var octets := Utf8.Encode(s);
    match Named(s)
    case Some(c) => c
    case None =>
      if |octets| == 3 && ParseU16(s).Some? then Numeric(ParseU16(s).value, [octets[0], octets[1], octets[2]])
        else Unknown
  }

  datatype Conversion = Converted(command: Command) | Panics

  /** An index into the octets of a text, as checked at run time. */
  function OctetAt(octets: bytes, i: nat): Option<byte> {
    if i < |octets| then Some(octets[i]) else None
  }

  /** The other conversion, from a borrowed text; it asks for the fourth octet where it means the third. */
  function FromStr(s: string): Conversion {
    var octets := Utf8.Encode(s);
    match Named(s)
    case Some(c) => Converted(c)
    case None =>
      if |octets| == 3 && ParseU16(s).Some? then
        match (OctetAt(octets, 0), OctetAt(octets, 1), OctetAt(octets, 3))
        case (Some(a), Some(b), Some(c)) => Converted(Numeric(ParseU16(s).value, [a, b, c]))
        case _ => Panics
      else Converted(Unknown)
  }

  /** The two conversions agree exactly on the texts that are not numeric; on every numeric one the borrowed form
    * panics. */
  lemma ConversionsAgreeExactly(s: string)
    ensures FromStr(s) == Converted(FromString(s)) <==> !FromString(s).Numeric?
    ensures FromStr(s) == Panics <==> FromString(s).Numeric?
  {
  }

  function NameOf(c: Command): string
    requires !c.Numeric?
  {
    match c
    case Nick => "NICK"
    case User => "USER"
    case Join => "JOIN"
    case Part => "PART"
    case Quit => "QUIT"
    case Ping => "PING"
    case Mode => "MODE"
    case Pong => "PONG"
    case Pass => "PASS"
    case PrivMsg => "PRIVMSG"
    case Topic => "TOPIC"
    case Who => "WHO"
    case Away => "AWAY"
    case Unknown => "<UNKNOWN>"
  }

  /** `to_str`; None where the octets of a numeric are not text. */
  function ToStr(c: Command): Option<string> {
    if c.Numeric? then Utf8.Decode(c.text) else Some(NameOf(c))
  }

  lemma NamesReadBack(c: Command)
    requires !c.Numeric? && !c.Unknown?
    ensures Named(NameOf(c)) == Some(c)
  {
    match c
    case Nick => case User => case Join => case Part => case Quit => case Ping => case Pong => case Mode =>
    case Pass => case PrivMsg => case Topic => case Who => case Away =>
  }

  /** A command word survives the conversion and back exactly when it was recognised at all, or is the very word that
    * stands for what was not; and every command that the conversion produces is one that it reads back. */
  lemma CommandRoundTrip(s: string)
    ensures ToStr(FromString(s)) == Some(s) <==> FromString(s) != Unknown || s == "<UNKNOWN>"
    ensures FromString(s) != Unknown ==>
      ToStr(FromString(s)).Some? && FromString(ToStr(FromString(s)).value) == FromString(s)
  {
    assert NameOf(Unknown) == "<UNKNOWN>";
    hide Named, NameOf, ParseU16, Utf8.Encode, Utf8.Decode;
    var c, octets := FromString(s), Utf8.Encode(s);
    if Named(s).Some? {
      NamedByName(s);
    } else if c.Numeric? {
      assert c.text == octets;
      Utf8.DecodeEncode(s);
    }
  }

  lemma ThreeDigits(s: string)
    requires |s| == 3 && All(IsDigit, s)
    ensures Number(s) < 1000
  {
    var ds: seq<Decimal.Digit> := seq(3, i requires 0 <= i < 3 => s[i] as int - '0' as int);
    assert ds[..2][..1] == ds[..1] && ds[..1][..0] == [] && ds[..2][1] == ds[1] && ds[..1][0] == ds[0];
    assert Decimal.Value(ds[..1]) == 10 * Decimal.Value(ds[..0]) + ds[0] <= 9;
    assert Decimal.Value(ds[..2]) == 10 * Decimal.Value(ds[..1]) + ds[1] <= 99;
  }

  /** Three digits, which the grammar accepts as a command, always convert to the numeric they spell. */
  lemma DigitsAreNumeric(s: string)
    requires |s| == 3 && All(IsDigit, s)
    ensures FromString(s).Numeric? && FromString(s).code == Number(s) < 1000
  {
    assert s[1..][1..] == s[2..] && s[2..][1..] == [];
    assert Utf8.Encode(s) == Utf8.EncodeChar(s[0]) + Utf8.Encode(s[1..]);
    assert Utf8.Encode(s[1..]) == Utf8.EncodeChar(s[1]) + Utf8.Encode(s[2..]);
    assert Utf8.Encode(s[2..]) == Utf8.EncodeChar(s[2]) + Utf8.Encode([]);
    assert |Utf8.Encode(s)| == 3;
    ThreeDigits(s);
    assert Named(s).None?;
    assert s[0] != '+';
  }

  // ---- What the bridge acts on ------------------------------------------------------------------------------

  datatype IrcCommand =
    | NickCmd(nick: string)
    | UserCmd(user: string, realName: string)
    | JoinCmd(channel: string)
    | PartCmd(channel: string)
    | QuitCmd
    | PingCmd(data: string)
    | ModeCmd(target: string, mask: Option<string>)
    | PongCmd(data: string)
    | PassCmd(password: string)
    | PrivMsgCmd(channel: string, text: string)
    | TopicCmd(channel: string, topic: string)
    | WhoCmd(matches: string)
    | AwayCmd(message: string)

  function FromLine(command: Command, args: seq<string>): Option<IrcCommand> {
    match command
    case Nick => if |args| > 0 then Some(NickCmd(args[0])) else None
    case User => if |args| > 3 then Some(UserCmd(args[0], args[3])) else None
    case Join => if |args| > 0 then Some(JoinCmd(args[0])) else None
    case Part => if |args| > 0 then Some(PartCmd(args[0])) else None
    case Quit => Some(QuitCmd)
    case Ping => if |args| > 0 then Some(PingCmd(args[0])) else None
    case Mode => if |args| > 0 then Some(ModeCmd(args[0], if |args| > 1 then Some(args[1]) else None)) else None
    case Pong => if |args| > 0 then Some(PongCmd(args[0])) else None
    case Pass => if |args| > 0 then Some(PassCmd(args[0])) else None
    case PrivMsg => if |args| > 1 then Some(PrivMsgCmd(args[0], args[1])) else None
    case Topic => if |args| > 1 then Some(TopicCmd(args[0], args[1])) else None
    case Who => if |args| > 0 then Some(WhoCmd(args[0])) else None
    case Numeric(_, _) => None
    case Unknown => None
    case Away => Some(AwayCmd(if |args| > 0 then args[0] else ""))
  }

  function CommandOf(c: IrcCommand): (command: Command)
    ensures !command.Numeric? && !command.Unknown?
  {
    match c
    case NickCmd(_) => Nick
    case UserCmd(_, _) => User
    case JoinCmd(_) => Join
    case PartCmd(_) => Part
    case QuitCmd => Quit
    case PingCmd(_) => Ping
    case ModeCmd(_, _) => Mode
    case PongCmd(_) => Pong
    case PassCmd(_) => Pass
    case PrivMsgCmd(_, _) => PrivMsg
    case TopicCmd(_, _) => Topic
    case WhoCmd(_) => Who
    case AwayCmd(_) => Away
  }

  /** The words with which a client says `c`. */
  function Words(c: IrcCommand): seq<string> {
    match c
    case NickCmd(nick) => [nick]
    case UserCmd(user, realName) => [user, "*", "*", realName]
    case JoinCmd(channel) => [channel]
    case PartCmd(channel) => [channel]
    case QuitCmd => []
    case PingCmd(data) => [data]
    case ModeCmd(target, mask) => [target] + (match mask { case None => [] case Some(m) => [m] })
    case PongCmd(data) => [data]
    case PassCmd(password) => [password]
    case PrivMsgCmd(channel, text) => [channel, text]
    case TopicCmd(channel, topic) => [channel, topic]
    case WhoCmd(matches) => [matches]
    case AwayCmd(message) => [message]
  }

  /** The text of a line to the command it stands for. */
  function ParseCommand(s: string): Option<IrcCommand> {
    match ParseLine(s)
    case None => None
    case Some(l) => FromLine(FromString(l.command), l.Args())
  }

  /** A line that carries the words of `c` after its name, however it is spaced and prefixed and whichever of its
    * arguments came behind a colon, is understood as `c`. */
  lemma CommandsAreUnderstood(c: IrcCommand, l: Line, g: Gaps)
    requires ValidLine(l) && ValidGaps(l.params, g)
    requires l.command == NameOf(CommandOf(c)) && l.Args() == Words(c)
    ensures ParseCommand(PrintLine(l, g)) == Some(c)
  {
    hide ParseLine, ValidLine, PrintLine;
    PrintedLinesParse(l, g);
    NamesReadBack(CommandOf(c));
  }

  lemma NamedByName(s: string)
    requires Named(s).Some?
    ensures !Named(s).value.Numeric? && !Named(s).value.Unknown? && NameOf(Named(s).value) == s
  {
  }

  ghost predicate Says(args: seq<string>, c: IrcCommand) {
    && (!c.UserCmd? && !c.AwayCmd? ==> Words(c) <= args)
    && (c.UserCmd? ==> |args| > 3 && c == UserCmd(args[0], args[3]))
    && (c.AwayCmd? ==> Words(c) == (if args == [] then [""] else args[..1]))
  }

  lemma FromLineSays(command: Command, args: seq<string>)
    requires FromLine(command, args).Some?
    ensures CommandOf(FromLine(command, args).value) == command && Says(args, FromLine(command, args).value)
  {
  }

  /** Whatever was understood was said: the line had a known command, and its words come first among the arguments. */
  lemma UnderstoodCommandsWereSaid(s: string)
    requires ParseCommand(s).Some?
    ensures ParseLine(s).Some?
    ensures var c := ParseCommand(s).value;
      ParseLine(s).value.command == NameOf(CommandOf(c)) && Says(ParseLine(s).value.Args(), c)
  {
    hide ParseLine, Named, NameOf, FromLine, Says;
    var l := ParseLine(s).value;
    FromLineSays(FromString(l.command), l.Args());
    if Named(l.command).Some? {
      NamedByName(l.command);
    }
  }
}
