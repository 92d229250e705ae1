/** Which events of a room are passed on to the IRC client, and as what. */
module Timeline {
  import opened Prelude
  import opened MatrixEvents
  import opened IrcSession
  import opened Text
  import MatrixClient

  /** Who the user is, and how the address of a file is made from what a message says about it. */
  datatype Setting = Setting(me: Identity, mediaUrl: string -> string)

  const MESSAGE := "m.room.message"

  predicate IsMedia(msgtype: string) {
    msgtype == "m.image" || msgtype == "m.file" || msgtype == "m.video" || msgtype == "m.audio"
  }

  function EventOuts(w: Setting, nicks: map<string, string>, channel: string, ev: Event): seq<Out> {
    if ev.etype != MESSAGE || ev.sender !in nicks then []
    else
      var nick := nicks[ev.sender];
      match (ev.content.GetStr("body"), ev.content.GetStr("msgtype"))
      case (Some(body), Some(msgtype)) =>
        if msgtype == "m.emote" then Texts(nick, channel, Actions(Split('\n', body)))
        else if IsMedia(msgtype) then
          match ev.content.GetStr("url")
          case Some(url) => Texts(nick, channel, Split('\n', w.mediaUrl(url)))
          case None => []
        else Texts(nick, channel, Split('\n', body))
      case _ => []
  }

  function TimelineOuts(w: Setting, nicks: map<string, string>, channel: string, events: seq<Event>): seq<Out> {
    if events == [] then []
    else TimelineOuts(w, nicks, channel, events[..|events| - 1]) + EventOuts(w, nicks, channel, events[|events| - 1])
  }

  // ---- What is said, event by event -------------------------------------------------------------------------

  predicate StandsForAFile(ev: Event) {
    ev.content.GetStr("msgtype") in {Some("m.image"), Some("m.file"), Some("m.video"), Some("m.audio")}
  }

  /** A message by somebody who has a nick, with all that its type calls for. */
  predicate IsBridged(nicks: map<string, string>, ev: Event) {
    && ev.etype == "m.room.message" && ev.sender in nicks
    && ev.content.GetStr("body").Some? && ev.content.GetStr("msgtype").Some?
    && (StandsForAFile(ev) ==> ev.content.GetStr("url").Some?)
  }

  /** What a message says: its text, or where its file is. */
  function Content(w: Setting, nicks: map<string, string>, ev: Event): string
    requires IsBridged(nicks, ev)
  {
    if StandsForAFile(ev) then w.mediaUrl(ev.content.GetStr("url").value)
    else ev.content.GetStr("body").value
  }

  predicate IsEmote(ev: Event) {
    ev.content.GetStr("msgtype") == Some("m.emote")
  }

  /** A line of an emote is wrapped. */
  function Wrapped(line: string, emote: bool): string {
    if emote then "\U{01}ACTION " + line + "\U{01}" else line
  }

  ghost predicate SayLines(outs: seq<Out>, nick: string, channel: string, lines: seq<string>, emote: bool) {
    |outs| == |lines| && forall i :: 0 <= i < |lines| ==> outs[i] == Said(nick, channel, Wrapped(lines[i], emote))
  }

  /** The lines say this content, one line of it each, in the sender's name. */
  ghost predicate SayIt(outs: seq<Out>, nick: string, channel: string, content: string, emote: bool) {
    exists lines: seq<string> ::
      && |lines| > 0 && Without('\n', lines) && Rejoin('\n', lines) == content
      && SayLines(outs, nick, channel, lines, emote)
  }

  lemma EventIsSaid(w: Setting, nicks: map<string, string>, channel: string, ev: Event)
    ensures !IsBridged(nicks, ev) ==> EventOuts(w, nicks, channel, ev) == []
    ensures IsBridged(nicks, ev) ==> EventOuts(w, nicks, channel, ev) != []
    ensures IsBridged(nicks, ev) ==>
      SayIt(EventOuts(w, nicks, channel, ev), nicks[ev.sender], channel, Content(w, nicks, ev), IsEmote(ev))
  {
    if IsBridged(nicks, ev) {
      var content := Content(w, nicks, ev);
      SplitRejoins('\n', content);
      TextsSayThem(nicks[ev.sender], channel, Split('\n', content));
      hide Split, Texts, Actions, SayLines, Rejoin, Without;
      assert EventOuts(w, nicks, channel, ev) == Texts(nicks[ev.sender], channel,
        if IsEmote(ev) then Actions(Split('\n', content)) else Split('\n', content));
    }
  }

  lemma TextsSayThem(nick: string, channel: string, lines: seq<string>)
    ensures SayLines(Texts(nick, channel, lines), nick, channel, lines, false)
    ensures SayLines(Texts(nick, channel, Actions(lines)), nick, channel, lines, true)
  {
  }

  /** Different contents are said in different lines, so that the content of a message can be told from its lines. */
  lemma ContentIsRecovered(outs: seq<Out>, nick: string, channel: string, a: string, b: string, emote: bool)
    requires SayIt(outs, nick, channel, a, emote) && SayIt(outs, nick, channel, b, emote)
    ensures a == b
  {
    var x: seq<string> :| |x| > 0 && Without('\n', x) && Rejoin('\n', x) == a &&
      SayLines(outs, nick, channel, x, emote);
    var y: seq<string> :| |y| > 0 && Without('\n', y) && Rejoin('\n', y) == b &&
      SayLines(outs, nick, channel, y, emote);
    forall i | 0 <= i < |x|
      ensures x[i] == y[i]
    {
      assert outs[i] == Said(nick, channel, Wrapped(x[i], emote)) == Said(nick, channel, Wrapped(y[i], emote));
      WrappedDiffer(x[i], y[i], emote);
    }
    assert x == y;
  }

  lemma WrappedDiffer(a: string, b: string, emote: bool)
    requires Wrapped(a, emote) == Wrapped(b, emote)
    ensures a == b
  {
    if emote {
      assert a == Wrapped(a, true)[8..|a| + 8] && b == Wrapped(b, true)[8..|b| + 8];
    }
  }

  // ---- What is said, sync by sync ---------------------------------------------------------------------------

  ghost function SaidEach(w: Setting, nicks: map<string, string>, channel: string,
                          events: seq<Event>): (r: seq<seq<Out>>)
    ensures |r| == |events|
  {
    seq(|events|, i requires 0 <= i < |events| => EventOuts(w, nicks, channel, events[i]))
  }

  /** The events that are messages to pass on, in order: echoes of the bridge's own messages are not among them. */
  function PassedOn(nicks: map<string, string>, events: seq<Event>): seq<Event> {
    if events == [] then []
    else
      var last := events[|events| - 1];
      PassedOn(nicks, events[..|events| - 1]) + if MatrixClient.IsForeign(last) && IsBridged(nicks, last) then [last]
        else []
  }

  /** What a sync of a room makes the bridge say is, in the order of the timeline, what the messages say that are no
    * echoes and have a known sender, a text, a type and, if they stand for a file, an address. */
  lemma {:induction false} TimelineIsSaid(w: Setting, nicks: map<string, string>, channel: string, events: seq<Event>)
    ensures TimelineOuts(w, nicks, channel, Filter(MatrixClient.IsForeign, events)) ==
      Flatten(SaidEach(w, nicks, channel, PassedOn(nicks, events)))
  {
    hide *;
    if events == [] {
      NothingSaid(w, nicks, channel);
    } else {
      var before, last := events[..|events| - 1], events[|events| - 1];
      TimelineIsSaid(w, nicks, channel, before);
      ForeignOneMore(before, last);
      assert events == before + [last];
      EventIsSaid(w, nicks, channel, last);
      TimelineOneMore(w, nicks, channel, Filter(MatrixClient.IsForeign, before), last);
      SaidOneMore(w, nicks, channel, PassedOn(nicks, before), last);
      PassedOnOneMore(nicks, before, last);
    }
  }

  lemma NothingSaid(w: Setting, nicks: map<string, string>, channel: string)
    ensures TimelineOuts(w, nicks, channel, Filter(MatrixClient.IsForeign, [])) ==
      Flatten(SaidEach(w, nicks, channel, PassedOn(nicks, [])))
  {
    hide EventOuts;
    assert SaidEach(w, nicks, channel, []) == [];
  }

  lemma TimelineOneMore(w: Setting, nicks: map<string, string>, channel: string, events: seq<Event>, last: Event)
    ensures TimelineOuts(w, nicks, channel, events + [last]) ==
      TimelineOuts(w, nicks, channel, events) + EventOuts(w, nicks, channel, last)
  {
    assert (events + [last])[..|events|] == events;
  }

  lemma SaidOneMore(w: Setting, nicks: map<string, string>, channel: string, events: seq<Event>, last: Event)
    ensures Flatten(SaidEach(w, nicks, channel, events + [last])) ==
      Flatten(SaidEach(w, nicks, channel, events)) + EventOuts(w, nicks, channel, last)
  {
    assert SaidEach(w, nicks, channel, events + [last]) ==
      SaidEach(w, nicks, channel, events) + [EventOuts(w, nicks, channel, last)];
    FlattenSnoc(SaidEach(w, nicks, channel, events), EventOuts(w, nicks, channel, last));
  }

  lemma PassedOnOneMore(nicks: map<string, string>, events: seq<Event>, last: Event)
    ensures PassedOn(nicks, events + [last]) ==
      if MatrixClient.IsForeign(last) && IsBridged(nicks, last) then PassedOn(nicks, events) + [last]
        else PassedOn(nicks, events)
  {
    assert (events + [last])[..|events|] == events;
  }

  lemma ForeignOneMore(events: seq<Event>, last: Event)
    ensures Filter(MatrixClient.IsForeign, events + [last])
      == if MatrixClient.IsForeign(last) then Filter(MatrixClient.IsForeign, events) + [last]
        else Filter(MatrixClient.IsForeign, events)
  {
    FilterConcat(MatrixClient.IsForeign, events, [last]);
    assert [last][1..] == [];
  }
}
