/**
 * The IRC client: logs in, joins the configured channels, then reads the
 * server's lines one by one, answers PING, hands every message to the event
 * listeners and reacts to WHOIS replies about itself, to invitations and to
 * private messages from trusted users.
 *
 * The socket is a sequence of lines still to be read plus the sequence of
 * lines written to it; the logger is the sequence of `Client::log` calls. The
 * event dispatcher and the configuration are parameters. Every method is
 * proved equal to a function on the client's `State`, and the properties of
 * the client are lemmas about those functions.
 */
module Clients {
  import opened Text
  import Senders
  import Messages
  import Commands

  /** The `irc::client.*` configuration the client reads. */
  datatype Config = Config(
    nick: string,
    user: string,
    name: string,
    nickservNick: Option<string>,
    nickservPassword: string,
    channels: seq<string>,
    allow: seq<string>)

  /** What firing an event gives back: one reply per listener, or an exception
      raised by a listener, which nothing catches. */
  datatype Fired = Answered(replies: seq<Messages.Reply>) | Raised

  /** The registered listeners, by event name. */
  datatype Events = Events(
    onMessage: (string, Messages.Message) -> Fired,
    onCommand: (string, Commands.Command) -> Fired)

  /** One call of `Client::log`. */
  datatype Entry = Entry(message: Messages.Message, sent: bool)

  /** What the client's behaviour depends on and changes: its own identity,
      the lines the server has still to deliver, and the log. */
  datatype State = State(sender: Senders.Sender, input: seq<string>, log: seq<Entry>)

  /** What `read()` returns: a message, null after ERROR, false at end of stream. */
  datatype ReadResult = Got(message: Messages.Message) | Stopped | Eof

  /** How a step or a session ends: normally, or with a listener's exception. */
  datatype Outcome = Done(state: State) | Died(state: State)

  // ---------------------------------------------------------------------------
  // The log and the socket

  /** Log entries for messages the client sent. */
  function Sends(ms: seq<Messages.Message>): (r: seq<Entry>)
    ensures |r| == |ms|
    ensures forall i :: 0 <= i < |ms| ==> r[i] == Entry(ms[i], true)
  {
    seq(|ms|, i requires 0 <= i < |ms| => Entry(ms[i], true))
  }

  lemma SendsAppend(a: seq<Messages.Message>, b: seq<Messages.Message>)
    ensures Sends(a + b) == Sends(a) + Sends(b)
  {
  }

  /** The messages the log says were sent, in order. */
  function Sent(log: seq<Entry>): (r: seq<Messages.Message>)
    ensures |r| <= |log|
  {
    if |log| == 0 then []
    else Sent(log[..|log| - 1]) + (if log[|log| - 1].sent then [log[|log| - 1].message] else [])
  }

  lemma {:induction false} SentAppend(a: seq<Entry>, b: seq<Entry>)
    ensures Sent(a + b) == Sent(a) + Sent(b)
    decreases |b|
  {
    if |b| == 0 {
      assert a + b == a;
    } else {
      assert (a + b)[..|a + b| - 1] == a + b[..|b| - 1];
      SentAppend(a, b[..|b| - 1]);
    }
  }

  lemma {:induction false} SentOfSends(ms: seq<Messages.Message>)
    ensures Sent(Sends(ms)) == ms
    decreases |ms|
  {
    if |ms| > 0 {
      assert Sends(ms)[..|ms| - 1] == Sends(ms[..|ms| - 1]);
      SentOfSends(ms[..|ms| - 1]);
    }
  }

  /** The lines Message::send writes for the given messages. */
  function Wire(ms: seq<Messages.Message>): (r: seq<string>)
    ensures |r| == |ms|
    ensures forall i :: 0 <= i < |ms| ==> r[i] == ms[i].raw + "\r\n"
  {
    seq(|ms|, i requires 0 <= i < |ms| => ms[i].raw + "\r\n")
  }

  /** The state after sending the given messages in order. */
  function SendSpec(s: State, ms: seq<Messages.Message>): (r: State)
    ensures r.sender == s.sender && r.input == s.input
    ensures r.log == s.log + Sends(ms)
  {
    s.(log := s.log + Sends(ms))
  }

  /** The log `longer` continues the log `shorter`. */
  predicate Extends(longer: seq<Entry>, shorter: seq<Entry>)
  {
    |longer| >= |shorter| && longer[..|shorter|] == shorter
  }

  lemma ExtendsTrans(a: seq<Entry>, b: seq<Entry>, c: seq<Entry>)
    requires Extends(a, b) && Extends(b, c)
    ensures Extends(a, c)
  {
    assert a[..|c|] == a[..|b|][..|c|];
  }

  /** sendArray's loop: one more element of the list sends its own messages
      after those of the elements before it. */
  lemma FlattenNext(list: seq<Messages.Reply>, i: nat)
    requires i < |list|
    ensures Messages.Flatten(list[..i + 1]) == Messages.Flatten(list[..i]) + Messages.Flatten([list[i]])
    ensures list[i].Send? ==> Messages.Flatten([list[i]]) == [list[i].message]
    ensures list[i].Batch? ==> Messages.Flatten([list[i]]) == Messages.Flatten(list[i].items)
    ensures list[i].Ignored? ==> Messages.Flatten([list[i]]) == []
  {
    Messages.FlattenAppend(list[..i], [list[i]]);
    assert list[..i + 1] == list[..i] + [list[i]];
    assert [list[i]][1..] == [];
  }

  // ---------------------------------------------------------------------------
  // Reading

  /** `$message->command == <numeric>`: PHP compares a numeric command with an
      integer by value, so "0376" counts as 376. */
  predicate IsCode(command: string, code: nat)
    ensures IsCode(command, code) ==> |command| > 0 && IsDigit(command[0])
    ensures IsCode(command, code) ==> IsDigits("0" + command) && DigitsValue("0" + command) == code
  {
    IsDigits(command) && (LeadingZero(command); DigitsValue(command) == code)
  }

  /** A leading zero does not change the value of a string of digits. */
  lemma {:induction false} LeadingZero(s: string)
    requires forall i :: 0 <= i < |s| ==> IsDigit(s[i])
    ensures forall i :: 0 <= i < |"0" + s| ==> IsDigit(("0" + s)[i])
    ensures DigitsValue("0" + s) == DigitsValue(s)
    decreases |s|
  {
    if |s| == 0 {
      assert "0" + s == "0";
      assert "0"[..0] == [];
    } else {
      LeadingZero(s[..|s| - 1]);
      assert ("0" + s)[..|"0" + s| - 1] == "0" + s[..|s| - 1];
    }
  }

  /** The socket reads of Client::read: lines that do not parse are skipped;
      the first one that does is the message, and the lines after it are left
      unread. None when the stream ends first. */
  function Skip(lines: seq<string>): (r: (Option<Messages.Message>, seq<string>))
    ensures r.0.None? ==> r.1 == []
    ensures r.0.Some? ==> |r.1| < |lines|
    ensures r.1 == lines[|lines| - |r.1|..]
    decreases |lines|
  {
    if |lines| == 0 then (None, [])
    else
      match Messages.Parse(lines[0])
      case None => Skip(lines[1..])
      case Some(m) => (Some(m), lines[1..])
  }

  /** What Client::read does with the message it parsed: log it, then stop at
      ERROR, or answer PING with a PONG to its first parameter. */
  function Handle(m: Messages.Message, s: State): (r: (ReadResult, State))
    ensures r.1.sender == s.sender && r.1.input == s.input
    ensures r.0 != Eof
    ensures m.command == "ERROR" ==> r == (Stopped, s.(log := s.log + [Entry(m, false)]))
    ensures m.command == "PING" ==>
      r == (Got(m), s.(log := s.log + [Entry(m, false), Entry(Messages.Pong(At(m.params, 0).GetOr("")), true)]))
    ensures m.command != "ERROR" && m.command != "PING" ==> r == (Got(m), s.(log := s.log + [Entry(m, false)]))
  {
    var logged := s.(log := s.log + [Entry(m, false)]);
    if m.command == "ERROR" then (Stopped, logged)
    else if m.command == "PING" then
      var pong := Messages.Pong(At(m.params, 0).GetOr(""));
      assert Sends([pong]) == [Entry(pong, true)];
      assert logged.log + [Entry(pong, true)] == s.log + [Entry(m, false), Entry(pong, true)];
      (Got(m), SendSpec(logged, [pong]))
    else (Got(m), logged)
  }

  /** Client::read: the first message of the remaining input, handled; false
      (Eof) when no line parses. */
  function ReadSpec(s: State): (r: (ReadResult, State))
    ensures r.1.sender == s.sender
    ensures r.0 != Eof ==> |r.1.input| < |s.input|
    ensures r.0 == Eof ==> r.1 == s.(input := [])
    ensures r.1.input == s.input[|s.input| - |r.1.input|..]
    ensures Extends(r.1.log, s.log)
  {
    match Skip(s.input)
    case (None, rest) => (Eof, s.(input := rest))
    case (Some(m), rest) => Handle(m, s.(input := rest))
  }

  /** Reading only ever appends to the log: the received message, then any
      PONG; at the end of the stream, nothing. */
  lemma ReadAppends(s: State)
    ensures var r := ReadSpec(s);
      && (r.0.Eof? ==> r.1.log == s.log)
      && (r.0.Got? && r.0.message.command != "PING" ==> r.1.log == s.log + [Entry(r.0.message, false)])
      && (r.0.Got? && r.0.message.command == "PING" ==>
            r.1.log == s.log + [Entry(r.0.message, false), Entry(Messages.Pong(At(r.0.message.params, 0).GetOr("")), true)])
      && (r.0.Stopped? ==> r.1.log == s.log + [Entry(Skip(s.input).0.value, false)] && Skip(s.input).0.value.command == "ERROR")
  {
  }

  /** A PING is answered before the message is handed on: the log shows the
      PING received and then the PONG carrying its first parameter. */
  lemma PingIsAnswered(s: State, daemon: string)
    requires |s.input| > 0 && s.input[0] == "PING :" + daemon
    requires ':' !in daemon && '\r' !in daemon && '\n' !in daemon
    ensures var r := ReadSpec(s);
      && r.0.Got? && r.0.message.command == "PING"
      && r.1.input == s.input[1..]
      && r.1.log == s.log + [Entry(r.0.message, false), Entry(Messages.Pong(daemon), true)]
  {
    var line := "PING :" + daemon;
    assert line == "PING" + [' '] + (":" + daemon);
    PingParses(daemon);
  }

  lemma PingParses(daemon: string)
    requires ':' !in daemon && '\r' !in daemon && '\n' !in daemon
    ensures var p := Messages.Parse("PING :" + daemon);
      p.Some? && p.value.command == "PING" && At(p.value.params, 0) == Some(daemon)
  {
    var line := "PING :" + daemon;
    assert StripLineEnd(line) == line;
    assert line[0] == 'P';
    assert line == "PING" + [' '] + (":" + daemon);
    SplitOnceAt("PING", ' ', ":" + daemon);
    assert Messages.ParseParams(":" + daemon) == [daemon] by {
      assert IndexOf(":" + daemon, ':') == Some(0);
    }
  }

  /** An ERROR line makes read return null (Stopped) after logging it, and
      only that line is consumed. The main loop ends on it; the MOTD wait
      goes on with the login. */
  lemma ErrorStopsReading(s: State, rest: seq<string>)
    requires |s.input| > 0 && s.input[0] == "ERROR" && s.input[1..] == rest
    ensures ReadSpec(s) == (Stopped, State(s.sender, rest, s.log + [Entry(Messages.Parse("ERROR").value, false)]))
  {
    var line := "ERROR";
    assert StripLineEnd(line) == line;
    assert line[0] == 'E';
    assert ' ' !in line;
    assert SplitOnce(line, ' ') == (line, "");
  }

  // ---------------------------------------------------------------------------
  // Logging in

  /** The wait for the end of the MOTD: read until a 376 reply, an ERROR or the
      end of the stream. */
  function MotdSpec(s: State): (r: State)
    ensures r.sender == s.sender
    ensures |r.input| <= |s.input|
    ensures Extends(r.log, s.log)
    decreases |s.input|
  {
    var (res, next) := ReadSpec(s);
    match res
    case Got(m) =>
      if IsCode(m.command, 376) then next
      else
        var r := MotdSpec(next);
        ExtendsTrans(r.log, next.log, s.log);
        r
    case _ => next
  }

  /** Every entry from index `from` on that was sent is a PONG. */
  predicate PongsFrom(log: seq<Entry>, from: nat)
  {
    forall i :: from <= i < |log| && log[i].sent ==> log[i].message.command == "PONG"
  }

  /** One read sends nothing but a PONG. */
  lemma ReadSendsOnlyPongs(s: State)
    ensures PongsFrom(ReadSpec(s).1.log, |s.log|)
  {
    ReadAppends(s);
  }

  /** While waiting for the MOTD the client sends nothing but PONGs. */
  lemma {:induction false} MotdSendsOnlyPongs(s: State)
    ensures PongsFrom(MotdSpec(s).log, |s.log|)
    decreases |s.input|
  {
    var (res, next) := ReadSpec(s);
    ReadSendsOnlyPongs(s);
    if res.Got? && !IsCode(res.message.command, 376) {
      var r := MotdSpec(next);
      MotdSendsOnlyPongs(next);
      forall i | |s.log| <= i < |r.log| && r.log[i].sent
        ensures r.log[i].message.command == "PONG"
      {
        if i < |next.log| {
          assert r.log[..|next.log|][i] == r.log[i];
        }
      }
    }
  }

  /** The NickServ identification line. */
  function Identify(cfg: Config): (m: Messages.Message)
    ensures m == Messages.Privmsg("NickServ", "IDENTIFY " + cfg.nickservNick.GetOr(cfg.nick) + " " + cfg.nickservPassword)
    ensures m.command == "PRIVMSG" && m.params[0] == "NickServ"
  {
    Messages.Privmsg("NickServ", "IDENTIFY " + cfg.nickservNick.GetOr(cfg.nick) + " " + cfg.nickservPassword)
  }

  /** What login sends after the MOTD: the identification when a NickServ
      password is configured, then the WHOIS about itself. */
  function AfterMotd(cfg: Config): (r: seq<Messages.Message>)
    ensures Truthy(cfg.nickservPassword) ==> r == [Identify(cfg), Messages.Whois(cfg.nick)]
    ensures !Truthy(cfg.nickservPassword) ==> r == [Messages.Whois(cfg.nick)]
  {
    (if Truthy(cfg.nickservPassword) then [Identify(cfg)] else []) + [Messages.Whois(cfg.nick)]
  }


  /** The state after USER and NICK, before the MOTD wait. */
  function Registered(cfg: Config, s: State): (r: State)
    ensures r.sender == Senders.MakeUser(cfg.nick) && r.input == s.input
    ensures r.log == s.log + Sends([Messages.User(cfg.user, cfg.name), Messages.Nick(cfg.nick)])
  {
    SendSpec(s.(sender := Senders.MakeUser(cfg.nick)), [Messages.User(cfg.user, cfg.name), Messages.Nick(cfg.nick)])
  }

  /** Client::login. */
  function LoginSpec(cfg: Config, s: State): (r: State)
    ensures r.sender == Senders.MakeUser(cfg.nick) && r.sender.nick == Some(cfg.nick)
  {
    SendSpec(MotdSpec(Registered(cfg, s)), AfterMotd(cfg))
  }

  /** Login registers first: USER, then NICK, before anything is read. */
  lemma LoginRegistersFirst(cfg: Config, s: State)
    ensures Extends(LoginSpec(cfg, s).log, s.log + Sends([Messages.User(cfg.user, cfg.name), Messages.Nick(cfg.nick)]))
  {
    var registered := Registered(cfg, s);
    var r := LoginSpec(cfg, s);
    assert r.log[..|registered.log|] == MotdSpec(registered).log[..|registered.log|];
  }

  /** Login ends with the NickServ identification, when a password is
      configured, and the WHOIS about itself. */
  lemma LoginEnds(cfg: Config, s: State)
    ensures var r := LoginSpec(cfg, s);
      |r.log| >= |AfterMotd(cfg)| && r.log[|r.log| - |AfterMotd(cfg)|..] == Sends(AfterMotd(cfg))
  {
  }

  /** Between NICK and the end of the MOTD the client sends only PONGs. */
  lemma LoginWaitsQuietly(cfg: Config, s: State)
    ensures var r := LoginSpec(cfg, s);
      |r.log| >= |s.log| + 2 + |AfterMotd(cfg)| && PongsFrom(r.log[..|r.log| - |AfterMotd(cfg)|], |s.log| + 2)
  {
    var registered := Registered(cfg, s);
    var after := MotdSpec(registered);
    MotdSendsOnlyPongs(registered);
    var r := LoginSpec(cfg, s);
    assert r.log[..|r.log| - |AfterMotd(cfg)|] == after.log;
  }

  // ---------------------------------------------------------------------------
  // Handling one message

  /** `in_array($message->sender->nick, Config::get('irc::client.allow'))`. */
  predicate Allowed(cfg: Config, m: Messages.Message)
    ensures Allowed(cfg, m) ==> |cfg.allow| > 0
    ensures m.sender.None? ==> (Allowed(cfg, m) <==> "" in cfg.allow)
  {
    Senders.NickOf(m.sender) in cfg.allow
  }

  const STRANGER_INVITE := "Daddy always told me not to go with strangers"
  const STRANGER_MESSAGE := "Daddy always told me not to talk to strangers"

  /** Is this a private message to the client's own nick (an exact comparison)? */
  predicate ToMe(s: State, m: Messages.Message)
    ensures ToMe(s, m) ==> !IsCode(m.command, 311) && m.command != "INVITE"
    ensures ToMe(s, m) && |m.params| > 0 ==> m.params[0] == Senders.NickOf(Some(s.sender))
  {
    m.command == "PRIVMSG" && At(m.params, 0).GetOr("") == Senders.NickOf(Some(s.sender))
  }

  /** A WHOIS reply (311): when it is about the client's own nick, compared
      without regard to case, the client takes nick, user and host from it. */
  function WhoisSpec(s: State, m: Messages.Message): (r: State)
    ensures r.input == s.input && r.log == s.log
  {
    var nick := At(m.params, 1).GetOr("");
    if EqualsIgnoreCase(nick, Senders.NickOf(Some(s.sender))) then
      s.(sender := Senders.MakeUser(nick, At(m.params, 2), At(m.params, 3)))
    else s
  }

  /** An invitation: join the channel for a trusted sender, refuse otherwise. */
  function InviteSpec(cfg: Config, s: State, m: Messages.Message): (r: State)
    ensures r.sender == s.sender && r.input == s.input && |r.log| == |s.log| + 1
  {
    if Allowed(cfg, m) then SendSpec(s, [Messages.JoinChannel(At(m.params, 1).GetOr(""))])
    else SendSpec(s, [Messages.Notice(Senders.NickOf(m.sender), STRANGER_INVITE)])
  }

  /** A private message to the client: run it as a command for a trusted
      sender, refuse otherwise. */
  function PrivateSpec(cfg: Config, ev: Events, s: State, m: Messages.Message): (r: Outcome)
    ensures r.state.sender == s.sender && r.state.input == s.input
    ensures r.Died? ==> r.state == s
  {
    if Allowed(cfg, m) then
      var c := Commands.FromMessage(m);
      match ev.onCommand("irc::command: " + c.name, c)
      case Raised => Died(s)
      case Answered(rs) => Done(SendSpec(s, Messages.Flatten(Commands.Run(c, rs))))
    else Done(SendSpec(s, [Messages.Notice(Senders.NickOf(m.sender), STRANGER_MESSAGE)]))
  }

  /** What the client itself does with a message after the listeners have
      answered: take over a WHOIS reply about itself, accept or refuse an
      invitation, run a private command or refuse it. */
  function ReactSpec(cfg: Config, ev: Events, s: State, m: Messages.Message): (r: Outcome)
    ensures r.state.input == s.input && Extends(r.state.log, s.log)
    ensures r.Died? ==> r.state == s
    ensures r.state.sender != s.sender ==> IsCode(m.command, 311)
  {
    if IsCode(m.command, 311) then Done(WhoisSpec(s, m))
    else if m.command == "INVITE" then Done(InviteSpec(cfg, s, m))
    else if ToMe(s, m) then PrivateSpec(cfg, ev, s, m)
    else Done(s)
  }

  /** One pass of the main loop for a message already read: the listeners of
      the message's own event, then those of `irc::message: *`, then the
      client's own reaction. */
  function StepSpec(cfg: Config, ev: Events, s: State, m: Messages.Message): (r: Outcome)
    ensures r.state.input == s.input && Extends(r.state.log, s.log)
    ensures r.state.sender != s.sender ==> IsCode(m.command, 311)
  {
    match (ev.onMessage("irc::message: " + Lower(m.command), m), ev.onMessage("irc::message: *", m))
    case (Answered(a), Answered(b)) =>
      var t := SendSpec(s, Messages.Flatten(a + b));
      var r := ReactSpec(cfg, ev, t, m);
      ExtendsTrans(r.state.log, t.log, s.log);
      r
    case _ => Died(s)
  }

  /** The client's own reaction keeps the unread input and only appends to
      the log. */
  lemma ReactAppends(cfg: Config, ev: Events, s: State, m: Messages.Message)
    ensures var r := ReactSpec(cfg, ev, s, m);
      r.state.input == s.input && Extends(r.state.log, s.log)
  {
  }

  /** A step keeps the unread input and only appends to the log. */
  lemma StepAppends(cfg: Config, ev: Events, s: State, m: Messages.Message)
    ensures var r := StepSpec(cfg, ev, s, m);
      r.state.input == s.input && Extends(r.state.log, s.log)
  {
    match (ev.onMessage("irc::message: " + Lower(m.command), m), ev.onMessage("irc::message: *", m))
    case (Answered(a), Answered(b)) =>
      var t := SendSpec(s, Messages.Flatten(a + b));
      ReactAppends(cfg, ev, t, m);
      ExtendsTrans(StepSpec(cfg, ev, s, m).state.log, t.log, s.log);
    case _ =>
  }

  /** The listeners' replies go out first: those of the message's own event
      before those of `irc::message: *`. */
  lemma ListenersFirst(cfg: Config, ev: Events, s: State, m: Messages.Message, a: seq<Messages.Reply>, b: seq<Messages.Reply>)
    requires ev.onMessage("irc::message: " + Lower(m.command), m) == Answered(a)
    requires ev.onMessage("irc::message: *", m) == Answered(b)
    ensures var r := StepSpec(cfg, ev, s, m);
      var first := s.log + Sends(Messages.Flatten(a) + Messages.Flatten(b));
      |r.state.log| >= |first| && r.state.log[..|first|] == first
  {
    Messages.FlattenAppend(a, b);
    ReactAppends(cfg, ev, SendSpec(s, Messages.Flatten(a + b)), m);
  }

  /** A listener's exception ends the process before anything of that
      message is sent. */
  lemma ListenerFailure(cfg: Config, ev: Events, s: State, m: Messages.Message)
    requires ev.onMessage("irc::message: " + Lower(m.command), m).Raised?
      || ev.onMessage("irc::message: *", m).Raised?
    ensures StepSpec(cfg, ev, s, m) == Died(s)
  {
  }

  /** The client changes its own identity only on a WHOIS reply (311) about
      its own nick, compared without regard to case, and then takes nick,
      user and host from that reply. */
  lemma IdentityOnlyFromWhois(cfg: Config, ev: Events, s: State, m: Messages.Message)
    ensures var r := ReactSpec(cfg, ev, s, m);
      var nick := At(m.params, 1).GetOr("");
      && (IsCode(m.command, 311) && EqualsIgnoreCase(nick, Senders.NickOf(Some(s.sender))) ==>
            r == Done(s.(sender := Senders.MakeUser(nick, At(m.params, 2), At(m.params, 3)))))
      && (!(IsCode(m.command, 311) && EqualsIgnoreCase(nick, Senders.NickOf(Some(s.sender)))) ==>
            r.state.sender == s.sender)
  {
  }

  /** An invitation is accepted exactly when its sender is trusted; otherwise
      the sender is told no. */
  lemma InvitePolicy(cfg: Config, ev: Events, s: State, m: Messages.Message)
    requires m.command == "INVITE"
    ensures Allowed(cfg, m) ==>
      ReactSpec(cfg, ev, s, m) == Done(SendSpec(s, [Messages.JoinChannel(At(m.params, 1).GetOr(""))]))
    ensures !Allowed(cfg, m) ==>
      ReactSpec(cfg, ev, s, m) == Done(SendSpec(s, [Messages.Notice(Senders.NickOf(m.sender), STRANGER_INVITE)]))
  {
    assert !IsDigit(m.command[0]);
  }

  /** A private message to the client runs a command only for a trusted
      sender; anyone else gets the refusal notice and no command runs. */
  lemma PrivatePolicy(cfg: Config, ev: Events, s: State, m: Messages.Message)
    requires ToMe(s, m)
    ensures Allowed(cfg, m) && ev.onCommand("irc::command: " + Commands.FromMessage(m).name, Commands.FromMessage(m)).Answered? ==>
      var c := Commands.FromMessage(m);
      ReactSpec(cfg, ev, s, m) == Done(SendSpec(s, Messages.Flatten(Commands.Run(c, ev.onCommand("irc::command: " + c.name, c).replies))))
    ensures !Allowed(cfg, m) ==>
      ReactSpec(cfg, ev, s, m) == Done(SendSpec(s, [Messages.Notice(Senders.NickOf(m.sender), STRANGER_MESSAGE)]))
  {
    assert !IsDigit(m.command[0]);
  }

  /** PrivateSpec with Command::make as written: the command is parsed from
      the `body` a message does not have, so it never depends on what the
      message says. */
  function PrivateSpecAsWritten(cfg: Config, ev: Events, s: State, m: Messages.Message): (r: Outcome)
    ensures r.state.sender == s.sender && r.state.input == s.input
    ensures r.Died? ==> r.state == s
  {
    if Allowed(cfg, m) then
      var c := Commands.FromMessageAsWritten(m);
      match ev.onCommand("irc::command: " + c.name, c)
      case Raised => Died(s)
      case Answered(rs) => Done(SendSpec(s, Messages.Flatten(Commands.Run(c, rs))))
    else Done(SendSpec(s, [Messages.Notice(Senders.NickOf(m.sender), STRANGER_MESSAGE)]))
  }

  /** As written, a trusted sender's private message, whatever its text,
      fires `irc::command: ` with the empty name; with no listener for that
      name the only answer is the default notice. */
  lemma PrivateAsWrittenOnlyDefault(cfg: Config, ev: Events, s: State, m: Messages.Message)
    requires Allowed(cfg, m)
    requires ev.onCommand("irc::command: ", Commands.Command("", m.sender, [""])) == Answered([])
    ensures PrivateSpecAsWritten(cfg, ev, s, m)
      == Done(SendSpec(s, [Messages.Notice(Senders.NickOf(m.sender), "I don't know what you want me to do")]))
  {
    Commands.AsWrittenIgnoresMessage(m);
    assert "irc::command: " + "" == "irc::command: ";
  }

  /** Any other message gets no reaction of the client's own: a PRIVMSG to
      a channel or another nick, a NOTICE, a numeric other than 311. */
  lemma OthersIgnored(cfg: Config, ev: Events, s: State, m: Messages.Message)
    requires !IsCode(m.command, 311) && m.command != "INVITE" && !ToMe(s, m)
    ensures ReactSpec(cfg, ev, s, m) == Done(s)
  {
  }

  // ---------------------------------------------------------------------------
  // The session

  /** Client::main: read and handle messages until ERROR, the end of the
      stream, or a listener's exception. */
  function MainSpec(cfg: Config, ev: Events, s: State): (r: Outcome)
    ensures Extends(r.state.log, s.log)
    ensures |r.state.input| <= |s.input|
    decreases |s.input|
  {
    var (res, next) := ReadSpec(s);
    match res
    case Got(m) =>
      (match StepSpec(cfg, ev, next, m)
       case Died(t) =>
         ExtendsTrans(t.log, next.log, s.log);
         Died(t)
       case Done(t) =>
         var r := MainSpec(cfg, ev, t);
         ExtendsTrans(r.state.log, t.log, next.log);
         ExtendsTrans(r.state.log, next.log, s.log);
         r)
    case _ => Done(next)
  }

  /** The main loop ends when a read gives no message. */
  lemma MainStops(cfg: Config, ev: Events, s: State)
    requires !ReadSpec(s).0.Got?
    ensures MainSpec(cfg, ev, s) == Done(ReadSpec(s).1)
  {
  }

  /** The main loop goes on to the next read after a step that completes. */
  lemma MainContinues(cfg: Config, ev: Events, s: State)
    requires ReadSpec(s).0.Got?
    ensures var next := ReadSpec(s).1;
      var o := StepSpec(cfg, ev, next, ReadSpec(s).0.message);
      && (o.Died? ==> MainSpec(cfg, ev, s) == o)
      && (o.Done? ==> MainSpec(cfg, ev, s) == MainSpec(cfg, ev, o.state))
  {
  }

  /** The main loop consumes the whole input unless a listener ends the
      process or an ERROR arrives, and it only ever appends to the log. */
  predicate MainShape(cfg: Config, ev: Events, s: State)
  {
    var r := MainSpec(cfg, ev, s);
    && Extends(r.state.log, s.log)
    && (r.state.input != [] ==> r.Died? || (|r.state.log| > 0 && r.state.log[|r.state.log| - 1].message.command == "ERROR"))
  }

  /** A read that ends the loop leaves the session in that shape. */
  lemma MainEnd(cfg: Config, ev: Events, s: State)
    requires !ReadSpec(s).0.Got?
    ensures MainShape(cfg, ev, s)
  {
    ReadAppends(s);
    MainStops(cfg, ev, s);
  }

  /** A completed step keeps the shape of the rest of the session. */
  lemma MainStep(cfg: Config, ev: Events, s: State)
    requires ReadSpec(s).0.Got?
    requires var next := ReadSpec(s).1;
      var o := StepSpec(cfg, ev, next, ReadSpec(s).0.message);
      o.Done? ==> MainShape(cfg, ev, o.state)
    ensures MainShape(cfg, ev, s)
  {
    var (res, next) := ReadSpec(s);
    var o := StepSpec(cfg, ev, next, res.message);
    StepAppends(cfg, ev, next, res.message);
    ExtendsTrans(o.state.log, next.log, s.log);
    MainContinues(cfg, ev, s);
    if o.Done? {
      ExtendsTrans(MainSpec(cfg, ev, o.state).state.log, o.state.log, s.log);
    }
  }

  /** Every session of the main loop has that shape: by induction on the
      lines still to be read. */
  lemma {:induction false} MainConsumes(cfg: Config, ev: Events, s: State)
    ensures MainShape(cfg, ev, s)
    decreases |s.input|
  {
    var (res, next) := ReadSpec(s);
    if res.Got? {
      var o := StepSpec(cfg, ev, next, res.message);
      StepAppends(cfg, ev, next, res.message);
      if o.Done? {
        MainConsumes(cfg, ev, o.state);
      }
      MainStep(cfg, ev, s);
    } else {
      MainEnd(cfg, ev, s);
    }
  }

  /** The lines sent between login and the main loop. */
  function Greeting(cfg: Config): (r: seq<Messages.Message>)
    ensures |r| == |cfg.channels| + 1
    ensures forall i :: 0 <= i < |cfg.channels| ==> r[i] == Messages.JoinChannel(cfg.channels[i])
    ensures r[|r| - 1] == Messages.Notice("PhillSparks", "I am online")
  {
    seq(|cfg.channels|, i requires 0 <= i < |cfg.channels| => Messages.JoinChannel(cfg.channels[i]))
      + [Messages.Notice("PhillSparks", "I am online")]
  }

  /** The state of a fresh client: nothing logged yet. */
  function Initial(cfg: Config, lines: seq<string>): (s: State)
    ensures s.input == lines && s.log == []
  {
    State(Senders.MakeUser(cfg.nick), lines, [])
  }

  /** `new Client`: log in, join the channels, announce, run the main loop. */
  function Session(cfg: Config, ev: Events, lines: seq<string>): (r: Outcome)
    ensures Extends(r.state.log, LoginSpec(cfg, Initial(cfg, lines)).log + Sends(Greeting(cfg)))
    ensures |r.state.input| <= |lines|
  {
    MainSpec(cfg, ev, SendSpec(LoginSpec(cfg, Initial(cfg, lines)), Greeting(cfg)))
  }

  /** Sending a list element by element sends it. */
  lemma SendSpecNext(s: State, ms: seq<Messages.Message>, i: nat)
    requires i < |ms|
    ensures SendSpec(SendSpec(s, ms[..i]), [ms[i]]) == SendSpec(s, ms[..i + 1])
  {
    TakeOneMore(ms, i);
    SendsAppend(ms[..i], [ms[i]]);
  }

  /** Sending two lists one after the other sends their concatenation. */
  lemma SendSpecThen(s: State, a: seq<Messages.Message>, b: seq<Messages.Message>)
    ensures SendSpec(SendSpec(s, a), b) == SendSpec(s, a + b)
  {
    SendsAppend(a, b);
  }

  /** A session starts with USER and NICK, whatever the server says, and the
      channels are joined in the configured order, then the operator is told
      the bot is online, after login and before any message is handled. */
  lemma SessionOpening(cfg: Config, ev: Events, lines: seq<string>)
    ensures var r := Session(cfg, ev, lines);
      && Extends(r.state.log, Sends([Messages.User(cfg.user, cfg.name), Messages.Nick(cfg.nick)]))
      && Extends(r.state.log, LoginSpec(cfg, Initial(cfg, lines)).log + Sends(Greeting(cfg)))
  {
    var s := Initial(cfg, lines);
    LoginRegistersFirst(cfg, s);
    var logged := LoginSpec(cfg, s).log;
    var greeted := SendSpec(LoginSpec(cfg, s), Greeting(cfg));
    MainConsumes(cfg, ev, greeted);
    var r := Session(cfg, ev, lines);
    assert Extends(greeted.log, logged);
    assert s.log + Sends([Messages.User(cfg.user, cfg.name), Messages.Nick(cfg.nick)])
      == Sends([Messages.User(cfg.user, cfg.name), Messages.Nick(cfg.nick)]);
    ExtendsTrans(r.state.log, greeted.log, logged);
    ExtendsTrans(r.state.log, logged, Sends([Messages.User(cfg.user, cfg.name), Messages.Nick(cfg.nick)]));
  }

  // ---------------------------------------------------------------------------
  // The client object

  class Client {
    const config: Config
    const events: Events
    var sender: Senders.Sender
    /** The lines the server has yet to deliver. */
    var input: seq<string>
    /** The lines written to the socket. */
    var out: seq<string>
    /** The calls of Client::log. */
    var log: seq<Entry>
    /** Set when a listener's exception ended the process. */
    var died: bool

    /** The socket received exactly what the log says was sent. */
    predicate Valid()
      reads this
    {
      out == Wire(Sent(log))
    }

    function Snapshot(): State
      reads this
    {
      State(sender, input, log)
    }

    /** Connect, log in, join, announce and run until the session ends. */
    constructor (config: Config, events: Events, lines: seq<string>)
      ensures Valid()
      ensures Snapshot() == Session(config, events, lines).state
      ensures died == Session(config, events, lines).Died?
    {
      this.config := config;
      this.events := events;
      sender := Senders.MakeUser(config.nick);
      input := lines;
      out := [];
      log := [];
      died := false;
      new;
      Run(lines);
    }

    /** Everything the constructor does once the client exists. */
    method Run(ghost lines: seq<string>)
      modifies this
      requires Valid() && !died && Snapshot() == Initial(config, lines)
      ensures Valid()
      ensures Snapshot() == Session(config, events, lines).state
      ensures died == Session(config, events, lines).Died?
    {
      ghost var start := Snapshot();
      Login();
      ghost var logged := Snapshot();
      assert logged == LoginSpec(config, start);
      SendAll(Greeting(config));
      assert Snapshot() == SendSpec(logged, Greeting(config));
      var o := MainLoop();
      assert o == Session(config, events, lines);
    }

    /** Message::send: write the raw line and log it as sent. */
    method Send(m: Messages.Message)
      modifies this
      requires Valid()
      ensures Valid()
      ensures Snapshot() == SendSpec(old(Snapshot()), [m])
      ensures died == old(died)
    {
      SentAppend(log, [Entry(m, true)]);
      assert Sent([Entry(m, true)]) == [m];
      out := out + [m.raw + "\r\n"];
      log := log + [Entry(m, true)];
    }

    /** Send the given messages one after the other. */
    method SendAll(ms: seq<Messages.Message>)
      modifies this
      requires Valid()
      ensures Valid()
      ensures Snapshot() == SendSpec(old(Snapshot()), ms)
      ensures died == old(died)
    {
      ghost var start := Snapshot();
      var i := 0;
      while i < |ms|
        invariant 0 <= i <= |ms|
        invariant Valid() && died == old(died)
        invariant Snapshot() == SendSpec(start, ms[..i])
      {
        Send(ms[i]);
        SendSpecNext(start, ms, i);
        i := i + 1;
      }
      assert ms[..i] == ms;
    }

    /** Message::sendArray: send the messages of a reply list depth first. */
    method SendArray(list: seq<Messages.Reply>)
      modifies this
      requires Valid()
      ensures Valid()
      ensures Snapshot() == SendSpec(old(Snapshot()), Messages.Flatten(list))
      ensures died == old(died)
      decreases list
    {
      ghost var start := Snapshot();
      var i := 0;
      while i < |list|
        invariant 0 <= i <= |list|
        invariant Valid() && died == old(died)
        invariant Snapshot() == SendSpec(start, Messages.Flatten(list[..i]))
        decreases |list| - i
      {
        ghost var before := Snapshot();
        FlattenNext(list, i);
        match list[i] {
          case Send(m) => Send(m);
          case Batch(items) => SendArray(items);
          case Ignored =>
        }
        assert Snapshot() == SendSpec(before, Messages.Flatten([list[i]]));
        SendSpecThen(start, Messages.Flatten(list[..i]), Messages.Flatten([list[i]]));
        i := i + 1;
      }
      assert list[..i] == list;
    }

    /** Record a received message. */
    method Received(m: Messages.Message)
      modifies this
      requires Valid()
      ensures Valid()
      ensures Snapshot() == old(Snapshot()).(log := old(log) + [Entry(m, false)])
      ensures died == old(died)
    {
      SentAppend(log, [Entry(m, false)]);
      assert Sent([Entry(m, false)]) == [];
      log := log + [Entry(m, false)];
    }

    /** Client::read. */
    method Read() returns (r: ReadResult)
      modifies this
      requires Valid()
      ensures Valid()
      ensures (r, Snapshot()) == ReadSpec(old(Snapshot()))
      ensures died == old(died)
    {
      var parsed := NextMessage();
      if parsed.None? {
        return Eof;
      }
      r := Deliver(parsed.value);
    }

    /** The socket reads of Client::read: skip lines that do not parse, up
        to the first that does or the end of the stream. */
    method NextMessage() returns (parsed: Option<Messages.Message>)
      modifies this
      requires Valid()
      ensures Valid()
      ensures (parsed, input) == Skip(old(input))
      ensures sender == old(sender) && log == old(log) && died == old(died)
    {
      while true
        invariant Valid() && died == old(died)
        invariant Skip(input) == Skip(old(input))
        invariant log == old(log) && sender == old(sender)
        decreases |input|
      {
        var line := if |input| > 0 then input[0] else "";
        input := if |input| > 0 then input[1..] else [];
        parsed := Messages.Parse(line);
        if parsed.Some? || |input| == 0 {
          return;
        }
      }
    }

    /** The part of Client::read after a line parsed: log it, stop at ERROR,
        answer PING. */
    method Deliver(m: Messages.Message) returns (r: ReadResult)
      modifies this
      requires Valid()
      ensures Valid()
      ensures (r, Snapshot()) == Handle(m, old(Snapshot()))
      ensures died == old(died)
    {
      Received(m);
      if m.command == "ERROR" {
        return Stopped;
      }
      if m.command == "PING" {
        Send(Messages.Pong(At(m.params, 0).GetOr("")));
      }
      return Got(m);
    }

    /** The MOTD wait inside login. */
    method WaitForMotd()
      modifies this
      requires Valid()
      ensures Valid()
      ensures Snapshot() == MotdSpec(old(Snapshot()))
      ensures died == old(died)
    {
      while true
        invariant Valid() && died == old(died)
        invariant MotdSpec(Snapshot()) == MotdSpec(old(Snapshot()))
        decreases |input|
      {
        ghost var before := Snapshot();
        var r := Read();
        if !r.Got? || IsCode(r.message.command, 376) {
          return;
        }
      }
    }

    /** Client::login. */
    method Login()
      modifies this
      requires Valid()
      ensures Valid()
      ensures Snapshot() == LoginSpec(config, old(Snapshot()))
      ensures died == old(died)
    {
      ghost var start := Snapshot();
      sender := Senders.MakeUser(config.nick);
      SendAll([Messages.User(config.user, config.name), Messages.Nick(config.nick)]);
      assert Snapshot() == Registered(config, start);
      WaitForMotd();
      ghost var waited := Snapshot();
      assert waited == MotdSpec(Registered(config, start));
      ghost var after := AfterMotd(config);
      if Truthy(config.nickservPassword) {
        Send(Identify(config));
        Send(Messages.Whois(config.nick));
        assert Snapshot() == SendSpec(waited, after) by {
          SendSpecThen(waited, [Identify(config)], [Messages.Whois(config.nick)]);
        }
      } else {
        Send(Messages.Whois(config.nick));
      }
    }

    /** One pass of the main loop; false when a listener raised. */
    method Step(m: Messages.Message) returns (ok: bool)
      modifies this
      requires Valid()
      ensures Valid()
      ensures var o := StepSpec(config, events, old(Snapshot()), m);
        Snapshot() == o.state && ok == o.Done?
      ensures died == old(died)
    {
      var mine := events.onMessage("irc::message: " + Lower(m.command), m);
      var all := events.onMessage("irc::message: *", m);
      if mine.Raised? || all.Raised? {
        return false;
      }
      SendArray(mine.replies + all.replies);
      ok := React(m);
    }

    /** The client's own handling of a message, after the listeners. */
    method React(m: Messages.Message) returns (ok: bool)
      modifies this
      requires Valid()
      ensures Valid()
      ensures var o := ReactSpec(config, events, old(Snapshot()), m);
        Snapshot() == o.state && ok == o.Done?
      ensures died == old(died)
    {
      if IsCode(m.command, 311) {
        TakeWhois(m);
        ok := true;
      } else if m.command == "INVITE" {
        AnswerInvite(m);
        ok := true;
      } else if m.command == "PRIVMSG" && At(m.params, 0).GetOr("") == Senders.NickOf(Some(sender)) {
        ok := AnswerPrivate(m);
      } else {
        ok := true;
      }
    }

    /** A WHOIS reply: take over the identity it reports for the own nick. */
    method TakeWhois(m: Messages.Message)
      modifies this
      requires Valid()
      ensures Valid()
      ensures Snapshot() == WhoisSpec(old(Snapshot()), m)
      ensures died == old(died)
    {
      var nick := At(m.params, 1).GetOr("");
      if EqualsIgnoreCase(nick, Senders.NickOf(Some(sender))) {
        sender := Senders.MakeUser(nick, At(m.params, 2), At(m.params, 3));
      }
    }

    /** An invitation: join for a trusted sender, refuse anyone else. */
    method AnswerInvite(m: Messages.Message)
      modifies this
      requires Valid()
      ensures Valid()
      ensures Snapshot() == InviteSpec(config, old(Snapshot()), m)
      ensures died == old(died)
    {
      if Allowed(config, m) {
        Send(Messages.JoinChannel(At(m.params, 1).GetOr("")));
      } else {
        Send(Messages.Notice(Senders.NickOf(m.sender), STRANGER_INVITE));
      }
    }

    /** A private message to the client: run the command for a trusted
        sender, refuse anyone else; false when the command's listener raised. */
    method AnswerPrivate(m: Messages.Message) returns (ok: bool)
      modifies this
      requires Valid()
      ensures Valid()
      ensures var o := PrivateSpec(config, events, old(Snapshot()), m);
        Snapshot() == o.state && ok == o.Done?
      ensures died == old(died)
    {
      if Allowed(config, m) {
        var c := Commands.FromMessage(m);
        var fired := events.onCommand("irc::command: " + c.name, c);
        if fired.Raised? {
          return false;
        }
        SendArray(Commands.Run(c, fired.replies));
      } else {
        Send(Messages.Notice(Senders.NickOf(m.sender), STRANGER_MESSAGE));
      }
      ok := true;
    }

    /** Client::main. */
    method MainLoop() returns (o: Outcome)
      modifies this
      requires Valid()
      ensures Valid()
      ensures o == MainSpec(config, events, old(Snapshot())) && Snapshot() == o.state
      ensures died == (old(died) || o.Died?)
    {
      while true
        invariant Valid() && died == old(died)
        invariant MainSpec(config, events, Snapshot()) == MainSpec(config, events, old(Snapshot()))
        decreases |input|
      {
        var more;
        o, more := Cycle();
        if !more {
          return;
        }
      }
    }

    /** One turn of Client::main: read a message and handle it. `more` when
        the loop goes on; otherwise `o` is how the session ends. */
    method Cycle() returns (o: Outcome, more: bool)
      modifies this
      requires Valid()
      ensures Valid()
      ensures more ==> (MainSpec(config, events, Snapshot()) == MainSpec(config, events, old(Snapshot()))
        && |input| < old(|input|) && died == old(died))
      ensures !more ==> (o == MainSpec(config, events, old(Snapshot())) && Snapshot() == o.state
        && died == (old(died) || o.Died?))
    {
      ghost var before := Snapshot();
      var r := Read();
      if !r.Got? {
        MainStops(config, events, before);
        return Done(Snapshot()), false;
      }
      o, more := Handled(before, r.message);
    }

    /** The rest of a turn once a message was read from the state `before`. */
    method Handled(ghost before: State, m: Messages.Message) returns (o: Outcome, more: bool)
      modifies this
      requires Valid() && ReadSpec(before) == (Got(m), Snapshot())
      ensures Valid()
      ensures more ==> (MainSpec(config, events, Snapshot()) == MainSpec(config, events, before)
        && |input| < |before.input| && died == old(died))
      ensures !more ==> (o == MainSpec(config, events, before) && Snapshot() == o.state
        && died == (old(died) || o.Died?))
    {
      MainContinues(config, events, before);
      StepAppends(config, events, Snapshot(), m);
      var ok := Step(m);
      if !ok {
        died := true;
        return Died(Snapshot()), false;
      }
      return Done(Snapshot()), true;
    }
  }
}
