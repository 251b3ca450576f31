/**
 * The bot commands every installation has: help, join, part, quit, say,
 * notice, act and echo. Each is a listener of `irc::command: <name>` that
 * builds its reply from the command's parameters; the first parameter is the
 * channel or receiver and the rest, joined by single spaces, the text.
 */
module CoreCommands {
  import opened Text
  import Senders
  import Messages
  import Commands

  /** `array_shift($params)`: the first parameter, or null (read as ""). */
  function Head(params: seq<string>): (r: string)
    ensures |params| > 0 ==> r == params[0]
    ensures |params| == 0 ==> r == ""
  {
    At(params, 0).GetOr("")
  }

  /** `implode(' ', $params)` after the shift: the remaining parameters. */
  function Rest(params: seq<string>): (r: string)
    ensures |params| <= 1 ==> r == ""
    ensures |params| == 2 ==> r == params[1]
    ensures |params| > 0 ==> r == Join(" ", params[1..])
  {
    if |params| == 0 then "" else Join(" ", params[1..])
  }

  /** Joining all parameters is the head, a space and the rest, whenever
      there is a rest. */
  lemma HeadAndRest(params: seq<string>)
    requires |params| >= 2
    ensures Join(" ", params) == Head(params) + " " + Rest(params)
  {
    JoinCons(" ", params[0], params[1..]);
    assert params == [params[0]] + params[1..];
  }

  const HELP_TEXT := "Yeah, you need help!"

  /** help: a private message to whoever asked. */
  function Help(c: Commands.Command): (m: Messages.Message)
    ensures m.command == "PRIVMSG"
    ensures m.params == [Senders.NickOf(c.sender), ":" + HELP_TEXT]
    ensures m.raw == "PRIVMSG " + Senders.NickOf(c.sender) + " :" + HELP_TEXT
  {
    Messages.Privmsg(Senders.NickOf(c.sender), HELP_TEXT)
  }

  /** join <channel> [<key>]: a missing key is null, which Message::make
      renders as the empty string, so the line ends in a space. */
  function JoinChannel(c: Commands.Command): (m: Messages.Message)
    ensures m.command == "JOIN"
    ensures m.raw == "JOIN " + Head(c.params) + " " + Messages.Guard(At(c.params, 1).GetOr(""))
    ensures |c.params| < 2 ==> m.raw == "JOIN " + Head(c.params) + " "
  {
    Messages.JoinChannel(Head(c.params), At(c.params, 1).GetOr(""))
  }

  /** part <channel> <message...>. */
  function Part(c: Commands.Command): (m: Messages.Message)
    ensures m.command == "PART" && m.params == [Head(c.params), ":" + Rest(c.params)]
    ensures m.raw == "PART " + Head(c.params) + " :" + Rest(c.params)
  {
    Messages.Part(Head(c.params), Rest(c.params))
  }

  /** quit <message...>: a farewell notice to the sender, then the QUIT. */
  function Quit(c: Commands.Command): (r: Messages.Reply)
    ensures Messages.Flatten([r]) == [
      Messages.Notice(Senders.NickOf(c.sender), "Going offline now"),
      Messages.Quit(Join(" ", c.params))]
    ensures Messages.Flatten([r])[1].raw == "QUIT :" + Join(" ", c.params) + " (laravel.com)"
  {
    var notice := Messages.Notice(Senders.NickOf(c.sender), "Going offline now");
    var quit := Messages.Quit(Join(" ", c.params));
    var items := [Messages.Send(notice), Messages.Send(quit)];
    var r := Messages.Batch(items);
    assert items[1..] == [Messages.Send(quit)];
    assert [Messages.Send(quit)][1..] == [];
    assert Messages.Flatten([Messages.Send(quit)]) == [quit];
    assert Messages.Flatten(items) == [notice] + Messages.Flatten(items[1..]);
    Messages.FlattenBatch(items);
    r
  }

  /** say <receiver> <text...>. */
  function Say(c: Commands.Command): (m: Messages.Message)
    ensures m.command == "PRIVMSG" && m.params == [Head(c.params), ":" + Rest(c.params)]
    ensures m.raw == "PRIVMSG " + Head(c.params) + " :" + Rest(c.params)
  {
    Messages.Privmsg(Head(c.params), Rest(c.params))
  }

  /** notice <receiver> <text...>. */
  function Notice(c: Commands.Command): (m: Messages.Message)
    ensures m.command == "NOTICE" && m.params == [Head(c.params), ":" + Rest(c.params)]
    ensures m.raw == "NOTICE " + Head(c.params) + " :" + Rest(c.params)
  {
    Messages.Notice(Head(c.params), Rest(c.params))
  }

  /** The CTCP ACTION wrapping of a text (what `/me` sends). */
  function Action(text: string): (r: string)
    ensures |r| == |text| + 9
    ensures r[..8] == "\U{1}ACTION " && r[8..|r| - 1] == text && r[|r| - 1] == '\U{1}'
  {
    "\U{1}ACTION " + text + "\U{1}"
  }

  /** act <receiver> <text...>: the text as an action. */
  function Act(c: Commands.Command): (m: Messages.Message)
    ensures m.command == "PRIVMSG" && m.params == [Head(c.params), ":" + Action(Rest(c.params))]
    ensures m.raw == "PRIVMSG " + Head(c.params) + " :" + Action(Rest(c.params))
  {
    Messages.Privmsg(Head(c.params), Action(Rest(c.params)))
  }

  /** echo <command> <params...>: the parameters sent back as a raw line. */
  function Echo(c: Commands.Command): (m: Messages.Message)
    ensures m.sender.None?
    ensures |c.params| >= 2 ==>
      m.command == Upper(c.params[0])
      && m.params == c.params[1..|c.params| - 1] + [Messages.Guard(c.params[|c.params| - 1])]
    ensures |c.params| <= 1 ==> m.command == Messages.Guard(Upper(Head(c.params))) && m.params == []
  {
    var m := Messages.Make(Head(c.params), [Messages.Words(if |c.params| == 0 then [] else c.params[1..])]);
    assert |c.params| >= 2 ==> ([m.command] + m.params)[1..] == m.params;
    m
  }

  /** What echo sends, the server reads as the same command and parameters,
      a trailing one without its colon, whenever the words are sendable. */
  lemma EchoRoundTrip(c: Commands.Command)
    requires |c.params| >= 2
    requires Messages.Sendable(c.params[0], c.params[1..])
    ensures var m := Echo(c);
      Messages.Parse(m.raw) == Some(Messages.Message(None, Upper(c.params[0]), Messages.Received(m.params), m.raw))
  {
    var args := [Messages.Words(c.params[1..])];
    assert Messages.Spliced(args) == c.params[1..];
    Messages.ParseOfMake(c.params[0], args, None);
  }

  /** The registered command names. */
  predicate IsCore(name: string)
    ensures IsCore(name) ==> |name| >= 3 && ' ' !in name
  {
    name in {"help", "join", "part", "quit", "say", "notice", "act", "echo"}
  }

  /** The reply of the core command with that name. */
  function Respond(c: Commands.Command): (r: Messages.Reply)
    requires IsCore(c.name)
    ensures c.name != "quit" ==> r.Send?
    ensures c.name == "quit" ==> |Messages.Flatten([r])| == 2
    ensures c.name == "join" ==> r.message.command == "JOIN"
    ensures c.name == "say" || c.name == "act" ==> r.message.command == "PRIVMSG"
  {
    match c.name
    case "help" => Messages.Send(Help(c))
    case "join" => Messages.Send(JoinChannel(c))
    case "part" => Messages.Send(Part(c))
    case "quit" => Quit(c)
    case "say" => Messages.Send(Say(c))
    case "notice" => Messages.Send(Notice(c))
    case "act" => Messages.Send(Act(c))
    case _ => Messages.Send(Echo(c))
  }

  /** What firing `irc::command: <name>` collects from these listeners: one
      reply for a registered name, none otherwise. */
  function Listeners(event: string, c: Commands.Command): (r: seq<Messages.Reply>)
    ensures |r| <= 1
  {
    if IsCore(c.name) && event == "irc::command: " + c.name then [Respond(c)] else []
  }

  /** A registered command gets exactly its own reply; any other name gets the
      default notice "I don't know what you want me to do". */
  lemma RunCore(c: Commands.Command)
    ensures IsCore(c.name) ==> Commands.Run(c, Listeners("irc::command: " + c.name, c)) == [Respond(c)]
    ensures !IsCore(c.name) ==>
      Messages.Flatten(Commands.Run(c, Listeners("irc::command: " + c.name, c))) == [Commands.DefaultReply(c)]
  {
  }

  /** `say #chan hello world` relays the words to the channel. */
  lemma SayExample(sender: Option<Senders.Sender>)
    ensures Say(Commands.Command("say", sender, ["#chan", "hello", "world"])).raw == "PRIVMSG #chan :hello world"
  {
    var ps := ["#chan", "hello", "world"];
    assert ps[1..] == ["hello", "world"];
    JoinCons(" ", "hello", ["world"]);
  }
}
