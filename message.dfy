/**
 * IRC messages: parsing a line from the server, building a line to send, and
 * the accessors handlers use. The message grammar is section 2.3.1 of RFC 2812;
 * the parser deviates from it where noted. A message is an immutable value:
 * the no-op `__set`/`__unset` of the source need no counterpart.
 */
module Messages {
  import opened Text
  import Senders

  datatype Message = Message(
    sender: Option<Senders.Sender>,
    command: string,
    params: seq<string>,
    raw: string)

  // ---------------------------------------------------------------------------
  // Parsing

  /** The parameters after the command. The first colon anywhere starts the
      trailing parameter, and the character just before it is dropped (RFC 2812
      wants it to be a space; the parser never checks). Without a colon every
      space separates a parameter. */
  function ParseParams(rest: string): (r: seq<string>)
    ensures |r| >= 1
    ensures ':' !in rest ==> Join(" ", r) == rest && forall i :: 0 <= i < |r| ==> ' ' !in r[i]
    ensures ':' in rest ==>
      var p := IndexOf(rest, ':').value;
      && r[|r| - 1] == rest[p + 1..]
      && (p == 0 ==> |r| == 1)
      && (p > 0 ==> |r| >= 2 && Join(" ", r[..|r| - 1]) == rest[..p - 1])
      && forall i :: 0 <= i < |r| - 1 ==> ' ' !in r[i] && ':' !in r[i]
  {
    match IndexOf(rest, ':')
    case None =>
      JoinOfSplit(rest, ' ');
      Split(rest, ' ')
    case Some(p) =>
      if p > 0 then
        var middle := Split(rest[..p - 1], ' ');
        JoinOfSplit(rest[..p - 1], ' ');
        assert ':' !in rest[..p - 1] by {
          assert rest[..p - 1] == rest[..p][..p - 1];
        }
        SplitAvoids(rest[..p - 1], ' ', ':');
        assert (middle + [rest[p + 1..]])[..|middle|] == middle;
        middle + [rest[p + 1..]]
      else
        [rest[p + 1..]]
  }

  /** The line without its prefix: what follows the first space when the line
      starts with a colon, and the whole line otherwise. */
  function AfterPrefix(line: string): string
  {
    if |line| > 0 && line[0] == ':' then SplitOnce(line, ' ').1 else line
  }

  /** Message::parse. None (PHP's false) for a line that is empty once its
      trailing CR and LF characters are gone. */
  function Parse(line: string): (r: Option<Message>)
    ensures r.None? <==> StripLineEnd(line) == ""
    ensures r.Some? ==> r.value.raw == StripLineEnd(line)
    ensures r.Some? ==> (r.value.sender.Some? <==> r.value.raw[0] == ':')
    ensures r.Some? && r.value.sender.Some? ==>
      var prefix := r.value.sender.value.text;
      && ' ' !in prefix && StartsWith(r.value.raw, prefix)
      && (|prefix| == |r.value.raw| || r.value.raw[|prefix|] == ' ')
      && r.value.sender.value == Senders.Parse(prefix)
    ensures r.Some? ==>
      var body := AfterPrefix(r.value.raw);
      && ' ' !in r.value.command && StartsWith(body, r.value.command)
      && (|r.value.command| == |body| || body[|r.value.command|] == ' ')
      && r.value.command == SplitOnce(body, ' ').0
      && r.value.params == ParseParams(SplitOnce(body, ' ').1)
  {
    var line := StripLineEnd(line);
    if line == "" then None
    else
      var sender := if line[0] == ':' then Some(Senders.Parse(SplitOnce(line, ' ').0)) else None;
      var body := AfterPrefix(line);
      var (command, rest) := SplitOnce(body, ' ');
      Some(Message(sender, command, ParseParams(rest), line))
  }

  // ---------------------------------------------------------------------------
  // Building

  /** An argument of Message::make: a string, or an array of strings. */
  datatype Arg = Word(text: string) | Words(items: seq<string>)

  /** An argument as implode() renders it: an array becomes "Array". */
  function Render(a: Arg): string
  {
    match a
    case Word(t) => t
    case Words(_) => "Array"
  }

  /** The arguments after the command, with an array in first position spliced in. */
  function Spliced(args: seq<Arg>): (r: seq<string>)
    ensures |args| > 0 && args[0].Words? ==>
      |r| == |args[0].items| + |args| - 1 && r[..|args[0].items|] == args[0].items
      && forall i :: 1 <= i < |args| ==> r[|args[0].items| + i - 1] == Render(args[i])
    ensures (|args| == 0 || args[0].Word?) ==>
      |r| == |args| && forall i :: 0 <= i < |args| ==> r[i] == Render(args[i])
  {
    var rendered := seq(|args|, i requires 0 <= i < |args| => Render(args[i]));
    if |args| > 0 && args[0].Words? then args[0].items + rendered[1..] else rendered
  }

  /** The last argument gets a leading colon when it holds a space and has none. */
  function Guard(s: string): (r: string)
    ensures ' ' in r ==> r[0] == ':'
    ensures r == s || r == ":" + s
    ensures r != s <==> (' ' in s && s[0] != ':')
  {
    if ' ' in s && s[0] != ':' then ":" + s else s
  }

  /** Message::make: the command upper-cased, the arguments spliced, the last
      one guarded, and raw the single-space join of all of them. The colon the
      guard adds stays in the stored parameter. */
  function Make(command: string, args: seq<Arg> := [], sender: Option<Senders.Sender> := None): (m: Message)
    ensures m.sender == sender
    ensures m.raw == Join(" ", [m.command] + m.params)
    ensures var list := [Upper(command)] + Spliced(args);
      var out := [m.command] + m.params;
      && |out| == |list|
      && out[..|list| - 1] == list[..|list| - 1]
      && out[|list| - 1] == Guard(list[|list| - 1])
  {
    var list := [Upper(command)] + Spliced(args);
    var n := |list| - 1;
    var out := list[..n] + [Guard(list[n])];
    assert out[..n] == list[..n];
    Message(sender, out[0], out[1..], Join(" ", out))
  }

  /** Plain string arguments, one per parameter. */
  function Args(ps: seq<string>): (r: seq<Arg>)
    ensures |r| == |ps| && forall i :: 0 <= i < |ps| ==> r[i] == Word(ps[i])
  {
    seq(|ps|, i requires 0 <= i < |ps| => Word(ps[i]))
  }

  /** The commands the helpers send, which upper-casing leaves alone. */
  lemma UpperCommands()
    ensures Upper("PASS") == "PASS" && Upper("NICK") == "NICK" && Upper("USER") == "USER"
    ensures Upper("QUIT") == "QUIT" && Upper("JOIN") == "JOIN" && Upper("PART") == "PART"
    ensures Upper("PRIVMSG") == "PRIVMSG" && Upper("NOTICE") == "NOTICE"
    ensures Upper("WHOIS") == "WHOIS" && Upper("PONG") == "PONG"
  {
    UpperKeeps("PASS");
    UpperKeeps("NICK");
    UpperKeeps("USER");
    UpperKeeps("QUIT");
    UpperKeeps("JOIN");
    UpperKeeps("PART");
    UpperKeeps("PRIVMSG");
    UpperKeeps("NOTICE");
    UpperKeeps("WHOIS");
    UpperKeeps("PONG");
  }

  /** Make with an upper-case command and string arguments: the arguments
      become the parameters, the last one guarded. */
  lemma MakeOfWords(command: string, ps: seq<string>)
    requires Upper(command) == command && |ps| >= 1
    ensures Make(command, Args(ps)).command == command
    ensures Make(command, Args(ps)).params == ps[..|ps| - 1] + [Guard(ps[|ps| - 1])]
    ensures Make(command, Args(ps)).raw == command + " " + Join(" ", Make(command, Args(ps)).params)
  {
    var m := Make(command, Args(ps));
    var sp := Spliced(Args(ps));
    assert sp == ps;
    var list := [command] + ps;
    var out := [m.command] + m.params;
    assert out[..|list| - 1] == list[..|list| - 1];
    assert m.params == out[1..];
    assert out[1..][..|ps| - 1] == ps[..|ps| - 1];
    assert m.params == ps[..|ps| - 1] + [Guard(ps[|ps| - 1])];
    JoinCons(" ", m.command, m.params);
  }

  /** A command with a single parameter. */
  lemma OneWord(command: string, p: string)
    requires Upper(command) == command
    ensures Make(command, Args([p])).command == command
    ensures Make(command, Args([p])).params == [Guard(p)]
    ensures Make(command, Args([p])).raw == command + " " + Guard(p)
  {
    MakeOfWords(command, [p]);
    assert [p][..0] == [];
  }

  /** PASS <password> (section 3.1.1 of RFC 2812). */
  function Pass(password: string): (m: Message)
    ensures m.command == "PASS" && m.params == [Guard(password)]
    ensures m.raw == "PASS " + Guard(password)
  {
    var m := Make("PASS", Args([password]));
    assert m.command == "PASS" && m.params == [Guard(password)] && m.raw == "PASS" + " " + Guard(password) by {
      UpperCommands();
      OneWord("PASS", password);
    }
    assert "PASS" + " " == "PASS ";
    m
  }

  /** NICK <nickname> (section 3.1.2 of RFC 2812). */
  function Nick(nick: string): (m: Message)
    ensures m.command == "NICK" && m.params == [Guard(nick)]
    ensures m.raw == "NICK " + Guard(nick)
  {
    var m := Make("NICK", Args([nick]));
    assert m.command == "NICK" && m.params == [Guard(nick)] && m.raw == "NICK" + " " + Guard(nick) by {
      UpperCommands();
      OneWord("NICK", nick);
    }
    assert "NICK" + " " == "NICK ";
    m
  }

  /** USER <user> 8 * :<realname> (section 3.1.3 of RFC 2812): mode 8 asks to be invisible. */
  function User(user: string, realname: string): (m: Message)
    ensures m.command == "USER" && m.params == [user, "8", "*", ":" + realname]
    ensures m.raw == "USER " + user + " 8 * :" + realname
  {
    UserMade(user, realname);
    Make("USER", Args([user, "8", "*", ":" + realname]))
  }

  lemma UserMade(user: string, realname: string)
    ensures Make("USER", Args([user, "8", "*", ":" + realname])).command == "USER"
    ensures Make("USER", Args([user, "8", "*", ":" + realname])).params == [user, "8", "*", ":" + realname]
    ensures Make("USER", Args([user, "8", "*", ":" + realname])).raw == "USER " + user + " 8 * :" + realname
  {
    UserWords([user, "8", "*", ":" + realname]);
    UserLine(user, realname);
    assert "USER" + " " + (user + " 8 * :" + realname) == "USER " + user + " 8 * :" + realname by {
      assert "USER" + " " == "USER ";
    }
  }

  /** USER with four parameters, the last one trailing. */
  lemma UserWords(ps: seq<string>)
    requires |ps| == 4 && StartsWith(ps[3], ":")
    ensures Make("USER", Args(ps)).command == "USER"
    ensures Make("USER", Args(ps)).params == ps
    ensures Make("USER", Args(ps)).raw == "USER" + " " + Join(" ", ps)
  {
    FrontAndLast(ps);
    assert Guard(ps[3]) == ps[3] by {
      assert ps[3][0] == ':';
    }
    UpperCommands();
    MakeOfWords("USER", ps);
  }

  lemma UserLine(user: string, realname: string)
    ensures Join(" ", [user, "8", "*", ":" + realname]) == user + " 8 * :" + realname
  {
    JoinCons(" ", user, ["8", "*", ":" + realname]);
    JoinCons(" ", "8", ["*", ":" + realname]);
    JoinCons(" ", "*", [":" + realname]);
  }

  /** What the client appends to every quit message. */
  const QUIT_SUFFIX := " (laravel.com)"

  /** QUIT :<message> (laravel.com) (section 3.1.7 of RFC 2812). */
  function Quit(message: string := ""): (m: Message)
    ensures m.command == "QUIT" && m.params == [":" + message + QUIT_SUFFIX]
    ensures m.raw == "QUIT :" + message + QUIT_SUFFIX
  {
    QuitMade(":" + message + QUIT_SUFFIX, message);
    Make("QUIT", Args([":" + message + QUIT_SUFFIX]))
  }

  lemma QuitMade(text: string, message: string)
    requires text == ":" + message + QUIT_SUFFIX
    ensures Make("QUIT", Args([text])).command == "QUIT"
    ensures Make("QUIT", Args([text])).params == [text]
    ensures Make("QUIT", Args([text])).raw == "QUIT :" + message + QUIT_SUFFIX
  {
    var m := Make("QUIT", Args([text]));
    assert m.command == "QUIT" && m.params == [text] && m.raw == "QUIT" + " " + text by {
      UpperCommands();
      OneWord("QUIT", text);
      assert Guard(text) == text by {
        assert text[0] == ':';
      }
    }
    assert "QUIT" + " " + text == "QUIT :" + message + QUIT_SUFFIX by {
      ColonAfterSpace("QUIT", message, QUIT_SUFFIX);
      assert "QUIT" + " :" == "QUIT :";
    }
  }

  /** A space, then a colon and more text. */
  lemma ColonAfterSpace(c: string, a: string, x: string)
    ensures c + " " + (":" + a + x) == c + " :" + a + x
  {
  }

  /** A command with a middle and a last parameter. */
  lemma TwoWords(command: string, p: string, q: string)
    requires Upper(command) == command
    ensures Make(command, Args([p, q])).command == command
    ensures Make(command, Args([p, q])).params == [p, Guard(q)]
    ensures Make(command, Args([p, q])).raw == command + " " + p + " " + Guard(q)
  {
    MakeOfWords(command, [p, q]);
    assert [p, q][..1] == [p];
    JoinCons(" ", p, [Guard(q)]);
  }

  /** A command with a middle parameter and a trailing one. */
  lemma TrailingWords(command: string, p: string, text: string)
    requires Upper(command) == command
    ensures Make(command, Args([p, ":" + text])).command == command
    ensures Make(command, Args([p, ":" + text])).params == [p, ":" + text]
    ensures Make(command, Args([p, ":" + text])).raw == command + " " + p + " :" + text
  {
    TwoWords(command, p, ":" + text);
    assert Guard(":" + text) == ":" + text;
    assert command + " " + p + " " + (":" + text) == command + " " + p + " :" + text;
  }

  /** JOIN <channel> <key> (section 3.2.1 of RFC 2812). The key defaults to the
      empty string, so a plain join ends in a space. */
  function JoinChannel(channel: string, key: string := ""): (m: Message)
    ensures m.command == "JOIN" && m.params == [channel, Guard(key)]
    ensures m.raw == "JOIN " + channel + " " + Guard(key)
    ensures key == "" ==> m.raw == "JOIN " + channel + " "
  {
    var m := Make("JOIN", Args([channel, key]));
    assert m.command == "JOIN" && m.params == [channel, Guard(key)] && m.raw == "JOIN" + " " + channel + " " + Guard(key) by {
      UpperCommands();
      TwoWords("JOIN", channel, key);
    }
    assert "JOIN" + " " == "JOIN ";
    assert key == "" ==> Guard(key) == "";
    m
  }

  /** PART <channel> :<message> (section 3.2.2 of RFC 2812). */
  function Part(channel: string, message: string := ""): (m: Message)
    ensures m.command == "PART" && m.params == [channel, ":" + message]
    ensures m.raw == "PART " + channel + " :" + message
  {
    var m := Make("PART", Args([channel, ":" + message]));
    assert m.command == "PART" && m.params == [channel, ":" + message] && m.raw == "PART" + " " + channel + " :" + message by {
      UpperCommands();
      TrailingWords("PART", channel, message);
    }
    assert "PART" + " " == "PART ";
    m
  }

  /** PRIVMSG <target> :<text> (section 3.3.1 of RFC 2812). */
  function Privmsg(target: string, text: string): (m: Message)
    ensures m.command == "PRIVMSG" && m.params == [target, ":" + text]
    ensures m.raw == "PRIVMSG " + target + " :" + text
  {
    var m := Make("PRIVMSG", Args([target, ":" + text]));
    assert m.command == "PRIVMSG" && m.params == [target, ":" + text] && m.raw == "PRIVMSG" + " " + target + " :" + text by {
      UpperCommands();
      TrailingWords("PRIVMSG", target, text);
    }
    assert "PRIVMSG" + " " == "PRIVMSG ";
    m
  }

  /** NOTICE <target> :<text> (section 3.3.2 of RFC 2812). */
  function Notice(target: string, text: string): (m: Message)
    ensures m.command == "NOTICE" && m.params == [target, ":" + text]
    ensures m.raw == "NOTICE " + target + " :" + text
  {
    var m := Make("NOTICE", Args([target, ":" + text]));
    assert m.command == "NOTICE" && m.params == [target, ":" + text] && m.raw == "NOTICE" + " " + target + " :" + text by {
      UpperCommands();
      TrailingWords("NOTICE", target, text);
    }
    assert "NOTICE" + " " == "NOTICE ";
    m
  }

  /** WHOIS <mask> (section 3.6.2 of RFC 2812). */
  function Whois(user: string): (m: Message)
    ensures m.command == "WHOIS" && m.params == [Guard(user)]
    ensures m.raw == "WHOIS " + Guard(user)
  {
    var m := Make("WHOIS", Args([user]));
    assert m.command == "WHOIS" && m.params == [Guard(user)] && m.raw == "WHOIS" + " " + Guard(user) by {
      UpperCommands();
      OneWord("WHOIS", user);
    }
    assert "WHOIS" + " " == "WHOIS ";
    m
  }

  /** PONG :<daemon> (section 3.7.3 of RFC 2812). */
  function Pong(daemon: string): (m: Message)
    ensures m.command == "PONG" && m.params == [":" + daemon]
    ensures m.raw == "PONG :" + daemon
  {
    var m := Make("PONG", Args([":" + daemon]));
    assert m.command == "PONG" && m.params == [":" + daemon] && m.raw == "PONG" + " " + (":" + daemon) by {
      UpperCommands();
      OneWord("PONG", ":" + daemon);
      assert Guard(":" + daemon) == ":" + daemon;
    }
    assert "PONG" + " " + (":" + daemon) == "PONG :" + daemon by {
      assert "PONG" + " " + (":" + daemon) == "PONG" + " :" + daemon;
      assert "PONG" + " :" == "PONG :";
    }
    m
  }

  // ---------------------------------------------------------------------------
  // What a parsed message made by Make looks like

  predicate NoLineEnd(s: string)
  {
    '\r' !in s && '\n' !in s
  }

  /** A command and parameters whose line Parse reads back: no CR or LF
      anywhere, a command and middle parameters without spaces or colons, and
      a last parameter that is either a trailing one (it starts with a colon
      or holds a space, so the guard makes it start with one) or a colon-free middle. */
  predicate Sendable(command: string, params: seq<string>)
    ensures Sendable(command, params) ==> NoLineEnd(Join(" ", [command] + params))
  {
    && |params| >= 1
    && ' ' !in command && ':' !in command && NoLineEnd(command)
    && (forall i :: 0 <= i < |params| ==> NoLineEnd(params[i]))
    && (forall i :: 0 <= i < |params| - 1 ==> ' ' !in params[i] && ':' !in params[i])
    && (var last := params[|params| - 1];
        StartsWith(last, ":") || ' ' in last || ':' !in last)
    && (assert forall i :: 1 <= i < |[command] + params| ==> ([command] + params)[i] == params[i - 1];
        JoinAvoids(" ", [command] + params, '\r');
        JoinAvoids(" ", [command] + params, '\n');
        true)
  }

  /** The parameters as the receiving side reads them: a trailing parameter
      loses the colon Make keeps in it. */
  function Received(params: seq<string>): seq<string>
  {
    if |params| > 0 && StartsWith(params[|params| - 1], ":") then
      params[..|params| - 1] + [params[|params| - 1][1..]]
    else params
  }

  /** The parameters of a line whose middles have no space or colon and whose
      last parameter is either a trailing one or a colon-free middle. */
  lemma ParseParamsOfJoin(ps: seq<string>)
    requires |ps| >= 1
    requires forall i :: 0 <= i < |ps| - 1 ==> ' ' !in ps[i] && ':' !in ps[i]
    requires StartsWith(ps[|ps| - 1], ":") || (' ' !in ps[|ps| - 1] && ':' !in ps[|ps| - 1])
    ensures ParseParams(Join(" ", ps)) == Received(ps)
  {
    if StartsWith(ps[|ps| - 1], ":") {
      WithTrailing(ps);
    } else {
      NoTrailing(ps);
    }
  }

  lemma WithTrailing(ps: seq<string>)
    requires |ps| >= 1
    requires forall i :: 0 <= i < |ps| - 1 ==> ' ' !in ps[i] && ':' !in ps[i]
    requires StartsWith(ps[|ps| - 1], ":")
    ensures ParseParams(Join(" ", ps)) == ps[..|ps| - 1] + [ps[|ps| - 1][1..]]
  {
    var n := |ps| - 1;
    var t := ps[n][1..];
    assert ps[n] == ":" + t;
    if n == 0 {
      TrailingOnly(ps, t);
    } else {
      TrailingCase(ps, t);
    }
  }

  lemma TrailingOnly(ps: seq<string>, t: string)
    requires ps == [":" + t]
    ensures ParseParams(Join(" ", ps)) == [t]
  {
    TrailingAlone(t);
  }

  lemma NoTrailing(ps: seq<string>)
    requires |ps| >= 1
    requires forall i :: 0 <= i < |ps| ==> ' ' !in ps[i] && ':' !in ps[i]
    ensures ParseParams(Join(" ", ps)) == ps
  {
    JoinAvoids(" ", ps, ':');
    SplitOfJoin(ps, ' ');
    NoColon(Join(" ", ps));
  }

  lemma TrailingCase(ps: seq<string>, t: string)
    requires |ps| >= 2
    requires forall i :: 0 <= i < |ps| - 1 ==> ' ' !in ps[i] && ':' !in ps[i]
    requires ps[|ps| - 1] == ":" + t
    ensures ParseParams(Join(" ", ps)) == ps[..|ps| - 1] + [t]
  {
    var middles := ps[..|ps| - 1];
    var j := Join(" ", middles);
    assert Join(" ", ps) == j + " " + ":" + t by {
      JoinSnoc(" ", ps);
    }
    assert ':' !in j by {
      JoinAvoids(" ", middles, ':');
    }
    assert Split(j, ' ') == middles by {
      SplitOfJoin(middles, ' ');
    }
    TrailingAfter(j, t, Join(" ", ps));
  }

  lemma TrailingAlone(t: string)
    ensures ParseParams(":" + t) == [t]
  {
    IndexOfAfter([], ':', t);
    assert [] + [':'] + t == ":" + t;
    assert (":" + t)[1..] == t;
  }

  /** A line `j :t` with no colon in j: the words of j, then t. */
  lemma TrailingAfter(j: string, t: string, rest: string)
    requires ':' !in j && rest == j + " " + ":" + t
    ensures ParseParams(rest) == Split(j, ' ') + [t]
  {
    assert rest == (j + " ") + [':'] + t;
    IndexOfAfter(j + " ", ':', t);
    assert rest[..|j|] == j;
    assert rest[|j| + 2..] == t;
  }

  lemma NoColon(rest: string)
    requires ':' !in rest
    ensures ParseParams(rest) == Split(rest, ' ')
  {
  }

  /** Parameters as Make stores them when Parse can read them back: middles
      without spaces or colons, a last one that is trailing (leading colon) or
      a colon-free middle, and no CR or LF anywhere. */
  predicate WireParams(ps: seq<string>)
  {
    && |ps| >= 1
    && (forall i :: 0 <= i < |ps| ==> NoLineEnd(ps[i]))
    && (forall i :: 0 <= i < |ps| - 1 ==> ' ' !in ps[i] && ':' !in ps[i])
    && (StartsWith(ps[|ps| - 1], ":") || (' ' !in ps[|ps| - 1] && ':' !in ps[|ps| - 1]))
  }

  /** What Make sends, Parse reads back: the same command, no sender, and the
      same parameters except that a trailing one loses its colon. */
  lemma ParseOfMake(command: string, args: seq<Arg>, sender: Option<Senders.Sender>)
    requires Sendable(command, Spliced(args))
    ensures Parse(Make(command, args, sender).raw)
      == Some(Message(None, Upper(command), Received(Make(command, args, sender).params), Make(command, args, sender).raw))
  {
    var m := Make(command, args, sender);
    UpperSafe(command);
    StoredParams(command, args, sender);
    JoinCons(" ", m.command, m.params);
    ParseOfLine(m.command, m.params);
  }

  /** Upper-casing keeps spaces, colons, CR and LF out of a command. */
  lemma UpperSafe(command: string)
    requires ' ' !in command && ':' !in command && NoLineEnd(command)
    ensures var c := Upper(command); ' ' !in c && ':' !in c && NoLineEnd(c)
  {
    var c := Upper(command);
    forall i | 0 <= i < |c|
      ensures c[i] != ' ' && c[i] != ':' && c[i] != '\r' && c[i] != '\n'
    {
      assert c[i] == UpperChar(command[i]);
    }
  }

  /** The parameters Make stores for sendable arguments have the wire shape. */
  lemma StoredParams(command: string, args: seq<Arg>, sender: Option<Senders.Sender>)
    requires Sendable(command, Spliced(args))
    ensures Make(command, args, sender).command == Upper(command)
    ensures WireParams(Make(command, args, sender).params)
  {
    var m := Make(command, args, sender);
    var s := Spliced(args);
    var n := |s| - 1;
    var out := [m.command] + m.params;
    assert |m.params| == |s|;
    forall i | 0 <= i < n
      ensures m.params[i] == s[i]
    {
      assert m.params[i] == out[i + 1];
      assert out[..|s|][i + 1] == ([Upper(command)] + s)[..|s|][i + 1];
    }
    assert m.params[n] == Guard(s[n]);
  }

  /** A line of a sendable command and wire-shaped parameters parses back. */
  lemma ParseOfLine(c: string, ps: seq<string>)
    requires ' ' !in c && ':' !in c && NoLineEnd(c)
    requires WireParams(ps)
    ensures Parse(c + " " + Join(" ", ps)) == Some(Message(None, c, Received(ps), c + " " + Join(" ", ps)))
  {
    var rest := Join(" ", ps);
    var raw := c + " " + rest;
    JoinAvoids(" ", ps, '\r');
    JoinAvoids(" ", ps, '\n');
    assert NoLineEnd(raw);
    assert StripLineEnd(raw) == raw;
    assert raw[0] != ':' by {
      if |c| > 0 {
        assert raw[0] == c[0];
      }
    }
    assert AfterPrefix(raw) == raw;
    SplitOnceAt(c, ' ', rest);
    assert c + [' '] + rest == raw;
    ParseParamsOfJoin(ps);
  }

  // ---------------------------------------------------------------------------
  // Classification (section 5 of RFC 2812)

  /** is_numeric on a command, which is made of letters and digits. */
  predicate IsNumeric(m: Message)
    ensures IsNumeric(m) ==> |m.command| > 0 && IsDigit(m.command[0])
    ensures |m.command| > 0 && !IsDigit(m.command[0]) ==> !IsNumeric(m)
  {
    IsDigits(m.command)
  }

  /** The value of a numeric; a three-digit numeric is read digit by digit. */
  function Code(m: Message): (r: nat)
    requires IsNumeric(m)
    ensures |m.command| == 3 ==>
      r == 100 * DigitValue(m.command[0]) + 10 * DigitValue(m.command[1]) + DigitValue(m.command[2]) && r < 1000
  {
    if |m.command| == 3 then
      ThreeDigits(m.command[0], m.command[1], m.command[2]);
      assert m.command == [m.command[0], m.command[1], m.command[2]];
      DigitsValue(m.command)
    else DigitsValue(m.command)
  }

  /** Replies to a command: numerics 001 to 099 and 200 to 399. */
  predicate IsResponse(m: Message)
    ensures IsResponse(m) ==> IsNumeric(m) && 1 <= Code(m) <= 399 && !(100 <= Code(m) <= 199)
  {
    IsNumeric(m) && (1 <= Code(m) <= 99 || 200 <= Code(m) <= 399)
  }

  /** ERROR, or an error numeric 400 to 599. */
  predicate IsError(m: Message)
    ensures IsError(m) ==> !IsResponse(m)
    ensures IsError(m) && m.command != "ERROR" ==> IsNumeric(m) && Code(m) >= 400
  {
    m.command == "ERROR" || (IsNumeric(m) && 400 <= Code(m) <= 599)
  }

  /** A message is never both a response and an error, and 100 to 199 and
      600 and above are neither. */
  lemma ResponseOrError(m: Message)
    ensures !(IsResponse(m) && IsError(m))
    ensures IsNumeric(m) && (Code(m) == 0 || 100 <= Code(m) <= 199 || Code(m) >= 600) ==> !IsResponse(m) && !IsError(m)
    ensures IsResponse(m) ==> IsNumeric(m)
  {
  }

  /** The numerics the client reacts to, and a typical error. */
  lemma KnownCodes(sender: Option<Senders.Sender>, params: seq<string>, raw: string)
    ensures IsResponse(Message(sender, "376", params, raw))
    ensures IsResponse(Message(sender, "311", params, raw))
    ensures IsError(Message(sender, "433", params, raw))
    ensures IsResponse(Message(sender, "001", params, raw))
    ensures !IsNumeric(Message(sender, "PRIVMSG", params, raw))
  {
    assert IsDigits("376") && DigitsValue("376") == 376 by {
      ThreeDigits('3', '7', '6');
    }
    assert IsDigits("311") && DigitsValue("311") == 311 by {
      ThreeDigits('3', '1', '1');
    }
    assert IsDigits("433") && DigitsValue("433") == 433 by {
      ThreeDigits('4', '3', '3');
    }
    assert IsDigits("001") && DigitsValue("001") == 1 by {
      ThreeDigits('0', '0', '1');
    }
    assert !IsDigit("PRIVMSG"[0]);
  }

  // ---------------------------------------------------------------------------
  // Accessors

  /** Commands whose first parameter says whom they are for. */
  predicate IsAddressed(command: string)
  {
    command == "PRIVMSG" || command == "NOTICE" || command == "JOIN" || command == "PART"
  }

  /** Message::target: the first parameter of PRIVMSG, NOTICE, JOIN and PART
      unless it is `*`, and of numerics; None otherwise. */
  function Target(m: Message): (r: Option<string>)
    ensures r.Some? ==> |m.params| > 0 && r.value == m.params[0]
    ensures r.Some? <==> |m.params| > 0 && ((IsAddressed(m.command) && m.params[0] != "*") || IsNumeric(m))
  {
    if |m.params| == 0 then None
    else if IsAddressed(m.command) && m.params[0] != "*" then Some(m.params[0])
    else if IsNumeric(m) then Some(m.params[0])
    else None
  }

  /** Message::targetUnlessThen: `otherwise` when the target matches `unless` case
      insensitively (a missing target compares as ""), else the target. */
  function TargetUnlessThen(m: Message, unless: string, otherwise: string): (r: Option<string>)
    ensures EqualsIgnoreCase(Target(m).GetOr(""), unless) ==> r == Some(otherwise)
    ensures !EqualsIgnoreCase(Target(m).GetOr(""), unless) ==> r == Target(m)
  {
    var target := Target(m);
    if EqualsIgnoreCase(target.GetOr(""), unless) then Some(otherwise) else target
  }

  /** The parameter that may name a channel: the second of a numeric, else the first. */
  function ChannelParam(m: Message): (r: Option<string>)
    ensures r.Some? <==> |m.params| > (if IsNumeric(m) then 1 else 0)
    ensures r.Some? ==> r.value in m.params
  {
    At(m.params, if IsNumeric(m) then 1 else 0)
  }

  /** A channel name starts with `#` or `&`: never with a digit or the `@`
      of a private log file. */
  predicate IsChannelName(s: string)
    ensures IsChannelName(s) ==> |s| > 0 && !IsDigit(s[0]) && s[0] != '@'
  {
    |s| > 0 && (s[0] == '#' || s[0] == '&')
  }

  /** Message::channel: that parameter when it starts with `#` or `&`. */
  function Channel(m: Message): (r: Option<string>)
    ensures r.Some? <==> ChannelParam(m).Some? && IsChannelName(ChannelParam(m).value)
    ensures r.Some? ==> r == ChannelParam(m)
  {
    match ChannelParam(m)
    case Some(c) => if IsChannelName(c) then Some(c) else None
    case None => None
  }

  /** The default of Message::params: one value for every missing item, or an
      array indexed by position (a missing index reads as null). */
  datatype Fill = Same(value: Option<string>) | Each(values: seq<string>)

  function FillAt(d: Fill, i: nat): Option<string>
  {
    match d
    case Same(v) => v
    case Each(vs) => At(vs, i)
  }

  function Somes(s: seq<string>): (r: seq<Option<string>>)
    ensures |r| == |s| && forall i :: 0 <= i < |s| ==> r[i] == Some(s[i])
  {
    seq(|s|, i requires 0 <= i < |s| => Some(s[i]))
  }

  /** Message::params: exactly `count` items (with count 0 the parameters
      unchanged); surplus parameters joined with spaces into the last item,
      missing ones taken from the default. */
  method Params(m: Message, count: nat, default: Fill := Same(None)) returns (r: seq<Option<string>>)
    ensures count == 0 ==> r == Somes(m.params)
    ensures count >= 1 ==> |r| == count
    ensures count >= 1 && |m.params| >= count ==>
      r[..count - 1] == Somes(m.params[..count - 1]) && r[count - 1] == Some(Join(" ", m.params[count - 1..]))
    ensures count >= 1 && |m.params| < count ==>
      r[..|m.params|] == Somes(m.params) && forall i :: |m.params| <= i < count ==> r[i] == FillAt(default, i)
  {
    var params := m.params;
    if |params| > count {
      var keep := if count == 0 then |params| - 1 else count - 1;
      params := params[..keep] + [Join(" ", params[keep..])];
      if count == 0 {
        assert params == m.params by {
          assert m.params[keep..] == [m.params[keep]];
          assert m.params == m.params[..keep] + [m.params[keep]];
        }
      }
    }
    r := Somes(params);
    if |params| < count {
      var i := |params|;
      while i < count
        invariant |params| <= i <= count
        invariant |r| == i
        invariant r[..|params|] == Somes(params)
        invariant forall k :: |params| <= k < i ==> r[k] == FillAt(default, k)
      {
        r := r + [FillAt(default, i)];
        i := i + 1;
      }
    }
    if count >= 1 && |m.params| >= count && |m.params| == count {
      assert m.params[count - 1..] == [m.params[count - 1]];
      assert m.params == m.params[..count - 1] + [m.params[count - 1]];
    }
  }

  /** Gathering the surplus into the last item keeps the text: joining the
      items gives the joined parameters back. */
  lemma {:induction false} RegroupKeepsText(params: seq<string>, k: nat)
    requires k < |params|
    ensures Join(" ", params[..k] + [Join(" ", params[k..])]) == Join(" ", params)
  {
    if k > 0 {
      RegroupKeepsText(params[1..], k - 1);
      assert params[1..][..k - 1] == params[..k][1..];
      assert params[1..][k - 1..] == params[k..];
      var lhs := params[..k] + [Join(" ", params[k..])];
      assert lhs[1..] == params[1..][..k - 1] + [Join(" ", params[1..][k - 1..])];
    }
  }

  // ---------------------------------------------------------------------------
  // Handler output

  /** What a listener returns: a message, a (nested) array, or anything else,
      which Message::sendArray skips. */
  datatype Reply = Send(message: Message) | Batch(items: seq<Reply>) | Ignored

  /** The messages of a reply list in the order sendArray sends them: depth
      first, left to right. */
  function Flatten(rs: seq<Reply>): (r: seq<Message>)
    ensures (forall i :: 0 <= i < |rs| ==> rs[i].Send?) ==>
      |r| == |rs| && forall i :: 0 <= i < |rs| ==> r[i] == rs[i].message
    ensures (forall i :: 0 <= i < |rs| ==> rs[i].Ignored?) ==> r == []
    decreases rs
  {
    if |rs| == 0 then []
    else
      match rs[0]
      case Send(m) => [m] + Flatten(rs[1..])
      case Batch(items) => Flatten(items) + Flatten(rs[1..])
      case Ignored => Flatten(rs[1..])
  }

  /** Flattening distributes over concatenation, so the replies of the first
      event are all sent before those of the second. */
  lemma {:induction false} FlattenAppend(a: seq<Reply>, b: seq<Reply>)
    ensures Flatten(a + b) == Flatten(a) + Flatten(b)
  {
    if |a| > 0 {
      assert (a + b)[0] == a[0];
      assert (a + b)[1..] == a[1..] + b;
      FlattenAppend(a[1..], b);
    } else {
      assert a + b == b;
    }
  }

  /** A nested array sends the same messages as its elements in place. */
  lemma FlattenBatch(items: seq<Reply>)
    ensures Flatten([Batch(items)]) == Flatten(items)
  {
    assert [Batch(items)][1..] == [];
  }

  /** Only messages are sent: a list of non-messages sends nothing. */
  lemma {:induction false} FlattenIgnored(rs: seq<Reply>)
    requires forall i :: 0 <= i < |rs| ==> rs[i].Ignored?
    ensures Flatten(rs) == []
  {
    if |rs| > 0 {
      FlattenIgnored(rs[1..]);
    }
  }

  /** A channel and a trailing text: the text keeps its spaces, as in
      `#chan :hello world`, which gives `#chan` and `hello world`. */
  lemma TrailingExample(channel: string, text: string)
    requires ' ' !in channel && ':' !in channel
    ensures ParseParams(channel + " :" + text) == [channel, text]
  {
    assert channel + " :" + text == channel + " " + ":" + text;
    TrailingAfter(channel, text, channel + " " + ":" + text);
    assert Split(channel, ' ') == [channel] by {
      assert IndexOf(channel, ' ') == None;
    }
  }

  /** The character before the first colon is dropped even when it is not a
      space, and the text before it becomes an empty middle. */
  lemma DroppedCharacterExample()
    ensures ParseParams("a:b") == ["", "b"]
  {
    IndexOfAfter("a", ':', "b");
    assert "a" + [':'] + "b" == "a:b";
    assert "a:b"[..0] == "";
    assert "a:b"[2..] == "b";
  }

  /** A colon right at the start leaves no middles; an empty remainder is one
      empty parameter. */
  lemma EdgeExamples()
    ensures ParseParams(":only") == ["only"]
    ensures ParseParams("") == [""]
  {
    TrailingAlone("only");
    assert ":" + "only" == ":only";
  }
}
