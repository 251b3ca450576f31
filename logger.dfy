/**
 * The client's logging function: every message sent or received is appended
 * to a per-conversation log file (the channel, `@nick` for a private
 * conversation) and echoed to the console, sent lines in bold, errors in
 * red and the bot's own nick highlighted in green.
 */
module Logger {
  import opened Text
  import Senders
  import Messages
  import Ansi

  const DIRECTORY := "logs/irc/"
  const EXTENSION := ".log"

  /** The file name of a message with a target: `@` and the sender for a
      message to the bot, the channel, or `@` and the target. */
  function TargetFile(m: Messages.Message, target: string, nick: string): (r: string)
    ensures target == nick ==> r == "@" + Senders.NickOf(m.sender)
    ensures target != nick && Messages.IsChannelName(target) ==> r == target
    ensures target != nick && !Messages.IsChannelName(target) ==> r == "@" + target
  {
    if target == nick then "@" + Senders.NickOf(m.sender)
    else if !Messages.IsChannelName(target) then "@" + target
    else target
  }

  /** The file under the log directory, named in lower case. */
  function Path(name: string): (r: string)
    ensures |r| == |DIRECTORY| + |name| + |EXTENSION|
    ensures r[..|DIRECTORY|] == DIRECTORY && r[|r| - |EXTENSION|..] == EXTENSION
    ensures r[|DIRECTORY|..|r| - |EXTENSION|] == Lower(name)
  {
    DIRECTORY + Lower(name) + EXTENSION
  }

  /** The log file as written: for a message without a target the code
      compares with the server name instead of assigning it, so the name
      stays null and the file is `logs/irc/.log`. */
  function LogFileAsWritten(m: Messages.Message, nick: string): (r: string)
    ensures Messages.Target(m).None? ==> r == "logs/irc/.log"
    ensures Messages.Target(m).Some? ==> r == Path(TargetFile(m, Messages.Target(m).value, nick))
  {
    match Messages.Target(m)
    case None => Path("")
    case Some(target) => Path(TargetFile(m, target, nick))
  }

  /** The log file as intended: a message without a target goes to the
      server's file. */
  function LogFile(m: Messages.Message, nick: string, server: string): (r: string)
    ensures Messages.Target(m).None? ==> r == Path(server)
    ensures Messages.Target(m).Some? ==> r == LogFileAsWritten(m, nick)
  {
    match Messages.Target(m)
    case None => Path(server)
    case Some(target) => Path(TargetFile(m, target, nick))
  }

  /** Lower-casing keeps the `@` in front. */
  lemma LowerAt(s: string)
    ensures Lower("@" + s) == "@" + Lower(s)
  {
    assert forall i :: 1 <= i < |"@" + s| ==> ("@" + s)[i] == s[i - 1];
  }

  /** As written, every message without a target lands in the one nameless file. */
  lemma UntargetedAsWritten(m: Messages.Message, nick: string)
    requires Messages.Target(m).None?
    ensures LogFileAsWritten(m, nick) == "logs/irc/.log"
  {
    assert Lower("") == "";
  }

  /** A PING has no target: its line goes to `logs/irc/.log` rather than the
      server's file. */
  lemma PingAsWritten(m: Messages.Message, nick: string, server: string)
    requires m.command == "PING" && server != ""
    ensures LogFileAsWritten(m, nick) == "logs/irc/.log"
    ensures LogFile(m, nick, server) == "logs/irc/" + Lower(server) + ".log"
    ensures LogFileAsWritten(m, nick) != LogFile(m, nick, server)
  {
    assert !Messages.IsNumeric(m) by {
      assert !IsDigit(m.command[0]);
    }
    UntargetedAsWritten(m, nick);
    var a, b := LogFileAsWritten(m, nick), LogFile(m, nick, server);
    assert |a| == 13 && |b| == 13 + |server|;
  }

  /** As intended, a message without a target is logged in the server's
      file, in lower case. */
  lemma UntargetedToServer(m: Messages.Message, nick: string, server: string)
    requires Messages.Target(m).None?
    ensures LogFile(m, nick, server) == "logs/irc/" + Lower(server) + ".log"
  {
  }

  /** Both agree on every message with a target. */
  lemma TargetedAgree(m: Messages.Message, nick: string, server: string)
    requires Messages.Target(m).Some?
    ensures LogFile(m, nick, server) == LogFileAsWritten(m, nick)
  {
  }

  /** A private message to the bot is logged under its sender. */
  lemma PrivateToBot(m: Messages.Message, nick: string, server: string)
    requires Messages.Target(m) == Some(nick)
    ensures LogFile(m, nick, server) == "logs/irc/@" + Lower(Senders.NickOf(m.sender)) + ".log"
  {
    LowerAt(Senders.NickOf(m.sender));
  }

  /** A channel message is logged under the channel, in lower case. */
  lemma ChannelLog(m: Messages.Message, nick: string, server: string, channel: string)
    requires Messages.Target(m) == Some(channel) && Messages.IsChannelName(channel) && channel != nick
    ensures LogFile(m, nick, server) == "logs/irc/" + Lower(channel) + ".log"
  {
  }

  /** The line appended to the log file. */
  function LogLine(stamp: string, m: Messages.Message): (r: string)
    ensures |r| == |stamp| + 3 + |m.raw| + 2
    ensures r[..|stamp|] == stamp && r[|stamp| + 3..|r| - 2] == m.raw && r[|r| - 2..] == "\r\n"
  {
    stamp + " - " + m.raw + "\r\n"
  }

  /** The console line: bold when sent, red for an error, otherwise the
      bot's nick highlighted in green. */
  function Console(m: Messages.Message, sent: bool, nick: string): (r: string)
    ensures |r| > 0 && r[|r| - 1] == '\n'
    ensures sent ==> r == Ansi.Bold(m.raw) + "\n"
    ensures !sent && Messages.IsError(m) ==> r == Ansi.Color(Ansi.RED, false, m.raw) + "\n"
    ensures !sent && !Messages.IsError(m) && nick == "" ==> r == m.raw + "\n"
  {
    var output :=
      if sent then Ansi.Bold(m.raw)
      else if Messages.IsError(m) then Ansi.Color(Ansi.RED, false, m.raw)
      else Replace(m.raw, nick, Ansi.Color(Ansi.GREEN, false, nick));
    output + "\n"
  }

  /** A sent line is printed in bold. */
  lemma SentIsBold(m: Messages.Message, nick: string)
    requires Truthy(m.raw)
    ensures Console(m, true, nick) == Ansi.ESC + "[1m" + m.raw + Ansi.ESC + "[0m" + "\n"
  {
  }

  /** The escape of a plain foreground colour. */
  lemma PlainColor(color: int, code: string)
    requires Ansi.BLACK <= color <= Ansi.WHITE && code == Natural(30 + color)
    ensures Ansi.Escape("m", [0, Ansi.Foreground(color)]) == Ansi.ESC + "[0;" + code + "m"
  {
    assert Natural(0) == "0";
    assert Ansi.Decimals([0, 30 + color]) == ["0", code];
    assert Join(";", ["0", code]) == "0;" + code;
  }

  /** A received error is printed in red. */
  lemma ErrorIsRed(m: Messages.Message, nick: string)
    requires Messages.IsError(m) && Truthy(m.raw)
    ensures Console(m, false, nick) == Ansi.ESC + "[0;31m" + m.raw + Ansi.ESC + "[0m" + "\n"
  {
    assert Natural(31) == "31" by {
      assert Natural(3) == "3" && Natural(1) == "1";
    }
    PlainColor(Ansi.RED, "31");
    assert Ansi.Reset() == Ansi.ESC + "[0m";
  }

  /** Any other received line has the bot's first mention of its nick, after
      a text without the nick's first character, wrapped in green. */
  lemma NickHighlighted(m: Messages.Message, nick: string, a: string, b: string)
    requires !Messages.IsError(m) && nick != "" && nick[0] !in a
    requires m.raw == a + nick + b
    ensures var green := Ansi.Color(Ansi.GREEN, false, nick);
      Console(m, false, nick) == a + green + Replace(b, nick, green) + "\n"
  {
    ReplaceAfter(a, nick, b, Ansi.Color(Ansi.GREEN, false, nick));
  }

  /** A received line that does not mention the nick is printed as it is. */
  lemma PlainLine(m: Messages.Message, nick: string)
    requires !Messages.IsError(m) && nick != "" && nick[0] !in m.raw
    ensures Console(m, false, nick) == m.raw + "\n"
  {
    ReplaceAbsent(m.raw, nick, Ansi.Color(Ansi.GREEN, false, nick));
  }

  /** The green highlight is the plain green escape, the nick and a reset. */
  lemma GreenLayout(nick: string)
    requires Truthy(nick)
    ensures Ansi.Color(Ansi.GREEN, false, nick) == Ansi.ESC + "[0;32m" + nick + Ansi.ESC + "[0m"
  {
    assert Natural(32) == "32" by {
      assert Natural(3) == "3" && Natural(2) == "2";
    }
    PlainColor(Ansi.GREEN, "32");
  }
}
