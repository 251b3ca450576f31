/**
 * Bot commands: the text of a private message split into a command name and
 * its parameters, and the rule that a command nobody handles gets a default
 * notice. A command is an immutable value, so its read-only accessors need
 * no counterpart.
 */
module Commands {
  import opened Text
  import Senders
  import Messages

  datatype Command = Command(name: string, sender: Option<Senders.Sender>, params: seq<string>)

  /** The parameters after the name: a leading colon makes the rest one
      parameter; otherwise the first " :" ends the space-separated words and
      starts a last parameter; without one every space separates a parameter. */
  function SplitParams(rest: string): (r: seq<string>)
    ensures |r| >= 1
    ensures StartsWith(rest, ":") ==> r == [rest[1..]]
    ensures !StartsWith(rest, ":") && Find(rest, " :").Some? ==>
      var p := Find(rest, " :").value;
      && r[|r| - 1] == rest[p + 2..]
      && Join(" ", r[..|r| - 1]) == rest[..p]
      && forall i :: 0 <= i < |r| - 1 ==> ' ' !in r[i]
    ensures !StartsWith(rest, ":") && Find(rest, " :").None? ==>
      Join(" ", r) == rest && forall i :: 0 <= i < |r| ==> ' ' !in r[i]
  {
    if StartsWith(rest, ":") then [rest[1..]]
    else
      match Find(rest, " :")
      case Some(p) =>
        var words := Split(rest[..p], ' ');
        JoinOfSplit(rest[..p], ' ');
        assert (words + [rest[p + 2..]])[..|words|] == words;
        words + [rest[p + 2..]]
      case None =>
        JoinOfSplit(rest, ' ');
        Split(rest, ' ')
  }

  /** The constructor of Command: the name is the text before the first space
      (all of it when there is none) and the rest, "" by default, is split. */
  function Parse(body: string, sender: Option<Senders.Sender>): (c: Command)
    ensures c.sender == sender
    ensures ' ' !in c.name
    ensures ' ' !in body ==> c.name == body && c.params == [""]
    ensures ' ' in body ==> body == c.name + " " + SplitOnce(body, ' ').1
    ensures c.params == SplitParams(SplitOnce(body, ' ').1)
  {
    var (name, rest) := SplitOnce(body, ' ');
    Command(name, sender, SplitParams(rest))
  }

  /** Command::make as written: it reads `$message->body`, which a message
      does not have, so every command is parsed from the empty string. */
  function FromMessageAsWritten(m: Messages.Message): (c: Command)
    ensures c.sender == m.sender
  {
    Parse("", m.sender)
  }

  /** Command::make with the body a handler means: the last parameter, the
      text of the private message. */
  function FromMessage(m: Messages.Message): (c: Command)
    ensures c.sender == m.sender
    ensures ' ' !in c.name
    ensures c == Parse(Last(m.params), m.sender)
    ensures |m.params| == 0 ==> c.name == "" && c.params == [""]
    ensures |m.params| > 0 && ' ' !in m.params[|m.params| - 1] ==>
      c.name == m.params[|m.params| - 1] && c.params == [""]
  {
    Parse(Last(m.params), m.sender)
  }

  /** A private message whose text is a name and space-separated words gives
      that command with those words as its parameters. */
  lemma FromMessageOfWords(m: Messages.Message, name: string, words: seq<string>)
    requires |m.params| > 0 && m.params[|m.params| - 1] == name + " " + Join(" ", words)
    requires ' ' !in name && |words| >= 1
    requires forall i :: 0 <= i < |words| ==> ' ' !in words[i] && ':' !in words[i]
    ensures FromMessage(m) == Command(name, m.sender, words)
  {
    ParseOfPlainWords(name, words, m.sender);
  }

  /** A private message whose text ends in a " :" parameter gives the words
      before it, then the whole trailing text. */
  lemma FromMessageOfTrailing(m: Messages.Message, name: string, words: seq<string>, last: string)
    requires |m.params| > 0 && m.params[|m.params| - 1] == name + " " + (Join(" ", words) + " :" + last)
    requires ' ' !in name && |words| >= 1
    requires forall i :: 0 <= i < |words| ==> ' ' !in words[i] && ':' !in words[i]
    ensures FromMessage(m) == Command(name, m.sender, words + [last])
  {
    ParseOfWords(name, words, last, m.sender);
  }

  /** As written, whatever the message says, the command has an empty name and
      one empty parameter, so no registered command is ever reached. */
  lemma AsWrittenIgnoresMessage(m: Messages.Message)
    ensures FromMessageAsWritten(m) == Command("", m.sender, [""])
  {
    assert SplitOnce("", ' ') == ("", "");
    assert Split("", ' ') == [""];
  }

  /** With the text of the message, "join #laravel" names the join command. */
  lemma FromMessageExample(s: Option<Senders.Sender>)
    ensures FromMessage(Messages.Message(s, "PRIVMSG", ["Bot", "join #laravel"], "")).name == "join"
    ensures FromMessage(Messages.Message(s, "PRIVMSG", ["Bot", "join #laravel"], "")).params == ["#laravel"]
  {
    SplitOnceAt("join", ' ', "#laravel");
    assert "join" + [' '] + "#laravel" == "join #laravel";
    assert !StartsWith("#laravel", ":") by {
      assert "#laravel"[..1][0] == '#';
    }
    FindAbsent("#laravel", " :");
    assert Split("#laravel", ' ') == ["#laravel"];
  }

  /** A needle whose first character is not in s is not found. */
  lemma FindAbsent(s: string, t: string)
    requires |t| > 0 && t[0] !in s
    ensures Find(s, t).None?
  {
    forall j | 0 <= j
      ensures !OccursAt(s, t, j)
    {
      if j + |t| <= |s| {
        assert s[j..j + |t|][0] == s[j];
      }
    }
  }

  /** " :" does not occur in a colon-free text. */
  lemma FindNoColon(s: string)
    requires ':' !in s
    ensures Find(s, " :").None?
  {
    forall j | 0 <= j
      ensures !OccursAt(s, " :", j)
    {
      if j + 2 <= |s| {
        assert s[j..j + 2][1] == s[j + 1];
      }
    }
  }

  /** A name and colon-free words, without a trailing parameter, parse back. */
  lemma ParseOfPlainWords(name: string, words: seq<string>, sender: Option<Senders.Sender>)
    requires ' ' !in name && |words| >= 1
    requires forall i :: 0 <= i < |words| ==> ' ' !in words[i] && ':' !in words[i]
    ensures Parse(name + " " + Join(" ", words), sender) == Command(name, sender, words)
  {
    var rest := Join(" ", words);
    JoinAvoids(" ", words, ':');
    assert name + " " + rest == name + [' '] + rest;
    SplitOnceAt(name, ' ', rest);
    assert !StartsWith(rest, ":") by {
      if |rest| > 0 {
        assert rest[0] in rest;
      }
    }
    FindNoColon(rest);
    SplitOfJoin(words, ' ');
  }

  /** " :" first appears right after a colon-free a. */
  lemma FindTrailingMark(a: string, b: string)
    requires ':' !in a
    ensures Find(a + " :" + b, " :") == Some(|a|)
  {
    var s := a + " :" + b;
    assert s[|a|..|a| + 2] == " :";
    assert OccursAt(s, " :", |a|);
    forall j | 0 <= j < |a|
      ensures !OccursAt(s, " :", j)
    {
      assert s[j + 1] != ':' by {
        if j + 1 < |a| {
          assert s[j + 1] == a[j + 1];
        }
      }
      assert s[j..j + 2][1] == s[j + 1];
    }
  }

  /** The words and the last parameter come back out of a body built from them. */
  lemma ParseOfWords(name: string, words: seq<string>, last: string, sender: Option<Senders.Sender>)
    requires ' ' !in name && |words| >= 1
    requires forall i :: 0 <= i < |words| ==> ' ' !in words[i] && ':' !in words[i]
    ensures Parse(name + " " + (Join(" ", words) + " :" + last), sender) == Command(name, sender, words + [last])
  {
    JoinAvoids(" ", words, ':');
    ParseOfTrailing(name, Join(" ", words), last, sender);
    SplitOfJoin(words, ' ');
  }

  lemma ParseOfTrailing(name: string, text: string, last: string, sender: Option<Senders.Sender>)
    requires ' ' !in name && ':' !in text
    ensures Parse(name + " " + (text + " :" + last), sender) == Command(name, sender, Split(text, ' ') + [last])
  {
    var rest := text + " :" + last;
    SplitOnceAt(name, ' ', rest);
    assert !StartsWith(rest, ":") by {
      if |text| > 0 {
        assert rest[0] == text[0];
      } else {
        assert rest[0] == ' ';
      }
    }
    FindTrailingMark(text, last);
    assert rest[..|text|] == text;
    assert rest[|text| + 2..] == last;
  }

  /** A name alone has one empty parameter. */
  lemma NameOnlyExample(sender: Option<Senders.Sender>)
    ensures Parse("help", sender) == Command("help", sender, [""])
  {
    assert ' ' !in "help";
  }

  /** A colon right after the name makes the rest a single parameter. */
  lemma ColonExample(sender: Option<Senders.Sender>)
    ensures Parse("say :hi there", sender) == Command("say", sender, ["hi there"])
  {
    SplitOnceAt("say", ' ', ":hi there");
    assert "say" + [' '] + ":hi there" == "say :hi there";
    var rest := ":hi there";
    assert StartsWith(rest, ":");
    assert rest[1..] == "hi there";
    assert SplitParams(rest) == ["hi there"];
  }

  /** The default reply of Command::run. */
  function DefaultReply(c: Command): (m: Messages.Message)
    ensures m.command == "NOTICE" && |m.params| == 2 && m.params[0] == Senders.NickOf(c.sender)
    ensures m == Messages.Notice(Senders.NickOf(c.sender), "I don't know what you want me to do")
  {
    Messages.Notice(Senders.NickOf(c.sender), "I don't know what you want me to do")
  }

  /** Command::run, given what the listeners of 'irc::command: <name>' returned,
      one entry per listener: with no listener the default notice to the sender,
      otherwise the listeners' results as they are. */
  function Run(c: Command, fired: seq<Messages.Reply>): (r: seq<Messages.Reply>)
    ensures |r| >= 1
    ensures |fired| == 0 ==> Messages.Flatten(r) == [DefaultReply(c)]
    ensures |fired| > 0 ==> r == fired
  {
    if |fired| == 0 then
      assert [Messages.Send(DefaultReply(c))][1..] == [];
      [Messages.Send(DefaultReply(c))]
    else fired
  }

  /** A listener that returns nothing still counts as an answer: no default
      notice, and nothing is sent. */
  lemma SilentListener(c: Command)
    ensures Messages.Flatten(Run(c, [Messages.Ignored])) == []
  {
    assert [Messages.Ignored][1..] == [];
  }
}
