/**
 * The Universal Greeting Time bundle: a private message starting `!ugt`,
 * optionally followed by a nick, is answered with the UGT explanation. In a
 * channel the answer highlights the nick (the sender's by default); outside
 * one it goes as a private message to that nick.
 */
module Ugt {
  import opened Text
  import Senders
  import Messages

  const STARTER := "!ugt"

  const UGT := "It is always morning when someone comes into a channel. We call that Universal Greeting Time http://www.total-knowledge.com/~ilya/mips/ugt.html"

  /** What the listener does with a message: nothing, a reply, or a PHP error
      that ends the bot (nothing around the listener catches it). */
  datatype Outcome = Silent | Says(message: Messages.Message) | Fails

  predicate Starts(m: Messages.Message)
    ensures Starts(m) ==> |m.params| > 0 && StartsWith(m.params[|m.params| - 1], STARTER)
  {
    StartsWith(Last(m.params), STARTER)
  }

  /** The nick to highlight: the trimmed text after the starter, or else the
      sender's nick in lower case. */
  function Highlight(m: Messages.Message): (r: string)
    requires Starts(m)
    ensures Trim(Last(m.params)[|STARTER|..]) != "" ==> r == Trim(Last(m.params)[|STARTER|..])
    ensures Trim(Last(m.params)[|STARTER|..]) == "" ==> r == Lower(Senders.NickOf(m.sender))
  {
    var named := Trim(Last(m.params)[|STARTER|..]);
    if named != "" then named else Lower(Senders.NickOf(m.sender))
  }

  /** The channel, or the highlighted nick outside one (a channel name starts
      with `#` or `&`, so PHP never reads it as false). */
  function Destination(m: Messages.Message): (r: string)
    requires Starts(m)
    ensures Messages.Channel(m).Some? ==> r == Messages.Channel(m).value
    ensures Messages.Channel(m).None? ==> r == Highlight(m)
  {
    Messages.Channel(m).GetOr(Highlight(m))
  }

  /** `$channel == $message->channel()`: it holds in a channel; outside one it
      compares the nick with null, which PHP takes as equal only for "". */
  predicate Highlights(m: Messages.Message)
    requires Starts(m)
    ensures Messages.Channel(m).Some? ==> Highlights(m)
    ensures Messages.Channel(m).None? ==> (Highlights(m) <==> Highlight(m) == "")
  {
    Messages.Channel(m).Some? || Highlight(m) == ""
  }

  /** The listener as written: the highlighting branch interpolates the
      Message object itself, which has no string conversion, so it fails. */
  function ObserveAsWritten(m: Messages.Message): (r: Outcome)
    ensures r.Silent? <==> !Starts(m)
    ensures r.Says? ==> Starts(m) && r.message == Messages.Privmsg(Destination(m), UGT)
  {
    if !Starts(m) then Silent
    else if Highlights(m) then Fails
    else Says(Messages.Privmsg(Destination(m), UGT))
  }

  /** The listener as intended: the highlighting branch prefixes the UGT text
      with the nick. */
  function Observe(m: Messages.Message): (r: Outcome)
    ensures r.Silent? <==> !Starts(m)
    ensures !r.Fails?
  {
    if !Starts(m) then Silent
    else Says(Messages.Privmsg(Destination(m), if Highlights(m) then Highlight(m) + ": " + UGT else UGT))
  }

  /** As written, every `!ugt` said in a channel ends in an error. */
  lemma AsWrittenFailsInChannels(m: Messages.Message)
    requires Starts(m) && Messages.Channel(m).Some?
    ensures ObserveAsWritten(m) == Fails
  {
  }

  /** `!ugt bob` highlights bob. */
  lemma BobExample(m: Messages.Message)
    requires Last(m.params) == "!ugt bob"
    ensures Starts(m) && Highlight(m) == "bob"
  {
    assert "!ugt bob" == STARTER + " " + "bob";
    NamedNick(m, "bob");
  }

  /** `!ugt bob` said in #laravel: the source fails where the corrected
      listener answers `bob: ...` in the channel. */
  lemma AsWrittenChannelExample(m: Messages.Message)
    requires m.command == "PRIVMSG" && m.params == ["#laravel", "!ugt bob"]
    ensures ObserveAsWritten(m) == Fails
    ensures Observe(m) == Says(Messages.Privmsg("#laravel", "bob" + ": " + UGT))
  {
    assert Last(m.params) == "!ugt bob";
    BobExample(m);
    assert !Messages.IsNumeric(m) by {
      assert !IsDigit(m.command[0]);
    }
    assert Messages.ChannelParam(m) == Some("#laravel");
    InChannel(m, "#laravel");
  }

  /** Where the source does not fail, the corrected listener does the same. */
  lemma CorrectionKeepsPrivateAnswers(m: Messages.Message)
    requires ObserveAsWritten(m) != Fails
    ensures Observe(m) == ObserveAsWritten(m)
  {
  }

  /** In a channel the answer highlights the nick there. */
  lemma InChannel(m: Messages.Message, channel: string)
    requires Starts(m) && Messages.Channel(m) == Some(channel)
    ensures Observe(m) == Says(Messages.Privmsg(channel, Highlight(m) + ": " + UGT))
  {
  }

  /** Outside a channel the plain explanation goes to the nick privately. */
  lemma InPrivate(m: Messages.Message)
    requires Starts(m) && Messages.Channel(m).None? && Highlight(m) != ""
    ensures Observe(m) == Says(Messages.Privmsg(Highlight(m), UGT))
  {
  }

  /** `!ugt <nick>` highlights that nick as written, without changing its case. */
  lemma NamedNick(m: Messages.Message, nick: string)
    requires Last(m.params) == STARTER + " " + nick
    requires nick != "" && !IsTrimmed(nick[0]) && !IsTrimmed(nick[|nick| - 1])
    ensures Starts(m) && Highlight(m) == nick
  {
    var body := Last(m.params);
    assert body[..|STARTER|] == STARTER;
    assert body[|STARTER|..] == " " + nick;
    assert TrimLeft(" " + nick) == TrimLeft(nick) by {
      assert (" " + nick)[1..] == nick;
    }
  }
}
