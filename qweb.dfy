/**
 * The qwebirc bundle: when someone joins with one of the default web-client
 * nicks (guest..., laravelnewbie..., qwebirc...), the bot asks them, in the
 * channel, to pick a nick people can tell apart.
 */
module Qweb {
  import opened Text
  import Senders
  import Messages

  /** Where the greeting goes when the JOIN names no channel. */
  const FALLBACK := "#laravel-bot-test"

  const NICK := "{{nick}}"
  const CHANNEL := "{{channel}}"

  const OPENING := "Good morning "
  const MIDDLE := ", welcome to "
  /** The text after the channel, written in pieces short enough for the
      verifier to see that none holds a brace. */
  const CLOSING := ".  Please type in " + "\"/nick your_new_nick\"" + " to change your name"
    + " so we can distinguish" + " you easily."

  /** The configured response with its two placeholders. */
  const RESPONSE := OPENING + NICK + MIDDLE + CHANNEL + CLOSING

  /** The configured pattern `^(guest|laravelnewbie|qwebirc)`. */
  predicate IsDefaultNick(nick: string)
    ensures StartsWith(nick, "guest") ==> IsDefaultNick(nick)
    ensures |nick| < 5 ==> !IsDefaultNick(nick)
  {
    StartsWith(nick, "guest") || StartsWith(nick, "laravelnewbie") || StartsWith(nick, "qwebirc")
  }

  /** str_replace with the two placeholders, one after the other. */
  function Fill(template: string, nick: string, channel: string): (r: string)
    ensures '{' !in template ==> r == template
  {
    var filled := Replace(Replace(template, NICK, nick), CHANNEL, channel);
    assert '{' !in template ==> filled == template by {
      if '{' !in template {
        ReplaceAbsent(template, NICK, nick);
        ReplaceAbsent(template, CHANNEL, channel);
      }
    }
    filled
  }

  /** The listener of `join`: a greeting for a default nick (compared in
      lower case), nothing for anyone else. */
  function Greet(m: Messages.Message): (r: Option<Messages.Message>)
    ensures r.Some? <==> IsDefaultNick(Lower(Senders.NickOf(m.sender)))
    ensures r.Some? ==> (r.value.command == "PRIVMSG" && |r.value.params| == 2
      && r.value.params[0] == Messages.Channel(m).GetOr(FALLBACK))
  {
    var nick := Senders.NickOf(m.sender);
    var channel := Messages.Channel(m).GetOr(FALLBACK);
    if IsDefaultNick(Lower(nick)) then Some(Messages.Privmsg(channel, Fill(RESPONSE, nick, channel)))
    else None
  }

  /** The `{{channel}}` placeholder holds no `{{nick}}`, so the first
      replacement leaves it and what follows it alone. */
  lemma ChannelSurvives(c: string)
    requires '{' !in c
    ensures Replace(CHANNEL + c, NICK, "") == CHANNEL + c
    ensures forall nick :: Replace(CHANNEL + c, NICK, nick) == CHANNEL + c
  {
    forall nick
      ensures Replace(CHANNEL + c, NICK, nick) == CHANNEL + c
    {
      var s := CHANNEL + c;
      assert s[..|NICK|] != NICK by {
        assert s[2] == 'c';
      }
      assert s[1..][..|NICK|] != NICK by {
        assert s[1..][2] == 'h';
      }
      assert s[1..][1..] == s[2..];
      assert s[2..] == "channel}}" + c;
      ReplaceAbsent(s[2..], NICK, nick);
      assert [s[1]] + s[2..] == s[1..];
      assert [s[0]] + s[1..] == s;
    }
  }

  /** The first replacement puts the nick in place and keeps the channel placeholder. */
  lemma FillNick(a: string, b: string, c: string, nick: string)
    requires '{' !in a && '{' !in b && '{' !in c
    ensures Replace(a + NICK + b + CHANNEL + c, NICK, nick) == a + nick + b + CHANNEL + c
  {
    var tail := CHANNEL + c;
    var rest := b + tail;
    assert Replace(a + NICK + rest, NICK, nick) == a + nick + Replace(rest, NICK, nick) by {
      ReplaceAfter(a, NICK, rest, nick);
    }
    assert Replace(rest, NICK, nick) == rest by {
      ReplaceSkipping(b, tail, NICK, nick);
      ChannelSurvives(c);
    }
    assert a + NICK + b + CHANNEL + c == a + NICK + rest;
    assert a + nick + rest == a + nick + b + CHANNEL + c;
  }

  /** Filling a template whose text holds no braces puts the nick and the
      channel in place of their placeholders. */
  lemma FillTemplate(a: string, b: string, c: string, nick: string, channel: string)
    requires '{' !in a && '{' !in b && '{' !in c && '{' !in nick
    ensures Fill(a + NICK + b + CHANNEL + c, nick, channel) == a + nick + b + channel + c
  {
    FillNick(a, b, c, nick);
    var head := a + nick + b;
    assert a + nick + b + CHANNEL + c == head + CHANNEL + c;
    ReplaceAfter(head, CHANNEL, c, channel);
    ReplaceAbsent(c, CHANNEL, channel);
  }

  /** A default nick gets the configured greeting with its nick and the
      channel filled in, whenever the nick holds no braces. Braces are nick
      characters, and the requirement is needed: the placeholders are
      replaced one after the other, so a nick such as `guest{channel}` has
      its own `{channel}` replaced by the channel too. */
  lemma GreetingText(m: Messages.Message)
    requires IsDefaultNick(Lower(Senders.NickOf(m.sender)))
    requires '{' !in Senders.NickOf(m.sender)
    ensures var channel := Messages.Channel(m).GetOr(FALLBACK);
      Greet(m) == Some(Messages.Privmsg(channel, OPENING + Senders.NickOf(m.sender) + MIDDLE + channel + CLOSING))
  {
    var nick := Senders.NickOf(m.sender);
    var channel := Messages.Channel(m).GetOr(FALLBACK);
    assert Fill(RESPONSE, nick, channel) == OPENING + nick + MIDDLE + channel + CLOSING by {
      PiecesHaveNoBraces();
      FillTemplate(OPENING, MIDDLE, CLOSING, nick, channel);
    }
  }

  /** The fixed text of the response holds no braces. */
  lemma PiecesHaveNoBraces()
    ensures '{' !in OPENING && '{' !in MIDDLE && '{' !in CLOSING
  {
    assert '{' !in CLOSING by {
      assert '{' !in ".  Please type in " && '{' !in "\"/nick your_new_nick\"";
      assert '{' !in " to change your name" && '{' !in " so we can distinguish" && '{' !in " you easily.";
    }
  }

  /** The pattern is tested against the lower-cased nick, so case does not matter. */
  lemma MixedCaseGuest()
    ensures IsDefaultNick(Lower("QwebIRC42"))
    ensures !IsDefaultNick(Lower("PhillSparks"))
  {
    assert Lower("QwebIRC42")[..7] == "qwebirc";
    assert Lower("PhillSparks")[0] == 'p';
  }
}
