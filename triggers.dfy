/**
 * The general-responses bundle: a table of trigger words, each with a canned
 * response. On every private message the bot scans the table in order and
 * answers the first trigger word that occurs anywhere in the last parameter;
 * a trigger at the very start is answered plainly, one further in is
 * answered to the message's first word.
 */
module Triggers {
  import opened Text
  import Senders
  import Messages

  /** One entry of the trigger table: the word to look for and the response. */
  datatype Trigger = Trigger(word: string, response: string)

  /** A trigger fires when its word occurs in the body and its response is
      not empty (the word itself is an array key, never empty). */
  predicate Fires(body: string, t: Trigger)
    ensures Fires(body, t) ==> 0 < |t.word| <= |body| && Find(body, t.word).Some?
    ensures t.response == "" ==> !Fires(body, t)
  {
    t.word != "" && Contains(body, t.word) && t.response != ""
  }

  /** The message's channel, or the sender's nick when it has none. */
  function Destination(m: Messages.Message): (r: string)
    ensures Messages.Channel(m).Some? ==> r == Messages.Channel(m).value
    ensures Messages.Channel(m).None? ==> r == Senders.NickOf(m.sender)
  {
    Messages.Channel(m).GetOr(Senders.NickOf(m.sender))
  }

  /** The text answering a trigger that fires in the body. */
  function AnswerText(body: string, t: Trigger): (r: string)
    requires Fires(body, t)
    ensures Find(body, t.word) == Some(0) ==> r == t.response
    ensures |r| >= |t.response| && r[|r| - |t.response|..] == t.response
  {
    if Find(body, t.word) == Some(0) then t.response
    else Split(body, ' ')[0] + ": " + t.response
  }

  /** The answer to a message whose body fires the trigger. */
  function Answer(m: Messages.Message, t: Trigger): (r: Messages.Message)
    requires Fires(Last(m.params), t)
    ensures r.command == "PRIVMSG"
    ensures r.params == [Destination(m), ":" + AnswerText(Last(m.params), t)]
  {
    Messages.Privmsg(Destination(m), AnswerText(Last(m.params), t))
  }

  /** The index of the first trigger of the table that fires in the body. */
  function FirstFiring(body: string, ts: seq<Trigger>): (r: Option<nat>)
    ensures r.Some? ==> r.value < |ts| && Fires(body, ts[r.value])
    ensures r.Some? ==> forall j :: 0 <= j < r.value ==> !Fires(body, ts[j])
    ensures r.None? ==> forall j :: 0 <= j < |ts| ==> !Fires(body, ts[j])
  {
    if |ts| == 0 then None
    else if Fires(body, ts[0]) then Some(0)
    else
      match FirstFiring(body, ts[1..])
      case None => None
      case Some(k) => Some(k + 1)
  }

  /** triggerOn: the answer of the first trigger that fires, or null. */
  method TriggerOn(m: Messages.Message, ts: seq<Trigger>) returns (r: Option<Messages.Message>)
    ensures FirstFiring(Last(m.params), ts).None? ==> r.None?
    ensures FirstFiring(Last(m.params), ts).Some? ==>
      r == Some(Answer(m, ts[FirstFiring(Last(m.params), ts).value]))
  {
    var body := Last(m.params);
    var i := 0;
    while i < |ts|
      invariant 0 <= i <= |ts|
      invariant forall j :: 0 <= j < i ==> !Fires(body, ts[j])
    {
      if Fires(body, ts[i]) {
        FirstFiringIs(body, ts, i);
        return Some(Answer(m, ts[i]));
      }
      i := i + 1;
    }
    return None;
  }

  /** Exactly one index is the first that fires: the one before which none does. */
  lemma FirstFiringIs(body: string, ts: seq<Trigger>, i: nat)
    requires i < |ts| && Fires(body, ts[i])
    requires forall j :: 0 <= j < i ==> !Fires(body, ts[j])
    ensures FirstFiring(body, ts) == Some(i)
  {
    var r := FirstFiring(body, ts);
    assert r.Some?;
    assert !(r.value < i);
    assert !(i < r.value);
  }

  /** A trigger word opening the body is answered with the response alone. */
  lemma LeadingTrigger(m: Messages.Message, t: Trigger)
    requires t.word != "" && t.response != ""
    requires StartsWith(Last(m.params), t.word)
    ensures Fires(Last(m.params), t)
    ensures Answer(m, t).params == [Destination(m), ":" + t.response]
  {
    assert OccursAt(Last(m.params), t.word, 0);
  }

  /** In `nick word...`, with the word's first character neither in nick nor a
      space, the first occurrence of the word is the one after the space. */
  lemma FoundAfterNick(nick: string, word: string, more: string)
    requires word != "" && word[0] !in nick && word[0] != ' '
    ensures Find(nick + " " + word + more, word) == Some(|nick| + 1)
  {
    var body := nick + " " + word + more;
    var k := |nick| + 1;
    assert body[k..k + |word|] == word;
    assert OccursAt(body, word, k);
    var f := Find(body, word);
    assert f.Some? && f.value <= k;
    assert body[f.value] == word[0] by {
      assert body[f.value..f.value + |word|][0] == body[f.value];
    }
    assert forall j :: 0 <= j < |nick| ==> body[j] == nick[j];
    assert body[|nick|] == ' ';
  }

  /** The answer text for a trigger word after the first word of the body. */
  lemma AddressedText(t: Trigger, nick: string, more: string)
    requires t.word != "" && t.response != ""
    requires ' ' !in nick && t.word[0] !in nick && t.word[0] != ' '
    ensures Fires(nick + " " + t.word + more, t)
    ensures AnswerText(nick + " " + t.word + more, t) == nick + ": " + t.response
  {
    var body := nick + " " + t.word + more;
    FoundAfterNick(nick, t.word, more);
    assert body == nick + [' '] + (t.word + more);
    IndexOfAfter(nick, ' ', t.word + more);
    assert body[..|nick|] == nick;
  }

  /** `nick !word ...`: a trigger word after the first word is answered to that
      word, when the trigger's first character occurs neither in it nor in the
      space after it. */
  lemma AddressedTrigger(m: Messages.Message, t: Trigger, nick: string, more: string)
    requires t.word != "" && t.response != ""
    requires Last(m.params) == nick + " " + t.word + more
    requires ' ' !in nick && t.word[0] !in nick && t.word[0] != ' '
    ensures Fires(Last(m.params), t)
    ensures Answer(m, t).params == [Destination(m), ":" + nick + ": " + t.response]
  {
    AddressedText(t, nick, more);
    assert ":" + (nick + ": " + t.response) == ":" + nick + ": " + t.response;
  }

  /** The table is scanned in order: `!help` listed before `!helpme` answers
      a body of `!helpme` with the response of `!help`. */
  lemma EarlierTriggerWins(help: string, helpme: string)
    requires help != "" && helpme != ""
    ensures FirstFiring("!helpme", [Trigger("!help", help), Trigger("!helpme", helpme)]) == Some(0)
  {
    assert OccursAt("!helpme", "!help", 0);
  }

  /** A message without any trigger word gets no answer. */
  lemma SilentWithoutWords(m: Messages.Message, ts: seq<Trigger>)
    requires forall j :: 0 <= j < |ts| ==> !Contains(Last(m.params), ts[j].word)
    ensures FirstFiring(Last(m.params), ts).None?
  {
  }
}
