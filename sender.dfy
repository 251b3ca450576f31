/**
 * The sender of an IRC message: the prefix of a line parsed into a user
 * (nick, user, host) or a server name. A sender is an immutable value; the
 * `__set`/`__unset` no-ops of the source are what a datatype gives for free.
 */
module Senders {
  import opened Text

  /** `text` is the string the sender was made from; exactly one of `nick` and
      `server` is set. `None` stands for PHP's null. */
  datatype Sender = Sender(
    text: string,
    nick: Option<string>,
    user: Option<string>,
    host: Option<string>,
    server: Option<string>)
  {
    /** A user has a nick; anything else reads its nick as "". */
    predicate IsUser()
      ensures IsUser() ==> nick.Some? && NickOf(Some(this)) == nick.value
      ensures !IsUser() ==> NickOf(Some(this)) == ""
    {
      nick.Some?
    }

    /** `!is_null($this->server)`; Parse and MakeServer state how it relates
        to IsUser on the senders they build. */
    predicate IsServer()
    {
      server.Some?
    }
  }

  /** `$sender->nick` where the sender may be missing: PHP reads null, which
      every caller then uses as the empty string. */
  function NickOf(s: Option<Sender>): (r: string)
    ensures s.Some? && s.value.nick.Some? ==> r == s.value.nick.value
    ensures (s.None? || s.value.nick.None?) ==> r == ""
  {
    if s.Some? then s.value.nick.GetOr("") else ""
  }

  /** The named groups of a successful match; an unmatched group is None when
      PHP leaves it out of the match array, Some("") when it is set to "". */
  datatype Captures = Captures(nick: string, user: Option<string>, host: Option<string>)

  // ---------------------------------------------------------------------------
  // Character classes of the two patterns

  predicate IsLetter(c: char)
  {
    'a' <= c <= 'z' || 'A' <= c <= 'Z'
  }

  /** `[a-zA-Z\[\]\\`{}_-]`: the first character of a nick. */
  predicate IsNickFirst(c: char)
  {
    IsLetter(c) || c == '[' || c == ']' || c == '\\' || c == '`' || c == '{' || c == '}' || c == '_' || c == '-'
  }

  /** `[a-zA-Z0-9\[\]\\`{}_-]`: the later characters of a nick. */
  predicate IsNickChar(c: char)
  {
    IsNickFirst(c) || IsDigit(c)
  }

  /** `[^ @]`: a character of the user part. */
  predicate IsUserChar(c: char)
  {
    c != ' ' && c != '@'
  }

  /** `[~a-zA-Z0-9-]`: the first character of the host part. */
  predicate IsHostFirst(c: char)
  {
    c == '~' || IsLetter(c) || IsDigit(c) || c == '-'
  }

  /** The length of the longest prefix of s whose characters all satisfy p. */
  function Run(s: string, p: char -> bool): (n: nat)
    ensures n <= |s|
    ensures forall i :: 0 <= i < n ==> p(s[i])
    ensures n < |s| ==> !p(s[n])
  {
    if |s| > 0 && p(s[0]) then 1 + Run(s[1..], p) else 0
  }

  predicate AllChars(s: string, p: char -> bool)
  {
    forall i :: 0 <= i < |s| ==> p(s[i])
  }

  /** A run is maximal: it covers every leading character that satisfies p. */
  lemma {:induction false} RunOfAll(a: string, b: string, p: char -> bool)
    requires AllChars(a, p)
    requires |b| == 0 || !p(b[0])
    ensures Run(a + b, p) == |a|
  {
    if |a| > 0 {
      assert (a + b)[0] == a[0];
      assert (a + b)[1..] == a[1..] + b;
      RunOfAll(a[1..], b, p);
    } else {
      assert a + b == b;
    }
  }

  /** A nick is a nick-first character followed by one or more nick characters. */
  predicate IsNick(s: string)
    ensures IsNick(s) ==> forall i :: 0 <= i < |s| ==> IsNickChar(s[i]) && s[i] != '!' && s[i] != '@' && s[i] != ' '
  {
    |s| >= 2 && IsNickFirst(s[0]) && AllChars(s[1..], IsNickChar)
  }

  /** `[~a-zA-Z0-9-].+`: a host part (the model has no line feeds, so `.` is any character). */
  predicate IsHost(s: string)
    ensures IsHost(s) ==> |s| >= 2 && s[0] != '@' && s[0] != '!' && s[0] != ' '
  {
    |s| >= 2 && IsHostFirst(s[0])
  }

  /** The optional leading colon both patterns allow; it is consumed when present. */
  function DropColon(s: string): (t: string)
    ensures |s| > 0 && s[0] == ':' ==> t == s[1..]
    ensures (|s| == 0 || s[0] != ':') ==> t == s
  {
    if |s| > 0 && s[0] == ':' then s[1..] else s
  }

  /** The length of the nick at the start of t, or 0 when there is none. Since
      `!` and `@` are not nick characters, the nick is always the longest run. */
  function NickLength(t: string): (n: nat)
    ensures n <= |t|
    ensures n > 0 ==> IsNick(t[..n]) && (n == |t| || !IsNickChar(t[n]))
  {
    if |t| > 0 && IsNickFirst(t[0]) then
      var k := Run(t[1..], IsNickChar);
      if k >= 1 then
        assert t[..1 + k][1..] == t[1..][..k];
        1 + k
      else 0
    else 0
  }

  // ---------------------------------------------------------------------------
  // The two patterns of sender.php

  /** `^:?nick(?:!user)?(?:@host)?$`, tried first. */
  function MatchUserFirst(s: string): (r: Option<Captures>)
    ensures r.Some? ==>
      IsNick(r.value.nick) && |r.value.nick| <= |DropColon(s)| && DropColon(s)[..|r.value.nick|] == r.value.nick
  {
    var t := DropColon(s);
    var n := NickLength(t);
    if n == 0 then None else UserThenHost(t[..n], t[n..])
  }

  /** The part of the first pattern after the nick: `(?:!user)?(?:@host)?$`. */
  function UserThenHost(nick: string, rest: string): (r: Option<Captures>)
    ensures r.Some? ==> r.value.nick == nick
    ensures r.Some? && r.value.user.Some? ==> AllChars(r.value.user.value, IsUserChar)
    ensures r.Some? && r.value.host.Some? ==> IsHost(r.value.host.value)
    ensures r.Some? && r.value.user.None? ==> rest == "" && r.value.host.None?
  {
    if rest == "" then Some(Captures(nick, None, None))
    else if rest[0] == '!' then
      var u := Run(rest[1..], IsUserChar);
      var after := rest[1 + u..];
      if u == 0 then None
      else if after == "" then Some(Captures(nick, Some(rest[1..1 + u]), None))
      else if after[0] == '@' && IsHost(after[1..]) then
        Some(Captures(nick, Some(rest[1..1 + u]), Some(after[1..])))
      else None
    else if rest[0] == '@' && IsHost(rest[1..]) then
      Some(Captures(nick, Some(""), Some(rest[1..])))
    else None
  }

  /** `^:?nick(?:@host)?(?:!user)?$`, tried second. */
  function MatchHostFirst(s: string): (r: Option<Captures>)
    ensures r.Some? ==>
      IsNick(r.value.nick) && |r.value.nick| <= |DropColon(s)| && DropColon(s)[..|r.value.nick|] == r.value.nick
    ensures r.Some? && r.value.host.Some? && r.value.host.value != "" ==> r.value.user.None?
  {
    var t := DropColon(s);
    var n := NickLength(t);
    if n == 0 then None
    else
      var nick, rest := t[..n], t[n..];
      if rest == "" then Some(Captures(nick, None, None))
      else if rest[0] == '@' && IsHost(rest[1..]) then
        // the host's `.+` runs to the end, so the user group never takes part
        Some(Captures(nick, None, Some(rest[1..])))
      else if rest[0] == '!' && |rest| >= 2 && Run(rest[1..], IsUserChar) == |rest| - 1 then
        Some(Captures(nick, Some(rest[1..]), Some("")))
      else None
  }

  /** Sender::parse: the first pattern, then the second, then a server named by
      the string without its first character. */
  function Parse(s: string): (r: Sender)
    ensures r.text == s
    ensures r.IsUser() != r.IsServer()
    ensures r.IsUser() <==> MatchUserFirst(s).Some?
    ensures r.IsServer() ==> r.server == Some(if |s| == 0 then "" else s[1..])
  {
    SecondPatternNeverDecides(s);
    match MatchUserFirst(s)
    case Some(c) => Sender(s, Some(c.nick), c.user, c.host, None)
    case None =>
      match MatchHostFirst(s)
      case Some(c) => Sender(s, Some(c.nick), c.user, c.host, None)
      case None => Sender(s, None, None, None, Some(if |s| == 0 then "" else s[1..]))
  }

  /** Whatever the second pattern accepts, the first accepts already, so the
      second pattern never decides what Parse returns. */
  lemma SecondPatternNeverDecides(s: string)
    ensures MatchHostFirst(s).Some? ==> MatchUserFirst(s).Some?
  {
    var t := DropColon(s);
    var n := NickLength(t);
    if n > 0 {
      var rest := t[n..];
      if |rest| >= 2 && rest[0] == '!' && Run(rest[1..], IsUserChar) == |rest| - 1 {
        assert rest[1 + (|rest| - 1)..] == "";
      }
    }
  }

  // ---------------------------------------------------------------------------
  // The grammar the first pattern accepts

  /** Captures the first pattern can produce: a nick, then either nothing, a
      user, a user and a host, or (user "") a host alone. */
  predicate WellFormed(c: Captures)
  {
    && IsNick(c.nick)
    && (c.user.None? ==> c.host.None?)
    && (c.user.Some? && c.user.value == "" ==> c.host.Some?)
    && (c.user.Some? ==> AllChars(c.user.value, IsUserChar))
    && (c.host.Some? ==> IsHost(c.host.value))
  }

  /** The prefix text (without the optional colon) that well-formed captures stand for. */
  function Unparse(c: Captures): string
  {
    c.nick + Tail(c)
  }

  /** Every match of the first pattern is well formed and spells out the prefix. */
  lemma UserFirstSound(s: string)
    requires MatchUserFirst(s).Some?
    ensures WellFormed(MatchUserFirst(s).value)
    ensures Unparse(MatchUserFirst(s).value) == DropColon(s)
  {
    var t := DropColon(s);
    var n := NickLength(t);
    assert t == t[..n] + t[n..];
    UserThenHostSound(t[..n], t[n..]);
  }

  /** The part after the nick: what it captures is well formed and spells it out. */
  lemma UserThenHostSound(nick: string, rest: string)
    requires IsNick(nick) && UserThenHost(nick, rest).Some?
    ensures WellFormed(UserThenHost(nick, rest).value)
    ensures Unparse(UserThenHost(nick, rest).value) == nick + rest
  {
    if rest != "" && rest[0] == '!' {
      var u := Run(rest[1..], IsUserChar);
      var after := rest[1 + u..];
      assert rest == "!" + rest[1..1 + u] + after;
      if after != "" {
        assert after == "@" + after[1..];
      }
    } else if rest != "" {
      assert rest == "@" + rest[1..];
    }
  }

  /** The nick is read up to the first character that cannot belong to a nick. */
  lemma {:induction false} NickLengthOf(nick: string, rest: string)
    requires IsNick(nick)
    requires rest == "" || !IsNickChar(rest[0])
    ensures NickLength(nick + rest) == |nick|
    ensures (nick + rest)[..|nick|] == nick && (nick + rest)[|nick|..] == rest
  {
    var t := nick + rest;
    assert t[0] == nick[0];
    assert t[1..] == nick[1..] + rest;
    RunOfAll(nick[1..], rest, IsNickChar);
  }

  /** The text after the nick in Unparse. */
  function Tail(c: Captures): string
  {
    (if c.user.Some? && c.user.value != "" then "!" + c.user.value else "")
    + (if c.host.Some? then "@" + c.host.value else "")
  }

  lemma TailMatched(c: Captures)
    requires WellFormed(c)
    ensures UserThenHost(c.nick, Tail(c)) == Some(c)
  {
    var rest := Tail(c);
    var hostPart := if c.host.Some? then "@" + c.host.value else "";
    if c.user.Some? && c.user.value != "" {
      var u := c.user.value;
      assert rest == "!" + u + hostPart;
      assert rest[1..] == u + hostPart;
      RunOfAll(u, hostPart, IsUserChar);
      assert rest[1..1 + |u|] == u;
      assert rest[1 + |u|..] == hostPart;
      if c.host.Some? {
        assert hostPart[1..] == c.host.value;
      }
    } else if c.host.Some? {
      assert rest == "@" + c.host.value;
      assert rest[1..] == c.host.value;
    }
  }

  /** Every well-formed capture, with or without the leading colon, is matched
      back by the first pattern. */
  lemma UserFirstComplete(c: Captures, colon: bool)
    requires WellFormed(c)
    ensures MatchUserFirst((if colon then ":" else "") + Unparse(c)) == Some(c)
  {
    var s := (if colon then ":" else "") + Unparse(c);
    var rest := Tail(c);
    assert Unparse(c) == c.nick + rest;
    assert DropColon(s) == c.nick + rest by {
      if colon {
        assert s[1..] == Unparse(c);
      }
    }
    assert rest == "" || rest[0] == '!' || rest[0] == '@';
    NickLengthOf(c.nick, rest);
    TailMatched(c);
  }

  /** Parse reads a well-formed prefix back into its nick, user and host. */
  lemma ParseWellFormed(c: Captures, colon: bool)
    requires WellFormed(c)
    ensures Parse((if colon then ":" else "") + Unparse(c))
      == Sender((if colon then ":" else "") + Unparse(c), Some(c.nick), c.user, c.host, None)
  {
    UserFirstComplete(c, colon);
  }

  // ---------------------------------------------------------------------------
  // Constructors

  /** Sender::makeServer. */
  function MakeServer(server: string): (r: Sender)
    ensures r.IsServer() && !r.IsUser()
    ensures r.text == server && r.server == Some(server)
  {
    Sender(server, None, None, None, Some(server))
  }

  /** Sender::makeUser as written: the user is appended after `@` and the host
      after `!`, the reverse of the protocol's `nick!user@host`. */
  function MakeUserAsWritten(nick: string, user: Option<string> := Some(""), host: Option<string> := Some("")): (r: Sender)
    ensures r.IsUser() && !r.IsServer()
    ensures r.nick == Some(nick) && r.user == user && r.host == host
    ensures r.text == nick + (if OptTruthy(user) then "@" + user.value else "")
      + (if OptTruthy(host) then "!" + host.value else "")
    ensures !OptTruthy(user) && !OptTruthy(host) ==> r.text == nick
  {
    var text := nick + (if OptTruthy(user) then "@" + user.value else "")
      + (if OptTruthy(host) then "!" + host.value else "");
    Sender(text, Some(nick), user, host, None)
  }

  /** Sender::makeUser with the protocol's separators, `nick!user@host`; the
      client model uses this one. */
  function MakeUser(nick: string, user: Option<string> := Some(""), host: Option<string> := Some("")): (r: Sender)
    ensures r.IsUser() && !r.IsServer()
    ensures r.nick == Some(nick) && r.user == user && r.host == host
    ensures r.text == nick + (if OptTruthy(user) then "!" + user.value else "")
      + (if OptTruthy(host) then "@" + host.value else "")
    ensures !OptTruthy(user) && !OptTruthy(host) ==> r.text == nick
  {
    var text := nick + (if OptTruthy(user) then "!" + user.value else "")
      + (if OptTruthy(host) then "@" + host.value else "");
    Sender(text, Some(nick), user, host, None)
  }

  /** The text of the separator-swapped constructor does not parse back into
      the user and host it was made from: `nick@user!host` reads as an empty
      user and the host `user!host`. */
  lemma MakeUserAsWrittenMisreads(nick: string, user: string, host: string)
    requires IsNick(nick) && Truthy(user) && Truthy(host) && IsHostFirst(user[0])
    ensures MakeUserAsWritten(nick, Some(user), Some(host)).text == nick + "@" + user + "!" + host
    ensures Parse(":" + MakeUserAsWritten(nick, Some(user), Some(host)).text)
      == Sender(":" + MakeUserAsWritten(nick, Some(user), Some(host)).text, Some(nick), Some(""), Some(user + "!" + host), None)
  {
    var text := MakeUserAsWritten(nick, Some(user), Some(host)).text;
    assert text == nick + "@" + user + "!" + host by {
      assert text == nick + ("@" + user) + ("!" + host);
      SeparatedParts(nick, user, host);
    }
    assert ":" + text == ":" + nick + "@" + user + "!" + host by {
      SeparatedParts(nick, user, host);
    }
    HostBeforeUser(nick, user, host);
  }

  lemma SeparatedParts(nick: string, user: string, host: string)
    ensures nick + ("@" + user) + ("!" + host) == nick + "@" + user + "!" + host
    ensures nick + ("@" + (user + "!" + host)) == nick + "@" + user + "!" + host
    ensures ":" + (nick + "@" + user + "!" + host) == ":" + nick + "@" + user + "!" + host
  {
  }

  /** The corrected constructor's text parses back into the same nick, user and
      host, whenever they are well formed and the user and host are truthy. */
  lemma MakeUserRoundTrip(nick: string, user: string, host: string)
    requires WellFormed(Captures(nick, Some(user), Some(host)))
    requires Truthy(user) && Truthy(host)
    ensures Parse(":" + MakeUser(nick, Some(user), Some(host)).text)
      == Sender(":" + MakeUser(nick, Some(user), Some(host)).text, Some(nick), Some(user), Some(host), None)
  {
    var c := Captures(nick, Some(user), Some(host));
    assert MakeUser(nick, Some(user), Some(host)).text == Unparse(c);
    ParseWellFormed(c, true);
  }

  // ---------------------------------------------------------------------------
  // The cases the source is known for

  /** A prefix made only of nick characters is a user with that nick. */
  lemma NickAloneIsUser(nick: string)
    requires IsNick(nick)
    ensures Parse(":" + nick) == Sender(":" + nick, Some(nick), None, None, None)
  {
    var c := Captures(nick, None, None);
    assert Unparse(c) == nick;
    ParseWellFormed(c, true);
  }

  /** Such as `:localhost`, which names a server but reads as a user. */
  lemma LocalhostIsUser()
    ensures Parse(":localhost") == Sender(":localhost", Some("localhost"), None, None, None)
  {
    assert IsNick("localhost") by {
      assert "localhost"[1..] == "ocalhost";
    }
    NickAloneIsUser("localhost");
  }

  /** A name whose first label is a nick followed by a dot, such as
      `:irc.example.net`, matches neither pattern, so it becomes a server
      named by the text after the colon. */
  lemma DottedServer(first: string, more: string)
    requires IsNick(first)
    ensures Parse(":" + first + "." + more) == Sender(":" + first + "." + more, None, None, None, Some(first + "." + more))
  {
    var s := ":" + first + "." + more;
    var t := first + ("." + more);
    assert DropColon(s) == t by {
      assert s[1..] == t;
    }
    NickLengthOf(first, "." + more);
    assert MatchUserFirst(s).None?;
    SecondPatternNeverDecides(s);
    assert s[1..] == first + "." + more;
  }

  /** A one-character nick is too short for either pattern: the sender is a server. */
  lemma OneCharacterNickIsServer(c: char)
    ensures Parse([':', c]) == Sender([':', c], None, None, None, Some([c]))
  {
    assert DropColon([':', c]) == [c];
  }

  /** `nick@host!user` is taken by the first pattern with the host `host!user`
      and an empty user, which is why the second pattern never gets its turn. */
  lemma HostBeforeUser(nick: string, host: string, user: string)
    requires IsNick(nick) && Truthy(host) && Truthy(user) && IsHostFirst(host[0])
    ensures Parse(":" + nick + "@" + host + "!" + user)
      == Sender(":" + nick + "@" + host + "!" + user, Some(nick), Some(""), Some(host + "!" + user), None)
  {
    var c := Captures(nick, Some(""), Some(host + "!" + user));
    assert ":" + nick + "@" + host + "!" + user == ":" + Unparse(c) by {
      assert Unparse(c) == nick + ("@" + (host + "!" + user));
      SeparatedParts(nick, host, user);
    }
    assert WellFormed(c);
    ParseWellFormed(c, true);
  }
}
