/**
 * The feed notifier: on every server PING the bot looks at each configured
 * feed in turn. A feed seen for the first time (no stored timestamp) only
 * records the current time. For a known feed, every item newer than the
 * stored timestamp becomes a NOTICE built from the feed's message template,
 * at most three per feed, and the stored timestamp advances to the newest
 * item looked at. The notices of the first feed that has any are returned
 * at once, so one ping reports at most one feed.
 */
module Feeds {
  import opened Text
  import Senders
  import Messages

  /** Flood protection: the most notices one feed sends per ping. */
  const FLOOD_LIMIT := 3

  /** A feed item: its date as a Unix timestamp and the values its getters
      return (`title` for get_title, `link` for get_link, ...). */
  datatype Item = Item(time: int, fields: map<string, string>)

  /** A configured feed with the items its URL serves at the time of the ping. */
  datatype Feed = Feed(name: string, message: string, channel: string, items: seq<Item>)

  /** A cache entry: the stored value and the time it expires. */
  datatype Stored = Stored(value: int, until: int)

  /** The cache key of a feed's timestamp; the name can be read back from it. */
  function Key(name: string): (k: string)
    ensures |k| == 13 + |name| && k[..13] == "feed-updated " && k[13..] == name
  {
    "feed-updated " + name
  }

  /** Cache::has: the key is stored and has not expired. */
  predicate Has(cache: map<string, Stored>, key: string, now: int)
    ensures Has(cache, key, now) ==> key in cache
    ensures key in cache ==> (Has(cache, key, now) <==> now < cache[key].until)
  {
    key in cache && now < cache[key].until
  }

  /** Cache::put for `ttl` minutes. */
  function Put(cache: map<string, Stored>, key: string, value: int, now: int, ttl: int): (r: map<string, Stored>)
    ensures r.Keys == cache.Keys + {key}
    ensures r[key] == Stored(value, now + 60 * ttl)
    ensures forall k :: k in cache && k != key ==> r[k] == cache[k]
  {
    cache[key := Stored(value, now + 60 * ttl)]
  }

  function Max(a: int, b: int): (r: int)
    ensures r >= a && r >= b && (r == a || r == b)
  {
    if a >= b then a else b
  }

  // ---------------------------------------------------------------------------
  // Tokens of a message template

  /** `\w`: a letter, a digit or the underscore. */
  predicate IsWordChar(c: char)
  {
    'a' <= c <= 'z' || 'A' <= c <= 'Z' || IsDigit(c) || c == '_'
  }

  /** The names of the `(:name)` tokens of a template, left to right, as
      `preg_match_all('/\(:(\w+)\)/', ...)` finds them. */
  function Tokens(s: string): (r: seq<string>)
    ensures forall i :: 0 <= i < |r| ==> r[i] != "" && Senders.AllChars(r[i], IsWordChar)
    decreases |s|
  {
    if |s| < 2 then []
    else if s[0] == '(' && s[1] == ':' then
      var n := Senders.Run(s[2..], IsWordChar);
      if n > 0 && 2 + n < |s| && s[2 + n] == ')' then
        assert forall i :: 0 <= i < n ==> s[2..2 + n][i] == s[2..][i];
        [s[2..2 + n]] + Tokens(s[3 + n..])
      else Tokens(s[1..])
    else Tokens(s[1..])
  }

  /** The text of a token. */
  function Token(name: string): string
  {
    "(:" + name + ")"
  }

  /** The item's value for a token: the getter's result, or "" without one. */
  function Field(item: Item, name: string): (r: string)
    ensures name in item.fields ==> r == item.fields[name]
    ensures name !in item.fields ==> r == ""
  {
    if name in item.fields then item.fields[name] else ""
  }

  /** str_replace with arrays: each search string replaced in turn, in the
      text the previous replacements left. */
  function ReplaceAll(s: string, search: seq<string>, replace: seq<string>): (r: string)
    requires |search| == |replace|
    ensures |search| == 1 ==> r == Replace(s, search[0], replace[0])
    ensures (forall i :: 0 <= i < |search| ==> search[i] == "") ==> r == s
    decreases |search|
  {
    if |search| == 0 then s
    else ReplaceAll(Replace(s, search[0], replace[0]), search[1..], replace[1..])
  }

  function Searches(names: seq<string>): (r: seq<string>)
    ensures |r| == |names| && forall i :: 0 <= i < |names| ==> r[i] == Token(names[i])
  {
    seq(|names|, i requires 0 <= i < |names| => Token(names[i]))
  }

  function Values(names: seq<string>, item: Item): (r: seq<string>)
    ensures |r| == |names| && forall i :: 0 <= i < |names| ==> r[i] == Field(item, names[i])
  {
    seq(|names|, i requires 0 <= i < |names| => Field(item, names[i]))
  }

  /** The notice text for an item: every token of the template replaced. */
  function Render(message: string, item: Item): (r: string)
    ensures Tokens(message) == [] ==> r == message
  {
    var names := Tokens(message);
    ReplaceAll(message, Searches(names), Values(names, item))
  }

  /** A template without parentheses has no tokens. */
  lemma {:induction false} NoTokens(s: string)
    requires '(' !in s
    ensures Tokens(s) == []
    decreases |s|
  {
    if |s| >= 2 {
      assert s[1..][0] == s[1];
      NoTokens(s[1..]);
    }
  }

  /** A token after a text without parentheses is the first token found. */
  lemma {:induction false} TokenAfter(a: string, name: string, b: string)
    requires '(' !in a
    requires name != "" && Senders.AllChars(name, IsWordChar)
    ensures Tokens(a + Token(name) + b) == [name] + Tokens(b)
    decreases |a|
  {
    var s := a + Token(name) + b;
    if |a| == 0 {
      assert s == "(:" + (name + (")" + b));
      assert s[2..] == name + (")" + b);
      Senders.RunOfAll(name, ")" + b, IsWordChar);
      assert s[2..2 + |name|] == name;
      assert s[3 + |name|..] == b;
    } else {
      assert s[0] == a[0];
      assert s[1..] == a[1..] + Token(name) + b;
      TokenAfter(a[1..], name, b);
    }
  }

  /** The template `a(:title)b(:link)c` has the tokens title and link. */
  lemma TitleAndLinkTokens(a: string, b: string, c: string)
    requires '(' !in a && '(' !in b && '(' !in c
    ensures Tokens(a + Token("title") + b + Token("link") + c) == ["title", "link"]
  {
    var s := a + Token("title") + b + Token("link") + c;
    assert s == a + Token("title") + (b + Token("link") + c);
    TokenAfter(a, "title", b + Token("link") + c);
    TokenAfter(b, "link", c);
    NoTokens(c);
  }

  /** Replacing the title token of `a(:title)b(:link)c` keeps the link token. */
  lemma ReplaceTitle(a: string, b: string, c: string, title: string)
    requires '(' !in a && '(' !in b && '(' !in c
    ensures Replace(a + Token("title") + b + Token("link") + c, Token("title"), title)
      == a + title + b + Token("link") + c
  {
    var tail := Token("link") + c;
    var rest := b + tail;
    assert Replace(rest, Token("title"), title) == rest by {
      LinkSurvives(c, title);
      ReplaceSkipping(b, tail, Token("title"), title);
    }
    assert Replace(a + Token("title") + rest, Token("title"), title) == a + title + rest by {
      ReplaceAfter(a, Token("title"), rest, title);
    }
    assert a + Token("title") + b + Token("link") + c == a + Token("title") + rest;
    assert a + title + rest == a + title + b + Token("link") + c;
  }

  /** The template `a(:title)b(:link)c` of the configured feeds: the title and
      the link take the places of their tokens, when no text holds a
      parenthesis. */
  lemma RenderTitleAndLink(a: string, b: string, c: string, item: Item)
    requires '(' !in a && '(' !in b && '(' !in c && '(' !in Field(item, "title")
    ensures Render(a + Token("title") + b + Token("link") + c, item)
      == a + Field(item, "title") + b + Field(item, "link") + c
  {
    var s := a + Token("title") + b + Token("link") + c;
    TitleAndLinkTokens(a, b, c);
    var title, link := Field(item, "title"), Field(item, "link");
    var once := a + title + b + Token("link") + c;
    ReplaceTitle(a, b, c, title);
    assert Replace(once, Token("link"), link) == a + title + b + link + c by {
      assert once == (a + title + b) + Token("link") + c;
      ReplaceAfter(a + title + b, Token("link"), c, link);
      ReplaceAbsent(c, Token("link"), link);
    }
    var search, replace := [Token("title"), Token("link")], [title, link];
    assert Searches(["title", "link"]) == search;
    assert Values(["title", "link"], item) == replace;
    assert search[1..] == [Token("link")] && replace[1..] == [link];
    assert ReplaceAll(s, search, replace) == ReplaceAll(once, [Token("link")], [link]);
  }

  /** The `(:link)` token holds no `(:title)`, so replacing the title keeps it. */
  lemma LinkSurvives(c: string, title: string)
    requires '(' !in c
    ensures Replace(Token("link") + c, Token("title"), title) == Token("link") + c
  {
    var s := Token("link") + c;
    if |s| >= |Token("title")| {
      assert s[..|Token("title")|] != Token("title") by {
        assert s[2] == 'l';
      }
    }
    assert s[1..] == ":link)" + c;
    ReplaceAbsent(s[1..], Token("title"), title);
    assert [s[0]] + s[1..] == s;
  }

  // ---------------------------------------------------------------------------
  // One feed

  /** The item loop from the item at hand on, with the timestamp and texts so
      far: the timestamp takes the maximum of every item looked at, each item
      newer than `last` adds its text, and the loop stops at three texts. */
  function Collect(items: seq<Item>, message: string, last: int, next: int, texts: seq<string>): (r: (seq<string>, int))
    requires |texts| < FLOOD_LIMIT
    ensures |texts| <= |r.0| <= FLOOD_LIMIT && r.0[..|texts|] == texts
    ensures r.1 >= next
    ensures (forall i :: 0 <= i < |items| ==> items[i].time <= last) ==> r.0 == texts
    decreases |items|
  {
    if |items| == 0 then (texts, next)
    else
      var item := items[0];
      var next' := Max(next, item.time);
      var texts' := if item.time > last then texts + [Render(message, item)] else texts;
      if |texts'| >= FLOOD_LIMIT then (texts', next')
      else Collect(items[1..], message, last, next', texts')
  }

  /** The texts and the new timestamp for a feed whose stored timestamp is `last`. */
  function FeedSpec(feed: Feed, last: int): (r: (seq<string>, int))
    ensures |r.0| <= FLOOD_LIMIT && r.1 >= last
    ensures (forall i :: 0 <= i < |feed.items| ==> feed.items[i].time <= last) ==> r.0 == []
  {
    Collect(feed.items, feed.message, last, last, [])
  }

  /** The items newer than `last`, in feed order. */
  function Newer(items: seq<Item>, last: int): (r: seq<Item>)
    ensures |r| <= |items|
    ensures forall i :: 0 <= i < |r| ==> r[i].time > last
  {
    if |items| == 0 then []
    else (if items[0].time > last then [items[0]] else []) + Newer(items[1..], last)
  }

  function Rendered(items: seq<Item>, message: string): (r: seq<string>)
    ensures |r| == |items| && forall i :: 0 <= i < |items| ==> r[i] == Render(message, items[i])
  {
    seq(|items|, i requires 0 <= i < |items| => Render(message, items[i]))
  }

  /** The largest of `next` and the items' times. */
  function Latest(next: int, items: seq<Item>): (r: int)
    ensures r >= next && forall i :: 0 <= i < |items| ==> r >= items[i].time
    ensures r == next || exists i :: 0 <= i < |items| && r == items[i].time
    decreases |items|
  {
    if |items| == 0 then next
    else
      var r := Latest(Max(next, items[0].time), items[1..]);
      assert forall i :: 1 <= i < |items| ==> items[i] == items[1..][i - 1];
      r
  }

  /** How many items the loop looks at before room newer ones are found. */
  function Examined(items: seq<Item>, last: int, room: nat): (n: nat)
    requires room >= 1
    ensures n <= |items|
    decreases |items|
  {
    if |items| == 0 then 0
    else if items[0].time > last then (if room == 1 then 1 else 1 + Examined(items[1..], last, room - 1))
    else 1 + Examined(items[1..], last, room)
  }

  /** The newer items among the first n + 1 are those among the first n and
      maybe the next. */
  lemma NewerCons(items: seq<Item>, last: int, n: nat)
    requires 1 <= n <= |items|
    ensures items[..n][1..] == items[1..][..n - 1]
    ensures Newer(items[..n], last)
      == (if items[0].time > last then [items[0]] else []) + Newer(items[1..][..n - 1], last)
  {
    assert items[..n][1..] == items[1..][..n - 1];
    assert items[..n][0] == items[0];
  }

  lemma RenderedAppend(a: seq<Item>, b: seq<Item>, message: string)
    ensures Rendered(a + b, message) == Rendered(a, message) + Rendered(b, message)
  {
  }

  /** The item loop, from the texts so far, collects the texts of the newer
      items among those it looks at and the latest time among them. */
  predicate CollectShape(items: seq<Item>, message: string, last: int, next: int, texts: seq<string>)
  {
    && |texts| < FLOOD_LIMIT
    && var n := Examined(items, last, FLOOD_LIMIT - |texts|);
      Collect(items, message, last, next, texts)
        == (texts + Rendered(Newer(items[..n], last), message), Latest(next, items[..n]))
  }

  /** The texts after one more item. */
  function Step(item: Item, message: string, last: int, texts: seq<string>): seq<string>
  {
    if item.time > last then texts + [Render(message, item)] else texts
  }

  /** The loop stops at a newer item that fills the last place. */
  lemma CollectStops(items: seq<Item>, message: string, last: int, next: int, texts: seq<string>)
    requires |items| > 0 && |texts| == FLOOD_LIMIT - 1 && items[0].time > last
    ensures CollectShape(items, message, last, next, texts)
  {
    var item := items[0];
    var n := Examined(items, last, FLOOD_LIMIT - |texts|);
    assert n == 1;
    assert items[..n] == [item];
    assert Newer([item], last) == [item] by {
      assert [item][1..] == [];
    }
    assert Rendered([item], message) == [Render(message, item)];
    assert Latest(next, [item]) == Max(next, item.time) by {
      assert [item][1..] == [];
    }
  }

  /** Otherwise the loop goes on with the next item. */
  lemma CollectGoesOn(items: seq<Item>, message: string, last: int, next: int, texts: seq<string>)
    requires |items| > 0 && |texts| < FLOOD_LIMIT
    requires !(items[0].time > last && |texts| == FLOOD_LIMIT - 1)
    requires CollectShape(items[1..], message, last, Max(next, items[0].time), Step(items[0], message, last, texts))
    ensures CollectShape(items, message, last, next, texts)
  {
    var item := items[0];
    var texts' := Step(item, message, last, texts);
    var n := Examined(items, last, FLOOD_LIMIT - |texts|);
    assert n == 1 + Examined(items[1..], last, FLOOD_LIMIT - |texts'|);
    NewerCons(items, last, n);
    var head := if item.time > last then [item] else [];
    assert Rendered(head, message) == if item.time > last then [Render(message, item)] else [];
    assert texts' == texts + Rendered(head, message);
    var r := Collect(items[1..], message, last, Max(next, item.time), texts');
    assert Collect(items, message, last, next, texts) == r;
    var rest := Newer(items[1..][..n - 1], last);
    assert r.0 == texts' + Rendered(rest, message);
    assert Newer(items[..n], last) == head + rest;
    RenderedAppend(head, rest, message);
    AppendAssociates(texts, Rendered(head, message), Rendered(rest, message));
    assert Latest(next, items[..n]) == Latest(Max(next, item.time), items[1..][..n - 1]);
  }

  lemma AppendAssociates(a: seq<string>, b: seq<string>, c: seq<string>)
    ensures a + (b + c) == (a + b) + c
  {
  }

  /** The item loop collects the texts of the newer items among those it
      looks at, and the latest time among them. */
  lemma {:induction false} CollectIs(items: seq<Item>, message: string, last: int, next: int, texts: seq<string>)
    requires |texts| < FLOOD_LIMIT
    ensures CollectShape(items, message, last, next, texts)
    decreases |items|
  {
    if |items| == 0 {
      assert items[..0] == [];
      assert Rendered([], message) == [];
      assert texts + [] == texts;
    } else if items[0].time > last && |texts| == FLOOD_LIMIT - 1 {
      CollectStops(items, message, last, next, texts);
    } else {
      CollectIs(items[1..], message, last, Max(items[0].time, next), Step(items[0], message, last, texts));
      assert Max(items[0].time, next) == Max(next, items[0].time);
      CollectGoesOn(items, message, last, next, texts);
    }
  }

  /** The loop looks at no more newer items than it has room for, and it stops
      early only when the room is used up. */
  lemma {:induction false} ExaminedRoom(items: seq<Item>, last: int, room: nat)
    requires room >= 1
    ensures var n := Examined(items, last, room);
      && |Newer(items[..n], last)| <= room
      && (n < |items| ==> |Newer(items[..n], last)| == room)
      && (|Newer(items, last)| < room ==> n == |items|)
    decreases |items|
  {
    var n := Examined(items, last, room);
    if |items| > 0 {
      NewerCons(items, last, n);
      assert items == [items[0]] + items[1..];
      assert Newer(items, last) == (if items[0].time > last then [items[0]] else []) + Newer(items[1..], last);
      if items[0].time > last && room == 1 {
        assert items[..n] == [items[0]];
      } else {
        ExaminedRoom(items[1..], last, if items[0].time > last then room - 1 else room);
      }
    }
  }

  /** The newer items of a prefix are a prefix of the newer items. */
  lemma {:induction false} NewerPrefix(items: seq<Item>, last: int, n: nat)
    requires n <= |items|
    ensures var p := Newer(items[..n], last);
      |p| <= |Newer(items, last)| && p == Newer(items, last)[..|p|]
    decreases n
  {
    if n > 0 {
      NewerCons(items, last, n);
      NewerPrefix(items[1..], last, n - 1);
      assert items == [items[0]] + items[1..];
      assert Newer(items, last) == (if items[0].time > last then [items[0]] else []) + Newer(items[1..], last);
    } else {
      assert items[..n] == [];
    }
  }

  /** What a ping reports for one known feed: at most three texts, those of
      the first newer items in feed order, every newer item when there are
      fewer than three and exactly three otherwise, with the timestamp then
      the latest of the items examined up to the break, and a timestamp that never goes back and is either
      the old one or the time of an item. */
  lemma FeedReport(feed: Feed, last: int)
    ensures var (texts, next) := FeedSpec(feed, last);
      var all := Rendered(Newer(feed.items, last), feed.message);
      && |texts| <= FLOOD_LIMIT
      && |texts| <= |all| && texts == all[..|texts|]
      && (|all| < FLOOD_LIMIT ==> texts == all && next == Latest(last, feed.items))
      && (|all| >= FLOOD_LIMIT ==>
            |texts| == FLOOD_LIMIT && next == Latest(last, feed.items[..Examined(feed.items, last, FLOOD_LIMIT)]))
      && next >= last
      && (next == last || exists i :: 0 <= i < |feed.items| && next == feed.items[i].time)
  {
    var items := feed.items;
    var n := Examined(items, last, FLOOD_LIMIT);
    CollectIs(items, feed.message, last, last, []);
    ExaminedRoom(items, last, FLOOD_LIMIT);
    NewerPrefix(items, last, n);
    var p := Newer(items[..n], last);
    var all := Rendered(Newer(items, last), feed.message);
    assert Rendered(p, feed.message) == all[..|p|];
    assert [] + Rendered(p, feed.message) == Rendered(p, feed.message);
    if n == |items| {
      assert items[..n] == items;
    }
    var next := Latest(last, items[..n]);
    if next != last {
      var i :| 0 <= i < n && next == items[..n][i].time;
      assert next == items[i].time;
    }
  }

  // ---------------------------------------------------------------------------
  // All feeds

  /** One notice per text, to the feed's channel. */
  function Notices(channel: string, texts: seq<string>): (r: seq<Messages.Message>)
    ensures |r| == |texts| && forall i :: 0 <= i < |texts| ==> r[i] == Messages.Notice(channel, texts[i])
  {
    seq(|texts|, i requires 0 <= i < |texts| => Messages.Notice(channel, texts[i]))
  }

  /** update_feeds over the feeds from the one at hand on: the notices
      returned and the cache left behind. */
  function UpdateSpec(feeds: seq<Feed>, now: int, ttl: int, cache: map<string, Stored>): (r: (seq<Messages.Message>, map<string, Stored>))
    ensures |r.0| <= FLOOD_LIMIT
    ensures forall i :: 0 <= i < |r.0| ==> r.0[i].command == "NOTICE"
    ensures cache.Keys <= r.1.Keys
    decreases |feeds|
  {
    if |feeds| == 0 then ([], cache)
    else
      var feed := feeds[0];
      var key := Key(feed.name);
      if !Has(cache, key, now) then UpdateSpec(feeds[1..], now, ttl, Put(cache, key, now, now, ttl))
      else
        var (texts, next) := FeedSpec(feed, cache[key].value);
        var cache' := Put(cache, key, next, now, ttl);
        if |texts| > 0 then (Notices(feed.channel, texts), cache')
        else UpdateSpec(feeds[1..], now, ttl, cache')
  }

  /** update_feeds at the feed with index i: a feed without a stored
      timestamp only stores the current time; a known one stores its newest
      time and ends the ping when it has news. */
  lemma UpdateOne(feeds: seq<Feed>, i: nat, now: int, ttl: int, cache: map<string, Stored>)
    requires i < |feeds|
    ensures var key := Key(feeds[i].name);
      !Has(cache, key, now) ==>
        UpdateSpec(feeds[i..], now, ttl, cache) == UpdateSpec(feeds[i + 1..], now, ttl, Put(cache, key, now, now, ttl))
    ensures var key := Key(feeds[i].name);
      Has(cache, key, now) ==>
        var (texts, next) := FeedSpec(feeds[i], cache[key].value);
        UpdateSpec(feeds[i..], now, ttl, cache) ==
          if |texts| > 0 then (Notices(feeds[i].channel, texts), Put(cache, key, next, now, ttl))
          else UpdateSpec(feeds[i + 1..], now, ttl, Put(cache, key, next, now, ttl))
  {
    assert feeds[i..][0] == feeds[i] && feeds[i..][1..] == feeds[i + 1..];
  }

  /** A ping reports at most three notices, all of one feed and to its channel. */
  lemma {:induction false} OneFeedPerPing(feeds: seq<Feed>, now: int, ttl: int, cache: map<string, Stored>)
    ensures var notices := UpdateSpec(feeds, now, ttl, cache).0;
      |notices| == 0 || exists i, texts :: (0 <= i < |feeds| && |texts| <= FLOOD_LIMIT
        && notices == Notices(feeds[i].channel, texts))
    decreases |feeds|
  {
    if |feeds| > 0 {
      var feed := feeds[0];
      var key := Key(feed.name);
      var notices := UpdateSpec(feeds, now, ttl, cache).0;
      if !Has(cache, key, now) {
        OneFeedPerPing(feeds[1..], now, ttl, Put(cache, key, now, now, ttl));
        OneLater(feeds, notices);
      } else {
        var (texts, next) := FeedSpec(feed, cache[key].value);
        FeedReport(feed, cache[key].value);
        if |texts| == 0 {
          OneFeedPerPing(feeds[1..], now, ttl, Put(cache, key, next, now, ttl));
          OneLater(feeds, notices);
        } else {
          assert notices == Notices(feeds[0].channel, texts);
        }
      }
    }
  }

  /** A witness among the later feeds is a witness among all of them. */
  lemma OneLater(feeds: seq<Feed>, notices: seq<Messages.Message>)
    requires |feeds| > 0
    requires |notices| == 0 || exists i, texts :: (0 <= i < |feeds[1..]| && |texts| <= FLOOD_LIMIT
      && notices == Notices(feeds[1..][i].channel, texts))
    ensures |notices| == 0 || exists i, texts :: (0 <= i < |feeds| && |texts| <= FLOOD_LIMIT
      && notices == Notices(feeds[i].channel, texts))
  {
    if |notices| > 0 {
      var i, texts :| 0 <= i < |feeds[1..]| && |texts| <= FLOOD_LIMIT && notices == Notices(feeds[1..][i].channel, texts);
      assert feeds[1..][i] == feeds[i + 1];
    }
  }

  /** The stored timestamp of a feed never goes back while its entry lives
      (for a positive ttl). */
  lemma {:induction false} TimestampsNeverDecrease(feeds: seq<Feed>, now: int, ttl: int, cache: map<string, Stored>, k: string)
    requires ttl > 0 && Has(cache, k, now)
    ensures var after := UpdateSpec(feeds, now, ttl, cache).1;
      Has(after, k, now) && after[k].value >= cache[k].value
    decreases |feeds|
  {
    if |feeds| > 0 {
      var feed := feeds[0];
      var key := Key(feed.name);
      if !Has(cache, key, now) {
        TimestampsNeverDecrease(feeds[1..], now, ttl, Put(cache, key, now, now, ttl), k);
      } else {
        var (texts, next) := FeedSpec(feed, cache[key].value);
        FeedReport(feed, cache[key].value);
        if |texts| == 0 {
          TimestampsNeverDecrease(feeds[1..], now, ttl, Put(cache, key, next, now, ttl), k);
        }
      }
    }
  }

  /** Distinct names give distinct cache keys. */
  lemma KeyInjective(a: string, b: string)
    requires Key(a) == Key(b)
    ensures a == b
  {
    assert a == Key(a)[13..];
    assert b == Key(b)[13..];
  }

  /** The first run is quiet: when no feed has a stored timestamp, the ping
      reports nothing and stores the current time for every feed. */
  lemma {:induction false} FirstRunIsQuiet(feeds: seq<Feed>, now: int, ttl: int, cache: map<string, Stored>)
    requires forall i, j :: 0 <= i < j < |feeds| ==> feeds[i].name != feeds[j].name
    requires forall i :: 0 <= i < |feeds| ==> !Has(cache, Key(feeds[i].name), now)
    ensures var (notices, after) := UpdateSpec(feeds, now, ttl, cache);
      && notices == []
      && forall i :: 0 <= i < |feeds| ==> Key(feeds[i].name) in after && after[Key(feeds[i].name)] == Stored(now, now + 60 * ttl)
    decreases |feeds|
  {
    if |feeds| > 0 {
      var key := Key(feeds[0].name);
      var cache' := Put(cache, key, now, now, ttl);
      forall i | 0 <= i < |feeds[1..]|
        ensures Key(feeds[1..][i].name) != key
      {
        assert feeds[1..][i] == feeds[i + 1];
      }
      FirstRunIsQuiet(feeds[1..], now, ttl, cache');
      var after := UpdateSpec(feeds, now, ttl, cache).1;
      assert after == UpdateSpec(feeds[1..], now, ttl, cache').1;
      assert key in after && after[key] == Stored(now, now + 60 * ttl) by {
        StoredStays(feeds[1..], now, ttl, cache', key);
      }
      forall i | 1 <= i < |feeds|
        ensures Key(feeds[i].name) in after && after[Key(feeds[i].name)] == Stored(now, now + 60 * ttl)
      {
        assert feeds[i] == feeds[1..][i - 1];
      }
    }
  }

  /** A key no later feed names keeps its entry. */
  lemma {:induction false} StoredStays(feeds: seq<Feed>, now: int, ttl: int, cache: map<string, Stored>, key: string)
    requires key in cache
    requires forall i :: 0 <= i < |feeds| ==> Key(feeds[i].name) != key
    ensures var after := UpdateSpec(feeds, now, ttl, cache).1;
      key in after && after[key] == cache[key]
    decreases |feeds|
  {
    if |feeds| > 0 {
      var k := Key(feeds[0].name);
      if !Has(cache, k, now) {
        StoredStays(feeds[1..], now, ttl, Put(cache, k, now, now, ttl), key);
      } else {
        var (texts, next) := FeedSpec(feeds[0], cache[k].value);
        if |texts| == 0 {
          StoredStays(feeds[1..], now, ttl, Put(cache, k, next, now, ttl), key);
        }
      }
    }
  }

  // ---------------------------------------------------------------------------
  // The notifier

  /** The cache of stored timestamps the notifier reads and writes. */
  class Notifier {
    var cache: map<string, Stored>

    constructor(cache: map<string, Stored>)
      ensures this.cache == cache
    {
      this.cache := cache;
    }

    /** The template with the item's values in place of its tokens. */
    static method Fill(message: string, item: Item) returns (text: string)
      ensures text == Render(message, item)
    {
      var tokens := Tokens(message);
      text := message;
      if |tokens| > 0 {
        var search: seq<string> := [];
        var replace: seq<string> := [];
        for i := 0 to |tokens|
          invariant search == Searches(tokens[..i])
          invariant replace == Values(tokens[..i], item)
        {
          search := search + [Token(tokens[i])];
          replace := replace + [Field(item, tokens[i])];
        }
        assert tokens[..|tokens|] == tokens;
        text := ReplaceAll(message, search, replace);
      }
    }

    /** The item loop of one known feed. */
    static method Scan(feed: Feed, last: int) returns (texts: seq<string>, next: int)
      ensures (texts, next) == FeedSpec(feed, last)
    {
      texts := [];
      next := last;
      var j := 0;
      while j < |feed.items|
        invariant 0 <= j <= |feed.items| && |texts| < FLOOD_LIMIT
        invariant Collect(feed.items[j..], feed.message, last, next, texts) == FeedSpec(feed, last)
      {
        var item := feed.items[j];
        assert feed.items[j..][0] == item && feed.items[j..][1..] == feed.items[j + 1..];
        next := Max(next, item.time);
        if item.time > last {
          var text := Fill(feed.message, item);
          texts := texts + [text];
        }
        if |texts| >= FLOOD_LIMIT {
          return;
        }
        j := j + 1;
      }
    }

    /** update_feeds: the notices of the first feed with news, and the cache
        updated for every feed up to it. */
    method UpdateFeeds(feeds: seq<Feed>, now: int, ttl: int) returns (response: seq<Messages.Message>)
      modifies this
      ensures (response, cache) == UpdateSpec(feeds, now, ttl, old(cache))
    {
      response := [];
      var i := 0;
      while i < |feeds|
        invariant 0 <= i <= |feeds| && response == []
        invariant UpdateSpec(feeds[i..], now, ttl, cache) == UpdateSpec(feeds, now, ttl, old(cache))
      {
        var feed := feeds[i];
        var key := Key(feed.name);
        UpdateOne(feeds, i, now, ttl, cache);
        if !Has(cache, key, now) {
          cache := Put(cache, key, now, now, ttl);
        } else {
          var messages, next := Scan(feed, cache[key].value);
          cache := Put(cache, key, next, now, ttl);
          if |messages| > 0 {
            response := Announce(feed.channel, messages);
            return;
          }
        }
        i := i + 1;
      }
    }

    /** The notices of one feed's texts, in order. */
    static method Announce(channel: string, messages: seq<string>) returns (response: seq<Messages.Message>)
      ensures response == Notices(channel, messages)
    {
      response := [];
      for j := 0 to |messages|
        invariant response == Notices(channel, messages[..j])
      {
        response := response + [Messages.Notice(channel, messages[j])];
      }
      assert messages[..|messages|] == messages;
    }
  }
}
