/**
 * The bundles watcher: on a server PING, unless the last check is still
 * cached (ten minutes), the bot reads the bundle RSS feed, announces in
 * #laravel the first bundle dated after the newest one it announced before,
 * and caches that date. `bundle-reset` forgets the cache; `help` explains.
 * The feed text has its stray ampersands escaped before it is parsed.
 */
module Bundles {
  import opened Text
  import Senders
  import Messages
  import Commands

  const CHANNEL := "#laravel"

  /** How long a check stays cached, in minutes. */
  const TTL := 10

  // ---------------------------------------------------------------------------
  // Escaping the feed text

  /** What may follow an ampersand that the pattern
      `&(?!amp;|quot;|lt;|gt;|\d{1,3};)` leaves alone. */
  predicate IsProtected(t: string)
    ensures StartsWith(t, "amp;") ==> IsProtected(t)
    ensures |t| < 2 ==> !IsProtected(t)
  {
    || StartsWith(t, "amp;") || StartsWith(t, "quot;") || StartsWith(t, "lt;") || StartsWith(t, "gt;")
    || (var d := Senders.Run(t, IsDigit); 1 <= d <= 3 && d < |t| && t[d] == ';')
  }

  /** Every unprotected `&` replaced by `&amp;`. */
  function EscapeAmp(s: string): (r: string)
    ensures |r| >= |s|
    decreases |s|
  {
    if |s| == 0 then ""
    else if s[0] == '&' && !IsProtected(s[1..]) then "&amp;" + EscapeAmp(s[1..])
    else [s[0]] + EscapeAmp(s[1..])
  }

  /** Every ampersand of s is protected. */
  predicate Escaped(s: string)
    ensures '&' !in s ==> Escaped(s)
    ensures Escaped(s) ==> |s| == 0 || s[|s| - 1] != '&'
    decreases |s|
  {
    |s| == 0 || ((s[0] != '&' || IsProtected(s[1..])) && Escaped(s[1..]))
  }

  /** Text without ampersands passes through the escaping unchanged. */
  lemma {:induction false} EscapeSkips(p: string, x: string)
    requires '&' !in p
    ensures EscapeAmp(p + x) == p + EscapeAmp(x)
    decreases |p|
  {
    if |p| == 0 {
      assert p + x == x;
    } else {
      assert (p + x)[0] == p[0];
      assert (p + x)[1..] == p[1..] + x;
      EscapeSkips(p[1..], x);
      assert p == [p[0]] + p[1..];
    }
  }

  /** Text without ampersands in front of an escaped text keeps it escaped. */
  lemma {:induction false} EscapedAfter(p: string, x: string)
    requires '&' !in p && Escaped(x)
    ensures Escaped(p + x)
    decreases |p|
  {
    if |p| == 0 {
      assert p + x == x;
    } else {
      assert (p + x)[0] == p[0];
      assert (p + x)[1..] == p[1..] + x;
      EscapedAfter(p[1..], x);
    }
  }

  /** A protected text stays protected once escaped: escaping does not touch
      the characters that protect it. */
  lemma ProtectionKept(t: string)
    requires IsProtected(t)
    ensures IsProtected(EscapeAmp(t))
  {
    var d := Senders.Run(t, IsDigit);
    if StartsWith(t, "amp;") {
      KeptPrefix(t, "amp;");
    } else if StartsWith(t, "quot;") {
      KeptPrefix(t, "quot;");
    } else if StartsWith(t, "lt;") {
      KeptPrefix(t, "lt;");
    } else if StartsWith(t, "gt;") {
      KeptPrefix(t, "gt;");
    } else {
      NumericKept(t, d);
    }
  }

  /** One to three digits and a semicolon after the ampersand survive the
      escaping. */
  lemma NumericKept(t: string, d: nat)
    requires d == Senders.Run(t, IsDigit) && 1 <= d <= 3 && d < |t| && t[d] == ';'
    ensures var e := EscapeAmp(t); Senders.Run(e, IsDigit) == d && d < |e| && e[d] == ';'
  {
    var p := t[..d];
    assert forall i :: 0 <= i < d ==> IsDigit(p[i]);
    assert t == p + ";" + t[d + 1..];
    EscapeSkips(p + ";", t[d + 1..]);
    var e := EscapeAmp(t);
    assert e == p + (";" + EscapeAmp(t[d + 1..]));
    Senders.RunOfAll(p, ";" + EscapeAmp(t[d + 1..]), IsDigit);
    assert e[d] == ';';
  }

  /** A prefix without ampersands survives the escaping. */
  lemma KeptPrefix(t: string, p: string)
    requires StartsWith(t, p) && '&' !in p
    ensures StartsWith(EscapeAmp(t), p)
  {
    assert t == p + t[|p|..];
    EscapeSkips(p, t[|p|..]);
  }

  /** After escaping, every ampersand is protected. */
  lemma {:induction false} EscapeAmpEscapes(s: string)
    ensures Escaped(EscapeAmp(s))
    decreases |s|
  {
    if |s| > 0 {
      EscapeAmpEscapes(s[1..]);
      var rest := EscapeAmp(s[1..]);
      if s[0] == '&' && !IsProtected(s[1..]) {
        var r := "&amp;" + rest;
        assert r[1..] == "amp;" + rest;
        EscapedAfter("amp;", rest);
        assert StartsWith(r[1..], "amp;");
      } else if s[0] == '&' {
        ProtectionKept(s[1..]);
        assert ([s[0]] + rest)[1..] == rest;
      } else {
        assert ([s[0]] + rest)[1..] == rest;
      }
    }
  }

  /** A text whose ampersands are all protected is left as it is. */
  lemma {:induction false} EscapedUnchanged(s: string)
    requires Escaped(s)
    ensures EscapeAmp(s) == s
    decreases |s|
  {
    if |s| > 0 {
      EscapedUnchanged(s[1..]);
      assert [s[0]] + s[1..] == s;
    }
  }

  /** Escaping twice is escaping once. */
  lemma EscapeAmpIdempotent(s: string)
    ensures EscapeAmp(EscapeAmp(s)) == EscapeAmp(s)
  {
    EscapeAmpEscapes(s);
    EscapedUnchanged(EscapeAmp(s));
  }

  /** A bare ampersand is escaped; an entity is kept. */
  lemma EscapeExample()
    ensures EscapeAmp("a&b") == "a&amp;b"
    ensures EscapeAmp("&lt;") == "&lt;"
  {
    assert !IsProtected("b") by {
      assert Senders.Run("b", IsDigit) == 0;
    }
    assert EscapeAmp("b") == "b";
    assert "a&b"[1..] == "&b" && "&b"[1..] == "b";
    assert EscapeAmp("&b") == "&amp;" + "b";
    assert IsProtected("lt;") by {
      assert StartsWith("lt;", "lt;");
    }
    EscapeSkips("lt;", "");
    assert "lt;" + "" == "lt;";
    assert EscapeAmp("") == "";
    assert "&lt;"[1..] == "lt;";
  }

  // ---------------------------------------------------------------------------
  // Announcing bundles

  /** An item of the feed: title, link, description and `dc:date`. */
  datatype Bundle = Bundle(name: string, link: string, desc: string, date: string)

  /** The announcement of a bundle in #laravel: its name and link. */
  function Announcement(b: Bundle): (m: Messages.Message)
    ensures m.command == "PRIVMSG" && |m.params| == 2 && m.params[0] == CHANNEL
    ensures m.raw == "PRIVMSG " + CHANNEL + " :" + ("New Bundle: " + b.name + " " + b.link)
  {
    Messages.Privmsg(CHANNEL, "New Bundle: " + b.name + " " + b.link)
  }

  /** The index of the first item whose date sorts after `updated` (strcmp). */
  function FirstNewer(items: seq<Bundle>, updated: string): (r: Option<nat>)
    ensures r.Some? ==> r.value < |items| && LexLess(updated, items[r.value].date)
    ensures r.Some? ==> forall j :: 0 <= j < r.value ==> !LexLess(updated, items[j].date)
    ensures r.None? ==> forall j :: 0 <= j < |items| ==> !LexLess(updated, items[j].date)
  {
    if |items| == 0 then None
    else if LexLess(updated, items[0].date) then Some(0)
    else
      match FirstNewer(items[1..], updated)
      case None => None
      case Some(k) => Some(k + 1)
  }

  lemma FirstNewerIs(items: seq<Bundle>, updated: string, i: nat)
    requires i < |items| && LexLess(updated, items[i].date)
    requires forall j :: 0 <= j < i ==> !LexLess(updated, items[j].date)
    ensures FirstNewer(items, updated) == Some(i)
  {
    var r := FirstNewer(items, updated);
    assert r.Some?;
    assert !(r.value < i);
    assert !(i < r.value);
  }

  /** The `bundle-rss` cache entry: the date stored and when it expires. */
  datatype Entry = Entry(value: string, until: int)

  /** What the watcher keeps: the date of the newest bundle announced (the
      closure's `$updated`) and the cache entry, if any. */
  datatype Watch = Watch(updated: string, cache: Option<Entry>)

  /** Cache::has('bundle-rss'): an entry that has not expired. */
  predicate Cached(cache: Option<Entry>, now: int)
    ensures Cached(cache, now) ==> cache.Some?
    ensures cache.Some? ==> (Cached(cache, now) <==> now < cache.value.until)
  {
    cache.Some? && now < cache.value.until
  }

  /** At start-up `$updated` is the cached date, or "" without one. */
  function Boot(cache: Option<Entry>, now: int): (w: Watch)
    ensures w.cache == cache
    ensures Cached(cache, now) ==> w.updated == cache.value.value
    ensures !Cached(cache, now) ==> w.updated == ""
  {
    Watch(if Cached(cache, now) then cache.value.value else "", cache)
  }

  /** What a ping announces: nothing while the check is cached or when the
      feed could not be read or parsed (None), else the first newer item. */
  function Announced(w: Watch, now: int, fetched: Option<seq<Bundle>>): (r: Option<Bundle>)
    ensures r.Some? ==> LexLess(w.updated, r.value.date)
  {
    if Cached(w.cache, now) || fetched.None? then None
    else
      match FirstNewer(fetched.value, w.updated)
      case None => None
      case Some(i) => Some(fetched.value[i])
  }

  /** The watch after a ping: a read feed advances the date to the announced
      bundle's, if any, and caches it for ten minutes. */
  function After(w: Watch, now: int, fetched: Option<seq<Bundle>>): (r: Watch)
    ensures AtMost(w.updated, r.updated)
    ensures Cached(w.cache, now) || fetched.None? ==> r == w
    ensures !Cached(w.cache, now) && fetched.Some? ==> r.cache == Some(Entry(r.updated, now + 60 * TTL))
  {
    if Cached(w.cache, now) || fetched.None? then w
    else
      var updated := match Announced(w, now, fetched) case Some(b) => b.date case None => w.updated;
      Watch(updated, Some(Entry(updated, now + 60 * TTL)))
  }

  /** The messages a ping returns. */
  function PingSpec(w: Watch, now: int, fetched: Option<seq<Bundle>>): (r: seq<Messages.Message>)
    ensures |r| <= 1
  {
    match Announced(w, now, fetched)
    case Some(b) => [Announcement(b)]
    case None => []
  }

  /** A ping moves the date forward and announces exactly when it does. */
  lemma PingAdvances(w: Watch, now: int, fetched: Option<seq<Bundle>>)
    ensures var w' := After(w, now, fetched);
      && (Announced(w, now, fetched).Some? ==>
           LexLess(w.updated, w'.updated) && w'.updated == Announced(w, now, fetched).value.date)
      && (Announced(w, now, fetched).None? ==> w'.updated == w.updated)
  {
  }

  /** While the check is cached a ping does nothing at all. */
  lemma QuietWhileCached(w: Watch, now: int, fetched: Option<seq<Bundle>>)
    requires Cached(w.cache, now)
    ensures PingSpec(w, now, fetched) == [] && After(w, now, fetched) == w
  {
  }

  /** A read feed is cached until ten minutes later. */
  lemma CachedAfterRead(w: Watch, now: int, items: seq<Bundle>)
    requires !Cached(w.cache, now)
    ensures var w' := After(w, now, Some(items));
      w'.cache == Some(Entry(w'.updated, now + 600)) && forall t :: now <= t < now + 600 ==> Cached(w'.cache, t)
  {
  }

  /** One ping of a sequence: the time and the feed read, if it was. */
  datatype Ping = Ping(now: int, fetched: Option<seq<Bundle>>)

  /** The bundles a sequence of pings announces, and the watch after them. */
  function Pings(w: Watch, ps: seq<Ping>): (r: (seq<Bundle>, Watch))
    ensures |r.0| <= |ps|
    ensures (forall i :: 0 <= i < |ps| ==> ps[i].fetched.None?) ==> r == ([], w)
    decreases |ps|
  {
    if |ps| == 0 then ([], w)
    else
      var p := ps[0];
      var rest := Pings(After(w, p.now, p.fetched), ps[1..]);
      match Announced(w, p.now, p.fetched)
      case Some(b) => ([b] + rest.0, rest.1)
      case None => rest
  }

  predicate AtMost(a: string, b: string)
  {
    a == b || LexLess(a, b)
  }

  /** Over any sequence of pings the announced dates strictly increase, all
      after the starting date and none after the final one. */
  lemma {:induction false} PingsIncrease(w: Watch, ps: seq<Ping>)
    ensures var (bs, w') := Pings(w, ps);
      && (forall i :: 0 <= i < |bs| ==> LexLess(w.updated, bs[i].date) && AtMost(bs[i].date, w'.updated))
      && (forall i, j :: 0 <= i < j < |bs| ==> LexLess(bs[i].date, bs[j].date))
      && AtMost(w.updated, w'.updated)
    decreases |ps|
  {
    if |ps| > 0 {
      var p := ps[0];
      var w1 := After(w, p.now, p.fetched);
      PingAdvances(w, p.now, p.fetched);
      PingsIncrease(w1, ps[1..]);
      var (rest, w') := Pings(w1, ps[1..]);
      match Announced(w, p.now, p.fetched)
      case Some(b) =>
        var bs := [b] + rest;
        forall i | 0 <= i < |rest|
          ensures LexLess(w.updated, rest[i].date) && LexLess(b.date, rest[i].date)
        {
          LexLessTransitive(w.updated, b.date, rest[i].date);
        }
        if w1.updated != w'.updated {
          LexLessTransitive(w.updated, w1.updated, w'.updated);
        }
        forall i, j | 0 <= i < j < |bs|
          ensures LexLess(bs[i].date, bs[j].date)
        {
          if i > 0 {
            assert bs[i] == rest[i - 1] && bs[j] == rest[j - 1];
          } else {
            assert bs[j] == rest[j - 1];
          }
        }
        forall i | 0 <= i < |bs|
          ensures LexLess(w.updated, bs[i].date) && AtMost(bs[i].date, w'.updated)
        {
          if i > 0 {
            assert bs[i] == rest[i - 1];
          }
        }
      case None =>
    }
  }

  /** No bundle date is announced twice. */
  lemma NeverTwice(w: Watch, ps: seq<Ping>)
    ensures var bs := Pings(w, ps).0;
      forall i, j :: 0 <= i < j < |bs| ==> bs[i].date != bs[j].date
  {
    PingsIncrease(w, ps);
    var bs := Pings(w, ps).0;
    forall i, j | 0 <= i < j < |bs|
      ensures bs[i].date != bs[j].date
    {
      LexLessIrreflexive(bs[i].date);
    }
  }

  /** The watcher, with the closure's date and the cache entry as fields. */
  class Watcher {
    var updated: string
    var cache: Option<Entry>

    function State(): Watch
      reads this
    {
      Watch(updated, cache)
    }

    constructor(cache: Option<Entry>, now: int)
      ensures State() == Boot(cache, now)
    {
      this.updated := if Cached(cache, now) then cache.value.value else "";
      this.cache := cache;
    }

    /** The `ping` listener. */
    method Ping(now: int, fetched: Option<seq<Bundle>>) returns (response: seq<Messages.Message>)
      modifies this
      ensures response == PingSpec(old(State()), now, fetched)
      ensures State() == After(old(State()), now, fetched)
    {
      response := [];
      if !Cached(cache, now) && fetched.Some? {
        var items := fetched.value;
        var i := 0;
        while i < |items|
          invariant 0 <= i <= |items|
          invariant updated == old(updated) && cache == old(cache) && response == []
          invariant forall j :: 0 <= j < i ==> !LexLess(updated, items[j].date)
        {
          if LexLess(updated, items[i].date) {
            FirstNewerIs(items, updated, i);
            response := [Announcement(items[i])];
            updated := items[i].date;
            break;
          }
          i := i + 1;
        }
        cache := Some(Entry(updated, now + 60 * TTL));
      }
    }

    /** `bundle-reset`: the cache entry is forgotten, so the next ping reads the feed. */
    method Reset()
      modifies this
      ensures State() == old(State()).(cache := None)
    {
      cache := None;
    }
  }

  const HELP_TEXT := "IRC Bundles: Bundles are checked periodically on PING, use \"bundle-reset\" to clear the cache."

  /** The reply to `help`: the explanation, privately to whoever asked. */
  function Help(c: Commands.Command): (m: Messages.Message)
    ensures m.command == "PRIVMSG" && m.params == [Senders.NickOf(c.sender), ":" + HELP_TEXT]
  {
    Messages.Privmsg(Senders.NickOf(c.sender), HELP_TEXT)
  }
}
