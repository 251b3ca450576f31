/**
 * The PHP string primitives the bot is built from, stated once: explode and
 * implode, strpos, str_replace, strtolower/strtoupper, trim, rtrim, PHP's
 * truthiness of strings and the decimal rendering of integers.
 */
module Text {

  datatype Option<+T> = None | Some(value: T)
  {
    /** The value, or `other` for PHP's null. */
    function GetOr(other: T): T
    {
      match this
      case Some(v) => v
      case None => other
    }
  }

  /** The element at index i, or None where PHP would read an undefined offset (null). */
  function At(s: seq<string>, i: nat): (r: Option<string>)
    ensures r.Some? <==> i < |s|
    ensures i < |s| ==> r.value == s[i]
  {
    if i < |s| then Some(s[i]) else None
  }

  /** A string is truthy in PHP unless it is "" or "0". */
  predicate Truthy(s: string)
  {
    s != "" && s != "0"
  }

  predicate OptTruthy(s: Option<string>)
  {
    s.Some? && Truthy(s.value)
  }

  function Last(s: seq<string>): string
  {
    if |s| == 0 then "" else s[|s| - 1]
  }

  // ---------------------------------------------------------------------------
  // Searching

  /** strpos with a one-character needle: the first index of c in s. */
  function IndexOf(s: string, c: char): (r: Option<nat>)
    ensures r.None? <==> c !in s
    ensures r.Some? ==> r.value < |s| && s[r.value] == c && c !in s[..r.value]
  {
    if |s| == 0 then None
    else if s[0] == c then Some(0)
    else
      match IndexOf(s[1..], c)
      case None => None
      case Some(k) =>
        assert s[1..][..k] == s[1..k + 1];
        assert s[..k + 1] == [s[0]] + s[1..k + 1];
        Some(k + 1)
  }

  /** t occurs in s starting at index j. */
  predicate OccursAt(s: string, t: string, j: int)
  {
    0 <= j && j + |t| <= |s| && s[j..j + |t|] == t
  }

  /** strpos with a string needle: the first index at which t occurs in s. */
  function Find(s: string, t: string): (r: Option<nat>)
    ensures r.Some? ==> OccursAt(s, t, r.value)
    ensures r.Some? ==> forall j :: 0 <= j < r.value ==> !OccursAt(s, t, j)
    ensures r.None? ==> forall j :: 0 <= j ==> !OccursAt(s, t, j)
    decreases |s|
  {
    if |s| < |t| then None
    else if s[..|t|] == t then Some(0)
    else
      ShiftOccurs(s, t);
      match Find(s[1..], t)
      case None => None
      case Some(k) => Some(k + 1)
  }

  /** An occurrence in the tail of s is an occurrence in s one place later. */
  lemma ShiftOccurs(s: string, t: string)
    requires |s| > 0
    ensures forall j :: 1 <= j ==> (OccursAt(s, t, j) <==> OccursAt(s[1..], t, j - 1))
  {
    forall j | 1 <= j
      ensures OccursAt(s, t, j) <==> OccursAt(s[1..], t, j - 1)
    {
      if j + |t| <= |s| {
        assert s[1..][j - 1..j - 1 + |t|] == s[j..j + |t|];
      }
    }
  }

  predicate Contains(s: string, t: string)
  {
    Find(s, t).Some?
  }

  predicate StartsWith(s: string, p: string)
  {
    |p| <= |s| && s[..|p|] == p
  }

  /** A prefix one element longer is the shorter prefix and that element. */
  lemma TakeOneMore<T>(s: seq<T>, i: nat)
    requires i < |s|
    ensures s[..i + 1] == s[..i] + [s[i]]
  {
  }

  /** Appending to a non-empty sequence keeps its first element in front. */
  lemma HeadAppend<T>(a: seq<T>, y: seq<T>)
    requires |a| > 0
    ensures a + y == [a[0]] + (a[1..] + y)
  {
  }

  /** A non-empty sequence is its front and its last element. */
  lemma FrontAndLast<T>(s: seq<T>)
    requires |s| > 0
    ensures s[..|s| - 1] + [s[|s| - 1]] == s
  {
  }

  // ---------------------------------------------------------------------------
  // explode and implode

  /** explode(sep, s) for a one-character separator; explode of "" is [""]. */
  function Split(s: string, sep: char): (r: seq<string>)
    ensures |r| >= 1
    ensures forall i :: 0 <= i < |r| ==> sep !in r[i]
    decreases |s|
  {
    match IndexOf(s, sep)
    case None => [s]
    case Some(i) => [s[..i]] + Split(s[i + 1..], sep)
  }

  /** implode(sep, parts). */
  function Join(sep: string, parts: seq<string>): string
  {
    if |parts| == 0 then ""
    else if |parts| == 1 then parts[0]
    else parts[0] + sep + Join(sep, parts[1..])
  }

  /** Joining the pieces of a split gives back the string. */
  lemma {:induction false} JoinOfSplit(s: string, sep: char)
    ensures Join([sep], Split(s, sep)) == s
    decreases |s|
  {
    match IndexOf(s, sep)
    case None =>
    case Some(i) =>
      JoinOfSplit(s[i + 1..], sep);
      var rest := Split(s[i + 1..], sep);
      assert Split(s, sep) == [s[..i]] + rest;
      assert ([s[..i]] + rest)[1..] == rest;
      assert s == s[..i] + [sep] + s[i + 1..];
  }

  /** Splitting a join of separator-free pieces gives back the pieces. */
  lemma {:induction false} SplitOfJoin(parts: seq<string>, sep: char)
    requires |parts| >= 1
    requires forall i :: 0 <= i < |parts| ==> sep !in parts[i]
    ensures Split(Join([sep], parts), sep) == parts
    decreases |parts|
  {
    if |parts| > 1 {
      var head, tail := parts[0], Join([sep], parts[1..]);
      var s := head + [sep] + tail;
      assert Join([sep], parts) == s;
      assert s[..|head|] == head;
      assert s[|head| + 1..] == tail;
      IndexOfAfter(head, sep, tail);
      SplitOfJoin(parts[1..], sep);
      assert Split(s, sep) == [head] + parts[1..];
    }
  }

  /** Joining a head and a non-empty tail puts the separator between them. */
  lemma JoinCons(sep: string, head: string, tail: seq<string>)
    requires |tail| >= 1
    ensures Join(sep, [head] + tail) == head + sep + Join(sep, tail)
  {
    assert ([head] + tail)[1..] == tail;
  }

  /** A character in neither the separator nor any piece is not in their join. */
  lemma {:induction false} JoinAvoids(sep: string, parts: seq<string>, c: char)
    requires c !in sep
    requires forall i :: 0 <= i < |parts| ==> c !in parts[i]
    ensures c !in Join(sep, parts)
  {
    if |parts| > 1 {
      JoinAvoids(sep, parts[1..], c);
    }
  }

  /** Joining several parts is joining all but the last, the separator and the last. */
  lemma {:induction false} JoinSnoc(sep: string, parts: seq<string>)
    requires |parts| >= 2
    ensures Join(sep, parts) == Join(sep, parts[..|parts| - 1]) + sep + parts[|parts| - 1]
  {
    if |parts| > 2 {
      JoinSnoc(sep, parts[1..]);
      assert parts[1..][..|parts| - 2] == parts[..|parts| - 1][1..];
    }
  }

  /** The pieces of a split contain only characters of the string split. */
  lemma {:induction false} SplitAvoids(s: string, sep: char, c: char)
    requires c !in s
    ensures forall i :: 0 <= i < |Split(s, sep)| ==> c !in Split(s, sep)[i]
    decreases |s|
  {
    match IndexOf(s, sep)
    case None =>
    case Some(i) =>
      assert s == s[..i] + [sep] + s[i + 1..];
      SplitAvoids(s[i + 1..], sep, c);
  }

  /** In a + [c] + b with no c in a, the first c is the one after a. */
  lemma {:induction false} IndexOfAfter(a: string, c: char, b: string)
    requires c !in a
    ensures IndexOf(a + [c] + b, c) == Some(|a|)
  {
    if |a| > 0 {
      assert (a + [c] + b)[1..] == a[1..] + [c] + b;
      IndexOfAfter(a[1..], c, b);
    }
  }

  /** The first element of explode(c, s, 2) and the rest after the first c
      ("" where PHP's list() would read a missing element). */
  function SplitOnce(s: string, c: char): (r: (string, string))
    ensures c !in r.0
    ensures c in s ==> s == r.0 + [c] + r.1
    ensures c !in s ==> r == (s, "")
    ensures StartsWith(s, r.0) && (|r.0| == |s| || s[|r.0|] == c)
  {
    match IndexOf(s, c)
    case None => (s, "")
    case Some(i) =>
      assert s == s[..i] + [c] + s[i + 1..];
      (s[..i], s[i + 1..])
  }

  /** Splitting a + [c] + b once, with no c in a, gives a and b. */
  lemma SplitOnceAt(a: string, c: char, b: string)
    requires c !in a
    ensures SplitOnce(a + [c] + b, c) == (a, b)
  {
    IndexOfAfter(a, c, b);
    var s := a + [c] + b;
    assert s[..|a|] == a;
    assert s[|a| + 1..] == b;
  }

  // ---------------------------------------------------------------------------
  // str_replace with a single search string

  /** str_replace(n, r, s): left-to-right, non-overlapping; an empty search string
      leaves the subject unchanged. */
  function Replace(s: string, n: string, r: string): string
    decreases |s|
  {
    if n == "" || |s| < |n| then s
    else if s[..|n|] == n then r + Replace(s[|n|..], n, r)
    else [s[0]] + Replace(s[1..], n, r)
  }

  /** A subject without the first character of the search string is left as it is. */
  lemma {:induction false} ReplaceAbsent(s: string, n: string, r: string)
    requires n != "" && n[0] !in s
    ensures Replace(s, n, r) == s
    decreases |s|
  {
    if |s| >= |n| {
      assert s[..|n|][0] == s[0];
      ReplaceAbsent(s[1..], n, r);
      assert [s[0]] + s[1..] == s;
    }
  }

  /** When no occurrence can start inside a, its first occurrence is the one after a. */
  lemma {:induction false} ReplaceAfter(a: string, n: string, b: string, r: string)
    requires n != "" && n[0] !in a
    ensures Replace(a + n + b, n, r) == a + r + Replace(b, n, r)
    decreases |a|
  {
    var s := a + n + b;
    if |a| == 0 {
      assert s == n + b;
      assert s[..|n|] == n;
      assert s[|n|..] == b;
    } else {
      assert s[0] == a[0] && a[0] != n[0];
      assert s[..|n|] != n by {
        assert s[..|n|][0] == s[0];
      }
      assert Replace(s, n, r) == [s[0]] + Replace(s[1..], n, r);
      assert s[1..] == a[1..] + n + b;
      ReplaceAfter(a[1..], n, b, r);
      assert a == [a[0]] + a[1..];
    }
  }

  /** A prefix without the first character of the search string passes through unchanged. */
  lemma {:induction false} ReplaceSkipping(a: string, x: string, n: string, r: string)
    requires n != "" && n[0] !in a
    ensures Replace(a + x, n, r) == a + Replace(x, n, r)
    decreases |a|
  {
    if |a| == 0 {
      assert a + x == x;
    } else if |a + x| < |n| {
      assert |x| < |n|;
    } else {
      ReplaceSkipOne(a, x, n, r);
      ReplaceSkipping(a[1..], x, n, r);
      HeadAppend(a, Replace(x, n, r));
    }
  }

  /** One step of ReplaceSkipping: the first character is not where a match starts. */
  lemma ReplaceSkipOne(a: string, x: string, n: string, r: string)
    requires n != "" && |a| > 0 && a[0] != n[0] && |a + x| >= |n|
    ensures Replace(a + x, n, r) == [a[0]] + Replace(a[1..] + x, n, r)
  {
    var s := a + x;
    assert s[..|n|] != n by {
      assert s[..|n|][0] == s[0] == a[0];
    }
    assert s[1..] == a[1..] + x;
  }

  // ---------------------------------------------------------------------------
  // Case and whitespace

  function LowerChar(c: char): char
  {
    if 'A' <= c <= 'Z' then (c as int + 32) as char else c
  }

  function UpperChar(c: char): char
  {
    if 'a' <= c <= 'z' then (c as int - 32) as char else c
  }

  /** strtolower (ASCII letters only). */
  function Lower(s: string): (r: string)
    ensures |r| == |s|
    ensures forall i :: 0 <= i < |s| ==> r[i] == LowerChar(s[i])
  {
    seq(|s|, i requires 0 <= i < |s| => LowerChar(s[i]))
  }

  /** strtoupper (ASCII letters only). */
  function Upper(s: string): (r: string)
    ensures |r| == |s|
    ensures forall i :: 0 <= i < |s| ==> r[i] == UpperChar(s[i])
  {
    seq(|s|, i requires 0 <= i < |s| => UpperChar(s[i]))
  }

  /** Upper-casing a string without lower-case letters leaves it unchanged. */
  lemma UpperKeeps(s: string)
    requires forall i :: 0 <= i < |s| ==> !('a' <= s[i] <= 'z')
    ensures Upper(s) == s
  {
  }

  /** strcasecmp(a, b) == 0. */
  predicate EqualsIgnoreCase(a: string, b: string)
  {
    Lower(a) == Lower(b)
  }

  /** The characters PHP's trim() removes by default. */
  predicate IsTrimmed(c: char)
  {
    c == ' ' || c == '\t' || c == '\n' || c == '\r' || c == '\0' || c == '\U{B}'
  }

  function TrimLeft(s: string): (r: string)
    ensures |r| <= |s|
    ensures r == s[|s| - |r|..]
    ensures r == "" || !IsTrimmed(r[0])
  {
    if |s| > 0 && IsTrimmed(s[0]) then TrimLeft(s[1..]) else s
  }

  function TrimRight(s: string): (r: string)
    ensures |r| <= |s|
    ensures r == s[..|r|]
    ensures r == "" || !IsTrimmed(r[|r| - 1])
  {
    if |s| > 0 && IsTrimmed(s[|s| - 1]) then TrimRight(s[..|s| - 1]) else s
  }

  /** trim(s). */
  function Trim(s: string): string
  {
    TrimRight(TrimLeft(s))
  }

  /** rtrim(s, "\r\n"): every trailing CR and LF removed. */
  function StripLineEnd(s: string): (r: string)
    ensures |r| <= |s| && r == s[..|r|]
    ensures r == "" || (r[|r| - 1] != '\r' && r[|r| - 1] != '\n')
    ensures forall i :: |r| <= i < |s| ==> s[i] == '\r' || s[i] == '\n'
  {
    if |s| > 0 && (s[|s| - 1] == '\r' || s[|s| - 1] == '\n') then StripLineEnd(s[..|s| - 1]) else s
  }

  // ---------------------------------------------------------------------------
  // Decimal numbers

  predicate IsDigit(c: char)
  {
    '0' <= c <= '9'
  }

  /** A non-empty string of decimal digits. */
  predicate IsDigits(s: string)
  {
    |s| > 0 && forall i :: 0 <= i < |s| ==> IsDigit(s[i])
  }

  /** The value of a string of decimal digits. */
  function DigitsValue(s: string): nat
    requires forall i :: 0 <= i < |s| ==> IsDigit(s[i])
  {
    if |s| == 0 then 0
    else 10 * DigitsValue(s[..|s| - 1]) + DigitValue(s[|s| - 1])
  }

  function DigitValue(c: char): nat
    requires IsDigit(c)
  {
    c as int - '0' as int
  }

  function DigitChar(d: nat): char
    requires d < 10
  {
    ('0' as int + d) as char
  }

  /** The decimal digits of n, without leading zeros. */
  function Natural(n: nat): (r: string)
    ensures IsDigits(r)
  {
    if n < 10 then [DigitChar(n)] else Natural(n / 10) + [DigitChar(n % 10)]
  }

  /** (string)$n for a PHP integer. */
  function Decimal(n: int): string
  {
    if n < 0 then "-" + Natural(-n) else Natural(n)
  }

  /** The value of a three-digit string. */
  lemma ThreeDigits(a: char, b: char, c: char)
    requires IsDigit(a) && IsDigit(b) && IsDigit(c)
    ensures IsDigits([a, b, c])
    ensures DigitsValue([a, b, c]) == 100 * DigitValue(a) + 10 * DigitValue(b) + DigitValue(c)
  {
    assert [a][..0] == [];
    assert DigitsValue([a]) == DigitValue(a);
    assert [a, b][..1] == [a];
    assert DigitsValue([a, b]) == 10 * DigitValue(a) + DigitValue(b);
    assert [a, b, c][..2] == [a, b];
    assert DigitsValue([a, b, c]) == 10 * DigitsValue([a, b]) + DigitValue(c);
  }

  /** Reading the digits of n back gives n. */
  lemma {:induction false} NaturalValue(n: nat)
    ensures DigitsValue(Natural(n)) == n
  {
    if n >= 10 {
      NaturalValue(n / 10);
      var s := Natural(n);
      assert s[..|s| - 1] == Natural(n / 10);
    }
  }

  /** strcmp(a, b) < 0: a sorts strictly before b, character by character. */
  predicate LexLess(a: string, b: string)
  {
    if |a| == 0 then |b| > 0
    else if |b| == 0 then false
    else if a[0] != b[0] then a[0] < b[0]
    else LexLess(a[1..], b[1..])
  }

  /** strcmp order is irreflexive. */
  lemma {:induction false} LexLessIrreflexive(a: string)
    ensures !LexLess(a, a)
  {
    if |a| > 0 {
      LexLessIrreflexive(a[1..]);
    }
  }

  /** strcmp order is transitive. */
  lemma {:induction false} LexLessTransitive(a: string, b: string, c: string)
    requires LexLess(a, b) && LexLess(b, c)
    ensures LexLess(a, c)
  {
    if |a| > 0 && |b| > 0 && |c| > 0 && a[0] == b[0] && b[0] == c[0] {
      LexLessTransitive(a[1..], b[1..], c[1..]);
    }
  }
}
