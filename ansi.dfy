/**
 * ANSI terminal escapes (the SGR sequences `ESC [ p1 ; ... ; pn m`) as the
 * bot's console output builds them: a colour with an optional bold flag,
 * bold on its own, and the reset.
 */
module Ansi {
  import opened Text

  const ESC := "\U{1B}"

  const FOREGROUND := 30
  const BLACK := 0
  const RED := 1
  const GREEN := 2
  const YELLOW := 3
  const BLUE := 4
  const MAGENTA := 5
  const CYAN := 6
  const WHITE := 7
  const BOLD := 1

  /** The decimal renderings of the parameters. */
  function Decimals(ps: seq<int>): (r: seq<string>)
    ensures |r| == |ps| && forall i :: 0 <= i < |ps| ==> r[i] == Decimal(ps[i])
  {
    seq(|ps|, i requires 0 <= i < |ps| => Decimal(ps[i]))
  }

  /** ANSI::escape: ESC, `[`, the parameters joined by `;`, then the code. */
  function Escape(code: string, ps: seq<int>): (r: string)
    ensures |r| >= 2 + |code| && r[..2] == ESC + "[" && r[|r| - |code|..] == code
  {
    var s := ESC + "[" + Join(";", Decimals(ps)) + code;
    assert s[..2] == ESC + "[";
    s
  }

  /** A rendered integer holds only digits and a minus sign. */
  lemma DecimalChars(n: int)
    ensures forall i :: 0 <= i < |Decimal(n)| ==> IsDigit(Decimal(n)[i]) || Decimal(n)[i] == '-'
  {
    if n < 0 {
      var d := Natural(-n);
      assert IsDigits(d);
      assert forall i :: 1 <= i < |Decimal(n)| ==> Decimal(n)[i] == d[i - 1];
    }
  }

  /** An escape is decoded by splitting between `[` and the code on `;`: the
      parameters come back in order. */
  lemma EscapeDecodes(code: char, ps: seq<int>)
    requires |ps| >= 1
    ensures var s := Escape([code], ps);
      && s[..2] == ESC + "[" && s[|s| - 1] == code
      && Split(s[2..|s| - 1], ';') == Decimals(ps)
  {
    var parts := Decimals(ps);
    forall i | 0 <= i < |parts|
      ensures ';' !in parts[i]
    {
      DecimalChars(ps[i]);
    }
    var s := Escape([code], ps);
    assert s[2..|s| - 1] == Join(";", parts);
    SplitOfJoin(parts, ';');
  }

  /** `$color += FOREGROUND` for the values below 10; others pass unchanged. */
  function Foreground(color: int): (r: int)
    ensures color < 10 ==> r == color + FOREGROUND
    ensures color >= 10 ==> r == color
  {
    if color < 10 then color + FOREGROUND else color
  }

  /** A named colour becomes its foreground code 30 to 37, and a code that is
      already a foreground code is left as it is. */
  lemma ForegroundCodes(color: int)
    ensures BLACK <= color <= WHITE ==> 30 <= Foreground(color) <= 37
    ensures 30 <= color <= 37 ==> Foreground(color) == color
  {
  }

  /** ANSI::reset. */
  function Reset(): (r: string)
    ensures r == ESC + "[0m"
  {
    assert Natural(0) == "0";
    Escape("m", [0])
  }

  /** ANSI::color: the bold flag (0 or 1) and the colour code, then the text
      and a reset when the text is truthy. */
  function Color(color: int, bold: bool, text: string := ""): (r: string)
    ensures var head := Escape("m", [if bold then 1 else 0, Foreground(color)]);
      && (Truthy(text) ==> r == head + text + Reset())
      && (!Truthy(text) ==> r == head)
  {
    var head := Escape("m", [if bold then 1 else 0, Foreground(color)]);
    if Truthy(text) then head + text + Reset() else head
  }

  /** ANSI::bold: the bold escape, then the text and a reset when the text is truthy. */
  function Bold(text: string := ""): (r: string)
    ensures !Truthy(text) ==> r == ESC + "[1m"
    ensures Truthy(text) ==> r == ESC + "[1m" + text + ESC + "[0m"
  {
    assert Natural(1) == "1";
    var head := Escape("m", [BOLD]);
    if Truthy(text) then head + text + Reset() else head
  }

  /** PHP reads "0" as false, so a text of "0" prints nothing at all. */
  lemma ZeroTextIsAbsent(color: int, bold: bool)
    ensures Color(color, bold, "0") == Color(color, bold, "")
    ensures Bold("0") == Bold("")
  {
  }

  /** The colour escape puts the bold flag first and the colour code second. */
  lemma ColorLayout(color: int, bold: bool, text: string)
    ensures var r := Color(color, bold, text);
      var codes := Split(Escape("m", [if bold then 1 else 0, Foreground(color)])[2..|Escape("m", [if bold then 1 else 0, Foreground(color)])| - 1], ';');
      && r[..2] == ESC + "["
      && codes == [if bold then "1" else "0", Decimal(Foreground(color))]
  {
    var ps := [if bold then 1 else 0, Foreground(color)];
    EscapeDecodes('m', ps);
    assert Natural(1) == "1" && Natural(0) == "0";
    var r := Color(color, bold, text);
    var head := Escape("m", ps);
    assert r[..2] == head[..2];
  }

  /** Bold red text, as the logger prints errors. */
  lemma RedExample()
    ensures Color(RED, true, "x") == ESC + "[1;31mx" + ESC + "[0m"
  {
    assert Natural(1) == "1";
    assert Natural(31) == "31" by {
      assert Natural(3) == "3";
    }
    assert Join(";", ["1", "31"]) == "1;31";
    assert Decimals([1, 31]) == ["1", "31"];
  }
}
