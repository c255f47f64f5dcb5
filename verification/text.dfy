/** The string operations the handlers rely on: JavaScript's
    `Number.parseInt` on decimal text, the decimal rendering of an id
    (`id.toString()`), and the case-insensitive substring test behind
    `name ILIKE '%search%'`. */
module Text {
  import opened Common

  predicate IsDigit(c: char) {
    '0' <= c <= '9'
  }

  function DigitValue(c: char): (d: nat)
    requires IsDigit(c)
    ensures d < 10
  {
    (c as int - '0' as int) as nat
  }

  function DigitChar(d: nat): (c: char)
    requires d < 10
    ensures IsDigit(c) && DigitValue(c) == d
  {
    ('0' as int + d) as char
  }

  /** The white space `parseInt` skips before the number (ASCII subset). */
  predicate IsSpace(c: char) {
    c == ' ' || c == '\t' || c == '\n' || c == '\r' || c == '\U{B}' || c == '\U{C}'
  }

  function TrimStart(s: string): (r: string)
    ensures |r| <= |s| && r == s[|s| - |r|..]
    ensures |r| > 0 ==> !IsSpace(r[0])
  {
    if |s| > 0 && IsSpace(s[0]) then TrimStart(s[1..]) else s
  }

  /** Length of the longest prefix of `s` made of decimal digits. */
  function DigitRun(s: string): (k: nat)
    ensures k <= |s|
    ensures forall i :: 0 <= i < k ==> IsDigit(s[i])
    ensures k < |s| ==> !IsDigit(s[k])
  {
    if |s| > 0 && IsDigit(s[0]) then 1 + DigitRun(s[1..]) else 0
  }

  /** The number written by a string of digits, most significant first. */
  function DigitsValue(d: string): nat
    requires forall i :: 0 <= i < |d| ==> IsDigit(d[i])
  {
    if |d| == 0 then 0 else DigitsValue(d[..|d| - 1]) * 10 + DigitValue(d[|d| - 1])
  }

  /** Reads the leading digits of `s`; None (NaN) when there are none. */
  function ParseDigits(s: string): (r: Option<nat>)
    ensures r.None? <==> |s| == 0 || !IsDigit(s[0])
  {
    var k := DigitRun(s);
    if k == 0 then None else Some(DigitsValue(s[..k]))
  }

  /** `Number.parseInt(s)` for decimal text: leading white space, an
      optional sign, then the longest run of digits; anything after the run is
      ignored. None stands for NaN. */
  function ParseInt(s: string): (r: Option<int>)
    ensures r.Some? ==> exists i :: 0 <= i < |s| && IsDigit(s[i])
    ensures var t := TrimStart(s);
      |t| == 0 || (!IsDigit(t[0]) && t[0] != '-' && t[0] != '+') ==> r.None?
  {
    var t := TrimStart(s);
    assert ParseSigned(t).Some? ==> exists i :: 0 <= i < |s| && IsDigit(s[i]) by {
      if ParseSigned(t).Some? {
        var k := if IsDigit(t[0]) then 0 else 1;
        assert s[|s| - |t| + k] == t[k];
      }
    }
    ParseSigned(t)
  }

  /** The text after the white space: an optional sign, then digits. */
  function ParseSigned(t: string): (r: Option<int>)
    ensures r.Some? ==> |t| > 0 && (IsDigit(t[0]) || (|t| > 1 && IsDigit(t[1])))
    ensures |t| == 0 || (!IsDigit(t[0]) && t[0] != '-' && t[0] != '+') ==> r.None?
  {
    if |t| > 0 && t[0] == '-' then
      match ParseDigits(t[1..])
      case None => None
      case Some(n) => Some(0 - n as int)
    else if |t| > 0 && t[0] == '+' then
      match ParseDigits(t[1..])
      case None => None
      case Some(n) => Some(n)
    else
      match ParseDigits(t)
      case None => None
      case Some(n) => Some(n)
  }

  /** The decimal text of a natural number, without leading zeros. */
  function NatToDecimal(n: nat): (s: string)
    ensures |s| > 0
    ensures forall i :: 0 <= i < |s| ==> IsDigit(s[i])
  {
    if n < 10 then [DigitChar(n)] else NatToDecimal(n / 10) + [DigitChar(n % 10)]
  }

  lemma {:induction false} DigitsValueOfDecimal(n: nat)
    ensures DigitsValue(NatToDecimal(n)) == n
  {
    var s := NatToDecimal(n);
    if n < 10 {
      assert s[..0] == [];
    } else {
      var p := NatToDecimal(n / 10);
      assert s[..|s| - 1] == p;
      DigitsValueOfDecimal(n / 10);
    }
  }

  /** A user id rendered with `toString()` is read back unchanged by
      `parseInt`: the session carries ids as text and the booking form turns
      them back into numbers. */
  lemma ParseIntOfDecimal(n: nat)
    ensures ParseInt(NatToDecimal(n)) == Some(n)
  {
    var s := NatToDecimal(n);
    assert !IsSpace(s[0]);
    assert TrimStart(s) == s;
    assert s[0] != '-' && s[0] != '+';
    AllDigitsRun(s);
    assert s[..|s|] == s;
    DigitsValueOfDecimal(n);
    assert ParseDigits(s) == Some(n);
  }

  /** `parseInt` stops at the first character that is not a digit: a
      number followed by other text reads as the number, a minus sign
      negates it and a plus sign leaves it as it is. */
  lemma {:induction false} ParseIntIgnoresSuffix(n: nat, rest: string)
    requires |rest| == 0 || !IsDigit(rest[0])
    ensures ParseInt(NatToDecimal(n) + rest) == Some(n)
    ensures ParseInt("-" + (NatToDecimal(n) + rest)) == Some(0 - n as int)
    ensures ParseInt("+" + (NatToDecimal(n) + rest)) == Some(n)
  {
    DigitsThenRest(n, rest);
    ParseIntOfDigitStart(NatToDecimal(n) + rest, n);
    ParseIntOfMinus(NatToDecimal(n) + rest, n);
    ParseIntOfPlus(NatToDecimal(n) + rest, n);
  }

  /** Leading white space is skipped: `parseInt(" 5")` reads as
      `parseInt("5")`. */
  lemma {:induction false} ParseIntSkipsSpace(w: string, s: string)
    requires forall i :: 0 <= i < |w| ==> IsSpace(w[i])
    ensures ParseInt(w + s) == ParseInt(s)
  {
    SpaceThenTrim(w, s);
  }

  lemma {:induction false} SpaceThenTrim(w: string, s: string)
    requires forall i :: 0 <= i < |w| ==> IsSpace(w[i])
    ensures TrimStart(w + s) == TrimStart(s)
    decreases |w|
  {
    if |w| > 0 {
      assert (w + s)[0] == w[0] && IsSpace(w[0]);
      assert (w + s)[1..] == w[1..] + s;
      assert TrimStart(w + s) == TrimStart(w[1..] + s);
      SpaceThenTrim(w[1..], s);
    } else {
      assert w + s == s;
    }
  }

  /** A plus sign before digits worth `n` reads as `n`. */
  lemma {:induction false} ParseIntOfPlus(s: string, n: nat)
    requires |s| > 0 && IsDigit(s[0]) && ParseDigits(s) == Some(n)
    ensures ParseInt("+" + s) == Some(n)
  {
    var m := "+" + s;
    assert !IsSpace(m[0]);
    assert TrimStart(m) == m;
    assert m[1..] == s;
  }

  /** Digits worth `n` at the start of the text read as `n`. */
  lemma {:induction false} ParseIntOfDigitStart(s: string, n: nat)
    requires |s| > 0 && IsDigit(s[0]) && ParseDigits(s) == Some(n)
    ensures ParseInt(s) == Some(n)
  {
    assert !IsSpace(s[0]);
    assert TrimStart(s) == s;
  }

  /** A minus sign before digits worth `n` reads as `-n`. */
  lemma {:induction false} ParseIntOfMinus(s: string, n: nat)
    requires |s| > 0 && IsDigit(s[0]) && ParseDigits(s) == Some(n)
    ensures ParseInt("-" + s) == Some(0 - n as int)
  {
    var m := "-" + s;
    assert !IsSpace(m[0]);
    assert TrimStart(m) == m;
    assert m[1..] == s;
  }

  /** The digits of `n` followed by text that does not start with a digit. */
  lemma {:induction false} DigitsThenRest(n: nat, rest: string)
    requires |rest| == 0 || !IsDigit(rest[0])
    ensures var s := NatToDecimal(n) + rest;
      |s| > 0 && IsDigit(s[0]) && ParseDigits(s) == Some(n)
  {
    var d := NatToDecimal(n);
    var s := d + rest;
    DigitRunStopsAt(d, rest);
    assert s[..|d|] == d;
    DigitsValueOfDecimal(n);
  }

  lemma {:induction false} DigitRunStopsAt(d: string, rest: string)
    requires forall i :: 0 <= i < |d| ==> IsDigit(d[i])
    requires |rest| == 0 || !IsDigit(rest[0])
    ensures DigitRun(d + rest) == |d|
  {
    if |d| > 0 {
      assert (d + rest)[1..] == d[1..] + rest;
      DigitRunStopsAt(d[1..], rest);
    } else {
      assert d + rest == rest;
    }
  }

  lemma {:induction false} AllDigitsRun(s: string)
    requires forall i :: 0 <= i < |s| ==> IsDigit(s[i])
    ensures DigitRun(s) == |s|
  {
    if |s| > 0 {
      AllDigitsRun(s[1..]);
    }
  }

  /** UTF-16 code units of one character: two (a surrogate pair) above
      U+FFFF, one otherwise. */
  function CodeUnits(c: char): (n: nat)
    ensures n == (if c as int > 0xFFFF then 2 else 1)
  {
    if c as int > 0xFFFF then 2 else 1
  }

  /** JavaScript's `length` of a string: its UTF-16 code units. */
  function Utf16Length(s: string): (n: nat)
    ensures |s| <= n <= 2 * |s|
    ensures n == 0 <==> s == ""
  {
    if |s| == 0 then 0 else CodeUnits(s[0]) + Utf16Length(s[1..])
  }

  /** Characters up to U+FFFF count once. */
  lemma {:induction false} BmpLength(s: string)
    requires forall i :: 0 <= i < |s| ==> s[i] as int <= 0xFFFF
    ensures Utf16Length(s) == |s|
  {
    if |s| > 0 {
      assert s[0] as int <= 0xFFFF;
      BmpLength(s[1..]);
    }
  }

  /** Characters above U+FFFF count twice. */
  lemma {:induction false} AstralLength(s: string)
    requires forall i :: 0 <= i < |s| ==> s[i] as int > 0xFFFF
    ensures Utf16Length(s) == 2 * |s|
  {
    if |s| > 0 {
      assert s[0] as int > 0xFFFF;
      AstralLength(s[1..]);
    }
  }

  /** ASCII case folding (the locale-dependent rest is not modelled). */
  function Lower(c: char): (r: char)
    ensures 'A' <= c <= 'Z' ==> r as int == c as int + 32
    ensures !('A' <= c <= 'Z') ==> r == c
  {
    if 'A' <= c <= 'Z' then (c as int + 32) as char else c
  }

  function LowerString(s: string): (r: string)
    ensures |r| == |s|
    ensures forall i :: 0 <= i < |s| ==> r[i] == Lower(s[i])
  {
    if |s| == 0 then [] else [Lower(s[0])] + LowerString(s[1..])
  }

  /** `needle` occurs in `hay` starting at position `i`. */
  predicate OccursAt(needle: string, hay: string, i: int) {
    0 <= i && i + |needle| <= |hay| && hay[i..i + |needle|] == needle
  }

  /** `needle` occurs somewhere in `hay`. */
  ghost predicate Occurs(needle: string, hay: string) {
    exists i :: OccursAt(needle, hay, i)
  }

  /** Substring search by scanning the start positions from left to right. */
  function Infix(needle: string, hay: string): (b: bool)
    ensures b <==> Occurs(needle, hay)
    decreases |hay|
  {
    if |needle| <= |hay| && hay[..|needle|] == needle then
      assert OccursAt(needle, hay, 0);
      true
    else if |hay| == 0 then
      assert forall i :: !OccursAt(needle, hay, i);
      false
    else
      var r := Infix(needle, hay[1..]);
      assert forall i :: OccursAt(needle, hay[1..], i) ==> OccursAt(needle, hay, i + 1) by {
        forall i | OccursAt(needle, hay[1..], i)
          ensures OccursAt(needle, hay, i + 1)
        {
          assert hay[i + 1..i + 1 + |needle|] == hay[1..][i..i + |needle|];
        }
      }
      assert forall i :: OccursAt(needle, hay, i) ==> OccursAt(needle, hay[1..], i - 1) by {
        forall i | OccursAt(needle, hay, i)
          ensures OccursAt(needle, hay[1..], i - 1)
        {
          if i == 0 {
            assert false;
          }
          assert hay[i..i + |needle|] == hay[1..][i - 1..i - 1 + |needle|];
        }
      }
      r
  }

  /** `hay ILIKE '%' || needle || '%'` with no wildcard characters inside
      `needle`: a substring test after folding both sides to lower case. */
  function ContainsIgnoreCase(hay: string, needle: string): (found: bool)
    ensures found <==> Occurs(LowerString(needle), LowerString(hay))
  {
    Infix(LowerString(needle), LowerString(hay))
  }

  /** The empty search text matches every name. */
  lemma EmptyNeedleMatches(hay: string)
    ensures ContainsIgnoreCase(hay, "")
  {
    assert OccursAt(LowerString(""), LowerString(hay), 0);
  }

  lemma LowerIdempotent(s: string)
    ensures LowerString(LowerString(s)) == LowerString(s)
  {
  }

  /** Changing the case of the search text does not change the match. */
  lemma {:induction false} CaseOfNeedleIrrelevant(hay: string, needle: string)
    ensures ContainsIgnoreCase(hay, LowerString(needle)) == ContainsIgnoreCase(hay, needle)
  {
    LowerIdempotent(needle);
  }
}
