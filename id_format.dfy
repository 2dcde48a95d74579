/**
 * The number formatting behind `ViewWrapper.idHex` and the JavaScript
 * `parseInt` that the numeric `id` filter applies to it.
 */
module IdFormat {
  import opened Wrappers
  import opened Nodes

  /** The lower-case digit JavaScript's `Number.prototype.toString(radix)` writes for `d`. */
  function DigitChar(d: nat): char
    requires d < 36
  {
    if d < 10 then (('0' as int) + d) as char else (('a' as int) + d - 10) as char
  }

  /** The value of a digit character in any radix up to 36, or 36 for a non-digit. */
  function DigitValue(c: char): nat
  {
    if '0' <= c <= '9' then c as int - '0' as int
    else if 'a' <= c <= 'z' then c as int - 'a' as int + 10
    else if 'A' <= c <= 'Z' then c as int - 'A' as int + 10
    else 36
  }

  predicate IsDigit(c: char, radix: nat)
  {
    DigitValue(c) < radix
  }

  /** Splitting off the last digit of `n` in `radix`. */
  lemma DivMod(n: nat, radix: nat)
    requires 2 <= radix <= 36 && n >= radix
    ensures n / radix < n && n % radix < radix
    ensures (n / radix) * radix + n % radix == n
  {
  }

  /** `n.toString(radix)` for a non-negative integer: no leading zeros, "0" for zero. */
  function Digits(n: nat, radix: nat): (s: string)
    requires 2 <= radix <= 36
    ensures |s| > 0
    ensures forall i :: 0 <= i < |s| ==> IsDigit(s[i], radix)
  {
    if n < radix then [DigitChar(n)]
    else DivMod(n, radix); Digits(n / radix, radix) + [DigitChar(n % radix)]
  }

  /** `i.toString(radix)` for any integer: a minus sign, then the digits of `-i`. */
  function IntToString(i: int, radix: nat): string
    requires 2 <= radix <= 36
  {
    if i < 0 then "-" + Digits(-i, radix) else Digits(i, radix)
  }

  /**
   * `ViewWrapper.idHex`: the decimal form of `NO_ID` for a view without an
   * id, otherwise "0x" followed by the id in hexadecimal as JavaScript writes it.
   */
  function IdHex(id: int): (s: string)
    ensures id == NO_ID ==> s == "-1"
    ensures id != NO_ID ==> |s| > 2 && s[..2] == "0x"
    ensures id >= 0 ==> forall i :: 2 <= i < |s| ==> IsDigit(s[i], 16)
    ensures id < NO_ID ==> s[2] == '-'
  {
    if id == NO_ID then IntToString(NO_ID, 10) else "0x" + IntToString(id, 16)
  }

  /** The longest prefix of `s` made of digits of `radix`. */
  function DigitPrefix(s: string, radix: nat): (z: string)
    ensures |z| <= |s| && z == s[..|z|]
    ensures forall i :: 0 <= i < |z| ==> IsDigit(z[i], radix)
    ensures |z| < |s| ==> !IsDigit(s[|z|], radix)
  {
    if |s| == 0 || !IsDigit(s[0], radix) then [] else [s[0]] + DigitPrefix(s[1..], radix)
  }

  /** The value of a string of digits, most significant first. */
  function DigitsValue(z: string, radix: nat): nat
  {
    if |z| == 0 then 0 else DigitsValue(z[..|z| - 1], radix) * radix + DigitValue(z[|z| - 1])
  }

  /**
   * JavaScript's `parseInt(s)` with no radix, on a string without leading
   * white space: an optional sign, then "0x"/"0X" selects radix 16, then the
   * longest run of digits.  `None` stands for `NaN` (no digit at all).
   */
  function ParseInt(s: string): (r: Option<int>)
    ensures |s| == 0 ==> r.None?
    ensures |s| > 0 && '1' <= s[0] <= '9' ==> r.Some? && r.value >= 0
    ensures r.Some? && r.value < 0 ==> s[0] == '-'
  {
    var sign := if |s| > 0 && s[0] == '-' then -1 else 1;
    var t := if |s| > 0 && (s[0] == '-' || s[0] == '+') then s[1..] else s;
    var hex := |t| >= 2 && t[0] == '0' && (t[1] == 'x' || t[1] == 'X');
    var radix := if hex then 16 else 10;
    var z := DigitPrefix(if hex then t[2..] else t, radix);
    if |z| == 0 then None else Some(sign * DigitsValue(z, radix))
  }

  /** A run of digits is its own longest digit prefix. */
  lemma {:induction false} DigitPrefixOfDigits(s: string, radix: nat)
    requires forall i :: 0 <= i < |s| ==> IsDigit(s[i], radix)
    ensures DigitPrefix(s, radix) == s
  {
    if |s| > 0 {
      DigitPrefixOfDigits(s[1..], radix);
    }
  }

  /** Reading back the digits of `n` gives `n`. */
  lemma {:induction false} DigitsRoundTrip(n: nat, radix: nat)
    requires 2 <= radix <= 36
    ensures DigitsValue(Digits(n, radix), radix) == n
  {
    if n >= radix {
      DivMod(n, radix);
      var hi := Digits(n / radix, radix);
      DigitsRoundTrip(n / radix, radix);
      assert (hi + [DigitChar(n % radix)])[..|hi|] == hi;
    }
  }

  /** `parseInt` reads back what `Digits` writes, in either radix the source uses. */
  lemma DigitsParse(n: nat, radix: nat)
    requires radix == 10 || radix == 16
    ensures DigitPrefix(Digits(n, radix), radix) == Digits(n, radix)
    ensures DigitsValue(Digits(n, radix), radix) == n
  {
    DigitPrefixOfDigits(Digits(n, radix), radix);
    DigitsRoundTrip(n, radix);
  }

  /**
   * `parseInt(idHex)` recovers the id of a view without an id and of every
   * view whose id is not negative.
   */
  lemma IdHexRoundTrip(id: int)
    requires id == NO_ID || id >= 0
    ensures ParseInt(IdHex(id)) == Some(id)
  {
    if id == NO_ID {
      assert IdHex(id) == "-" + Digits(1, 10);
      assert Digits(1, 10) == "1";
      DigitsParse(1, 10);
    } else {
      var d := Digits(id, 16);
      assert IdHex(id) == "0x" + d;
      assert ("0x" + d)[2..] == d;
      DigitsParse(id, 16);
    }
  }

  /**
   * Any other negative id is written "0x-..." and `parseInt` stops at the
   * minus sign: the result is `NaN`.
   */
  lemma IdHexNegativeIsNaN(id: int)
    requires id < NO_ID
    ensures ParseInt(IdHex(id)) == None
  {
    var s := IdHex(id);
    assert s == "0x-" + Digits(-id, 16);
    assert s[2..][0] == '-';
  }
}
