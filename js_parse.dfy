/** JavaScript's global `parseInt` called with one argument (ECMA-262,
    section 19.2.5), which the counter function applies to every value it
    reads back from the store. */
module JsParse {
  import opened Base

  /** The characters `parseInt` skips before the number: ECMAScript's
      WhiteSpace and LineTerminator code points (ECMA-262, sections 12.2
      and 12.3; the Zs category as of Unicode 15). */
  predicate IsJsSpace(c: char) {
    || c == '\t' || c == '\U{000B}' || c == '\U{000C}' || c == ' '
    || c == '\U{00A0}' || c == '\U{FEFF}' || c == '\U{1680}'
    || ('\U{2000}' <= c <= '\U{200A}') || c == '\U{202F}' || c == '\U{205F}' || c == '\U{3000}'
    || c == '\n' || c == '\r' || c == '\U{2028}' || c == '\U{2029}'
  }

  /** `s` without its leading white space. */
  function TrimStart(s: string): (t: string)
    ensures |t| <= |s| && t == s[|s| - |t|..]
    ensures t == [] || !IsJsSpace(t[0])
    ensures forall k :: 0 <= k < |s| - |t| ==> IsJsSpace(s[k])
  {
    if s != [] && IsJsSpace(s[0]) then TrimStart(s[1..]) else s
  }

  /** The value of `c` as a digit of a radix up to 36, and 36 for a
      character that is a digit of no such radix. */
  function DigitValue(c: char): (d: nat)
    ensures d <= 36
    ensures IsDigit(c) <==> d < 10
    ensures IsDigit(c) ==> d == c as int - '0' as int
  {
    if '0' <= c <= '9' then c as int - '0' as int
    else if 'a' <= c <= 'z' then c as int - 'a' as int + 10
    else if 'A' <= c <= 'Z' then c as int - 'A' as int + 10
    else 36
  }

  /** The longest prefix of `s` made of digits of `radix`. */
  function DigitPrefix(s: string, radix: nat): (z: string)
    ensures |z| <= |s| && z == s[..|z|]
    ensures forall k :: 0 <= k < |z| ==> DigitValue(z[k]) < radix
    ensures |z| < |s| ==> DigitValue(s[|z|]) >= radix
  {
    if s != [] && DigitValue(s[0]) < radix then [s[0]] + DigitPrefix(s[1..], radix) else []
  }

  /** The number that the digit string `z` denotes in `radix`. */
  function RadixValue(z: string, radix: nat): nat
    requires forall k :: 0 <= k < |z| ==> DigitValue(z[k]) < radix
  {
    if z == [] then 0 else RadixValue(z[..|z| - 1], radix) * radix + DigitValue(z[|z| - 1])
  }

  /** The number after the sign: a `0x`/`0X` prefix switches to radix 16,
      and the longest run of digits that follows is the number; `None` when
      there is no digit. */
  function ParseUnsigned(u: string): Option<nat> {
    var hex := |u| >= 2 && u[0] == '0' && (u[1] == 'x' || u[1] == 'X');
    var radix := if hex then 16 else 10;
    var z := DigitPrefix(if hex then u[2..] else u, radix);
    if z == [] then None else Some(RadixValue(z, radix))
  }

  /** `parseInt(s)`: leading white space is skipped and one sign is read
      before the unsigned number. `None` stands for `NaN`. */
  function ParseInt(s: string): Option<int> {
    var t := TrimStart(s);
    var negative := t != [] && t[0] == '-';
    var u := if t != [] && (t[0] == '-' || t[0] == '+') then t[1..] else t;
    match ParseUnsigned(u)
    case None => None
    case Some(v) => var w: int := v; Some(if negative then -w else w)
  }

  /** `parseInt(s) || 0`: `NaN` (and zero) become 0. */
  function ParseIntOrZero(s: string): (n: int)
    ensures ParseInt(s) == None ==> n == 0
    ensures ParseInt(s).Some? ==> n == ParseInt(s).value
  {
    match ParseInt(s)
    case Some(v) => v
    case None => 0
  }

  /** A string of decimal digits is its own longest decimal prefix, and its
      radix-10 value is its decimal value. */
  lemma {:induction false} DecimalDigitsParse(z: string)
    requires forall k :: 0 <= k < |z| ==> IsDigit(z[k])
    ensures DigitPrefix(z, 10) == z
    ensures RadixValue(z, 10) == DecimalValue(z)
  {
    if z != [] {
      DecimalDigitsParse(z[1..]);
      DecimalDigitsParse(z[..|z| - 1]);
    }
  }

  /** The decimal rendering of a number is read back as that number. */
  lemma ParseUnsignedOfNatToString(m: nat)
    ensures ParseUnsigned(NatToString(m)) == Some(m)
  {
    var d := NatToString(m);
    DecimalDigitsParse(d);
    DecimalValueOfNatToString(m);
    assert !(|d| >= 2 && d[0] == '0');
  }

  lemma TrimStartNoSpace(s: string)
    requires s != [] && !IsJsSpace(s[0])
    ensures TrimStart(s) == s
  {
  }

  /** A digit string, and the same string after a minus sign, are read
      as the number its digits denote, with the sign. */
  lemma ParseIntOfDigitString(d: string, v: nat)
    requires d != [] && IsDigit(d[0]) && ParseUnsigned(d) == Some(v)
    ensures ParseInt(d) == Some(v)
    ensures ParseInt("-" + d) == Some(-(v as int))
  {
    TrimStartNoSpace(d);
    var s := "-" + d;
    TrimStartNoSpace(s);
    assert s[1..] == d;
  }

  /** `parseInt(String(n))` is `n`: what the store renders as a decimal
      string comes back unchanged (in JavaScript, only up to 2^53, beyond
      which `parseInt` rounds to the nearest double). */
  lemma ParseIntOfIntToString(n: int)
    ensures ParseInt(IntToString(n)) == Some(n)
  {
    var m: nat := if n < 0 then -n else n;
    ParseUnsignedOfNatToString(m);
    ParseIntOfDigitString(NatToString(m), m);
  }

  /** A string that starts with a letter other than a hexadecimal digit
      has no number in it. */
  lemma ParseIntOfWord(s: string)
    requires s != [] && 'g' <= s[0] <= 'z'
    ensures ParseInt(s) == None
  {
    TrimStartNoSpace(s);
    assert DigitValue(s[0]) >= 16;
    assert DigitPrefix(s, 10) == [];
  }

  /** The strings `String(null)` and `String(undefined)` hold no digits, so
      `parseInt` gives `NaN` for a missing value. */
  lemma ParseIntOfMissing()
    ensures ParseInt("null") == None
    ensures ParseInt("undefined") == None
  {
    ParseIntOfWord("null");
    ParseIntOfWord("undefined");
  }
}
