/**
  * The two conversions between numbers and text that the ledger relies on:
  * JavaScript's rendering of an integer in a template (`{{amount}}`), and
  * `parseInt` with no radix, which reads the amount field of a snapshot line
  * and of a command. `None` stands for NaN.
  */
module Numbers {
  import opened Wrappers
  import opened Sequences

  predicate IsDigit(ch: char) { '0' <= ch <= '9' }

  function DigitValue(ch: char): (d: nat)
    requires IsDigit(ch)
    ensures d < 10
  {
    (ch as int) - ('0' as int)
  }

  function DigitChar(d: nat): (ch: char)
    requires d < 10
    ensures IsDigit(ch) && DigitValue(ch) == d
  {
    (('0' as int) + d) as char
  }

  predicate IsHexDigit(ch: char) { IsDigit(ch) || 'a' <= ch <= 'f' || 'A' <= ch <= 'F' }

  function HexDigitValue(ch: char): (d: nat)
    requires IsHexDigit(ch)
    ensures d < 16
  {
    if IsDigit(ch) then DigitValue(ch)
    else if 'a' <= ch <= 'f' then (ch as int) - ('a' as int) + 10
    else (ch as int) - ('A' as int) + 10
  }

  predicate AllDigits(s: string) { forall k :: 0 <= k < |s| ==> IsDigit(s[k]) }

  /** Value of a string of decimal digits, most significant first. */
  function DecimalValue(s: string): nat
    requires AllDigits(s)
  {
    if s == [] then 0 else 10 * DecimalValue(s[..|s| - 1]) + DigitValue(s[|s| - 1])
  }

  /** Value of a string of hexadecimal digits, most significant first. */
  function HexValue(s: string): nat
    requires forall k :: 0 <= k < |s| ==> IsHexDigit(s[k])
  {
    if s == [] then 0 else 16 * HexValue(s[..|s| - 1]) + HexDigitValue(s[|s| - 1])
  }

  /** Decimal digits of `n` without leading zeros; they read back as `n`. */
  function Digits(n: nat): (s: string)
    ensures |s| > 0 && AllDigits(s)
    ensures DecimalValue(s) == n
    ensures s[0] != '0' || s == "0"
  {
    if n < 10 then [DigitChar(n)]
    else
      var front := Digits(n / 10);
      var s := front + [DigitChar(n % 10)];
      assert s[..|s| - 1] == front;
      assert DecimalValue("0") == 0;
      s
  }

  /** How a template renders an integer: an optional minus sign and its digits. */
  function NumberText(n: int): string
  {
    if n < 0 then ['-'] + Digits(-n) else Digits(n)
  }

  /** The text of a number is nonempty and made of digits and at most a minus sign. */
  lemma NumberTextChars(n: int)
    ensures NumberText(n) != []
    ensures forall k :: 0 <= k < |NumberText(n)| ==> IsDigit(NumberText(n)[k]) || NumberText(n)[k] == '-'
  {
  }

  /** The characters `parseInt` skips before the number: white space and line terminators. */
  predicate IsJsSpace(ch: char)
  {
    ch == '\t' || ch == '\n' || ch == '\U{000B}' || ch == '\U{000C}' || ch == '\r' || ch == ' '
    || ch == '\U{00A0}' || ch == '\U{1680}' || ('\U{2000}' <= ch <= '\U{200A}')
    || ch == '\U{2028}' || ch == '\U{2029}' || ch == '\U{202F}' || ch == '\U{205F}'
    || ch == '\U{3000}' || ch == '\U{FEFF}'
  }

  /** `s` without its leading white space. */
  function TrimStart(s: string): (t: string)
    ensures |t| <= |s| && (t != [] ==> !IsJsSpace(t[0]))
  {
    if s != [] && IsJsSpace(s[0]) then TrimStart(s[1..]) else s
  }

  /**
    * What is trimmed is a suffix of the input, everything before it is white
    * space, and it does not start with white space itself.
    */
  lemma {:induction false} TrimStartDrops(s: string)
    ensures var t := TrimStart(s);
      t == s[|s| - |t|..] &&
      (forall j :: 0 <= j < |s| - |t| ==> IsJsSpace(s[j])) &&
      (t != [] ==> !IsJsSpace(t[0]))
  {
    if s != [] && IsJsSpace(s[0]) {
      TrimStartDrops(s[1..]);
      var t := TrimStart(s);
      assert s[1..][|s| - 1 - |t|..] == s[|s| - |t|..];
      forall j | 0 <= j < |s| - |t| ensures IsJsSpace(s[j]) {
        if j > 0 {
          assert s[j] == s[1..][j - 1];
        }
      }
    }
  }

  /** Text that does not start with white space is left as it is. */
  lemma TrimStartNoSpace(s: string)
    requires s == [] || !IsJsSpace(s[0])
    ensures TrimStart(s) == s
  {
  }

  /** The longest prefix of `s` made of decimal digits. */
  function DecimalPrefix(s: string): (p: string)
    ensures |p| <= |s| && p == s[..|p|] && AllDigits(p)
    ensures |p| < |s| ==> !IsDigit(s[|p|])
  {
    if s != [] && IsDigit(s[0]) then
      var p := [s[0]] + DecimalPrefix(s[1..]);
      assert p == s[..|p|];
      p
    else []
  }

  /** The longest prefix of `s` made of hexadecimal digits. */
  function HexPrefix(s: string): (p: string)
    ensures |p| <= |s| && p == s[..|p|]
    ensures forall k :: 0 <= k < |p| ==> IsHexDigit(p[k])
    ensures |p| < |s| ==> !IsHexDigit(s[|p|])
  {
    if s != [] && IsHexDigit(s[0]) then
      var p := [s[0]] + HexPrefix(s[1..]);
      assert p == s[..|p|];
      p
    else []
  }

  /**
    * The digits after the sign: hexadecimal after a `0x`/`0X` prefix and
    * decimal otherwise, as many as there are; no digit at all is NaN.
    */
  function ParseUnsigned(body: string): Option<nat>
  {
    if |body| >= 2 && body[0] == '0' && (body[1] == 'x' || body[1] == 'X') then
      var h := HexPrefix(body[2..]);
      if h == [] then None else Some(HexValue(h))
    else
      var p := DecimalPrefix(body);
      if p == [] then None else Some(DecimalValue(p))
  }

  /**
    * `parseInt(s)` with no radix: skip leading white space, take an optional
    * sign, then read the digits that follow.
    */
  function ParseInt(s: string): Option<int>
  {
    var t := TrimStart(s);
    var sign := if t != [] && t[0] == '-' then -1 else 1;
    var body := if t != [] && (t[0] == '-' || t[0] == '+') then t[1..] else t;
    match ParseUnsigned(body)
    case None => None
    case Some(v) => Some(sign * v)
  }

  /** A string of digits is its own longest digit prefix. */
  lemma {:induction false} DecimalPrefixOfDigits(s: string)
    requires AllDigits(s)
    ensures DecimalPrefix(s) == s
  {
    if s != [] {
      DecimalPrefixOfDigits(s[1..]);
    }
  }

  /** A string of decimal digits reads as its decimal value. */
  lemma ParseUnsignedDigits(ds: string)
    requires ds != [] && AllDigits(ds)
    ensures ParseUnsigned(ds) == Some(DecimalValue(ds))
  {
    if |ds| >= 2 {
      assert IsDigit(ds[1]);
    }
    DecimalPrefixOfDigits(ds);
  }

  /** `parseInt` reads any string of decimal digits as its value, leading zeros and all. */
  lemma ParseAllDigits(ds: string)
    requires ds != [] && AllDigits(ds)
    ensures ParseInt(ds) == Some(DecimalValue(ds))
  {
    assert IsDigit(ds[0]);
    TrimStartNoSpace(ds);
    ParseUnsignedDigits(ds);
  }

  /** Unsigned digits read back as their value. */
  lemma ParseDigits(m: nat)
    ensures ParseInt(Digits(m)) == Some(m)
  {
    ParseAllDigits(Digits(m));
  }

  /** A minus sign followed by digits reads back as the negated value. */
  lemma ParseMinusDigits(m: nat)
    ensures ParseInt(['-'] + Digits(m)) == Some(-(m as int))
  {
    var ds := Digits(m);
    var s := ['-'] + ds;
    ConsTail('-', ds);
    TrimStartNoSpace(s);
    ParseUnsignedDigits(ds);
  }

  /** `parseInt` reads back every integer the templates write. */
  lemma ParseNumberText(n: int)
    ensures ParseInt(NumberText(n)) == Some(n)
  {
    if n < 0 {
      ParseMinusDigits(-n);
    } else {
      ParseDigits(n);
    }
  }
}
