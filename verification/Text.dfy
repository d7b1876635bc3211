/** Numbers in text: what the formatted printer writes and the C library reads back. */
module Text {
  import opened Words

  // ---------------------------------------------------------------- printing

  function HexDigit(d: nat): char
    requires d < 16
  {
    "0123456789abcdef"[d]
  }

  /** %x */
  function HexText(n: nat): (s: string)
    ensures |s| > 0
  {
    (if n < 16 then "" else HexText(n / 16)) + [HexDigit(n % 16)]
  }

  /** The low `width` hexadecimal digits of n: %08x for a 32-bit value and width 8. */
  function HexPadded(n: nat, width: nat): (s: string)
    ensures |s| == width
  {
    if width == 0 then "" else HexPadded(n / 16, width - 1) + [HexDigit(n % 16)]
  }

  /** %d of a number that is not negative. */
  function DecText(n: nat): (s: string)
    ensures |s| > 0 && forall i :: 0 <= i < |s| ==> '0' <= s[i] <= '9'
  {
    (if n < 10 then "" else DecText(n / 10)) + ["0123456789"[n % 10]]
  }

  /** %d */
  function IntText(v: int): string {
    if v < 0 then "-" + DecText(-v) else DecText(v)
  }

  // ---------------------------------------------------------------- reading

  /** isxdigit */
  predicate IsHexDigit(c: char) {
    '0' <= c <= '9' || 'a' <= c <= 'f' || 'A' <= c <= 'F'
  }

  function DigitValue(c: char): (d: nat)
    requires IsHexDigit(c)
    ensures d < 16
  {
    if c <= '9' then c as int - '0' as int
    else if c <= 'F' then c as int - 'A' as int + 10
    else c as int - 'a' as int + 10
  }

  /** Reads hexadecimal digits as far as they go, on top of what was read before. */
  function ReadHex(s: string, acc: nat): (r: (nat, string))
    ensures |r.1| <= |s|
  {
    if s == "" || !IsHexDigit(s[0]) then (acc, s) else ReadHex(s[1..], 16 * acc + DigitValue(s[0]))
  }

  predicate IsSpace(c: char) {
    c == ' ' || '\t' <= c <= '\r'
  }

  function SkipSpace(s: string): (r: string)
    ensures |r| <= |s|
  {
    if s != "" && IsSpace(s[0]) then SkipSpace(s[1..]) else s
  }

  const ULONG: nat := 0x1_0000_0000_0000_0000

  /** strtoul(s, &end, 16) for inputs below its range limit: white space, sign, optional prefix, digits. */
  function Strtoul16(s: string): nat {
    var t := SkipSpace(s);
    var negative := t != "" && t[0] == '-';
    var u := if t != "" && (t[0] == '-' || t[0] == '+') then t[1..] else t;
    var digits := if |u| >= 3 && u[0] == '0' && (u[1] == 'x' || u[1] == 'X') && IsHexDigit(u[2]) then u[2..] else u;
    var v := ReadHex(digits, 0).0;
    if negative then (ULONG - v % ULONG) % ULONG else v
  }

  // ---------------------------------------------------------------- reading what was printed

  lemma HexDigitReads(d: nat)
    requires d < 16
    ensures IsHexDigit(HexDigit(d)) && DigitValue(HexDigit(d)) == d
  {}

  lemma {:induction false} ReadHexAppend(s: string, c: char, acc: nat)
    requires IsHexDigit(c) && ReadHex(s, acc).1 == ""
    ensures ReadHex(s + [c], acc) == (16 * ReadHex(s, acc).0 + DigitValue(c), "")
    decreases |s|
  {
    if s == "" {
      assert s + [c] == [c];
    } else {
      assert (s + [c])[1..] == s[1..] + [c];
      ReadHexAppend(s[1..], c, 16 * acc + DigitValue(s[0]));
    }
  }

  lemma {:induction false} ReadHexStops(s: string, rest: string, acc: nat)
    requires ReadHex(s, acc).1 == ""
    requires rest == "" || !IsHexDigit(rest[0])
    ensures ReadHex(s + rest, acc) == (ReadHex(s, acc).0, rest)
    decreases |s|
  {
    if s == "" {
      assert s + rest == rest;
    } else {
      assert (s + rest)[1..] == s[1..] + rest;
      ReadHexStops(s[1..], rest, 16 * acc + DigitValue(s[0]));
    }
  }

  lemma {:induction false} ReadHexText(n: nat)
    ensures ReadHex(HexText(n), 0) == (n, "")
  {
    HexDigitReads(n % 16);
    if n >= 16 {
      ReadHexText(n / 16);
    }
    var s := if n < 16 then "" else HexText(n / 16);
    ReadHexAppend(s, HexDigit(n % 16), 0);
  }

  lemma {:induction false} ReadHexPadded(n: nat, width: nat)
    requires n < Pow2(4 * width)
    ensures ReadHex(HexPadded(n, width), 0) == (n, "")
    ensures forall i :: 0 <= i < width ==> IsHexDigit(HexPadded(n, width)[i])
    decreases width
  {
    if width != 0 {
      HexDigitReads(n % 16);
      Pow2Sum(4, 4 * (width - 1));
      assert Pow2(4) == 16;
      ReadHexPadded(n / 16, width - 1);
      ReadHexAppend(HexPadded(n / 16, width - 1), HexDigit(n % 16), 0);
    }
  }

  /** The number decimal digits make. */
  function ReadDec(s: string): int {
    if s == "" then 0 else 10 * ReadDec(s[..|s| - 1]) + (s[|s| - 1] as int - '0' as int)
  }

  lemma {:induction false} ReadDecText(n: nat)
    ensures ReadDec(DecText(n)) == n
  {
    hide ReadDec;
    var s := if n < 10 then "" else DecText(n / 10);
    if n >= 10 {
      ReadDecText(n / 10);
    }
    DecDigit(n % 10);
    ReadDecAppend(s, "0123456789"[n % 10]);
    assert DecText(n) == s + ["0123456789"[n % 10]];
  }

  lemma DecDigit(d: nat)
    requires d < 10
    ensures "0123456789"[d] as int - '0' as int == d
    ensures ReadDec("") == 0
  {}

  lemma ReadDecAppend(s: string, c: char)
    ensures ReadDec(s + [c]) == 10 * ReadDec(s) + (c as int - '0' as int)
  {
    assert (s + [c])[..|s|] == s;
  }

  lemma ThreeDigits(a: nat, b: nat, c: nat)
    requires 0 < a < 16 && b < 16 && c < 16
    ensures HexText(0x10 * (0x10 * a + b) + c) == [HexDigit(a), HexDigit(b), HexDigit(c)]
  {
    hide HexText;
    NextDigit(0x10 * a + b, c);
    NextDigit(a, b);
    OneDigit(a);
  }

  lemma OneDigit(a: nat)
    requires a < 16
    ensures HexText(a) == [HexDigit(a)]
  {
    assert a % 16 == a;
    hide HexDigit;
    assert "" + [HexDigit(a)] == [HexDigit(a)];
    assert HexText(a) == "" + [HexDigit(a % 16)];
  }

  lemma NextDigit(n: nat, d: nat)
    requires n > 0 && d < 16
    ensures HexText(0x10 * n + d) == HexText(n) + [HexDigit(d)]
  {
    assert (0x10 * n + d) / 16 == n && (0x10 * n + d) % 16 == d;
  }

  // ---------------------------------------------------------------- characters as bytes

  function Ascii(s: string): (b: seq<byte>)
    ensures |b| == |s|
  {
    seq(|s|, i requires 0 <= i < |s| => Low(s[i] as int))
  }
}
