/**
 Printing numbers into a buffer from its end backwards, and parsing them back. Numbers are 64 bits wide.
 */
module NumText {
  const U64: nat := 0x1_0000_0000_0000_0000
  const U2S_BUFSIZE: nat := 65

  datatype Errno = Fine | Invalid | Range

  /** What parsing returns, where it stops, and the error it sets. */
  datatype Parsed = Parsed(ret: nat, end: nat, err: Errno)

  // ----- Arithmetic in a base -----

  /** A number with one more digit behind it. */
  function Shift(v: nat, b: nat, d: nat): nat {
    v * b + d
  }

  function Quot(x: nat, b: nat): nat
    requires b > 0
  {
    x / b
  }

  function Rem(x: nat, b: nat): (r: nat)
    requires b > 0
    ensures r < b
  {
    x % b
  }

  lemma ShiftBack(x: nat, b: nat)
    requires b >= 2
    ensures Shift(Quot(x, b), b, Rem(x, b)) == x
    ensures x >= b ==> 0 < Quot(x, b) < x
    ensures x < b ==> Quot(x, b) == 0 && Rem(x, b) == x
  {
    hide Quot, Rem;
    DivMod(x, b);
    if x >= b && Quot(x, b) >= x {
      MulGrows(x, 2, b);
      MulGrows(b, x, Quot(x, b));
    }
  }

  lemma DivMod(x: nat, b: nat)
    requires b > 0
    ensures x == Quot(x, b) * b + Rem(x, b) == b * Quot(x, b) + Rem(x, b)
    ensures x < b <==> Quot(x, b) == 0
  {
  }

  lemma ShiftGrows(v: nat, b: nat, d: nat)
    requires b >= 1
    ensures Shift(v, b, d) >= v
  {
  }

  // ----- Digits -----

  function DigitChar(d: nat, upper: bool): char
    requires d < 36
  {
    if d < 10 then ('0' as int + d) as char
    else if upper then ('A' as int + (d - 10)) as char
    else ('a' as int + (d - 10)) as char
  }

  /** The value of a digit, if the character is one in this base. */
  function DigitOf(c: char, b: nat): (d: int)
    ensures -1 <= d < b
  {
    if '0' <= c <= '9' && c as int - '0' as int < b then c as int - '0' as int
    else if 'A' <= c <= 'Z' && 10 + (c as int - 'A' as int) < b then 10 + (c as int - 'A' as int)
    else if 'a' <= c <= 'z' && 10 + (c as int - 'a' as int) < b then 10 + (c as int - 'a' as int)
    else -1
  }

  lemma DigitBack(d: nat, upper: bool, b: nat)
    requires d < b <= 36
    ensures DigitOf(DigitChar(d, upper), b) == d
    ensures DigitChar(d, upper) == '0' <==> d == 0
  {
  }

  function DigitChars(upper: bool): (cs: string)
    ensures |cs| == 36
  {
    if upper then "0123456789ABCDEFGHIJKLMNOPQRSTUVWXYZ" else "0123456789abcdefghijklmnopqrstuvwxyz"
  }

  /** The characters for digits, by case; the ones read as digits of a base are the first of these. */
  lemma DigitTable(d: nat, c: char, b: nat, upper: bool)
    requires d < 36 && b <= 36
    ensures DigitChar(d, upper) == DigitChars(upper)[d]
    ensures var v := DigitOf(c, b);
            if v >= 0 then c in {DigitChars(false)[v], DigitChars(true)[v]} else c !in DigitChars(upper)[..b]
  {
    hide DigitChars, DigitOf, DigitChar;
    DigitRow(d, upper);
    var v := DigitOf(c, b);
    if v >= 0 {
      DigitIs(c, b);
      DigitRow(v, false);
      DigitRow(v, true);
    } else {
      forall i | 0 <= i < b ensures DigitChars(upper)[i] != c {
        DigitRow(i, upper);
        DigitBack(i, upper, b);
      }
    }
  }

  lemma DigitRow(d: nat, upper: bool)
    requires d < 36
    ensures DigitChars(upper)[d] == DigitChar(d, upper)
  {
  }

  lemma DigitIs(c: char, b: nat)
    requires b <= 36 && DigitOf(c, b) >= 0
    ensures c == DigitChar(DigitOf(c, b), false) || c == DigitChar(DigitOf(c, b), true)
  {
  }

  predicate AllDigits(t: string, b: nat) {
    forall i :: 0 <= i < |t| ==> DigitOf(t[i], b) >= 0
  }

  predicate IsNumber(t: string, b: nat) {
    t != [] && AllDigits(t, b)
  }

  /** What a digit string stands for. */
  function Value(t: string, b: nat): (v: nat)
    requires AllDigits(t, b)
  {
    if t == [] then 0 else Shift(Value(t[..|t| - 1], b), b, DigitOf(t[|t| - 1], b))
  }

  // ----- Printing -----

  /** The digits of a number, most significant first. */
  function Digits(x: nat, b: nat, upper: bool): (t: string)
    requires 2 <= b <= 36
  {
    ShiftBack(x, b);
    (if x < b then [] else Digits(Quot(x, b), b, upper)) + [DigitChar(Rem(x, b), upper)]
  }

  /** Printed digits stand for the number and have no leading zero. */
  lemma {:induction false} DigitsValue(x: nat, b: nat, upper: bool)
    requires 2 <= b <= 36
    ensures var t := Digits(x, b, upper);
            && IsNumber(t, b) && Value(t, b) == x
            && (t[0] == '0' <==> x == 0) && (x < b ==> |t| == 1)
  {
    DigitBack(Rem(x, b), upper, b);
    ShiftBack(x, b);
    var s := if x < b then [] else Digits(Quot(x, b), b, upper);
    assert Digits(x, b, upper) == s + [DigitChar(Rem(x, b), upper)];
    if x >= b {
      DigitsValue(Quot(x, b), b, upper);
    }
    hide Digits, DigitChar, DigitOf;
    ValueSnoc(s, DigitChar(Rem(x, b), upper), b);
  }

  /** One more digit at the end. */
  lemma ValueSnoc(s: string, c: char, b: nat)
    requires AllDigits(s, b) && DigitOf(c, b) >= 0
    ensures IsNumber(s + [c], b) && Value(s + [c], b) == Shift(Value(s, b), b, DigitOf(c, b))
    ensures (s + [c])[0] == if s == [] then c else s[0]
  {
    assert (s + [c])[..|s|] == s;
  }

  function Pow(b: nat, k: nat): nat {
    if k == 0 then 1 else b * Pow(b, k - 1)
  }

  /** A number below b^k has at most k digits. */
  lemma {:induction false} DigitsFit(x: nat, b: nat, upper: bool, k: nat)
    requires 2 <= b <= 36 && k > 0 && x < Pow(b, k)
    ensures 0 < |Digits(x, b, upper)| <= k
  {
    if x >= b {
      assert Pow(b, 1) == b * Pow(b, 0);
      assert k > 1;
      Below(x, b, k);
      ShiftBack(x, b);
      DigitsFit(Quot(x, b), b, upper, k - 1);
      hide Quot, Rem, Pow, Shift;
    }
  }

  lemma Below(x: nat, b: nat, k: nat)
    requires b > 0 && k > 0 && x < Pow(b, k)
    ensures Quot(x, b) < Pow(b, k - 1)
  {
    var p := Pow(b, k - 1);
    if Quot(x, b) >= p {
      MulGrows(b, p, x / b);
    }
  }

  lemma MulGrows(b: nat, p: nat, q: nat)
    requires p <= q
    ensures b * p <= b * q
  {
  }

  lemma {:induction false} PowGrows(b: nat, c: nat, k: nat)
    requires 0 < b <= c
    ensures Pow(b, k) <= Pow(c, k)
  {
    if k > 0 {
      PowGrows(b, c, k - 1);
      MulGrows(b, Pow(b, k - 1), Pow(c, k - 1));
      MulGrows(Pow(c, k - 1), b, c);
    }
  }

  lemma TwoTo64()
    ensures Pow(2, 64) == U64 && Pow(4, 32) == U64
  {
    PowDoubles(2, 1, 2);
    PowDoubles(2, 2, 4);
    PowDoubles(2, 4, 16);
    PowDoubles(2, 8, 256);
    PowDoubles(2, 16, 65536);
    PowDoubles(2, 32, 0x1_0000_0000);
    PowDoubles(4, 1, 4);
    PowDoubles(4, 2, 16);
    PowDoubles(4, 4, 256);
    PowDoubles(4, 8, 65536);
    PowDoubles(4, 16, 0x1_0000_0000);
  }

  lemma PowDoubles(b: nat, k: nat, v: nat)
    requires (k == 1 && v == b) || Pow(b, k) == v
    ensures Pow(b, 2 * k) == v * v
  {
    if k == 1 {
      assert Pow(b, 1) == b * Pow(b, 0);
    }
    PowAdd(b, k, k);
  }

  lemma {:induction false} PowAdd(b: nat, j: nat, k: nat)
    ensures Pow(b, j + k) == Pow(b, j) * Pow(b, k)
  {
    if j > 0 {
      PowAdd(b, j - 1, k);
      MulAssoc(b, Pow(b, j - 1), Pow(b, k));
    }
  }

  lemma MulAssoc(a: nat, b: nat, c: nat)
    ensures a * (b * c) == a * b * c
  {
  }

  /** Every 64-bit number fits the buffer, and from base 4 on it leaves at least half of it free. */
  lemma Room(x: nat, b: nat, upper: bool)
    requires x < U64 && 2 <= b <= 36
    ensures 0 < |Digits(x, b, upper)| <= 64
    ensures b >= 4 ==> |Digits(x, b, upper)| <= 32
  {
    TwoTo64();
    hide Pow;
    PowGrows(2, b, 64);
    DigitsFit(x, b, upper, 64);
    if b >= 4 {
      PowGrows(4, b, 32);
      DigitsFit(x, b, upper, 32);
    }
  }

  /** Fills the buffer backwards from its terminator; the text is what starts at the returned index. */
  method U2S(x: nat, b: nat, upper: bool, s: array<char>) returns (start: nat, slen: nat)
    requires x < U64 && 2 <= b <= 36 && s.Length >= U2S_BUFSIZE
    modifies s
    ensures s[U2S_BUFSIZE - 1] == '\0' && slen == |Digits(x, b, upper)| && start + slen == U2S_BUFSIZE - 1
    ensures s[start..U2S_BUFSIZE - 1] == Digits(x, b, upper)
    ensures b >= 4 ==> start >= 32
  {
    Room(x, b, upper);
    start := U2S_BUFSIZE - 1;
    s[start] := '\0';
    var rest := x;
    DigitsStep(rest, b, upper, []);
    hide Quot, Rem, DigitChar, Digits;
    start := start - 1;
    s[start] := DigitChar(Rem(rest, b), upper);
    rest := Quot(rest, b);
    assert s[start..U2S_BUFSIZE - 1] == [DigitChar(Rem(x, b), upper)];
    while rest > 0
      invariant s[U2S_BUFSIZE - 1] == '\0' && start <= U2S_BUFSIZE - 1
      invariant Digits(x, b, upper) == (if rest > 0 then Digits(rest, b, upper) else []) + s[start..U2S_BUFSIZE - 1]
      decreases rest
    {
      ghost var done := s[start..U2S_BUFSIZE - 1];
      DigitsStep(rest, b, upper, done);
      start := start - 1;
      s[start] := DigitChar(Rem(rest, b), upper);
      assert s[start..U2S_BUFSIZE - 1] == [DigitChar(Rem(rest, b), upper)] + done;
      rest := Quot(rest, b);
    }
    slen := U2S_BUFSIZE - 1 - start;
  }

  /** One more digit goes in front of those already written. */
  lemma DigitsStep(rest: nat, b: nat, upper: bool, done: string)
    requires 2 <= b <= 36
    ensures rest > 0 ==> Quot(rest, b) < rest
    ensures |Digits(rest, b, upper)| > 0
    ensures Digits(rest, b, upper) + done
            == (if Quot(rest, b) > 0 then Digits(Quot(rest, b), b, upper) else [])
               + ([DigitChar(Rem(rest, b), upper)] + done)
  {
    ShiftBack(rest, b);
  }

  /** A signed number with its sign; plus and space mark what is not negative. */
  function SignedText(x: int, sign: char): string
    requires sign in {'-', '+', ' '}
  {
    Front(x, sign) + Digits(if x < 0 then -x else x, 10, false)
  }

  method D2S(x: int, sign: char, s: array<char>) returns (start: nat, slen: nat)
    requires -(U64 / 2) < x < U64 / 2 && sign in {'-', '+', ' '} && s.Length >= U2S_BUFSIZE
    modifies s
    ensures start + slen == U2S_BUFSIZE - 1 && s[U2S_BUFSIZE - 1] == '\0'
    ensures s[start..U2S_BUFSIZE - 1] == SignedText(x, sign)
  {
    var neg := x < 0;
    start, slen := U2S(if neg then -x else x, 10, false, s);
    var mark := if neg then '-' else sign;
    if mark != '-' || neg {
      ghost var digits := s[start..U2S_BUFSIZE - 1];
      start := start - 1;
      slen := slen + 1;
      s[start] := mark;
      assert s[start..U2S_BUFSIZE - 1] == [mark] + digits;
    }
  }

  function OctalText(x: nat, alt: bool): string {
    (if alt && x != 0 then ['0'] else []) + Digits(x, 8, false)
  }

  method O2S(x: nat, alt: bool, s: array<char>) returns (start: nat, slen: nat)
    requires x < U64 && s.Length >= U2S_BUFSIZE
    modifies s
    ensures start + slen == U2S_BUFSIZE - 1 && s[U2S_BUFSIZE - 1] == '\0'
    ensures s[start..U2S_BUFSIZE - 1] == OctalText(x, alt)
  {
    hide Digits, Value, Shift, AllDigits;
    start, slen := U2S(x, 8, false, s);
    ghost var digits := s[start..U2S_BUFSIZE - 1];
    DigitsValue(x, 8, false);
    assert s[start] == digits[0];
    if alt && s[start] != '0' {
      start := start - 1;
      slen := slen + 1;
      s[start] := '0';
      assert s[start..U2S_BUFSIZE - 1] == ['0'] + digits;
    }
  }

  function HexText(x: nat, alt: bool, upper: bool): string {
    (if alt then ['0', if upper then 'X' else 'x'] else []) + Digits(x, 16, upper)
  }

  method X2S(x: nat, alt: bool, upper: bool, s: array<char>) returns (start: nat, slen: nat)
    requires x < U64 && s.Length >= U2S_BUFSIZE
    modifies s
    ensures start + slen == U2S_BUFSIZE - 1 && s[U2S_BUFSIZE - 1] == '\0'
    ensures s[start..U2S_BUFSIZE - 1] == HexText(x, alt, upper)
  {
    start, slen := U2S(x, 16, upper, s);
    if alt {
      ghost var digits := s[start..U2S_BUFSIZE - 1];
      start := start - 2;
      slen := slen + 2;
      s[start], s[start + 1] := '0', if upper then 'X' else 'x';
      assert s[start..U2S_BUFSIZE - 1] == ['0', if upper then 'X' else 'x'] + digits;
    }
  }

  // ----- Parsing -----

  /** Text is read as if a terminator followed it. */
  function At(t: string, p: nat): char {
    if p < |t| then t[p] else '\0'
  }

  predicate White(c: char) {
    c in {'\t', '\n', 11 as char, 12 as char, '\r', ' '}
  }

  function SkipWhite(t: string, p: nat): (r: nat)
    decreases |t| - p
  {
    if p < |t| && White(t[p]) then SkipWhite(t, p + 1) else p
  }

  predicate HexDigit(c: char) {
    DigitOf(c, 16) >= 0
  }

  datatype Prefix = Go(p: nat, b: nat) | LoneZero

  /** What a leading zero means at p: an octal or a hexadecimal prefix, a digit, or the whole number. */
  function ReadPrefix(t: string, p: nat, b: nat): Prefix {
    var plain := Go(p, if b == 0 then 10 else b);
    if At(t, p) != '0' then plain
    else if '0' <= At(t, p + 1) <= '7' then
      if b == 0 || b == 8 then Go(p + 1, 8) else plain
    else if At(t, p + 1) in {'x', 'X'} then
      if HexDigit(At(t, p + 2)) && (b == 0 || b == 16) then Go(p + 2, 16) else plain
    else LoneZero
  }

  /** Converts digits up to the first character that is none; overflow shows only as a smaller result. */
  function Convert(t: string, p: nat, b: nat, ret: nat): (r: Parsed)
    decreases |t| - p
  {
    if p >= |t| || DigitOf(t[p], b) < 0 then Parsed(ret, p, Fine)
    else
      var next := Shift(ret, b, DigitOf(t[p], b)) % U64;
      if next < ret then Parsed(U64 - 1, p, Range) else Convert(t, p + 1, b, next)
  }

  function Negate(x: nat): nat {
    (U64 - x % U64) % U64
  }

  /** The whole of parsing; `end` is where the caller is told parsing stopped. */
  function Parse(t: string, base: int): Parsed {
    if base < 0 || base == 1 || base > 36 then Parsed(U64 - 1, 0, Invalid)
    else
      var w := SkipWhite(t, 0);
      var neg := At(t, w) == '-';
      var ns := if At(t, w) in {'-', '+'} then w + 1 else w;
      match ReadPrefix(t, ns, base)
      case LoneZero => Parsed(0, ns + 1, Fine)
      case Go(p, b) =>
        var c := Convert(t, p, b, 0);
        if c.err.Range? then Parsed(c.ret, if c.end == ns then 0 else c.end, Range)
        else if c.end == ns then Parsed(U64 - 1, 0, Invalid)
        else Parsed(if neg then Negate(c.ret) else c.ret, c.end, Fine)
  }

  lemma SkipStep(t: string, p: nat)
    ensures if White(At(t, p)) then p < |t| && SkipWhite(t, p + 1) == SkipWhite(t, p) else SkipWhite(t, p) == p
  {
  }

  /** Each of the six blanks before a text is passed over: parsing gives the same, that much further on. */
  lemma {:induction false} BlanksPass(ws: string, t: string, base: int)
    requires forall i :: 0 <= i < |ws| ==> ws[i] in {' ', '\t', '\n', '\r', 11 as char, 12 as char}
    ensures var r := Parse(t, base);
            Parse(ws + t, base) == if r.end == 0 then r else r.(end := |ws| + r.end)
    ensures t != [] && t[0] !in {' ', '\t', '\n', '\r', 11 as char, 12 as char} ==> SkipWhite(ws + t, 0) == |ws|
  {
    hide Parse;
    BlanksSkip(ws, t, 0);
    SkipShift(ws, t, 0);
    if 0 <= base <= 36 && base != 1 {
      ParseShift(ws, t, base);
    } else {
      NoBase(ws + t, base);
      NoBase(t, base);
    }
  }

  lemma NoBase(t: string, base: int)
    requires base < 0 || base == 1 || base > 36
    ensures Parse(t, base).end == 0 && Parse(t, base) == Parsed(U64 - 1, 0, Invalid)
  {
  }

  lemma ParseShift(ws: string, t: string, base: nat)
    requires SkipWhite(ws + t, 0) == |ws| + SkipWhite(t, 0) && base <= 36 && base != 1
    ensures var r := Parse(t, base); Parse(ws + t, base) == if r.end == 0 then r else r.(end := |ws| + r.end)
  {
    hide SkipWhite, Convert, White, Negate, ReadPrefix;
    var w := SkipWhite(t, 0);
    var ns := if At(t, w) in {'-', '+'} then w + 1 else w;
    assert At(ws + t, |ws| + w) == At(t, w);
    PrefixShift(ws, t, ns, base);
    match ReadPrefix(t, ns, base)
    case LoneZero =>
    case Go(p, b) =>
      PrefixForward(t, ns, base);
      ConvertShift(ws, t, p, b, 0);
  }

  lemma PrefixForward(t: string, p: nat, b: nat)
    ensures ReadPrefix(t, p, b).Go? ==> ReadPrefix(t, p, b).p >= p
  {
  }

  lemma {:induction false} BlanksSkip(ws: string, t: string, i: nat)
    requires i <= |ws| && forall j :: 0 <= j < |ws| ==> White(ws[j])
    ensures SkipWhite(ws + t, i) == SkipWhite(ws + t, |ws|)
    decreases |ws| - i
  {
    if i < |ws| {
      assert (ws + t)[i] == ws[i];
      BlanksSkip(ws, t, i + 1);
    }
  }

  lemma {:induction false} SkipShift(ws: string, t: string, p: nat)
    ensures SkipWhite(ws + t, |ws| + p) == |ws| + SkipWhite(t, p)
    decreases |t| - p
  {
    if p < |t| && White(t[p]) {
      SkipShift(ws, t, p + 1);
    }
  }

  lemma PrefixShift(ws: string, t: string, p: nat, b: nat)
    ensures var r := ReadPrefix(t, p, b);
            ReadPrefix(ws + t, |ws| + p, b) == if r.Go? then Go(|ws| + r.p, r.b) else r
  {
    assert forall i: nat :: At(ws + t, |ws| + i) == At(t, i);
    assert At(ws + t, |ws| + p + 1) == At(ws + t, |ws| + (p + 1)) && At(ws + t, |ws| + p + 2) == At(ws + t, |ws| + (p + 2));
  }

  lemma {:induction false} ConvertShift(ws: string, t: string, p: nat, b: nat, ret: nat)
    ensures var r := Convert(t, p, b, ret);
            Convert(ws + t, |ws| + p, b, ret) == r.(end := |ws| + r.end) && r.end >= p
    decreases |t| - p
  {
    if p < |t| && DigitOf(t[p], b) >= 0 {
      assert (ws + t)[|ws| + p] == t[p];
      var next := Shift(ret, b, DigitOf(t[p], b)) % U64;
      if next >= ret {
        ConvertShift(ws, t, p + 1, b, next);
        assert |ws| + (p + 1) == |ws| + p + 1;
      }
    }
  }

  method Strtoumax(t: string, base: int) returns (ret: nat, end: nat, err: Errno)
    ensures Parsed(ret, end, err) == Parse(t, base)
  {
    hide White, HexDigit, SkipWhite, Convert, Negate, ReadPrefix;
    if base < 0 || base == 1 || base > 36 {
      return U64 - 1, 0, Invalid;
    }
    var neg := false;
    var p := SkipBlanks(t);
    if At(t, p) == '-' {
      neg := true;
      p := p + 1;
    } else if At(t, p) == '+' {
      p := p + 1;
    }
    var ns := p;
    var lone, b;
    lone, p, b := ConvertPrefix(t, p, base);
    if lone {
      return 0, p, Fine;
    }
    ret, p, err := ConvertDigits(t, p, b);
    if err == Range {
      return ret, if p == ns then 0 else p, Range;
    }
    if p == ns {
      return U64 - 1, 0, Invalid;
    }
    return if neg then Negate(ret) else ret, p, Fine;
  }

  method SkipBlanks(t: string) returns (p: nat)
    ensures p == SkipWhite(t, 0)
  {
    hide White, SkipWhite;
    p := 0;
    SkipStep(t, p);
    while White(At(t, p))
      invariant SkipWhite(t, p) == SkipWhite(t, 0) && (White(At(t, p)) ==> p < |t|)
      invariant White(At(t, p)) || SkipWhite(t, 0) == p
      decreases |t| - p
    {
      SkipStep(t, p);
      p := p + 1;
      SkipStep(t, p);
    }
  }

  /** Reads a leading zero and what follows it, and settles the base. */
  method ConvertPrefix(t: string, from: nat, base: nat) returns (lone: bool, p: nat, b: nat)
    requires base == 0 || 2 <= base <= 36
    ensures ReadPrefix(t, from, base) == if lone then LoneZero else Go(p, b)
    ensures if lone then p == from + 1 else 2 <= b <= 36
  {
    hide HexDigit;
    b, p := base, from;
    if At(t, p) == '0' {
      if '0' <= At(t, p + 1) <= '7' {
        if b == 0 {
          b := 8;
        }
        if b == 8 {
          p := p + 1;
        }
      } else if At(t, p + 1) == 'X' || At(t, p + 1) == 'x' {
        if HexDigit(At(t, p + 2)) {
          if b == 0 {
            b := 16;
          }
          if b == 16 {
            p := p + 2;
          }
        }
      } else {
        return true, p + 1, b;
      }
    }
    if b == 0 {
      b := 10;
    }
    lone := false;
  }

  method ConvertDigits(t: string, from: nat, b: nat) returns (ret: nat, p: nat, err: Errno)
    requires 2 <= b <= 36
    ensures Parsed(ret, p, err) == Convert(t, from, b, 0) && !err.Invalid?
  {
    ret, p := 0, from;
    while p < |t| && DigitOf(t[p], b) >= 0
      invariant Convert(t, from, b, 0) == Convert(t, p, b, ret)
      decreases |t| - p
    {
      var pret := ret;
      ret := Shift(ret, b, DigitOf(t[p], b)) % U64;
      if ret < pret {
        return U64 - 1, p, Range;
      }
      p := p + 1;
    }
    return ret, p, Fine;
  }

  // ----- What parsing means -----

  lemma ConvertOne(t: string, p: nat, b: nat, ret: nat)
    requires p < |t| && b >= 1 && DigitOf(t[p], b) >= 0 && Shift(ret, b, DigitOf(t[p], b)) < U64
    ensures Convert(t, p, b, ret) == Convert(t, p + 1, b, Shift(ret, b, DigitOf(t[p], b)))
  {
    hide Shift, DigitOf;
    ShiftGrows(ret, b, DigitOf(t[p], b));
  }

  /** Converting a digit string that stands for a 64-bit number is exact. */
  lemma {:induction false} ConvertExact(t: string, p: nat, q: nat, b: nat)
    requires 2 <= b <= 36 && p <= q <= |t| && AllDigits(t[p..q], b) && Value(t[p..q], b) < U64
    ensures Convert(t, p, b, 0) == Convert(t, q, b, Value(t[p..q], b))
    decreases q
  {
    if q > p {
      var d, s := DigitOf(t[q - 1], b), t[p..q - 1];
      assert s + [t[q - 1]] == t[p..q];
      PrefixDigits(s, t[q - 1], b);
      ValueSnoc(s, t[q - 1], b);
      ShiftGrows(Value(s, b), b, d);
      ConvertOne(t, q - 1, b, Value(s, b));
      hide *;
      ConvertExact(t, p, q - 1, b);
    } else {
      assert t[p..q] == [];
    }
  }

  lemma PrefixDigits(s: string, c: char, b: nat)
    requires AllDigits(s + [c], b)
    ensures AllDigits(s, b) && DigitOf(c, b) >= 0
  {
    assert forall i :: 0 <= i < |s| ==> s[i] == (s + [c])[i];
    assert (s + [c])[|s|] == c;
  }

  /** A zero in front changes nothing. */
  lemma {:induction false} LeadingZero(t: string, b: nat)
    requires b >= 2 && AllDigits(t, b)
    ensures Value(['0'] + t, b) == Value(t, b)
    decreases |t|
  {
    if t == [] {
      assert (['0'] + t)[..0] == [];
    } else {
      LeadingZero(t[..|t| - 1], b);
      assert (['0'] + t)[..|t|] == ['0'] + t[..|t| - 1];
    }
  }

  lemma ConvertNumber(t: string, p: nat, b: nat)
    requires 2 <= b <= 36 && p < |t| && IsNumber(t[p..], b) && Value(t[p..], b) < U64
    ensures Convert(t, p, b, 0) == Parsed(Value(t[p..], b), |t|, Fine)
  {
    assert t[p..|t|] == t[p..];
    ConvertExact(t, p, |t|, b);
  }

  /** Blanks end at w, digits start at p, and the base is settled. */
  predicate Ready(t: string, base: nat, w: nat, p: nat, b: nat) {
    && w == SkipWhite(t, 0) && 2 <= b <= 36 && p < |t| && w < |t|
    && (At(t, w) in {'-', '+'} ==> w + 1 < |t|)
    && ReadPrefix(t, if At(t, w) in {'-', '+'} then w + 1 else w, base) == Go(p, b)
  }

  /** The steps of a parse that goes well. */
  lemma ParseGoes(t: string, base: nat, w: nat, p: nat, b: nat)
    requires (base == 0 || 2 <= base <= 36) && Ready(t, base, w, p, b)
    requires p <= |t| && IsNumber(t[p..], b) && Value(t[p..], b) < U64
    ensures Parse(t, base) == Parsed(if At(t, w) == '-' then Negate(Value(t[p..], b)) else Value(t[p..], b), |t|, Fine)
  {
    ConvertNumber(t, p, b);
    hide Convert, SkipWhite, ReadPrefix, Negate, Value, IsNumber;
  }

  /** A zero followed by a digit that is neither octal nor an x hides the rest of the number. */
  predicate CutShort(t: string) {
    |t| >= 2 && t[0] == '0' && !('0' <= t[1] <= '7') && t[1] != 'x' && t[1] != 'X'
  }

  /** A digit string for a 64-bit number parses to what it stands for exactly unless it is cut short. */
  lemma ParseIsValueIff(t: string, b: nat)
    requires 2 <= b <= 36 && IsNumber(t, b) && Value(t, b) < U64
    ensures Parse(t, b) == Parsed(Value(t, b), |t|, Fine) <==> !CutShort(t)
    ensures CutShort(t) ==> Parse(t, b) == Parsed(0, 1, Fine)
  {
    FirstIsDigit(t, b);
    hide Convert, Value, Negate, SkipWhite;
    if CutShort(t) {
      assert Parse(t, b) == Parsed(0, 1, Fine);
    } else if t == ['0'] {
      assert t[..0] == [];
      ParseZero(b);
    } else if b == 8 && t[0] == '0' {
      assert t == ['0'] + t[1..];
      LeadingZero(t[1..], 8);
      OctalAhead(t[1..], 8);
      ParseGoes(t, 8, 0, 1, 8);
    } else {
      assert t[0..] == t;
      PlainReady(t, b);
      ParseGoes(t, b, 0, 0, b);
    }
  }

  /** Eight with a zero in front is such a number, in decimal. */
  lemma EightIsHidden()
    ensures IsNumber("08", 10) && Value("08", 10) == 8 && Parse("08", 10) == Parsed(0, 1, Fine)
  {
    var t := "08";
    assert t == [] + ['0'] + ['8'];
    ValueSnoc([], '0', 10);
    ValueSnoc(['0'], '8', 10);
    assert [] + ['0'] == ['0'];
    ParseIsValueIff(t, 10);
  }

  lemma PlainReady(t: string, b: nat)
    requires 2 <= b <= 36 && IsNumber(t, b) && !CutShort(t) && t != ['0'] && !(b == 8 && t[0] == '0')
    ensures Ready(t, b, 0, 0, b)
  {
    FirstIsDigit(t, b);
    if b == 16 && t[0] == '0' {
      assert DigitOf(t[1], 16) >= 0;
      assert t[1] != 'x' && t[1] != 'X';
    }
  }

  lemma FirstIsDigit(t: string, b: nat)
    requires IsNumber(t, b) && b <= 36
    ensures SkipWhite(t, 0) == 0 && t[0] != '-' && t[0] != '+'
  {
    assert DigitOf(t[0], b) >= 0;
  }

  // ----- Overflow -----

  /** What the first k characters stand for. */
  function Upto(t: string, k: nat, b: nat): nat
    requires k <= |t| && AllDigits(t, b)
  {
    Value(t[..k], b)
  }

  lemma UptoNext(t: string, k: nat, b: nat)
    requires k < |t| && AllDigits(t, b)
    ensures DigitOf(t[k], b) >= 0 && Upto(t, k + 1, b) == Shift(Upto(t, k, b), b, DigitOf(t[k], b))
  {
    assert t[..k + 1] == t[..k] + [t[k]];
    ValueSnoc(t[..k], t[k], b);
  }

  /** Some digit makes the number, kept modulo 2^64, smaller than it was. */
  predicate Drops(t: string, b: nat)
    requires AllDigits(t, b)
  {
    exists k :: 0 <= k < |t| && DropsAt(t, k, b)
  }

  predicate DropsAt(t: string, k: nat, b: nat)
    requires k < |t| && AllDigits(t, b)
  {
    Upto(t, k + 1, b) % U64 < Upto(t, k, b) % U64
  }

  lemma ShiftMod(v: nat, b: nat, d: nat)
    ensures Shift(v % U64, b, d) % U64 == Shift(v, b, d) % U64
  {
    var q := v / U64;
    MulAdd(q * U64, v % U64, b);
    MulAssoc(b, q, U64);
    AddMultiple(Shift(v % U64, b, d), b * q);
  }

  lemma MulAdd(x: nat, y: nat, b: nat)
    ensures (x + y) * b == x * b + y * b
  {
  }

  lemma AddMultiple(x: nat, k: nat)
    ensures (x + k * U64) % U64 == x % U64
  {
  }

  /** Where the digits that start at p end. */
  function DigitsEnd(t: string, p: nat, b: nat): (q: nat)
    ensures p <= q && (p <= |t| ==> q <= |t|)
    decreases |t| - p
  {
    if p < |t| && DigitOf(t[p], b) >= 0 then DigitsEnd(t, p + 1, b) else p
  }

  function DigitsAt(t: string, p: nat, b: nat): string
    requires p <= |t|
  {
    t[p..DigitsEnd(t, p, b)]
  }

  lemma {:induction false} DigitsAtDigits(t: string, p: nat, b: nat)
    requires p <= |t|
    ensures AllDigits(DigitsAt(t, p, b), b)
    ensures p + |DigitsAt(t, p, b)| < |t| ==> DigitOf(t[p + |DigitsAt(t, p, b)|], b) < 0
    decreases |t| - p
  {
    if p < |t| && DigitOf(t[p], b) >= 0 {
      DigitsAtDigits(t, p + 1, b);
      assert DigitsAt(t, p, b) == [t[p]] + DigitsAt(t, p + 1, b);
      hide DigitOf;
    }
  }

  lemma {:induction false} NumberIsDigits(t: string, p: nat, b: nat)
    requires p <= |t| && AllDigits(t, b)
    ensures DigitsEnd(t, p, b) == |t|
    decreases |t| - p
  {
    if p < |t| {
      NumberIsDigits(t, p + 1, b);
    }
  }

  /**
   With k of the digits that start at p converted, conversion reports an overflow exactly at a drop among the
   others, and otherwise returns the number modulo 2^64.
   */
  lemma {:induction false} ConvertDrops(t: string, p: nat, b: nat, k: nat)
    requires p <= |t| && k <= |DigitsAt(t, p, b)| && AllDigits(DigitsAt(t, p, b), b)
    ensures var d := DigitsAt(t, p, b);
            var c := Convert(t, p + k, b, Upto(d, k, b) % U64);
            if exists j :: k <= j < |d| && DropsAt(d, j, b) then c.err.Range? && c.ret == U64 - 1
            else c == Parsed(Upto(d, |d|, b) % U64, p + |d|, Fine)
    decreases |DigitsAt(t, p, b)| - k
  {
    hide DigitsEnd, Upto, Shift, DigitOf, AllDigits;
    var d := DigitsAt(t, p, b);
    DigitsAtDigits(t, p, b);
    if k < |d| {
      assert t[p + k] == d[k];
      UptoNext(d, k, b);
      ShiftMod(Upto(d, k, b), b, DigitOf(d[k], b));
      ConvertDrops(t, p, b, k + 1);
      if DropsAt(d, k, b) {
      } else if exists j :: k <= j < |d| && DropsAt(d, j, b) {
        var j :| k <= j < |d| && DropsAt(d, j, b);
        assert k + 1 <= j;
      }
    }
  }

  /** Where the sign, if any, ends. */
  function SignEnd(t: string): nat {
    var w := SkipWhite(t, 0);
    if At(t, w) in {'-', '+'} then w + 1 else w
  }

  predicate Minus(t: string) {
    At(t, SkipWhite(t, 0)) == '-'
  }

  lemma {:induction false} SkipWhiteInside(t: string, p: nat)
    requires p <= |t|
    ensures SkipWhite(t, p) <= |t|
    decreases |t| - p
  {
    if p < |t| && White(t[p]) {
      SkipWhiteInside(t, p + 1);
    }
  }

  /** The digits start inside the text, and behind a prefix there is one. */
  lemma PrefixInside(t: string, base: nat, p: nat, b: nat)
    requires (base == 0 || 2 <= base <= 36) && ReadPrefix(t, SignEnd(t), base) == Go(p, b)
    ensures SignEnd(t) <= p <= |t| && 2 <= b <= 36
    ensures p > SignEnd(t) ==> p < |t| && DigitOf(t[p], b) >= 0
  {
    SkipWhiteInside(t, 0);
    hide SkipWhite;
  }

  /** A parse is what conversion makes of the digits, negated after a minus sign. */
  lemma ParseIsConvert(t: string, base: nat, p: nat, b: nat)
    requires (base == 0 || 2 <= base <= 36) && ReadPrefix(t, SignEnd(t), base) == Go(p, b)
    ensures var c := Convert(t, p, b, 0);
            Parse(t, base) ==
            if c.err.Range? then Parsed(c.ret, if c.end == SignEnd(t) then 0 else c.end, Range)
            else if c.end == SignEnd(t) then Parsed(U64 - 1, 0, Invalid)
            else Parsed(if Minus(t) then Negate(c.ret) else c.ret, c.end, Fine)
  {
    hide Convert, SkipWhite, ReadPrefix, Negate;
  }

  /**
   What a parse of any text in any base it takes, or with the base left to the prefix, returns. Overflow is
   reported exactly when some digit makes the number, modulo 2^64, smaller than it was before; unreported, the
   result is the number, with its sign, modulo 2^64.
   */
  lemma ParseReports(t: string, base: nat)
    requires base == 0 || 2 <= base <= 36
    ensures match ReadPrefix(t, SignEnd(t), base)
            case LoneZero => Parse(t, base) == Parsed(0, SignEnd(t) + 1, Fine)
            case Go(p, b) =>
              && p <= |t| && AllDigits(DigitsAt(t, p, b), b)
              && var d, r := DigitsAt(t, p, b), Parse(t, base);
              && (r.err.Range? <==> Drops(d, b)) && (Drops(d, b) ==> r.ret == U64 - 1)
              && (!Drops(d, b) ==>
                    r == if d == [] then Parsed(U64 - 1, 0, Invalid)
                         else Parsed(if Minus(t) then Negate(Value(d, b)) else Value(d, b) % U64, p + |d|, Fine))
  {
    hide Convert, Value, Shift, Upto, Drops, DropsAt, AllDigits, DigitOf, SkipWhite, ReadPrefix, DigitsAt;
    match ReadPrefix(t, SignEnd(t), base)
    case LoneZero =>
    case Go(p, b) =>
      hide Parse, Negate, SignEnd;
      PrefixInside(t, base, p, b);
      DigitsAtDigits(t, p, b);
      var d := DigitsAt(t, p, b);
      ParseIsConvert(t, base, p, b);
      ConvertDrops(t, p, b, 0);
      UptoEnds(d, b);
      DropsSomewhere(d, b);
      NegateMod(Value(d, b));
      DigitBehindPrefix(t, p, b);
  }

  lemma NegateMod(v: nat)
    ensures Negate(v % U64) == Negate(v)
  {
  }

  lemma DigitBehindPrefix(t: string, p: nat, b: nat)
    requires p <= |t|
    ensures DigitsAt(t, p, b) != [] <==> p < |t| && DigitOf(t[p], b) >= 0
    ensures DigitsAt(t, p, b) == [] ==> !Drops([], b)
  {
  }

  /**
   Overflow is reported exactly when some digit makes the number, modulo 2^64, smaller than it was before;
   unreported, the result is the number modulo 2^64.
   */
  lemma ParseReportsIff(t: string, b: nat)
    requires 2 <= b <= 36 && IsNumber(t, b) && !CutShort(t)
    ensures Parse(t, b).err.Range? <==> Drops(t, b)
    ensures Drops(t, b) ==> Parse(t, b).ret == U64 - 1
    ensures !Drops(t, b) ==> Parse(t, b) == Parsed(Value(t, b) % U64, |t|, Fine)
  {
    hide Value, Shift, AllDigits, DigitOf, SkipWhite, Convert, Parse, Drops, DropsAt;
    UptoEnds(t, b);
    FirstIsDigit(t, b);
    WholeNumber(t, b);
    ConvertDrops(t, 0, b, 0);
    DropsSomewhere(t, b);
    if t == ['0'] {
      ParseZero(b);
      ZeroStays(t, b);
    } else if b == 8 && t[0] == '0' {
      ZeroStays(t, 8);
      SecondIsOctal(t);
      ParseConverts(t, b, 1);
    } else {
      PlainReady(t, b);
      ParseConverts(t, b, 0);
    }
  }

  lemma WholeNumber(t: string, b: nat)
    requires AllDigits(t, b)
    ensures DigitsAt(t, 0, b) == t
  {
    NumberIsDigits(t, 0, b);
  }

  lemma UptoEnds(t: string, b: nat)
    requires AllDigits(t, b)
    ensures Upto(t, 0, b) == 0 && Upto(t, |t|, b) == Value(t, b)
  {
    assert t[..0] == [] && t[..|t|] == t;
  }

  lemma DropsSomewhere(t: string, b: nat)
    requires AllDigits(t, b)
    ensures Drops(t, b) <==> exists k :: 0 <= k < |t| && DropsAt(t, k, b)
  {
    hide DropsAt;
  }

  lemma SecondIsOctal(t: string)
    requires IsNumber(t, 8) && |t| > 1 && t[0] == '0'
    ensures ReadPrefix(t, 0, 8) == Go(1, 8)
  {
    assert DigitOf(t[1], 8) >= 0;
  }

  /** Without blanks and a sign, what a parse makes of a conversion. */
  lemma ParseConverts(t: string, b: nat, p: nat)
    requires 2 <= b <= 36 && t != [] && SkipWhite(t, 0) == 0 && t[0] != '-' && t[0] != '+' && ReadPrefix(t, 0, b) == Go(p, b)
    ensures var c, r := Convert(t, p, b, 0), Parse(t, b);
            && (c.err.Range? <==> r.err.Range?) && (c.err.Range? ==> r.ret == c.ret)
            && (c.err.Fine? && c.end > 0 ==> r == c)
  {
    hide Convert, SkipWhite, ReadPrefix, Negate;
  }

  /** A leading zero converts to zero. */
  lemma ZeroStays(t: string, b: nat)
    requires b >= 2 && |t| > 0 && t[0] == '0'
    ensures Convert(t, 0, b, 0) == Convert(t, 1, b, 0)
    ensures |t| == 1 ==> Convert(t, 0, b, 0) == Parsed(0, 1, Fine)
  {
    assert DigitOf(t[0], b) == 0 && Shift(0, b, 0) == 0;
    assert Convert(t, 1, b, 0) == if |t| == 1 then Parsed(0, 1, Fine) else Convert(t, 1, b, 0);
  }

  /** Overflow can go unnoticed: twenty digits, well past 64 bits, and no error. */
  lemma MissedOverflow()
    ensures var t := ['3'] + Zeros(19);
            IsNumber(t, 10) && Parse(t, 10) == Parsed(11553255926290448384, 20, Fine) && Value(t, 10) >= U64
  {
    var t := ['3'] + Zeros(19);
    assert t[0] == '3' && |t| == 20;
    TenTo18();
    ThreeZeros(18);
    assert t == ['3'] + Zeros(18) + ['0'];
    ValueSnoc(['3'] + Zeros(18), '0', 10);
    ThreeThenZero();
    hide Pow, Shift;
    ConvertOne(t, 0, 10, 0);
    ConvertZeros(t, 1, 18, 3);
    assert DigitOf(t[19], 10) == 0;
    assert Convert(t, 19, 10, 3000000000000000000) == Convert(t, 20, 10, 11553255926290448384);
    assert Convert(t, 20, 10, 11553255926290448384) == Parsed(11553255926290448384, 20, Fine);
  }

  lemma {:induction false} ThreeZeros(k: nat)
    ensures IsNumber(['3'] + Zeros(k), 10) && Value(['3'] + Zeros(k), 10) == 3 * Pow(10, k)
    decreases k
  {
    if k == 0 {
      assert ['3'] + Zeros(0) == [] + ['3'];
      ValueSnoc([], '3', 10);
    } else {
      ThreeZeros(k - 1);
      assert ['3'] + Zeros(k) == ['3'] + Zeros(k - 1) + ['0'];
      ValueSnoc(['3'] + Zeros(k - 1), '0', 10);
    }
  }

  lemma ThreeThenZero()
    ensures Shift(0, 10, 3) == 3 && Shift(3000000000000000000, 10, 0) == 30000000000000000000
    ensures Shift(3000000000000000000, 10, 0) % U64 == 11553255926290448384
  {
  }

  lemma TenTo18()
    ensures Pow(10, 18) == 1000000000000000000
  {
    PowDoubles(10, 1, 10);
    PowDoubles(10, 2, 100);
    PowDoubles(10, 4, 10000);
    PowDoubles(10, 8, 100000000);
    PowAdd(10, 16, 2);
    hide Pow;
  }

  function Zeros(n: nat): (t: string)
    ensures |t| == n && forall i :: 0 <= i < n ==> t[i] == '0'
  {
    if n == 0 then [] else Zeros(n - 1) + ['0']
  }

  lemma {:induction false} ConvertZeros(t: string, p: nat, k: nat, ret: nat)
    requires p + k <= |t| && (forall i :: p <= i < p + k ==> t[i] == '0') && ret * Pow(10, k) < U64
    ensures Convert(t, p, 10, ret) == Convert(t, p + k, 10, ret * Pow(10, k))
    decreases k
  {
    if k > 0 {
      MulAssoc(ret, 10, Pow(10, k - 1));
      assert ret * 10 * Pow(10, k - 1) == ret * Pow(10, k);
      PowGrows(1, 10, k - 1);
      PowOne(k - 1);
      MulGrows(ret * 10, 1, Pow(10, k - 1));
      assert DigitOf(t[p], 10) == 0 && Shift(ret, 10, 0) == ret * 10;
      ConvertOne(t, p, 10, ret);
      hide *;
      ConvertZeros(t, p + 1, k - 1, ret * 10);
    }
  }

  lemma {:induction false} PowOne(k: nat)
    ensures Pow(1, k) == 1
  {
    if k > 0 {
      PowOne(k - 1);
    }
  }

  // ----- Parsing undoes printing -----

  lemma ParsePrinted(x: nat, b: nat, upper: bool)
    requires x < U64 && 2 <= b <= 36
    ensures Parse(Digits(x, b, upper), b) == Parsed(x, |Digits(x, b, upper)|, Fine)
  {
    DigitsValue(x, b, upper);
    ParseIsValueIff(Digits(x, b, upper), b);
  }

  lemma ParseOctal(x: nat, alt: bool, base: int)
    requires x < U64 && (base == 8 || (base == 0 && (alt || x == 0)))
    ensures Parse(OctalText(x, alt), base) == Parsed(x, |OctalText(x, alt)|, Fine)
  {
    hide Digits, Parse, Value, Shift, Convert, AllDigits, Negate, Ready;
    var d := Digits(x, 8, false);
    DigitsValue(x, 8, false);
    if x == 0 {
      OneDigit(x, 8, false);
      assert OctalText(x, alt) == ['0'];
      ParseZero(base);
    } else if alt {
      Behind(['0'], d);
      OctalAhead(d, base);
      ParseGoes(['0'] + d, base, 0, 1, 8);
    } else {
      assert OctalText(x, alt) == d;
      ParsePrinted(x, 8, false);
    }
  }

  lemma Behind(front: string, d: string)
    requires d != []
    ensures (front + d)[|front|..] == d && (front + d)[|front|] == d[0] && (front + d)[..|front|] == front
  {
  }

  lemma OctalAhead(d: string, base: int)
    requires IsNumber(d, 8) && base in {0, 8}
    ensures var t := ['0'] + d; At(t, 0) == '0' && Ready(t, base, 0, 1, 8)
  {
    assert DigitOf(d[0], 8) >= 0;
  }

  lemma OneDigit(x: nat, b: nat, upper: bool)
    requires 2 <= b <= 36
    ensures x == 0 ==> Digits(x, b, upper) == ['0']
  {
    ShiftBack(x, b);
  }

  lemma ParseZero(base: int)
    requires base == 0 || 2 <= base <= 36
    ensures Parse(['0'], base) == Parsed(0, 1, Fine)
  {
  }

  lemma ParseHex(x: nat, alt: bool, upper: bool, base: int)
    requires x < U64 && (base == 16 || (base == 0 && alt))
    ensures Parse(HexText(x, alt, upper), base) == Parsed(x, |HexText(x, alt, upper)|, Fine)
  {
    var d := Digits(x, 16, upper);
    DigitsValue(x, 16, upper);
    if alt {
      var front := ['0', if upper then 'X' else 'x'];
      Behind(front, d);
      HexAhead(d, base, upper);
      hide Digits, Parse, Value, Convert, IsNumber, ReadPrefix, SkipWhite;
      ParseGoes(front + d, base, 0, 2, 16);
    } else {
      assert HexText(x, alt, upper) == d;
      ParsePrinted(x, 16, upper);
    }
  }

  lemma HexAhead(d: string, base: int, upper: bool)
    requires IsNumber(d, 16) && base in {0, 16}
    ensures var t := ['0', if upper then 'X' else 'x'] + d;
            At(t, 0) == '0' && Ready(t, base, 0, 2, 16)
  {
    assert DigitOf(d[0], 16) >= 0;
  }

  /** Signed text comes back modulo 2^64; the mark of a non-negative number is swallowed. */
  lemma ParseSigned(x: int, sign: char, base: int)
    requires -(U64 as int) < x < U64 && sign in {'-', '+', ' '} && base in {0, 10}
    ensures Parse(SignedText(x, sign), base) == Parsed(x % U64, |SignedText(x, sign)|, Fine)
  {
    if x == 0 {
      SignedZero(sign, base);
    } else {
      var y: nat := if x < 0 then -x else x;
      ParseMarked(Front(x, sign), y, base);
      SignedValue(x);
      hide Digits, Parse, Negate;
    }
  }

  function Front(x: int, sign: char): string {
    if x < 0 then ['-'] else if sign == '-' then [] else [sign]
  }

  lemma SignedValue(x: int)
    requires 0 < x < U64 || 0 < -x < U64
    ensures x % U64 == if x < 0 then Negate(-x) else x
  {
  }

  predicate IsMark(front: string) {
    front in {[], ['-'], ['+'], [' ']}
  }

  lemma ParseMarked(front: string, y: nat, base: int)
    requires 0 < y < U64 && base in {0, 10} && IsMark(front)
    ensures var t := front + Digits(y, 10, false);
            Parse(t, base) == Parsed(if front == ['-'] then Negate(y) else y, |t|, Fine)
  {
    var d := Digits(y, 10, false);
    DigitsValue(y, 10, false);
    Behind(front, d);
    SignAhead(front, d, base);
    hide *;
    ParseGoes(front + d, base, if front == [' '] then 1 else 0, |front|, 10);
  }

  lemma SignAhead(front: string, d: string, base: int)
    requires IsNumber(d, 10) && d[0] != '0' && base in {0, 10} && IsMark(front)
    ensures var t, w := front + d, if front == [' '] then 1 else 0;
            Ready(t, base, w, |front|, 10) && (At(t, w) == '-' <==> front == ['-'])
  {
    assert DigitOf(d[0], 10) >= 0;
    WhiteAhead(front + d, |front|);
  }

  lemma WhiteAhead(t: string, k: nat)
    requires k <= 1 && k < |t| && !White(t[k]) && (k == 1 ==> t[0] in {'-', '+', ' '})
    ensures SkipWhite(t, 0) == if t[0] == ' ' then 1 else 0
  {
    assert SkipWhite(t, k) == k;
  }

  lemma SignedZero(sign: char, base: int)
    requires sign in {'-', '+', ' '} && base in {0, 10}
    ensures Parse(SignedText(0, sign), base) == Parsed(0, |SignedText(0, sign)|, Fine)
  {
    OneDigit(0, 10, false);
    var t := SignedText(0, sign);
    assert t == if sign == '-' then "0" else [sign, '0'];
    WhiteAhead(t, |t| - 1);
    hide Digits, Convert;
  }
}
