/** printnum (lib/printfmt.c:37-52) and strtol (lib/string.c:241-286): a printer and a parser of numbers. */
module Numbers {
  import opened Layout
  import opened EnvId

  function DigitChar(d: nat): char
    requires d < 16
  {
    "0123456789abcdef"[d]
  }

  /** The most significant digit first. */
  function Digits(num: nat, base: nat): (s: string)
    requires 2 <= base <= 16
    ensures |s| >= 1
    decreases num
  {
    if num >= base then Digits(num / base, base) + [DigitChar(num % base)] else [DigitChar(num % base)]
  }

  function Padding(count: int, padc: char): (s: string)
    ensures |s| == if count > 0 then count else 0
    ensures forall k | 0 <= k < |s| :: s[k] == padc
  {
    seq(if count > 0 then count else 0, _ => padc)
  }

  /** What printnum prints. */
  function Printed(num: nat, base: nat, width: int, padc: char): string
    requires 2 <= base <= 16
  {
    Padding(width - |Digits(num, base)|, padc) + Digits(num, base)
  }

  /** Where putch sends its characters. */
  class Sink {
    var text: string

    method Putch(c: char)
      modifies this
      ensures text == old(text) + [c]
    {
      text := text + [c];
    }
  }

  lemma Divided(num: nat, base: nat)
    requires base >= 2
    ensures num == num / base * base + num % base && 0 <= num % base < base
    ensures num / base < num || num == 0
    ensures num / base > 0 <==> num >= base
  {
    var q, r := num / base, num % base;
    assert num == base * q + r;
    if q > 0 {
      assert base * q >= 2 * q;
      assert base * q >= base;
    }
  }

  /** The last digit comes after what is printed of the rest, with one place less. */
  lemma LastDigit(num: nat, base: nat, width: int, padc: char)
    requires 2 <= base <= 16
    ensures Printed(num, base, width, padc) ==
      (if num >= base then Printed(num / base, base, width - 1, padc) else Padding(width - 1, padc))
      + [DigitChar(num % base)]
  {
  }

  method PrintNum(sink: Sink, num: nat, base: nat, width: int, padc: char)
    requires 2 <= base <= 16
    modifies sink
    ensures sink.text == old(sink.text) + Printed(num, base, width, padc)
    decreases num
  {
    hide Printed, DigitChar;
    LastDigit(num, base, width, padc);
    Divided(num, base);
    if num >= base {
      PrintNum(sink, num / base, base, width - 1, padc);
    } else {
      var w := width - 1;
      while w > 0
        invariant sink.text == old(sink.text) + Padding(width - 1 - (if w > 0 then w else 0), padc)
        invariant width <= 1 ==> w == width - 1
        invariant width > 1 ==> w >= 0
      {
        sink.Putch(padc);
        w := w - 1;
      }
    }
    sink.Putch(DigitChar(num % base));
  }

  /** s[i], and the terminating NUL past the end. */
  function CharAt(s: string, i: nat): char {
    if i < |s| then s[i] else '\0'
  }

  predicate Blank(c: char) { c == ' ' || c == '\t' }

  /** The value of a digit, in any base up to 36. */
  function DigitValue(c: char): Option<nat> {
    if '0' <= c <= '9' then Some((c - '0') as nat)
    else if 'a' <= c <= 'z' then Some((c - 'a') as nat + 10)
    else if 'A' <= c <= 'Z' then Some((c - 'A') as nat + 10)
    else None
  }

  predicate IsDigit(c: char, base: int) {
    DigitValue(c).Some? && DigitValue(c).value < base
  }

  /** The first position from `i` on that holds no blank. */
  function AfterBlanks(s: string, i: nat): (j: nat)
    requires i <= |s|
    ensures i <= j <= |s|
    decreases |s| - i
  {
    if i < |s| && Blank(s[i]) then AfterBlanks(s, i + 1) else i
  }

  predicate Negative(s: string) {
    CharAt(s, AfterBlanks(s, 0)) == '-'
  }

  /** The position after blanks and sign. */
  function AfterSign(s: string): (j: nat)
    ensures j <= |s|
  {
    var i := AfterBlanks(s, 0);
    if CharAt(s, i) == '+' || CharAt(s, i) == '-' then i + 1 else i
  }

  /** The position of the first digit, and the base: 0x is skipped in base 16, and base 0 is made 16, 8 or 10 by the
      prefix. */
  function AfterPrefix(s: string, base: int): (r: (nat, int))
    ensures r.0 <= |s|
  {
    var i := AfterSign(s);
    if (base == 0 || base == 16) && CharAt(s, i) == '0' && CharAt(s, i + 1) == 'x' then (i + 2, 16)
    else if base == 0 && CharAt(s, i) == '0' then (i + 1, 8)
    else if base == 0 then (i, 10)
    else (i, base)
  }

  /** The first position from `i` on that holds no digit of the base. */
  function DigitsEnd(s: string, i: nat, base: int): (j: nat)
    requires i <= |s|
    ensures i <= j <= |s|
    ensures forall k | i <= k < j :: IsDigit(s[k], base)
    ensures j < |s| ==> !IsDigit(s[j], base)
    decreases |s| - i
  {
    if i < |s| && IsDigit(s[i], base) then DigitsEnd(s, i + 1, base) else i
  }

  /** One more digit at the end. */
  function Shift(x: int, base: int, dig: int): int { x * base + dig }

  /** The number spelled by s[i..j], most significant digit first. */
  function Horner(s: string, i: nat, j: nat, base: int): int
    requires i <= j <= |s| && forall k | i <= k < j :: IsDigit(s[k], base)
    decreases j
  {
    if i == j then 0
    else
      assert IsDigit(s[j - 1], base);
      Shift(Horner(s, i, j - 1, base), base, DigitValue(s[j - 1]).value)
  }

  /** Signed 32-bit arithmetic forgets multiples of 2^32. */
  lemma SignedShift(x: int, q: int)
    ensures Signed32(x + q * ADDRESS_LIMIT) == Signed32(x)
  {
    ShiftMod(x, q);
  }

  lemma ShiftMod(x: int, q: int)
    ensures (x + q * ADDRESS_LIMIT) % ADDRESS_LIMIT == x % ADDRESS_LIMIT
  {
    var r := x % ADDRESS_LIMIT;
    var p := x / ADDRESS_LIMIT;
    assert x + q * ADDRESS_LIMIT == (p + q) * ADDRESS_LIMIT + r;
  }

  /** The wrapped value stands for the number. */
  lemma SignedIsCongruent(x: int) returns (q: int)
    ensures Signed32(x) == x + q * ADDRESS_LIMIT
  {
    q := -(x / ADDRESS_LIMIT) - if x % ADDRESS_LIMIT < ID_LIMIT then 0 else 1;
  }

  lemma SignedStep(x: int, base: int, dig: int)
    ensures Signed32(Shift(Signed32(x), base, dig)) == Signed32(Shift(x, base, dig))
  {
    var q := SignedIsCongruent(x);
    assert Signed32(x) * base + dig == x * base + dig + (q * base) * ADDRESS_LIMIT by {
      Distribute(x, q * ADDRESS_LIMIT, base);
      assert q * ADDRESS_LIMIT * base == (q * base) * ADDRESS_LIMIT;
    }
    SignedShift(x * base + dig, q * base);
  }

  lemma Distribute(x: int, y: int, b: int)
    ensures (x + y) * b == x * b + y * b
  {
  }

  lemma SignedNegate(x: int)
    ensures Signed32(-Signed32(x)) == Signed32(-x)
  {
    var q := SignedIsCongruent(x);
    SignedShift(-x, -q);
  }

  /** What strtol returns and stores through endptr. */
  function Strtol(s: string, base: int): (r: (int, nat))
    ensures r.1 <= |s|
  {
    var (i, b) := AfterPrefix(s, base);
    var j := DigitsEnd(s, i, b);
    (Signed32(if Negative(s) then -Horner(s, i, j, b) else Horner(s, i, j, b)), j)
  }

  /** The digits loop of strtol; arithmetic on `val` wraps at 32 bits. */
  method ParseDigits(s: string, start: nat, base: int) returns (val: int, p: nat)
    requires start <= |s|
    ensures p == DigitsEnd(s, start, base) && val == Signed32(Horner(s, start, p, base))
  {
    hide Signed32, Shift;
    assert Signed32(0) == 0 by { SignedSmall(0); }
    p, val := start, 0;
    while true
      invariant start <= p <= |s| && DigitsEnd(s, start, base) == DigitsEnd(s, p, base)
      invariant forall k | start <= k < p :: IsDigit(s[k], base)
      invariant val == Signed32(Horner(s, start, p, base))
      decreases |s| - p
    {
      var c, dig := CharAt(s, p), 0;
      if '0' <= c <= '9' {
        dig := (c - '0') as int;
      } else if 'a' <= c <= 'z' {
        dig := (c - 'a') as int + 10;
      } else if 'A' <= c <= 'Z' {
        dig := (c - 'A') as int + 10;
      } else {
        break;
      }
      if dig >= base {
        break;
      }
      SignedStep(Horner(s, start, p, base), base, dig);
      p, val := p + 1, Signed32(Shift(val, base, dig));
    }
  }

  /** strtol; `end` is what is stored through endptr. */
  method ParseNumber(s: string, base: int) returns (val: int, end: nat)
    ensures (val, end) == Strtol(s, base)
  {
    hide Signed32, Horner, DigitsEnd, IsDigit;
    var neg, p, b := false, 0, base;
    while CharAt(s, p) == ' ' || CharAt(s, p) == '\t'
      invariant p <= |s| && AfterBlanks(s, p) == AfterBlanks(s, 0)
      decreases |s| - p
    {
      p := p + 1;
    }
    if CharAt(s, p) == '+' {
      p := p + 1;
    } else if CharAt(s, p) == '-' {
      p, neg := p + 1, true;
    }
    assert p == AfterSign(s) && neg == Negative(s);
    hide AfterSign, Negative, AfterBlanks;
    if (b == 0 || b == 16) && CharAt(s, p) == '0' && CharAt(s, p + 1) == 'x' {
      p, b := p + 2, 16;
    } else if b == 0 && CharAt(s, p) == '0' {
      p, b := p + 1, 8;
    } else if b == 0 {
      b := 10;
    }
    assert AfterPrefix(s, base) == (p, b);
    hide AfterPrefix, CharAt;
    val, end := ParseDigits(s, p, b);
    SignedNegate(Horner(s, p, end, b));
    if neg {
      val := Signed32(-val);
    }
  }

  /** The figures, and then the small letters from a on. */
  lemma DigitOfBase(d: nat, base: nat)
    requires d < base <= 16
    ensures IsDigit(DigitChar(d), base) && DigitValue(DigitChar(d)) == Some(d)
    ensures DigitChar(d) == if d < 10 then '0' + d as char else 'a' + (d - 10) as char
    ensures !Blank(DigitChar(d)) && DigitChar(d) != '+' && DigitChar(d) != '-' && DigitChar(d) != 'x'
  {
  }

  /** One step of printing: the digits of the quotient, then the digit of the remainder. */
  lemma DigitsStep(num: nat, base: nat) returns (q: nat, r: nat)
    requires 2 <= base <= 16
    ensures r < base && num == q * base + r
    ensures if num >= base then 0 < q < num && Digits(num, base) == Digits(q, base) + [DigitChar(r)]
            else q == 0 && Digits(num, base) == [DigitChar(r)]
  {
    q, r := num / base, num % base;
    Divided(num, base);
  }

  /** Every character printed is a digit of the base. */
  lemma {:induction false} DigitsArePlain(num: nat, base: nat)
    requires 2 <= base <= 16
    ensures forall c | c in Digits(num, base) :: Plain(c, base)
    decreases num
  {
    hide Digits, DigitChar, IsDigit;
    var q, r := DigitsStep(num, base);
    DigitOfBase(r, base);
    if num >= base {
      DigitsArePlain(q, base);
    }
  }

  lemma ButLast(s: string, j: nat, e: string, c: char)
    requires |e| < j <= |s| && s[j - (|e| + 1)..j] == e + [c]
    ensures s[j - 1 - |e|..j - 1] == e && s[j - 1] == c
  {
    var t := s[j - (|e| + 1)..j];
    assert s[j - 1 - |e|..j - 1] == t[..|e|] && (e + [c])[..|e|] == e;
    assert s[j - 1] == t[|e|] && (e + [c])[|e|] == c;
  }

  /** Digits that follow zeros spell their number. */
  lemma {:induction false} HornerOfDigits(s: string, i: nat, j: nat, num: nat, base: nat)
    requires 2 <= base <= 16
    requires i + |Digits(num, base)| <= j <= |s| && forall k | i <= k < j :: IsDigit(s[k], base)
    requires s[j - |Digits(num, base)|..j] == Digits(num, base)
    requires forall k | i <= k < j - |Digits(num, base)| :: s[k] == '0'
    ensures Horner(s, i, j, base) == num
    decreases num
  {
    hide Digits, DigitChar, IsDigit, DigitValue;
    var d := Digits(num, base);
    var q, r := DigitsStep(num, base);
    DigitOfBase(r, base);
    ButLast(s, j, if num >= base then Digits(q, base) else [], DigitChar(r));
    if num >= base {
      HornerOfDigits(s, i, j - 1, q, base);
    } else {
      HornerOfZeros(s, i, j - 1, base);
    }
  }

  lemma {:induction false} HornerOfZeros(s: string, i: nat, j: nat, base: nat)
    requires i <= j <= |s| && forall k | i <= k < j :: IsDigit(s[k], base) && s[k] == '0'
    ensures Horner(s, i, j, base) == 0
    decreases j
  {
    if i < j {
      HornerOfZeros(s, i, j - 1, base);
    }
  }

  lemma {:induction false} BlanksSkipped(s: string, i: nat, j: nat)
    requires i <= j < |s| && !Blank(s[j]) && forall k | i <= k < j :: Blank(s[k])
    ensures AfterBlanks(s, i) == j
    decreases j - i
  {
    if i < j {
      BlanksSkipped(s, i + 1, j);
    }
  }

  lemma {:induction false} DigitsRun(s: string, i: nat, j: nat, base: int)
    requires i <= j <= |s| && forall k | i <= k < j :: IsDigit(s[k], base)
    requires j < |s| ==> !IsDigit(s[j], base)
    ensures DigitsEnd(s, i, base) == j
    decreases j - i
  {
    if i < j {
      DigitsRun(s, i + 1, j, base);
    }
  }

  /** A character printed for a number in this base. */
  predicate Plain(c: char, base: nat) {
    IsDigit(c, base) && !Blank(c) && c != '+' && c != '-' && c != 'x'
  }

  /** strtol on blanks followed by digits to the end. */
  lemma StrtolOfPlain(s: string, start: nat, base: nat, num: nat)
    requires 2 <= base <= 16 && start < |s| && num < ID_LIMIT
    requires forall k | 0 <= k < start :: Blank(s[k])
    requires forall k | start <= k < |s| :: IsDigit(s[k], base) && Plain(s[k], base)
    requires Horner(s, start, |s|, base) == num
    ensures Strtol(s, base) == (num, |s|)
  {
    hide Signed32, Horner, DigitsEnd, AfterBlanks, IsDigit, Blank;
    BlanksSkipped(s, 0, start);
    DigitsRun(s, start, |s|, base);
    SignedSmall(num);
    assert Plain(s[start], base);
    assert CharAt(s, start + 1) != 'x';
  }

  /** The shape of the printed text: padding, then digits. */
  lemma PrintedShape(num: nat, base: nat, width: int, padc: char)
    requires 2 <= base <= 16
    ensures var text, d := Printed(num, base, width, padc), Digits(num, base); var pad := |text| - |d|;
      && pad == (if width > |d| then width - |d| else 0)
      && (forall k | 0 <= k < pad :: text[k] == padc) && text[pad..|text|] == d
      && forall k | pad <= k < |text| :: IsDigit(text[k], base) && Plain(text[k], base)
  {
    hide Digits, IsDigit;
    var text, d := Printed(num, base, width, padc), Digits(num, base);
    var pad := |text| - |d|;
    DigitsArePlain(num, base);
    forall k | pad <= k < |text| ensures IsDigit(text[k], base) && Plain(text[k], base) {
      assert text[k] == d[k - pad];
      assert d[k - pad] in d;
    }
  }

  lemma PaddingIsPlain(base: nat)
    requires base >= 2
    ensures Plain('0', base) && IsDigit('0', base) && Blank(' ')
  {
  }

  /** strtol undoes printnum: for every number below 2^31, base, width and either padding, parsing the printed text
      gives the number back and consumes the whole text; and the text is as long as the larger of the width and the
      digits. */
  lemma RoundTrip(num: nat, base: nat, width: int, padc: char)
    requires num < ID_LIMIT && 2 <= base <= 16 && (padc == ' ' || padc == '0')
    ensures var text := Printed(num, base, width, padc);
      && Strtol(text, base) == (num, |text|)
      && |text| == if width > |Digits(num, base)| then width else |Digits(num, base)|
  {
    hide Digits, Printed, IsDigit, Blank, Horner, Strtol;
    var text, d := Printed(num, base, width, padc), Digits(num, base);
    PrintedShape(num, base, width, padc);
    PaddingIsPlain(base);
    var start := if padc == ' ' then |text| - |d| else 0;
    HornerOfDigits(text, start, |text|, num, base);
    StrtolOfPlain(text, start, base, num);
  }

  /** The figures are worth 0 to 9 and the letters, in either case, 10 to 35. */
  lemma DigitsOfEitherCase(d: nat)
    requires d < 36
    ensures d < 10 ==> DigitValue('0' + d as char) == Some(d)
    ensures d >= 10 ==> DigitValue('a' + (d - 10) as char) == DigitValue('A' + (d - 10) as char) == Some(d)
  {
  }

  lemma {:induction false} NoLeadingZero(num: nat, base: nat)
    requires 2 <= base <= 16 && num > 0
    ensures Digits(num, base)[0] != '0'
    decreases num
  {
    Divided(num, base);
    if num >= base {
      NoLeadingZero(num / base, base);
    }
  }

  /** The prefixes: 0x for base 16, where it is asked for or base 0; 0 for base 8, with base 0; none for base 10, with
      base 0 and a number above 0, and for a base that is asked for. */
  predicate PrefixFor(prefix: string, b: nat, base: int, num: nat) {
    || (prefix == "0x" && b == 16 && (base == 0 || base == 16))
    || (prefix == "0" && b == 8 && base == 0)
    || (prefix == "" && b == 10 && base == 0 && num > 0)
    || (prefix == "" && 2 <= b <= 16 && base == b)
  }

  /** A text of blanks, a sign or none, a prefix, a number and something else that is no digit. */
  function Spelled(blanks: string, sign: string, prefix: string, num: nat, b: nat, rest: string): string
    requires 2 <= b <= 16
  {
    blanks + (sign + (prefix + (Digits(num, b) + rest)))
  }

  /** Where the parts of a spelled number are. */
  lemma SpelledShape(blanks: string, sign: string, prefix: string, num: nat, b: nat, rest: string)
    requires 2 <= b <= 16
    ensures
      var s, d := Spelled(blanks, sign, prefix, num, b, rest), Digits(num, b);
      var i := |blanks|; var j := i + |sign|; var k := j + |prefix|; var l := k + |d|;
      && |s| == l + |rest|
      && s[..i] == blanks && s[i..j] == sign && s[j..k] == prefix && s[k..l] == d && s[l..] == rest
      && (forall n | 0 <= n < i :: s[n] in blanks)
      && (forall n | k <= n < l :: s[n] == d[n - k] && IsDigit(s[n], b) && Plain(s[n], b))
  {
    hide Digits, IsDigit;
    var s, d := Spelled(blanks, sign, prefix, num, b, rest), Digits(num, b);
    var k := |blanks| + |sign| + |prefix|;
    DigitsArePlain(num, b);
    forall n | k <= n < k + |d| ensures s[n] == d[n - k] && IsDigit(s[n], b) && Plain(s[n], b) {
      assert d[n - k] in d;
    }
  }

  /** What strtol skips before the digits. */
  lemma PrefixFound(s: string, i: nat, j: nat, k: nat, sign: string, prefix: string, b: nat, base: int, num: nat)
    requires 2 <= b <= 16 && PrefixFor(prefix, b, base, num)
    requires i <= j <= k < |s| && s[i..j] == sign && s[j..k] == prefix && forall n | 0 <= n < i :: Blank(s[n])
    requires sign == "" || sign == "+" || sign == "-"
    requires Plain(s[k], b) && (num > 0 ==> s[k] != '0') && (k + 1 < |s| ==> s[k + 1] != 'x')
    ensures AfterSign(s) == j && (Negative(s) <==> sign == "-") && AfterPrefix(s, base) == (k, b)
  {
    hide IsDigit, AfterBlanks;
    assert sign != "" ==> s[i] == s[i..j][0];
    assert prefix != "" ==> s[j] == s[j..k][0];
    assert |prefix| == 2 ==> s[j + 1] == s[j..k][1];
    BlanksSkipped(s, 0, i);
  }

  lemma ReadsShape(s: string, i: nat, j: nat, k: nat, l: nat, sign: string, prefix: string, b: nat, base: int,
                   num: nat)
    requires 2 <= b <= 16 && PrefixFor(prefix, b, base, num) && num < ID_LIMIT
    requires i <= j <= k < l <= |s| && s[i..j] == sign && s[j..k] == prefix && forall n | 0 <= n < i :: Blank(s[n])
    requires sign == "" || sign == "+" || sign == "-"
    requires Plain(s[k], b) && (num > 0 ==> s[k] != '0') && (k + 1 < |s| ==> s[k + 1] != 'x')
    requires (forall n | k <= n < l :: IsDigit(s[n], b)) && (l < |s| ==> !IsDigit(s[l], b))
    requires Horner(s, k, l, b) == num
    ensures Strtol(s, base) == (if sign == "-" then -(num as int) else num, l)
  {
    hide Horner, DigitsEnd, AfterBlanks, IsDigit, Signed32, AfterPrefix, PrefixFor, AfterSign, Negative, Plain;
    PrefixFound(s, i, j, k, sign, prefix, b, base, num);
    DigitsRun(s, k, l, b);
    SignedSmall(num);
    SignedOfNegative(num);
  }

  /** strtol reads a number of up to 31 bits behind blanks, a sign and a prefix, and stops behind it. */
  lemma StrtolReads(blanks: string, sign: string, prefix: string, num: nat, b: nat, rest: string, base: int)
    requires forall c | c in blanks :: c == ' ' || c == '\t'
    requires sign == "" || sign == "+" || sign == "-"
    requires 2 <= b <= 16 && num < ID_LIMIT && PrefixFor(prefix, b, base, num)
    requires rest != "" ==> rest[0] != 'x' && (DigitValue(rest[0]) == None || DigitValue(rest[0]).value >= b)
    ensures Strtol(Spelled(blanks, sign, prefix, num, b, rest), base) ==
            (if sign == "-" then -(num as int) else num, |blanks| + |sign| + |prefix| + |Digits(num, b)|)
  {
    hide Digits, Horner, IsDigit, Spelled, Strtol, PrefixFor, Plain, Blank, DigitValue;
    var k := |blanks| + |sign| + |prefix|;
    SpelledFits(blanks, sign, prefix, num, b, rest);
    HornerOfDigits(Spelled(blanks, sign, prefix, num, b, rest), k, k + |Digits(num, b)|, num, b);
    ReadsShape(Spelled(blanks, sign, prefix, num, b, rest), |blanks|, |blanks| + |sign|, k, k + |Digits(num, b)|, sign,
               prefix, b, base, num);
  }

  /** What the reader finds in a spelled number. */
  lemma SpelledFits(blanks: string, sign: string, prefix: string, num: nat, b: nat, rest: string)
    requires 2 <= b <= 16 && forall c | c in blanks :: c == ' ' || c == '\t'
    requires rest != "" ==> rest[0] != 'x' && (DigitValue(rest[0]) == None || DigitValue(rest[0]).value >= b)
    ensures
      var s, d := Spelled(blanks, sign, prefix, num, b, rest), Digits(num, b);
      var i := |blanks|; var j := i + |sign|; var k := j + |prefix|; var l := k + |d|;
      && l <= |s| && s[i..j] == sign && s[j..k] == prefix && s[k..l] == d && (forall n | 0 <= n < i :: Blank(s[n]))
      && Plain(s[k], b) && (num > 0 ==> s[k] != '0') && (k + 1 < |s| ==> s[k + 1] != 'x')
      && (forall n | k <= n < l :: IsDigit(s[n], b)) && (l < |s| ==> !IsDigit(s[l], b))
  {
    assert rest != "" ==> !IsDigit(rest[0], b);
    hide Digits, IsDigit, Spelled, Plain, Blank;
    var s, d := Spelled(blanks, sign, prefix, num, b, rest), Digits(num, b);
    SpelledShape(blanks, sign, prefix, num, b, rest);
    if num > 0 {
      NoLeadingZero(num, b);
    }
    DigitsThenRest(s, |blanks| + |sign| + |prefix|, d, b, rest);
    forall n | 0 <= n < |blanks| ensures Blank(s[n]) {
      BlankIs(s[n]);
    }
  }

  lemma BlankIs(c: char)
    requires c == ' ' || c == '\t'
    ensures Blank(c)
  {
  }

  lemma DigitsThenRest(s: string, k: nat, d: string, b: nat, rest: string)
    requires d != "" && |s| == k + |d| + |rest| && s[k..k + |d|] == d && s[k + |d|..] == rest
    requires forall n | k <= n < k + |d| :: Plain(s[n], b)
    requires rest != "" ==> rest[0] != 'x'
    ensures s[k] == d[0] && (rest != "" ==> s[k + |d|] == rest[0]) && (k + 1 < |s| ==> s[k + 1] != 'x')
  {
    assert rest != "" ==> s[k + |d|] == s[k + |d|..][0];
  }

  lemma SignedOfNegative(x: int)
    requires 0 <= x < ID_LIMIT
    ensures Signed32(-x) == -x
  {
  }

  /** The number of digits is the least that can hold the number. */
  lemma {:induction false} DigitCount(num: nat, base: nat)
    requires 2 <= base <= 16
    ensures num < Power(base, |Digits(num, base)|)
    ensures num > 0 ==> Power(base, |Digits(num, base)| - 1) <= num
    decreases num
  {
    hide Digits, DigitChar;
    var q, r := DigitsStep(num, base);
    if num >= base {
      DigitCount(q, base);
      var n := |Digits(q, base)|;
      Scale(q, r, base, Power(base, n), Power(base, n - 1));
      assert Power(base, n + 1) == base * Power(base, n);
      assert Power(base, n) == base * Power(base, n - 1);
    } else {
      assert Power(base, 1) == base * Power(base, 0);
    }
  }

  lemma Scale(q: nat, r: nat, base: nat, hi: nat, lo: nat)
    requires r < base && lo <= q < hi
    ensures base * lo <= q * base + r < base * hi
  {
    assert base * (q + 1) <= base * hi;
    assert base * lo <= base * q;
  }

  function Power(base: nat, n: nat): nat {
    if n == 0 then 1 else base * Power(base, n - 1)
  }
}
