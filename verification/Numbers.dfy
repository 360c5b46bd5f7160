/**
  Printing and parsing of numbers: number(), simple_strtoul() and simple_strtol() on 32-bit values.
 */
module Numbers {
  import opened Words

  type String = seq<char>

  datatype Flags = Flags(zeropad: bool, sign: bool, plus: bool, space: bool, left: bool, special: bool, large: bool)

  // ----- digits

  function DigitChar(d: nat, large: bool): char
    requires d < 36
  {
    if d < 10 then '0' + d as char else (if large then 'A' else 'a') + (d - 10) as char
  }

  const LOWER: String := "0123456789" + "abcdefghijklm" + "nopqrstuvwxyz"
  const UPPER: String := "0123456789" + "ABCDEFGHIJKLM" + "NOPQRSTUVWXYZ"

  /** The digits are those of the two strings in the code. */
  lemma DigitsOfTable(d: nat)
    requires d < 36
    ensures DigitChar(d, false) == LOWER[d] && DigitChar(d, true) == UPPER[d]
  {
    if d < 10 {
      assert LOWER[d] == "0123456789"[d] && UPPER[d] == "0123456789"[d];
    } else if d < 23 {
      assert LOWER[d] == "abcdefghijklm"[d - 10] && UPPER[d] == "ABCDEFGHIJKLM"[d - 10];
    } else {
      assert LOWER[d] == "nopqrstuvwxyz"[d - 23] && UPPER[d] == "NOPQRSTUVWXYZ"[d - 23];
    }
  }

  /** Most significant digit first; zero is one digit. */
  function Digits(u: nat, base: nat, large: bool): (r: String)
    requires 2 <= base <= 36
    ensures |r| >= 1
    decreases u
  {
    if u < base then [DigitChar(u, large)]
    else QuotientLess(u, base); Digits(u / base, base, large) + [DigitChar(u % base, large)]
  }

  lemma QuotientLess(u: nat, base: nat)
    requires base >= 2 && u >= base
    ensures 0 < u / base < u && 0 <= u % base < base && u == u / base * base + u % base
    ensures u / base <= u / 2
  {
    var q := u / base;
    assert u == base * q + u % base;
    assert q == 0 ==> base * q == 0;
    assert base * q >= 2 * q;
  }

  function Repeat(c: char, n: int): (r: String)
    ensures |r| == if n > 0 then n else 0
  {
    if n <= 0 then [] else Repeat(c, n - 1) + [c]
  }

  // ----- what number() prints

  function SignOf(num: int, f: Flags): String {
    if !f.sign then [] else if num < 0 then ['-'] else if f.plus then ['+'] else if f.space then [' '] else []
  }

  /** The value that is converted: what is left of the sign, as an unsigned number. */
  function Magnitude(num: int, f: Flags): nat
    requires Int32(num)
  {
    if num >= 0 then num else if f.sign then -num else num + WORD
  }

  function PrefixOf(base: nat, f: Flags): String {
    if !f.special then [] else if base == 8 then ['0'] else if base == 16 then ['0', if f.large then 'X' else 'x'] else []
  }

  function Max(a: int, b: int): int {
    if a >= b then a else b
  }

  /** What is left of the field width. */
  function Slack(num: int, base: nat, size: int, precision: int, f: Flags): int
    requires Int32(num) && 2 <= base <= 36
  {
    size - |SignOf(num, f)| - |PrefixOf(base, f)| - Max(precision, |Digits(Magnitude(num, f), base, f.large)|)
  }

  /** The parts of a printed number, from left to right. */
  function Layout(num: int, base: nat, size: int, precision: int, f: Flags): String
    requires Int32(num) && 2 <= base <= 36
  {
    var digits := Digits(Magnitude(num, f), base, f.large);
    var slack := Slack(num, base, size, precision, f);
    Repeat(' ', if f.zeropad || f.left then 0 else slack) + SignOf(num, f) + PrefixOf(base, f) +
    Repeat('0', if f.zeropad && !f.left then slack else 0) + Repeat('0', precision - |digits|) + digits +
    Repeat(' ', if f.left then slack else 0)
  }

  /** The printed length is the field width or what sign, prefix and digits need, whichever is larger. */
  lemma LayoutLength(num: int, base: nat, size: int, precision: int, f: Flags)
    requires Int32(num) && 2 <= base <= 36
    ensures |Layout(num, base, size, precision, f)| ==
            Max(size, |SignOf(num, f)| + |PrefixOf(base, f)| + Max(precision, |Digits(Magnitude(num, f), base, f.large)|))
  {
  }

  // ----- number()

  function Reversed(s: String): (r: String)
    ensures |r| == |s|
  {
    if s == [] then [] else [s[|s| - 1]] + Reversed(s[..|s| - 1])
  }

  /** A 32-bit number has no more than 32 digits. */
  lemma {:induction false} DigitCount(u: nat, base: nat, large: bool, n: nat)
    requires 2 <= base <= 36 && u < Pow2(n) && n >= 1
    ensures |Digits(u, base, large)| <= n
    decreases n
  {
    if u >= base {
      QuotientLess(u, base);
      DigitCount(u / base, base, large, n - 1);
    }
  }

  /** The digit loop: `tmp` holds the digits, last one first. */
  method Convert(u: nat, base: nat, large: bool) returns (tmp: array<char>, i: nat)
    requires 2 <= base <= 36 && u < WORD
    ensures fresh(tmp) && tmp.Length == 66 && i <= 32 && Reversed(tmp[..i]) == Digits(u, base, large)
  {
    tmp := new char[66];
    i := 0;
    var num := u;
    WordIsPow2();
    DigitCount(u, base, large, 32);
    if num == 0 {
      tmp[0] := '0';
      i := 1;
      assert tmp[..1] == ['0'];
    } else {
      ghost var all := Digits(u, base, large);
      assert tmp[..0] == [];
      while num != 0
        invariant i <= 32 && tmp.Length == 66 && num >= 0
        invariant all == LeftOver(num, base, large) + Reversed(tmp[..i])
      {
        ghost var before := tmp[..i];
        DigitStep(num, base, large, before);
        assert |all| == |LeftOver(num, base, large)| + i;
        tmp[i] := DigitChar(num % base, large);
        assert tmp[..i + 1] == before + [tmp[i]];
        num := num / base;
        i := i + 1;
      }
    }
  }

  /** The digits that are still to come. */
  function LeftOver(num: nat, base: nat, large: bool): (r: String)
    requires 2 <= base <= 36
    ensures num != 0 ==> |r| >= 1
  {
    if num == 0 then [] else Digits(num, base, large)
  }

  lemma DigitStep(num: nat, base: nat, large: bool, before: String)
    requires 2 <= base <= 36 && num != 0
    ensures 0 <= num % base < base && 0 <= num / base < num
    ensures LeftOver(num, base, large) + Reversed(before) ==
            LeftOver(num / base, base, large) + Reversed(before + [DigitChar(num % base, large)])
  {
    var c := DigitChar(num % base, large);
    assert (before + [c])[..|before|] == before;
    if num >= base {
      QuotientLess(num, base);
    } else {
      SmallQuotient(num, base);
    }
  }

  lemma SmallQuotient(num: nat, base: nat)
    requires num < base
    ensures num / base == 0 && num % base == num
  {
  }

  method Emit(str: String, c: char, n: int) returns (r: String, left: int)
    ensures r == str + Repeat(c, n) && left == if n > 0 then -1 else n - 1
  {
    r := str;
    left := n;
    while left > 0
      invariant n > 0 ==> 0 <= left <= n
      invariant n <= 0 ==> left == n
      invariant r == str + Repeat(c, n - left)
    {
      r := r + [c];
      left := left - 1;
    }
    left := left - 1;
  }

  /** The digits, from the end of `tmp` to its beginning. */
  method EmitDigits(str: String, tmp: array<char>, n: nat) returns (r: String)
    requires n <= tmp.Length
    ensures r == str + Reversed(tmp[..n])
  {
    r := str;
    var i := n;
    while i > 0
      invariant 0 <= i <= n
      invariant str + Reversed(tmp[..n]) == r + Reversed(tmp[..i])
    {
      assert tmp[..i][..i - 1] == tmp[..i - 1];
      i := i - 1;
      r := r + [tmp[i]];
    }
  }

  /** The sign, the unsigned value and the width that is left; negating the smallest number changes nothing. */
  method TakeSign(num0: int, size0: int, f: Flags) returns (sign: String, u: nat, size: int)
    requires Int32(num0)
    ensures sign == SignOf(num0, f) && u == Magnitude(num0, f) < WORD && size == size0 - |sign|
  {
    var num := num0;
    sign, size := [], size0;
    if f.sign {
      if num < 0 {
        sign := ['-'];
        num := if num == -0x8000_0000 then num else -num;
        size := size - 1;
      } else if f.plus {
        sign := ['+'];
        size := size - 1;
      } else if f.space {
        sign := [' '];
        size := size - 1;
      }
    }
    u := if num < 0 then num + WORD else num;
  }

  /** number(); it fails for a base that it does not know. */
  method Number(num: int, base: nat, size0: int, precision0: int, f: Flags) returns (ok: bool, str: String)
    requires Int32(num)
    ensures ok <==> 2 <= base <= 36
    ensures ok ==> str == Layout(num, base, size0, precision0, f)
  {
    str := [];
    if base < 2 || base > 36 {
      return false, [];
    }
    ok := true;
    var zeropad := f.zeropad && !f.left;
    var c := if zeropad then '0' else ' ';
    var sign, u, size := TakeSign(num, size0, f);
    if f.special {
      if base == 16 {
        size := size - 2;
      } else if base == 8 {
        size := size - 1;
      }
    }
    var tmp, i := Convert(u, base, f.large);
    var precision := if i > precision0 then i else precision0;
    size := size - precision;
    assert size == Slack(num, base, size0, precision0, f);
    ghost var slack := size;
    str, size := Head(sign, base, size, zeropad, c, f);
    assert Repeat(' ', size) == Repeat(' ', if f.left then slack else 0);
    str := Tail(str, tmp, i, precision, size);
    assert Repeat('0', precision - i) == Repeat('0', precision0 - i);
  }

  /** Zeros of the precision, digits and padding on the right. */
  method Tail(str0: String, tmp: array<char>, i: nat, precision: int, size: int) returns (str: String)
    requires i <= tmp.Length
    ensures str == str0 + Repeat('0', precision - i) + Reversed(tmp[..i]) + Repeat(' ', size)
  {
    var rest;
    str, rest := Emit(str0, '0', precision - i);
    str := EmitDigits(str, tmp, i);
    str, rest := Emit(str, ' ', size);
  }

  /** Padding on the left, sign, prefix and zeros of the field width. */
  method Head(sign: String, base: nat, size0: int, zeropad: bool, c: char, f: Flags) returns (str: String, size: int)
    requires zeropad == (f.zeropad && !f.left) && c == if zeropad then '0' else ' '
    ensures str == Repeat(' ', if f.zeropad || f.left then 0 else size0) + sign + PrefixOf(base, f) +
                   Repeat('0', if zeropad then size0 else 0)
    ensures if f.left then size == size0 else size < 0
  {
    size := size0;
    str := [];
    if !zeropad && !f.left {
      str, size := Emit(str, ' ', size);
    }
    str := str + sign;
    if f.special {
      if base == 8 {
        str := str + ['0'];
      } else if base == 16 {
        str := str + ['0', if f.large then 'X' else 'x'];
      }
    }
    if !f.left {
      str, size := Emit(str, c, size);
    }
  }

  // ----- simple_strtoul() and simple_strtol()

  predicate IsXDigit(c: char) {
    '0' <= c <= '9' || 'a' <= c <= 'f' || 'A' <= c <= 'F'
  }

  function XValue(c: char): nat
    requires IsXDigit(c)
  {
    if '0' <= c <= '9' then (c - '0') as int else ((if 'a' <= c <= 'f' then c - 'a' + 'A' else c) - 'A') as int + 10
  }

  predicate Accepted(c: char, base: nat) {
    IsXDigit(c) && XValue(c) < base
  }

  /** The value of the digits in front, on 32 bits, continuing from `acc`. */
  function Scan(s: String, base: nat, acc: nat): nat
    decreases |s|
  {
    if s == [] || !Accepted(s[0], base) then acc else Scan(s[1..], base, (acc * base + XValue(s[0])) % WORD)
  }

  /** Base 0 stands for 10, or for 8 or 16 after a prefix: how long that is, and the base. */
  function Detect(s: String): (nat, nat) {
    if s == [] || s[0] != '0' then (0, 10)
    else if |s| >= 3 && s[1] == 'x' && IsXDigit(s[2]) then (2, 16)
    else (1, 8)
  }

  function StrToUl(s: String, base: nat): nat {
    if base != 0 then Scan(s, base, 0) else
      var (skip, b) := Detect(s);
      Scan(if skip <= |s| then s[skip..] else [], b, 0)
  }

  /** The digit loop of simple_strtoul(), from position `start` on. */
  method ScanFrom(s: String, base: nat, start: nat) returns (result: nat, used: nat)
    requires start <= |s|
    ensures result == Scan(s[start..], base, 0) && start <= used <= |s|
    ensures forall i :: start <= i < used ==> Accepted(s[i], base)
    ensures used < |s| ==> !Accepted(s[used], base)
  {
    var cp := start;
    result := 0;
    while cp < |s| && IsXDigit(s[cp]) && XValue(s[cp]) < base
      invariant start <= cp <= |s| && Scan(s[start..], base, 0) == Scan(s[cp..], base, result)
      invariant forall i :: start <= i < cp ==> Accepted(s[i], base)
    {
      assert s[cp..][1..] == s[cp + 1..];
      result := (result * base + XValue(s[cp])) % WORD;
      cp := cp + 1;
    }
    used := cp;
  }

  /** simple_strtoul(): the value, and how far the number goes. */
  method SimpleStrToUl(s: String, base0: nat) returns (result: nat, used: nat)
    ensures result == StrToUl(s, base0) && used <= |s|
    ensures var (skip, base) := if base0 == 0 then Detect(s) else (0, base0);
            && skip <= used && (forall i :: skip <= i < used ==> Accepted(s[i], base))
            && (used < |s| ==> !Accepted(s[used], base))
  {
    var base, cp: nat := base0, 0;
    if base == 0 {
      base := 10;
      if cp < |s| && s[cp] == '0' {
        base := 8;
        cp := cp + 1;
        if cp < |s| && s[cp] == 'x' && cp + 1 < |s| && IsXDigit(s[cp + 1]) {
          cp := cp + 1;
          base := 16;
        }
      }
    }
    assert s[0..] == s;
    result, used := ScanFrom(s, base, cp);
  }

  /** A 32-bit word as a signed number. */
  function Signed(u: nat): int
    requires u < WORD
  {
    if u < 0x8000_0000 then u else u - WORD
  }

  lemma {:induction false} ScanRange(s: String, base: nat, acc: nat)
    requires acc < WORD
    ensures Scan(s, base, acc) < WORD
    decreases |s|
  {
    if s != [] && Accepted(s[0], base) {
      ScanRange(s[1..], base, (acc * base + XValue(s[0])) % WORD);
    }
  }

  lemma StrRange(s: String, base: nat)
    ensures StrToUl(s, base) < WORD
  {
    if base != 0 {
      ScanRange(s, base, 0);
    } else {
      var (skip, b) := Detect(s);
      ScanRange(if skip <= |s| then s[skip..] else [], b, 0);
    }
  }

  function StrToL(s: String, base: nat): int {
    StrRange(s, base);
    if s != [] && s[0] == '-' then StrRange(s[1..], base); Signed((WORD - StrToUl(s[1..], base)) % WORD)
    else Signed(StrToUl(s, base))
  }

  // ----- parsing what was printed

  predicate AllAccepted(s: String, base: nat) {
    forall i :: 0 <= i < |s| ==> Accepted(s[i], base)
  }

  /** The value of accepted digits. */
  function Value(s: String, base: nat, acc: nat): nat
    requires AllAccepted(s, base)
  {
    if s == [] then acc else (Value(s[..|s| - 1], base, acc) * base + XValue(s[|s| - 1])) % WORD
  }

  lemma {:induction false} ScanOn(a: String, rest: String, base: nat, acc: nat)
    requires AllAccepted(a, base) && acc < WORD
    ensures Scan(a + rest, base, acc) == Scan(rest, base, Value(a, base, acc))
    decreases |a|
  {
    if a == [] {
      assert a + rest == rest;
    } else {
      var front, last := a[..|a| - 1], a[|a| - 1];
      assert a + rest == front + ([last] + rest);
      ScanOn(front, [last] + rest, base, acc);
      assert ([last] + rest)[1..] == rest;
    }
  }

  lemma DigitAccepted(d: nat, base: nat, large: bool)
    requires d < base <= 16
    ensures Accepted(DigitChar(d, large), base) && XValue(DigitChar(d, large)) == d
  {
  }

  lemma {:induction false} DigitsAccepted(u: nat, base: nat, large: bool)
    requires 2 <= base <= 16
    ensures AllAccepted(Digits(u, base, large), base)
    decreases u
  {
    if u < base {
      DigitAccepted(u, base, large);
    } else {
      QuotientLess(u, base);
      DigitsAccepted(u / base, base, large);
      DigitAccepted(u % base, base, large);
    }
  }

  lemma {:induction false} DigitsValue(u: nat, base: nat, large: bool)
    requires 2 <= base <= 16 && u < WORD
    ensures AllAccepted(Digits(u, base, large), base) && Value(Digits(u, base, large), base, 0) == u
    decreases u
  {
    DigitsAccepted(u, base, large);
    var ds := Digits(u, base, large);
    if u < base {
      DigitAccepted(u, base, large);
      assert Value(ds[..0], base, 0) == 0;
      SmallWord(u);
    } else {
      QuotientLess(u, base);
      DigitsValue(u / base, base, large);
      DigitAccepted(u % base, base, large);
      assert ds[..|ds| - 1] == Digits(u / base, base, large);
      SmallWord(u);
    }
  }

  lemma {:induction false} ZerosValue(k: int, base: nat)
    requires base >= 1
    ensures AllAccepted(Repeat('0', k), base) && Value(Repeat('0', k), base, 0) == 0
    decreases if k > 0 then k else 0
  {
    if k > 0 {
      ZerosValue(k - 1, base);
      var z := Repeat('0', k);
      assert z[..|z| - 1] == Repeat('0', k - 1);
    }
  }

  lemma SpacesStop(n: int, base: nat, acc: nat)
    ensures Scan(Repeat(' ', n), base, acc) == acc
  {
    if n > 0 {
      FirstOfRepeat(' ', n);
    }
  }

  lemma {:induction false} FirstOfRepeat(c: char, n: int)
    requires n > 0
    ensures Repeat(c, n)[0] == c
    decreases n
  {
    if n > 1 {
      FirstOfRepeat(c, n - 1);
    }
  }

  lemma ScanZeros(k: int, rest: String, base: nat)
    requires base >= 1
    ensures Scan(Repeat('0', k) + rest, base, 0) == Scan(rest, base, 0)
  {
    ZerosValue(k, base);
    ScanOn(Repeat('0', k), rest, base, 0);
  }

  lemma ScanDigits(u: nat, base: nat, large: bool, trail: int)
    requires 2 <= base <= 16 && u < WORD
    ensures Scan(Digits(u, base, large) + Repeat(' ', trail), base, 0) == u
  {
    DigitsValue(u, base, large);
    ScanOn(Digits(u, base, large), Repeat(' ', trail), base, 0);
    SpacesStop(trail, base, u);
  }

  lemma Regroup(a: String, b: String, d: String, t: String)
    ensures a + b + d + t == a + (b + (d + t))
  {
  }

  /** Zeros, digits and trailing spaces are read as the number. */
  lemma ScanBody(z: int, z': int, u: nat, base: nat, large: bool, trail: int)
    requires 2 <= base <= 16 && u < WORD
    ensures Scan(Repeat('0', z) + Repeat('0', z') + Digits(u, base, large) + Repeat(' ', trail), base, 0) == u
  {
    var a, b, d, t := Repeat('0', z), Repeat('0', z'), Digits(u, base, large), Repeat(' ', trail);
    Regroup(a, b, d, t);
    ScanZeros(z, b + (d + t), base);
    ScanZeros(z', d + t, base);
    ScanDigits(u, base, large, trail);
  }

  /** Zeros, digits and trailing spaces of a printed number. */
  function Body(num: int, base: nat, size: int, precision: int, f: Flags): String
    requires Int32(num) && 2 <= base <= 36
  {
    var digits := Digits(Magnitude(num, f), base, f.large);
    var slack := Slack(num, base, size, precision, f);
    Repeat('0', if f.zeropad && !f.left then slack else 0) + Repeat('0', precision - |digits|) + digits +
    Repeat(' ', if f.left then slack else 0)
  }

  /** The spaces in front. */
  function Lead(num: int, base: nat, size: int, precision: int, f: Flags): String
    requires Int32(num) && 2 <= base <= 36
  {
    Repeat(' ', if f.zeropad || f.left then 0 else Slack(num, base, size, precision, f))
  }

  lemma LayoutParts(num: int, base: nat, size: int, precision: int, f: Flags)
    requires Int32(num) && 2 <= base <= 36
    ensures Layout(num, base, size, precision, f) ==
            Lead(num, base, size, precision, f) + SignOf(num, f) + (PrefixOf(base, f) + Body(num, base, size, precision, f))
  {
  }

  lemma ScanOfBody(num: int, base: nat, size: int, precision: int, f: Flags)
    requires Int32(num) && 2 <= base <= 16
    ensures Scan(Body(num, base, size, precision, f), base, 0) == Magnitude(num, f) < WORD
    ensures |Body(num, base, size, precision, f)| >= 1 && Accepted(Body(num, base, size, precision, f)[0], base)
  {
    var digits := Digits(Magnitude(num, f), base, f.large);
    var slack := Slack(num, base, size, precision, f);
    var z, z', t := if f.zeropad && !f.left then slack else 0, precision - |digits|, if f.left then slack else 0;
    ScanBody(z, z', Magnitude(num, f), base, f.large, t);
    ZerosValue(z, base);
    ZerosValue(z', base);
    DigitsAccepted(Magnitude(num, f), base, f.large);
    FirstOfFour(Repeat('0', z), Repeat('0', z'), digits, Repeat(' ', t), base);
  }

  lemma FirstOfFour(a: String, b: String, d: String, t: String, base: nat)
    requires AllAccepted(a, base) && AllAccepted(b, base) && AllAccepted(d, base) && |d| >= 1
    ensures Accepted((a + b + d + t)[0], base)
  {
  }

  /** A string that starts with a space or a plus sign is read as zero. */
  lemma BadStart(s: String, base: nat)
    requires |s| >= 1 && (s[0] == ' ' || s[0] == '+')
    ensures StrToUl(s, base) == 0 && StrToL(s, base) == 0
  {
    if base == 0 {
      assert Detect(s) == (0, 10) && s[0..] == s;
    }
  }

  /** What the parser would have to skip. */
  predicate Unreadable(num: int, base: nat, size: int, precision: int, f: Flags)
    requires Int32(num) && 2 <= base <= 36
  {
    || (!f.zeropad && !f.left && Slack(num, base, size, precision, f) > 0)
    || (f.sign && num >= 0 && (f.plus || f.space))
  }

  lemma StartsBadly(num: int, base: nat, size: int, precision: int, f: Flags)
    requires Int32(num) && 2 <= base <= 36 && Unreadable(num, base, size, precision, f)
    ensures var s := Layout(num, base, size, precision, f); |s| >= 1 && (s[0] == ' ' || s[0] == '+')
  {
    LayoutParts(num, base, size, precision, f);
    var slack := Slack(num, base, size, precision, f);
    if !f.zeropad && !f.left && slack > 0 {
      FirstOfRepeat(' ', slack);
    }
  }

  lemma NoLead(num: int, base: nat, size: int, precision: int, f: Flags)
    requires Int32(num) && 2 <= base <= 36 && !Unreadable(num, base, size, precision, f)
    ensures SignOf(num, f) == if f.sign && num < 0 then ['-'] else []
    ensures Layout(num, base, size, precision, f) ==
            SignOf(num, f) + (PrefixOf(base, f) + Body(num, base, size, precision, f))
  {
    LayoutParts(num, base, size, precision, f);
    assert Lead(num, base, size, precision, f) == [];
  }

  /**
    Printed as signed and parsed with the same base, every 32-bit number comes back, unless spaces
    or a plus sign come first; then only zero does.
   */
  lemma SignedRoundTrip(num: int, base: nat, size: int, precision: int, f: Flags)
    requires Int32(num) && 2 <= base <= 16 && f.sign && !f.special
    ensures StrToL(Layout(num, base, size, precision, f), base) == num <==>
            num == 0 || !Unreadable(num, base, size, precision, f)
  {
    var s := Layout(num, base, size, precision, f);
    if Unreadable(num, base, size, precision, f) {
      StartsBadly(num, base, size, precision, f);
      BadStart(s, base);
    } else {
      NoLead(num, base, size, precision, f);
      ScanOfBody(num, base, size, precision, f);
      ReadBack(num, Body(num, base, size, precision, f), s, base, f);
    }
  }

  lemma ReadBack(num: int, body: String, s: String, base: nat, f: Flags)
    requires Int32(num) && f.sign && |body| >= 1 && Accepted(body[0], 16)
    requires StrToUl(body, base) == Magnitude(num, f) && s == (if num < 0 then ['-'] else []) + body
    ensures StrToL(s, base) == num
  {
    StrRange(body, base);
    if num < 0 {
      assert s[1..] == body;
    } else {
      assert s == body;
    }
  }

  /** Printed as unsigned, every 32-bit value comes back under the same condition. */
  lemma UnsignedRoundTrip(num: int, base: nat, size: int, precision: int, f: Flags)
    requires Int32(num) && 2 <= base <= 16 && !f.sign && !f.special
    ensures StrToUl(Layout(num, base, size, precision, f), base) == Magnitude(num, f) <==>
            num == 0 || !Unreadable(num, base, size, precision, f)
  {
    var s := Layout(num, base, size, precision, f);
    if Unreadable(num, base, size, precision, f) {
      StartsBadly(num, base, size, precision, f);
      BadStart(s, base);
    } else {
      NoLead(num, base, size, precision, f);
      ScanOfBody(num, base, size, precision, f);
      assert s == Body(num, base, size, precision, f);
    }
  }

  /**
    Printed with a prefix, a number comes back from the parser that finds the base by itself, unless something
    unreadable comes first or the prefix is the upper-case `0X`; then only zero does.
   */
  lemma PrefixRoundTrip(num: int, base: nat, size: int, precision: int, f: Flags)
    requires Int32(num) && (base == 8 || base == 16) && f.special
    ensures var s := Layout(num, base, size, precision, f);
            (if f.sign then StrToL(s, 0) == num else StrToUl(s, 0) == Magnitude(num, f)) <==>
            num == 0 || (!Unreadable(num, base, size, precision, f) && !(base == 16 && f.large))
  {
    var s := Layout(num, base, size, precision, f);
    var body := Body(num, base, size, precision, f);
    if Unreadable(num, base, size, precision, f) {
      StartsBadly(num, base, size, precision, f);
      BadStart(s, 0);
    } else {
      NoLead(num, base, size, precision, f);
      ScanOfBody(num, base, size, precision, f);
      if base == 16 && f.large {
        UpperPrefix(num, body, s, f);
      } else {
        Detected(base, body);
        if f.sign {
          ReadBack(num, PrefixOf(base, f) + body, s, 0, f);
        } else {
          assert s == PrefixOf(base, f) + body;
        }
      }
    }
  }

  /** The parser stops at the upper-case `X`. */
  lemma UpperPrefix(num: int, body: String, s: String, f: Flags)
    requires s == (if f.sign && num < 0 then ['-'] else []) + (['0', 'X'] + body)
    ensures !(f.sign && num < 0) ==> StrToUl(s, 0) == 0
    ensures f.sign ==> StrToL(s, 0) == 0
  {
    var t := ['0', 'X'] + body;
    assert t[0] == '0' && t[1] == 'X' && t[1..][0] == 'X';
    assert StrToUl(t, 0) == 0;
    if f.sign && num < 0 {
      assert s[1..] == t;
    } else {
      assert s == t;
    }
  }

  lemma Detected(base: nat, body: String)
    requires (base == 8 || base == 16) && |body| >= 1 && Accepted(body[0], base)
    ensures StrToUl((if base == 8 then ['0'] else ['0', 'x']) + body, 0) == Scan(body, base, 0)
  {
    var prefix := if base == 8 then ['0'] else ['0', 'x'];
    var s := prefix + body;
    assert s[|prefix|..] == body;
    assert Detect(s) == (|prefix|, base);
  }
}
