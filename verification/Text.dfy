/** C strings and numerals: the parts of libc and of util.c that the ICAP text
    protocol leans on. A C `char` is a Dafny `char`; memory is a `string` in which
    '\0' is an ordinary character. */
module Text {

  const CRLF: string := "\r\n"

  /** The character at index i, or NUL past the end of the memory that is modelled. */
  function Peek(s: string, i: nat): (c: char)
  {
    if i < |s| then s[i] else '\0'
  }

  /** pat occurs in s at index i. */
  predicate MatchesAt(s: string, pat: string, i: nat)
  {
    i + |pat| <= |s| && s[i..i + |pat|] == pat
  }

  /** The first index >= i at which pat occurs within the first len characters of s; -1 when there is none. */
  function IndexOf(s: string, pat: string, len: nat, i: nat): (r: int)
    requires len <= |s|
    ensures r >= -1
    ensures r >= 0 ==> i <= r && r + |pat| <= len && MatchesAt(s, pat, r)
    ensures forall j: nat :: i <= j && j + |pat| <= len && (r < 0 || j < r) ==> !MatchesAt(s, pat, j)
    decreases len - i
  {
    if i + |pat| > len then -1
    else if MatchesAt(s, pat, i) then i
    else if i == len then -1
    else IndexOf(s, pat, len, i + 1)
  }

  /** The specification of IndexOf has at most one solution. */
  lemma IndexOfIs(s: string, pat: string, len: nat, i: nat, r: nat)
    requires len <= |s| && i <= r && r + |pat| <= len
    requires MatchesAt(s, pat, r)
    requires forall j: nat :: i <= j < r ==> !MatchesAt(s, pat, j)
    ensures IndexOf(s, pat, len, i) == r
  {
    var q := IndexOf(s, pat, len, i);
    assert 0 <= q ==> MatchesAt(s, pat, q);
  }

  /** ci_strnstr: scan forward until the pattern matches or too little text is left. */
  method StrnStr(s: string, find: string, slen: nat) returns (r: int)
    requires slen <= |s|
    ensures find != [] ==> r == IndexOf(s, find, slen, 0)
    ensures find == [] ==> r == -1
  {
    if |find| == 0 {
      return -1;
    }
    var i := 0;
    while |find| <= slen - i
      invariant 0 <= i <= slen
      invariant IndexOf(s, find, slen, 0) == IndexOf(s, find, slen, i)
    {
      if s[i..i + |find|] == find {
        return i;
      }
      i := i + 1;
    }
    return -1;
  }

  // ---------------------------------------------------------------- numerals

  /** The value strtol gives a character; 99 for one that is a digit in no base used here. */
  function DigitValue(c: char): (v: nat)
  {
    if '0' <= c <= '9' then c as int - '0' as int
    else if 'a' <= c <= 'f' then c as int - 'a' as int + 10
    else if 'A' <= c <= 'F' then c as int - 'A' as int + 10
    else 99
  }

  function DigitChar(v: nat): (c: char)
    requires v < 16
    ensures DigitValue(c) == v && c != 'x' && c != 'X'
  {
    if v < 10 then '0' + v as char else 'a' + (v - 10) as char
  }

  /** The two bases the protocol prints and parses. */
  predicate IsBase(base: nat) { base == 10 || base == 16 }

  function Quotient(n: nat, base: nat): (q: nat)
    requires IsBase(base)
    ensures n >= base ==> q < n
  {
    if base == 10 then n / 10 else n / 16
  }

  function Remainder(n: nat, base: nat): (r: nat)
    requires IsBase(base)
    ensures r < base && n == Quotient(n, base) * base + r
  {
    if base == 10 then n % 10 else n % 16
  }

  /** What printf writes for "%x" (base 16) or "%d" (base 10) and a non-negative number. */
  function Numeral(n: nat, base: nat): (s: string)
    requires IsBase(base)
    ensures s != [] && forall i :: 0 <= i < |s| ==> DigitValue(s[i]) < base && s[i] != 'x' && s[i] != 'X'
  {
    if n < base then [DigitChar(n)] else Numeral(Quotient(n, base), base) + [DigitChar(Remainder(n, base))]
  }

  function Hex(n: nat): string { Numeral(n, 16) }

  function Dec(n: nat): string { Numeral(n, 10) }

  const DIGITS: string := "0123456789abcdef"
  const CAPITALS: string := "0123456789ABCDEF"

  /** The digits of printf and strtol: the characters of the two alphabets, and no others. */
  lemma DigitsAre(v: nat)
    requires v < 16
    ensures DigitChar(v) == DIGITS[v] && DigitValue(DIGITS[v]) == v && DigitValue(CAPITALS[v]) == v
  {
  }

  lemma NoOtherDigit(c: char)
    ensures DigitValue(c) < 16 ==> c == DIGITS[DigitValue(c)] || c == CAPITALS[DigitValue(c)]
  {
  }

  /** Where c is in the alphabet. */
  function Place(c: char, alphabet: string): (i: nat)
    requires c in alphabet
    ensures i < |alphabet| && alphabet[i] == c
  {
    if alphabet[0] == c then 0 else 1 + Place(c, alphabet[1..])
  }

  /** The text is made of digits of the base. */
  predicate OfDigits(s: string, base: nat)
    requires base <= 16
  {
    forall i :: 0 <= i < |s| ==> s[i] in DIGITS[..base]
  }

  /** The value of a text of digits by position. */
  function Value(s: string, base: nat): nat
    requires base <= 16 && OfDigits(s, base)
  {
    if s == [] then 0 else base * Value(s[..|s| - 1], base) + Place(s[|s| - 1], DIGITS[..base])
  }

  /** Digits of the base, and no zero in front of others. */
  predicate IsNumeral(s: string, base: nat)
    requires base <= 16
  {
    s != [] && OfDigits(s, base) && (s[0] == '0' ==> |s| == 1)
  }

  lemma PlaceOf(v: nat, base: nat)
    requires IsBase(base) && v < base
    ensures DigitChar(v) in DIGITS[..base] && Place(DigitChar(v), DIGITS[..base]) == v
  {
    var alphabet := DIGITS[..base];
    DigitsAre(v);
    assert alphabet[v] == DigitChar(v);
    var p := Place(DigitChar(v), alphabet);
    DigitsAre(p);
  }

  /** THE WIRE FORMAT of a number: its numeral is a text of its digits with exactly that value by position. */
  lemma {:induction false} NumeralValue(n: nat, base: nat)
    requires IsBase(base)
    ensures IsNumeral(Numeral(n, base), base) && Value(Numeral(n, base), base) == n && (n > 0 ==> Numeral(n, base)[0] != '0')
  {
    if n < base {
      PlaceOf(n, base);
      DigitsAre(n);
      assert Numeral(n, base)[..0] == [];
    } else {
      var front, d := Numeral(Quotient(n, base), base), Remainder(n, base);
      NumeralValue(Quotient(n, base), base);
      PlaceOf(d, base);
      var s := front + [DigitChar(d)];
      assert s[..|s| - 1] == front && s[|s| - 1] == DigitChar(d);
    }
  }

  /** The last digit and the number in front of it. */
  lemma Divided(s: string, base: nat)
    requires IsBase(base) && OfDigits(s, base) && s != []
    ensures var front, d := s[..|s| - 1], Place(s[|s| - 1], DIGITS[..base]);
            && d < base && s[|s| - 1] == DigitChar(d)
            && Quotient(Value(s, base), base) == Value(front, base) && Remainder(Value(s, base), base) == d
            && (Value(front, base) > 0 ==> Value(s, base) >= base) && (front == [] ==> Value(s, base) == d)
  {
    var d := Place(s[|s| - 1], DIGITS[..base]);
    DigitsAre(d);
    hide Place;
    if base == 10 {
    }
  }

  /** And there is only one such text. */
  lemma {:induction false} OneNumeral(s: string, base: nat)
    requires IsBase(base) && IsNumeral(s, base)
    ensures s == Numeral(Value(s, base), base) && (s[0] != '0' ==> Value(s, base) > 0)
    decreases |s|
  {
    hide Value, Place, Quotient, Remainder, DigitChar;
    Divided(s, base);
    var front := s[..|s| - 1];
    assert s == front + [s[|s| - 1]];
    if front == [] {
      if s[0] != '0' {
        NotZero(s[0], base);
      }
    } else {
      OneNumeral(front, base);
    }
  }

  lemma NotZero(c: char, base: nat)
    requires IsBase(base) && c in DIGITS[..base] && c != '0'
    ensures Place(c, DIGITS[..base]) > 0
  {
  }

  function Pow10(k: nat): nat
  {
    if k == 0 then 1 else 10 * Pow10(k - 1)
  }

  /** A number below 10^k prints in at most k characters. */
  lemma {:induction false} NumeralLength(n: nat, base: nat, k: nat)
    requires IsBase(base) && k >= 1 && n < Pow10(k)
    ensures |Numeral(n, base)| <= k
    decreases k
  {
    if n >= base {
      assert k > 1 by { assert Pow10(1) == 10; }
      assert Quotient(n, base) < Pow10(k - 1);
      NumeralLength(Quotient(n, base), base, k - 1);
    }
  }

  /** Every long prints in fewer than twenty digits. */
  lemma LongLength(n: nat, base: nat)
    requires IsBase(base) && n <= LONG_MAX
    ensures |Numeral(n, base)| <= 19
  {
    assert Pow10(5) == 100_000;
    assert Pow10(10) == 10_000_000_000;
    assert Pow10(15) == 1_000_000_000_000_000;
    assert Pow10(19) == 10_000_000_000_000_000_000;
    NumeralLength(n, base, 19);
  }

  predicate IsSpace(c: char)
  {
    c == ' ' || ('\t' <= c <= '\r')
  }

  function SkipSpace(s: string, i: nat): (j: nat)
    requires i <= |s|
    ensures i <= j <= |s|
    decreases |s| - i
  {
    if i < |s| && IsSpace(s[i]) then SkipSpace(s, i + 1) else i
  }

  /** Skip the blanks and tabs that the parsers tolerate. */
  function SkipBlank(s: string, i: nat): (j: nat)
    requires i <= |s|
    ensures i <= j <= |s|
    decreases |s| - i
  {
    if i < |s| && (s[i] == ' ' || s[i] == '\t') then SkipBlank(s, i + 1) else i
  }

  /** Read digits from index i on; the number so far is acc. */
  function ScanDigits(s: string, i: nat, base: nat, acc: nat): (r: (nat, nat))
    requires i <= |s|
    ensures i <= r.1 <= |s|
    decreases |s| - i
  {
    if i < |s| && DigitValue(s[i]) < base
    then ScanDigits(s, i + 1, base, acc * base + DigitValue(s[i]))
    else (acc, i)
  }

  /** A number strtol found, and where it stopped (at the start, when it found none). */
  datatype Scanned = Scanned(value: int, end: nat)

  const LONG_MAX: int := 0x7fff_ffff_ffff_ffff

  function ClampLong(v: int): int
  {
    if v > LONG_MAX then LONG_MAX else if v < -LONG_MAX - 1 then -LONG_MAX - 1 else v
  }

  /** strtol(s + start, &end, base) of C99 section 7.20.1.4, for bases 10 and 16. */
  function Strtol(s: string, start: nat, base: nat): (r: Scanned)
    requires start <= |s| && IsBase(base)
    ensures start <= r.end <= |s|
  {
    var i := SkipSpace(s, start);
    var neg := Peek(s, i) == '-';
    var j := if Peek(s, i) == '-' || Peek(s, i) == '+' then i + 1 else i;
    var k := if base == 16 && Peek(s, j) == '0' && (Peek(s, j + 1) == 'x' || Peek(s, j + 1) == 'X')
                && DigitValue(Peek(s, j + 2)) < 16 then j + 2 else j;
    var (v, e) := ScanDigits(s, k, base, 0);
    if e == k then Scanned(0, start) else Scanned(ClampLong(if neg then 0 - v else v), e)
  }

  lemma {:induction false} ScanNumeral(pre: string, n: nat, base: nat, post: string)
    requires IsBase(base)
    ensures var s := pre + Numeral(n, base) + post;
            ScanDigits(s, |pre|, base, 0) == ScanDigits(s, |pre| + |Numeral(n, base)|, base, n)
    decreases n
  {
    var s := pre + Numeral(n, base) + post;
    if n >= base {
      var d := DigitChar(Remainder(n, base));
      assert s == pre + Numeral(Quotient(n, base), base) + ([d] + post);
      ScanNumeral(pre, Quotient(n, base), base, [d] + post);
      var k := |pre| + |Numeral(Quotient(n, base), base)|;
      assert s[k] == d;
    }
  }

  /** Digits that stop at e. */
  lemma Scans(s: string, start: nat, n: nat, base: nat, e: nat)
    requires IsBase(base) && n <= LONG_MAX && start < e <= |s| && ScanDigits(s, start, base, 0) == (n, e)
    requires DigitValue(s[start]) < base && Peek(s, start + 1) != 'x' && Peek(s, start + 1) != 'X'
    ensures Strtol(s, start, base) == Scanned(n, e)
  {
    hide ScanDigits;
    assert !IsSpace(s[start]) && s[start] != '-' && s[start] != '+';
    assert SkipSpace(s, start) == start;
  }

  /** strtol undoes printf: it reads back the number and stops right after it. */
  lemma StrtolNumeral(pre: string, n: nat, base: nat, post: string)
    requires IsBase(base)
    requires n <= LONG_MAX
    requires post == [] || (DigitValue(post[0]) >= base && post[0] != 'x' && post[0] != 'X')
    ensures Strtol(pre + Numeral(n, base) + post, |pre|, base) == Scanned(n, |pre| + |Numeral(n, base)|)
  {
    hide Numeral, Strtol, DigitValue;
    var num := Numeral(n, base);
    var s := pre + num + post;
    var e := |pre| + |num|;
    ScanNumeral(pre, n, base, post);
    assert e < |s| ==> s[e] == post[0];
    assert ScanDigits(s, |pre|, base, 0) == (n, e);
    hide ScanDigits;
    assert s[|pre|] == num[0];
    assert |num| >= 2 ==> s[|pre| + 1] == num[1];
    assert |num| == 1 && post != [] ==> s[|pre| + 1] == post[0];
    Scans(s, |pre|, n, base, e);
  }

  /** The same, for a number found in the middle of memory. */
  lemma StrtolAt(mem: string, start: nat, n: nat, base: nat)
    requires IsBase(base) && n <= LONG_MAX && start + |Numeral(n, base)| <= |mem|
    requires mem[start..start + |Numeral(n, base)|] == Numeral(n, base)
    requires var c := Peek(mem, start + |Numeral(n, base)|); DigitValue(c) >= base && c != 'x' && c != 'X'
    ensures Strtol(mem, start, base) == Scanned(n, start + |Numeral(n, base)|)
  {
    var end := start + |Numeral(n, base)|;
    assert mem == mem[..start] + mem[start..end] + mem[end..];
    StrtolNumeral(mem[..start], n, base, mem[end..]);
  }
}
