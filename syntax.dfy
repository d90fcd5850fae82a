/**
 * The text handling of the assembler (src/assembler.c): `trim`, the
 * `strtok(.., " ,")` tokenizer, `parse_number` on top of the C library's
 * `strtol`, and `reg_num`. Source text is a `string` in the C locale.
 */
module Syntax {
  import opened Isa
  import opened Results

  /** `isspace` in the C locale: blank, tab, newline, vertical tab, form feed, carriage return. */
  predicate IsSpace(c: char) {
    c == ' ' || '\t' <= c <= '\r'
  }

  /** `isdigit`. */
  predicate IsDigit(c: char) {
    '0' <= c <= '9'
  }

  predicate AllSpace(s: string) {
    forall k :: 0 <= k < |s| ==> IsSpace(s[k])
  }

  // ---------------------------------------------------------------------
  // trim

  /** The number of white-space characters `s` starts with. */
  function LeadingSpaces(s: string): (n: nat)
    ensures n <= |s| && forall k :: 0 <= k < n ==> IsSpace(s[k])
    ensures n < |s| ==> !IsSpace(s[n])
  {
    if |s| == 0 || !IsSpace(s[0]) then 0 else 1 + LeadingSpaces(s[1..])
  }

  /** The number of white-space characters `s` ends with. */
  function TrailingSpaces(s: string): (n: nat)
    ensures n <= |s| && forall k :: |s| - n <= k < |s| ==> IsSpace(s[k])
    ensures n < |s| ==> !IsSpace(s[|s| - n - 1])
  {
    if |s| == 0 || !IsSpace(s[|s| - 1]) then 0 else 1 + TrailingSpaces(s[..|s| - 1])
  }

  /**
   * `trim`: `s` without its leading and trailing white space. The result is
   * the middle of `s` between two all-space ends, and it neither starts nor
   * ends with white space.
   */
  function Trimmed(s: string): (t: string)
    ensures exists i, j :: 0 <= i <= j <= |s| && t == s[i..j] && AllSpace(s[..i]) && AllSpace(s[j..])
    ensures |t| > 0 ==> !IsSpace(t[0]) && !IsSpace(t[|t| - 1])
  {
    var i := LeadingSpaces(s);
    var j := i + |s[i..]| - TrailingSpaces(s[i..]);
    assert AllSpace(s[..i]) && AllSpace(s[j..]);
    s[i..j]
  }

  /** `trim` only cuts: every character of the result is a character of `s`. */
  lemma TrimmedIsSlice(s: string)
    ensures forall k :: 0 <= k < |Trimmed(s)| ==> Trimmed(s)[k] in s
  {
    var i := LeadingSpaces(s);
    var j := i + |s[i..]| - TrailingSpaces(s[i..]);
    assert Trimmed(s) == s[i..j];
    forall k | 0 <= k < |Trimmed(s)| ensures Trimmed(s)[k] in s {
      assert Trimmed(s)[k] == s[i + k];
    }
  }

  /**
   * The same scan as `trim`: skip white space from the front, then cut white
   * space off the end.
   */
  method Trim(s: string) returns (t: string)
    ensures t == Trimmed(s)
  {
    var i := 0;
    while i < |s| && IsSpace(s[i])
      invariant i <= |s| && forall k :: 0 <= k < i ==> IsSpace(s[k])
    {
      i := i + 1;
    }
    var j := |s|;
    while j > i && IsSpace(s[j - 1])
      invariant i <= j <= |s| && forall k :: j <= k < |s| ==> IsSpace(s[k])
    {
      j := j - 1;
    }
    LeadingIsUnique(s, i);
    TrailingIsUnique(s[i..], j - i);
    assert i + |s[i..]| - TrailingSpaces(s[i..]) == j;
    t := s[i..j];
  }

  /** A run of `n` spaces followed by a non-space is the leading white space. */
  lemma {:induction false} LeadingIsUnique(s: string, n: nat)
    requires n <= |s| && forall k :: 0 <= k < n ==> IsSpace(s[k])
    requires n < |s| ==> !IsSpace(s[n])
    ensures LeadingSpaces(s) == n
    decreases n
  {
    if n > 0 {
      assert IsSpace(s[0]);
      assert forall k :: 0 <= k < |s| - 1 ==> s[1..][k] == s[k + 1];
      LeadingIsUnique(s[1..], n - 1);
    }
  }

  /** A non-space followed by spaces only, from `n` on, is where the trailing white space starts. */
  lemma {:induction false} TrailingIsUnique(s: string, n: nat)
    requires n <= |s| && forall k :: n <= k < |s| ==> IsSpace(s[k])
    requires n > 0 ==> !IsSpace(s[n - 1])
    ensures |s| - TrailingSpaces(s) == n
    decreases |s| - n
  {
    if n < |s| {
      assert IsSpace(s[|s| - 1]);
      var front := s[..|s| - 1];
      assert forall k :: 0 <= k < |front| ==> front[k] == s[k];
      TrailingIsUnique(front, n);
    }
  }

  /** Trimming twice is trimming once. */
  lemma TrimIdempotent(s: string)
    ensures Trimmed(Trimmed(s)) == Trimmed(s)
  {
    var t := Trimmed(s);
    LeadingIsUnique(t, 0);
    TrailingIsUnique(t, |t|);
  }

  // ---------------------------------------------------------------------
  // strchr

  /** `strchr(s, c)`: the position of the first `c` in `s`, if any. */
  function IndexOf(s: string, c: char): (r: Option<nat>)
    ensures r.None? <==> forall k :: 0 <= k < |s| ==> s[k] != c
    ensures r.Some? ==> r.value < |s| && s[r.value] == c && forall k :: 0 <= k < r.value ==> s[k] != c
  {
    if |s| == 0 then None
    else if s[0] == c then Some(0)
    else match IndexOf(s[1..], c)
      case None => None
      case Some(k) => Some(k + 1)
  }

  // ---------------------------------------------------------------------
  // strtok(.., " ,")

  /** The delimiters the assembler hands to `strtok`: blank and comma, not tab. */
  predicate IsDelim(c: char) {
    c == ' ' || c == ','
  }

  predicate NoDelim(s: string) {
    forall k :: 0 <= k < |s| ==> !IsDelim(s[k])
  }

  /** The length of the run of non-delimiters `s` starts with. */
  function TokenLength(s: string): (n: nat)
    ensures n <= |s| && NoDelim(s[..n])
    ensures n < |s| ==> IsDelim(s[n])
  {
    if |s| == 0 || IsDelim(s[0]) then 0
    else
      var n := 1 + TokenLength(s[1..]);
      assert s[..n] == [s[0]] + s[1..][..n - 1];
      n
  }

  /**
   * The successive results of `strtok(p, " ,")`, `strtok(NULL, " ,")`, ...:
   * the maximal runs of non-delimiters, in order. Every token is non-empty
   * and holds no delimiter.
   */
  function Tokens(s: string): (ts: seq<string>)
    ensures forall k :: 0 <= k < |ts| ==> |ts[k]| > 0 && NoDelim(ts[k])
    decreases |s|
  {
    if |s| == 0 then []
    else if IsDelim(s[0]) then Tokens(s[1..])
    else
      var n := TokenLength(s);
      [s[..n]] + Tokens(s[n..])
  }

  /** `n` non-delimiters followed by a delimiter or the end are the first token's length. */
  lemma {:induction false} TokenLengthIs(s: string, n: nat)
    requires n <= |s| && NoDelim(s[..n]) && (n < |s| ==> IsDelim(s[n]))
    ensures TokenLength(s) == n
    decreases n
  {
    if n > 0 {
      assert s[..n][0] == s[0];
      assert s[1..][..n - 1] == s[..n][1..];
      TokenLengthIs(s[1..], n - 1);
    }
  }

  /** The words joined by single blanks. */
  function Join(words: seq<string>): string {
    if |words| == 0 then "" else if |words| == 1 then words[0] else words[0] + " " + Join(words[1..])
  }

  /** Splitting words joined by blanks gives the words back. */
  lemma {:induction false} TokensOfJoin(words: seq<string>)
    requires forall k :: 0 <= k < |words| ==> |words[k]| > 0 && NoDelim(words[k])
    ensures Tokens(Join(words)) == words
  {
    if |words| == 1 {
      var w := words[0];
      assert w[..|w|] == w && w[|w|..] == "";
      TokenLengthIs(w, |w|);
    } else if |words| > 1 {
      var w := words[0];
      var rest := Join(words[1..]);
      var s := w + " " + rest;
      assert s[..|w|] == w && s[|w|] == ' ';
      TokenLengthIs(s, |w|);
      assert s[|w|..][1..] == rest;
      TokensOfJoin(words[1..]);
      assert Tokens(s[|w|..]) == Tokens(rest);
    }
  }

  // ---------------------------------------------------------------------
  // strtol and parse_number

  /** The range of a 64-bit `long`, where `strtol` saturates. */
  const LONG_MAX := 0x7FFF_FFFF_FFFF_FFFF
  const LONG_MIN := -0x8000_0000_0000_0000

  /** The value of `c` as a digit: 0-9, then letters of either case from 10 on; 36 for anything else. */
  function DigitValue(c: char): (d: nat)
    ensures d <= 36
  {
    if '0' <= c <= '9' then c as int - '0' as int
    else if 'a' <= c <= 'z' then c as int - 'a' as int + 10
    else if 'A' <= c <= 'Z' then c as int - 'A' as int + 10
    else 36
  }

  /** The length of the run of base-`base` digits `s` starts with. */
  function DigitRun(s: string, base: nat): (n: nat)
    ensures n <= |s| && forall k :: 0 <= k < n ==> DigitValue(s[k]) < base
    ensures n < |s| ==> DigitValue(s[n]) >= base
  {
    if |s| == 0 || DigitValue(s[0]) >= base then 0 else 1 + DigitRun(s[1..], base)
  }

  /** `n` digits followed by a non-digit or the end are the digit run. */
  lemma {:induction false} DigitRunIs(s: string, base: nat, n: nat)
    requires n <= |s| && (forall k :: 0 <= k < n ==> DigitValue(s[k]) < base) && (n < |s| ==> DigitValue(s[n]) >= base)
    ensures DigitRun(s, base) == n
    decreases n
  {
    if n > 0 {
      assert DigitValue(s[0]) < base;
      assert forall k :: 0 <= k < |s| - 1 ==> s[1..][k] == s[k + 1];
      DigitRunIs(s[1..], base, n - 1);
    }
  }

  /** The number the digits spell in base `base`, most significant first. */
  function ValueOf(digits: string, base: nat): nat {
    if |digits| == 0 then 0
    else ValueOf(digits[..|digits| - 1], base) * base + DigitValue(digits[|digits| - 1])
  }

  /**
   * What `strtol` consumes of `s`: white space, an optional sign, for base 16
   * an optional "0x" or "0X", then the longest run of digits. Gives whether
   * the sign was '-' and the digits.
   */
  function Numeral(s: string, base: nat): (r: (bool, string))
    ensures forall k :: 0 <= k < |r.1| ==> DigitValue(r.1[k]) < base
  {
    var t := s[LeadingSpaces(s)..];
    var negative := |t| > 0 && t[0] == '-';
    var u := if |t| > 0 && (t[0] == '-' || t[0] == '+') then t[1..] else t;
    var w := if base == 16 && |u| >= 2 && u[0] == '0' && (u[1] == 'x' || u[1] == 'X') then u[2..] else u;
    (negative, w[..DigitRun(w, base)])
  }

  /** The value `strtol` returns for a magnitude: saturated to the range of `long`. */
  function Saturate(negative: bool, v: nat): (r: int)
    ensures LONG_MIN <= r <= LONG_MAX
    ensures negative && v <= -LONG_MIN ==> r == -(v as int)
    ensures !negative && v <= LONG_MAX ==> r == v
    ensures negative && v > -LONG_MIN ==> r == LONG_MIN
    ensures !negative && v > LONG_MAX ==> r == LONG_MAX
  {
    if negative then (if v > -LONG_MIN then LONG_MIN else -(v as int))
    else (if v > LONG_MAX then LONG_MAX else v)
  }

  /** `strtol(s, NULL, base)` for base 10 or 16 with a 64-bit `long`. */
  function StrToL(s: string, base: nat): (r: int)
    requires base == 10 || base == 16
    ensures LONG_MIN <= r <= LONG_MAX
  {
    var (negative, digits) := Numeral(s, base);
    Saturate(negative, ValueOf(digits, base))
  }

  /**
   * `parse_number`: hexadecimal after a "0x" prefix, decimal otherwise, the
   * `long` converted to `uint16_t` (taken modulo 65536).
   */
  function ParseNumber(s: string): (n: Word)
    ensures IsNumeral(s, 10) && ValueOf(s, 10) <= LONG_MAX ==> n == ValueOf(s, 10) % 0x10000
    ensures |s| >= 2 && s[..2] == "0x" && IsNumeral(s[2..], 16) && ValueOf(s[2..], 16) <= LONG_MAX ==>
      n == ValueOf(s[2..], 16) % 0x10000
  {
    ReadsNumerals(s);
    (if |s| >= 2 && s[..2] == "0x" then StrToL(s[2..], 16) else StrToL(s, 10)) % 0x10000
  }

  /**
   * A plain decimal numeral never starts with "0x", and `strtol` consumes it
   * whole; so does it consume the hexadecimal digits after a "0x".
   */
  lemma ReadsNumerals(s: string)
    ensures IsNumeral(s, 10) ==> !(|s| >= 2 && s[..2] == "0x") && Numeral(s, 10) == (false, s)
    ensures |s| >= 2 && s[..2] == "0x" && IsNumeral(s[2..], 16) ==> Numeral(s[2..], 16) == (false, s[2..])
  {
    if IsNumeral(s, 10) {
      NumeralOfDigits(s, 10);
      if |s| >= 2 {
        assert s[..2][1] == s[1] && DigitValue(s[1]) < 10;
      }
    }
    if |s| >= 2 && s[..2] == "0x" && IsNumeral(s[2..], 16) {
      NumeralOfDigits(s[2..], 16);
    }
  }

  /** The decimal numeral of `n`, without leading zeros. */
  function Decimal(n: nat): (s: string)
    ensures |s| > 0 && forall k :: 0 <= k < |s| ==> IsDigit(s[k])
  {
    var c := ('0' as int + n % 10) as char;
    if n < 10 then [c] else Decimal(n / 10) + [c]
  }

  /** The hexadecimal numeral of `n`, in upper case, without leading zeros. */
  function Hex(n: nat): (s: string)
    ensures |s| > 0 && forall k :: 0 <= k < |s| ==> DigitValue(s[k]) < 16
  {
    var d := n % 16;
    var c := if d < 10 then ('0' as int + d) as char else ('A' as int + d - 10) as char;
    if n < 16 then [c] else Hex(n / 16) + [c]
  }

  lemma {:induction false} DecimalValue(n: nat)
    ensures ValueOf(Decimal(n), 10) == n
  {
    var s := Decimal(n);
    if n >= 10 {
      DecimalValue(n / 10);
      assert s[..|s| - 1] == Decimal(n / 10);
    }
  }

  lemma {:induction false} HexValue(n: nat)
    ensures ValueOf(Hex(n), 16) == n
  {
    var s := Hex(n);
    if n >= 16 {
      HexValue(n / 16);
      assert s[..|s| - 1] == Hex(n / 16);
    }
  }

  /** A non-empty run of digits of the base, with nothing else. */
  predicate IsNumeral(s: string, base: nat) {
    |s| > 0 && forall k :: 0 <= k < |s| ==> DigitValue(s[k]) < base
  }

  /** `strtol` consumes a plain run of digits whole. */
  lemma NumeralOfDigits(s: string, base: nat)
    requires base == 10 || base == 16
    requires IsNumeral(s, base)
    ensures Numeral(s, base) == (false, s)
  {
    assert !IsSpace(s[0]) && s[0] != '-' && s[0] != '+';
    assert |s| >= 2 ==> DigitValue(s[1]) < 16;
    LeadingIsUnique(s, 0);
    assert s[0..] == s;
    DigitRunIs(s, base, |s|);
    assert s[..|s|] == s;
  }

  /** `parse_number` reads a decimal numeral back, truncated to 16 bits. */
  lemma ParseDecimal(n: nat)
    requires n <= LONG_MAX
    ensures ParseNumber(Decimal(n)) == n % 0x10000
  {
    DecimalValue(n);
    assert IsNumeral(Decimal(n), 10);
  }

  /** `parse_number` reads "0x" and a hexadecimal numeral back, truncated to 16 bits. */
  lemma ParseHex(n: nat)
    requires n <= LONG_MAX
    ensures ParseNumber("0x" + Hex(n)) == n % 0x10000
  {
    var s := "0x" + Hex(n);
    assert s[..2] == "0x" && s[2..] == Hex(n);
    HexValue(n);
  }

  // ---------------------------------------------------------------------
  // reg_num

  /** `(uint8_t)-1`, which `reg_num` returns for anything but "R0".."R7". */
  const BAD_REGISTER: Byte := 255

  /** The assembler's name for register `r`. */
  function RegisterName(r: nat): string
    requires r < REG_COUNT
  {
    ['R', ('0' as int + r) as char]
  }

  /**
   * `reg_num`: the register number of "R0".."R7", and BAD_REGISTER for
   * every other string.
   */
  function RegNum(s: string): (r: Byte)
    ensures r < REG_COUNT || r == BAD_REGISTER
    ensures r < REG_COUNT ==> s == RegisterName(r)
  {
    if |s| != 2 || s[0] != 'R' then BAD_REGISTER
    else
      var r := s[1] as int - '0' as int;
      if 0 <= r < REG_COUNT then r else BAD_REGISTER
  }

  /** `reg_num` reads every register name back. */
  lemma RegNumOfName(r: nat)
    requires r < REG_COUNT
    ensures RegNum(RegisterName(r)) == r
  {
  }
}
