/**
 * Character and string helpers the core relies on: ASCII trimming and
 * lower-casing, hexadecimal digits, decimal rendering of integers and the C
 * library's `atoi`. Strings are byte strings; `Byte` is a character below 256.
 */
module Text {

  datatype Option<+T> = None | Some(value: T)

  /** One byte of a C++ `std::string`. */
  type Byte = c: char | c as int < 256

  /** Appending in two steps is appending the two parts at once. */
  lemma Regroup<T>(a: seq<T>, b: seq<T>, c: seq<T>)
    ensures a + b + c == a + (b + c)
  {
  }

  /** The characters `isspace` accepts in the C locale. */
  predicate IsSpace(c: char) {
    c == ' ' || c == '\t' || c == '\n' || c == '\r' || c as int == 11 || c as int == 12
  }

  predicate IsUpper(c: char) { 'A' <= c <= 'Z' }

  predicate IsDigit(c: char) { '0' <= c <= '9' }

  predicate IsAlnum(c: char) { IsDigit(c) || IsUpper(c) || 'a' <= c <= 'z' }

  predicate NoUpper(s: string) { forall i :: 0 <= i < |s| ==> !IsUpper(s[i]) }

  /** Drops leading whitespace. */
  function LTrim(s: string): (r: string)
    ensures |r| <= |s| && r == s[|s| - |r|..]
    ensures r == [] || !IsSpace(r[0])
    ensures forall i :: 0 <= i < |s| - |r| ==> IsSpace(s[i])
  {
    if s != [] && IsSpace(s[0]) then LTrim(s[1..]) else s
  }

  /** Drops trailing whitespace. */
  function RTrim(s: string): (r: string)
    ensures |r| <= |s| && r == s[..|r|]
    ensures r == [] || !IsSpace(r[|r| - 1])
    ensures forall i :: |r| <= i < |s| ==> IsSpace(s[i])
  {
    if s != [] && IsSpace(s[|s| - 1]) then RTrim(s[..|s| - 1]) else s
  }

  function Trim(s: string): string {
    LTrim(RTrim(s))
  }

  /** ASCII lower-casing; every other character is kept. */
  function ToLower(s: string): (r: string)
    ensures |r| == |s| && NoUpper(r)
    ensures forall i :: 0 <= i < |s| ==> r[i] == if IsUpper(s[i]) then (s[i] as int + 32) as char else s[i]
  {
    if s == [] then [] else
      var c := if IsUpper(s[0]) then (s[0] as int + 32) as char else s[0];
      [c] + ToLower(s[1..])
  }

  lemma RTrimOfNoTrailingSpace(s: string)
    requires s == [] || !IsSpace(s[|s| - 1])
    ensures RTrim(s) == s
  {
  }

  /** Upper-case hexadecimal digit of a nibble. */
  function ToHex(n: nat): (c: Byte)
    requires n < 16
    ensures IsDigit(c) || 'A' <= c <= 'F'
  {
    if n < 10 then ('0' as int + n) as char else ('A' as int + n - 10) as char
  }

  /**
   * Value of a hexadecimal digit of either case; 0 for any other character.
   * A digit reads back as the digit `ToHex` writes for its value, a
   * lower-case letter as its upper-case form.
   */
  function FromHex(c: char): (n: nat)
    ensures n < 16
    ensures (IsDigit(c) || 'A' <= c <= 'F') ==> ToHex(n) == c
    ensures 'a' <= c <= 'f' ==> ToHex(n) == (c as int - 32) as char
    ensures !IsDigit(c) && !('A' <= c <= 'F') && !('a' <= c <= 'f') ==> n == 0
  {
    if IsDigit(c) then c as int - '0' as int
    else if 'A' <= c <= 'F' then c as int - 'A' as int + 10
    else if 'a' <= c <= 'f' then c as int - 'a' as int + 10
    else 0
  }

  lemma FromHexToHex(n: nat)
    requires n < 16
    ensures FromHex(ToHex(n)) == n
  {
  }

  function DigitChar(d: nat): (c: char)
    requires d < 10
    ensures IsDigit(c)
  {
    ('0' as int + d) as char
  }

  /** Decimal digits of a natural number, without leading zeros. */
  function NatToString(n: nat): (r: string)
    ensures r != [] && NoUpper(r)
    ensures forall i :: 0 <= i < |r| ==> IsDigit(r[i])
    decreases n
  {
    if n < 10 then [DigitChar(n)] else NatToString(n / 10) + [DigitChar(n % 10)]
  }

  /** Decimal rendering of an integer, as `std::to_string` writes it. */
  function IntToString(n: int): (r: string)
    ensures r != [] && NoUpper(r)
  {
    if n < 0 then "-" + NatToString(-n) else NatToString(n)
  }

  /** Value of the longest run of decimal digits at the start of `s`, read after `acc`. */
  function DigitsValue(s: string, acc: nat): (v: nat)
    ensures v >= acc
  {
    if s != [] && IsDigit(s[0]) then DigitsValue(s[1..], acc * 10 + (s[0] as int - '0' as int)) else acc
  }

  /** A run of digits one longer reads as ten times the shorter run plus the last digit. */
  lemma {:induction false} DigitsValueAppend(s: string, c: char, acc: nat)
    requires forall i :: 0 <= i < |s| ==> IsDigit(s[i])
    requires IsDigit(c)
    ensures DigitsValue(s + [c], acc) == DigitsValue(s, acc) * 10 + (c as int - '0' as int)
  {
    if s == [] {
      assert [c][1..] == [];
    } else {
      assert (s + [c])[1..] == s[1..] + [c];
      DigitsValueAppend(s[1..], c, acc * 10 + (s[0] as int - '0' as int));
    }
  }

  /** Reading the digits written for `n` gives `n` back. */
  lemma {:induction false} DigitsOfNatToString(n: nat)
    ensures DigitsValue(NatToString(n), 0) == n
    decreases n
  {
    if n >= 10 {
      DigitsOfNatToString(n / 10);
      DigitsValueAppend(NatToString(n / 10), DigitChar(n % 10), 0);
    }
  }

  const Int32Min: int := -0x8000_0000
  const Int32Max: int := 0x7FFF_FFFF

  /** The C++ `int`. */
  type Int32 = x: int | Int32Min <= x <= Int32Max

  /** The range of C `long` on a 64-bit target. */
  const LongMin: int := -0x8000_0000_0000_0000
  const LongMax: int := 0x7FFF_FFFF_FFFF_FFFF

  /** A conversion to `int` that keeps the low 32 bits, as GCC and Clang define it. */
  function ToInt32(x: int): (r: Int32)
    ensures (r - x) % 0x1_0000_0000 == 0
    ensures Int32Min <= x <= Int32Max ==> r == x
  {
    var m := x % 0x1_0000_0000;
    if m > Int32Max then m - 0x1_0000_0000 else m
  }

  /**
   * What `strtol` reads in base 10 before its range check: leading
   * whitespace, an optional sign, then the longest run of digits; 0 when
   * there is none.
   */
  function StrtolValue(s: string): int {
    var t := LTrim(s);
    if t != [] && t[0] == '-' then 0 - DigitsValue(t[1..], 0) as int
    else if t != [] && t[0] == '+' then DigitsValue(t[1..], 0)
    else DigitsValue(t, 0)
  }

  /**
   * The C library's `atoi` as glibc computes it on a 64-bit target,
   * `(int) strtol(s, NULL, 10)`: the value saturates at the range of `long`
   * and is then cut to 32 bits.
   */
  function Atoi(s: string): (v: Int32)
    ensures LongMin <= StrtolValue(s) <= LongMax ==> (v - StrtolValue(s)) % 0x1_0000_0000 == 0
    ensures Int32Min <= StrtolValue(s) <= Int32Max ==> v == StrtolValue(s)
  {
    var x := StrtolValue(s);
    ToInt32(if x < LongMin then LongMin else if x > LongMax then LongMax else x)
  }

  lemma LTrimOfNoLeadingSpace(s: string)
    requires s != [] && !IsSpace(s[0])
    ensures LTrim(s) == s
  {
  }

  /** `strtol` reads back the number `IntToString` writes. */
  lemma StrtolOfIntToString(n: int)
    ensures StrtolValue(IntToString(n)) == n
  {
    var s := IntToString(n);
    if n < 0 {
      var digits := NatToString(-n);
      assert s == "-" + digits;
      assert s[1..] == digits;
      LTrimOfNoLeadingSpace(s);
      DigitsOfNatToString(-n);
    } else {
      assert s == NatToString(n);
      assert IsDigit(s[0]);
      LTrimOfNoLeadingSpace(s);
      DigitsOfNatToString(n);
    }
  }

  /** `atoi` of a rendered `long` is that number cut to 32 bits. */
  lemma AtoiOfLong(n: int)
    requires LongMin <= n <= LongMax
    ensures Atoi(IntToString(n)) == ToInt32(n)
  {
    StrtolOfIntToString(n);
  }

  /** `atoi` reads back every `int` that `IntToString` writes. */
  lemma AtoiOfIntToString(n: Int32)
    ensures Atoi(IntToString(n)) == n
  {
    AtoiOfLong(n);
  }

}
