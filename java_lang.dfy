/** The small part of the Java platform that MaterialData relies on: the
    primitive `byte` and `int` types, `String` as a possibly-null sequence of
    UTF-16 code units, `String.hashCode`, `String.equals`, the decimal
    rendering of a byte used by string concatenation, and the exception a
    method call on a null `String` raises. */
module JavaLang {

  /** Java `byte`: a signed 8-bit integer. */
  newtype Byte = x: int | -128 <= x < 128

  /** Java `int`, as a value range (used for an ItemStack's amount). */
  newtype Int32 = x: int | -0x8000_0000 <= x < 0x8000_0000

  /** Java `char`: one UTF-16 code unit. */
  newtype Char16 = x: int | 0 <= x < 0x1_0000

  /** The contents of a Java `String`. */
  type JString = seq<Char16>

  /** A Java `String` reference, which may be null. */
  datatype StrRef = Null | Str(units: JString)

  datatype Exception = NullPointerException

  /** What a Java call does: return a value or throw. */
  datatype Outcome<T> = Returns(value: T) | Throws(exception: Exception)

  const Modulus: int := 0x1_0000_0000

  // Code units of the ASCII characters used below.
  const Minus: Char16 := 45       // '-'
  const Zero: Char16 := 48        // '0'
  const OpenParen: Char16 := 40   // '('
  const CloseParen: Char16 := 41  // ')'
  /** The text "null" that string concatenation writes for a null reference. */
  const NullText: JString := [110, 117, 108, 108]

  // ---------------------------------------------------------------------
  // String.hashCode

  /** 31^n. */
  function Pow31(n: nat): (r: nat)
    ensures r >= 1
  {
    if n == 0 then 1 else 31 * Pow31(n - 1)
  }

  /** The formula `String.hashCode` documents, before int overflow:
      s[0]*31^(n-1) + s[1]*31^(n-2) + ... + s[n-1]. */
  function DocumentedHashSum(s: JString): int
  {
    if s == [] then 0 else s[0] as int * Pow31(|s| - 1) + DocumentedHashSum(s[1..])
  }

  /** The JDK's loop `h = 31 * h + c` over the code units, with Java's
      32-bit wrap-around after every step, as an unsigned value. */
  function HashLoop(s: JString): (h: int)
    ensures 0 <= h < Modulus
  {
    if s == [] then 0 else (31 * HashLoop(s[..|s| - 1]) + s[|s| - 1] as int) % Modulus
  }

  /** `String.hashCode()` as a 32-bit word. */
  function StringHashCode(s: JString): bv32
  {
    HashLoop(s) as bv32
  }

  /** Appending one code unit to the documented sum is one Horner step. */
  lemma {:induction false} DocumentedHashSumSnoc(p: JString, c: Char16)
    ensures DocumentedHashSum(p + [c]) == 31 * DocumentedHashSum(p) + c as int
  {
    if p == [] {
      assert p + [c] == [c];
      assert [c][1..] == [];
    } else {
      assert (p + [c])[1..] == p[1..] + [c];
      DocumentedHashSumSnoc(p[1..], c);
      assert Pow31(|p|) == 31 * Pow31(|p| - 1);
    }
  }

  /** Wrapping after every step and wrapping once at the end agree. */
  lemma HornerStepMod(a: int, c: int)
    ensures (31 * (a % Modulus) + c) % Modulus == (31 * a + c) % Modulus
  {
  }

  /** `String.hashCode` is the documented formula reduced modulo 2^32. */
  lemma {:induction false} HashLoopIsDocumentedSum(s: JString)
    ensures HashLoop(s) == DocumentedHashSum(s) % Modulus
  {
    if s == [] {
    } else {
      var p, c := s[..|s| - 1], s[|s| - 1];
      assert s == p + [c];
      HashLoopIsDocumentedSum(p);
      DocumentedHashSumSnoc(p, c);
      HornerStepMod(DocumentedHashSum(p), c as int);
    }
  }

  // ---------------------------------------------------------------------
  // String.equals and concatenation

  /** `s.equals(other)` for a non-null receiver `s` and a String argument. */
  predicate StringEquals(s: JString, other: StrRef)
  {
    other.Str? && other.units == s
  }

  /** What string concatenation writes for a String operand. */
  function ConcatText(r: StrRef): JString
  {
    match r
    case Null => NullText
    case Str(s) => s
  }

  // ---------------------------------------------------------------------
  // Decimal rendering of a byte (string concatenation of a byte operand)

  function DigitUnit(d: nat): Char16
    requires d < 10
  {
    (Zero as int + d) as Char16
  }

  predicate IsDigit(c: Char16)
  {
    Zero <= c <= Zero + 9
  }

  /** Decimal digits of `n`, without leading zeros ("0" for zero). */
  function Digits(n: nat): (r: JString)
    ensures 1 <= |r|
    ensures forall i :: 0 <= i < |r| ==> IsDigit(r[i])
    ensures n < 10 <==> |r| == 1
    ensures n >= 10 ==> r[0] != Zero
    ensures n < 100 ==> |r| <= 2
    ensures n < 1000 ==> |r| <= 3
  {
    if n < 10 then [DigitUnit(n)] else Digits(n / 10) + [DigitUnit(n % 10)]
  }

  /** The decimal text of a byte: a '-' before the digits of a negative value. */
  function ByteText(b: Byte): (r: JString)
    ensures 1 <= |r| <= 4
    ensures (r[0] == Minus) <==> b < 0
    ensures forall i :: (if b < 0 then 1 else 0) <= i < |r| ==> IsDigit(r[i])
  {
    if b < 0 then [Minus] + Digits(-(b as int)) else Digits(b as int)
  }

  /** The value of a sequence of decimal digits. */
  function DigitsValue(s: JString): nat
    requires forall i :: 0 <= i < |s| ==> IsDigit(s[i])
  {
    if s == [] then 0
    else
      assert IsDigit(s[|s| - 1]);
      10 * DigitsValue(s[..|s| - 1]) + (s[|s| - 1] as int - Zero as int)
  }

  /** Reads back a byte written by ByteText; None for anything else. */
  function ParseByteText(s: JString): Option<Byte>
  {
    if |s| >= 1 && s[0] == Minus then
      var t := s[1..];
      if t != [] && (forall i :: 0 <= i < |t| ==> IsDigit(t[i])) && DigitsValue(t) <= 128
      then Some((-(DigitsValue(t) as int)) as Byte) else None
    else if s != [] && (forall i :: 0 <= i < |s| ==> IsDigit(s[i])) && DigitsValue(s) < 128
    then Some(DigitsValue(s) as Byte)
    else None
  }

  datatype Option<T> = None | Some(value: T)

  lemma {:induction false} DigitsValueOfDigits(n: nat)
    ensures DigitsValue(Digits(n)) == n
  {
    if n >= 10 {
      var d := Digits(n);
      assert d[..|d| - 1] == Digits(n / 10);
      DigitsValueOfDigits(n / 10);
    }
  }

  /** Parsing the decimal text of a byte gives the byte back. */
  lemma ByteTextRoundTrip(b: Byte)
    ensures ParseByteText(ByteText(b)) == Some(b)
  {
    if b < 0 {
      var t := Digits(-(b as int));
      assert ByteText(b)[1..] == t;
      DigitsValueOfDigits(-(b as int));
    } else {
      DigitsValueOfDigits(b as int);
    }
  }

  /** The decimal text of a byte never contains a parenthesis. */
  lemma ByteTextHasNoParen(b: Byte)
    ensures OpenParen !in ByteText(b) && CloseParen !in ByteText(b)
  {
  }

  // ---------------------------------------------------------------------
  // Sign extension of a byte operand to int

  /** The 8-bit two's-complement pattern of a byte. */
  function Bits(b: Byte): bv8
  {
    (b as int % 256) as bv8
  }

  lemma BitsValue(b: Byte)
    ensures Bits(b) as int == b as int % 256
  {
    var x := b as int % 256;
    assert (x as bv8) as int == x;
  }

  /** Distinct bytes have distinct bit patterns. */
  lemma BitsInjective(a: Byte, b: Byte)
    requires Bits(a) == Bits(b)
    ensures a == b
  {
    BitsValue(a);
    BitsValue(b);
  }

  /** The 32-bit word of `(int) b`: the byte's pattern in the low eight bits,
      and its sign bit copied into the upper 24. */
  function SignExtend(b: Byte): (w: bv32)
    ensures w & 0xFF == Bits(b) as bv32
    ensures (w >> 8 == 0) <==> b >= 0
    ensures (w >> 8 == 0xFF_FFFF) <==> b < 0
  {
    var low := Bits(b) as bv32;
    if b < 0 then low | 0xFFFF_FF00 else low
  }

  /** Sign extension keeps distinct bytes distinct. */
  lemma SignExtendInjective(a: Byte, b: Byte)
    requires SignExtend(a) == SignExtend(b)
    ensures a == b
  {
    assert Bits(a) as bv32 == Bits(b) as bv32;
    BitsInjective(a, b);
  }
}
