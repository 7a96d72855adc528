/** MaterialData: a material type name paired with a raw data byte. */
module AIW {
  import opened JavaLang
  import opened ItemStacks

  class MaterialData {
    /** The material type; final, so it never changes after construction.
        Java lets it be null. */
    const itemType: StrRef
    /** The raw data value; defaults to 0. */
    var data: Byte

    /** `MaterialData(type)`: the data defaults to 0. */
    constructor OfType(t: StrRef)
      ensures GetItemType() == t && GetData() == 0
    {
      itemType := t;
      data := 0;
    }

    /** `MaterialData(type, data)`. */
    constructor (t: StrRef, d: Byte)
      ensures GetItemType() == t && GetData() == d
    {
      itemType := t;
      data := d;
    }

    function GetData(): Byte
      reads this
    {
      data
    }

    function GetItemType(): StrRef
    {
      itemType
    }

    /** `setData`: replaces the data; the type is untouched. */
    method SetData(d: Byte)
      modifies this
      ensures GetData() == d
    {
      data := d;
    }

    /** `toItemStack()`: a new stack with this type and data, amount 0. */
    method ToItemStack() returns (stack: ItemStack)
      ensures fresh(stack)
      ensures stack.itemType == itemType && stack.amount == 0 && stack.meta == data
      ensures unchanged(this)
    {
      stack := new ItemStack();
      stack.itemType := itemType;
      stack.amount := 0;
      stack.meta := data;
    }

    /** `toItemStack(amount)`: a new stack of the given size with this type
        and data. */
    method ToItemStackOf(amount: Int32) returns (stack: ItemStack)
      ensures fresh(stack)
      ensures stack.itemType == itemType && stack.amount == amount && stack.meta == data
      ensures unchanged(this)
    {
      stack := new ItemStack();
      stack.itemType := itemType;
      stack.amount := amount;
      stack.meta := data;
    }

    /** `toString()`: the type (or "null"), '(', the data in decimal, ')'. */
    function ToString(): JString
      reads this
    {
      ConcatText(GetItemType()) + [OpenParen] + ByteText(GetData()) + [CloseParen]
    }

    /** `hashCode()`: `(type.hashCode() << 8) ^ (int) data`; calling
        `hashCode` on a null type throws. */
    function HashCode(): (r: Outcome<bv32>)
      reads this
      ensures r.Throws? <==> itemType.Null?
      ensures r.Returns? ==> r.value & 0xFF == Bits(data) as bv32
    {
      match GetItemType()
      case Null => Throws(NullPointerException)
      case Str(s) => Returns((StringHashCode(s) << 8) ^ SignExtend(GetData()))
    }

    /** `equals(obj)`: another MaterialData whose type equals this type and
        whose data is the same byte. Calling `equals` on the other's type
        throws when that type is null. */
    function Equals(obj: object?): (r: Outcome<bool>)
      reads this, obj
      ensures obj == null || !(obj is MaterialData) ==> r == Returns(false)
      ensures obj is MaterialData ==> (r.Throws? <==> (obj as MaterialData).itemType.Null?)
      ensures r == Returns(true) <==>
        obj is MaterialData && (obj as MaterialData).itemType.Str? &&
        (obj as MaterialData).itemType == itemType && (obj as MaterialData).data == data
    {
      if obj != null && obj is MaterialData then
        var md := obj as MaterialData;
        match md.GetItemType()
        case Null => Throws(NullPointerException)
        case Str(s) => Returns(StringEquals(s, GetItemType()) && md.GetData() == GetData())
      else
        Returns(false)
    }
  }

  // -----------------------------------------------------------------------
  // equals

  /** A MaterialData with a non-null type equals itself. */
  lemma EqualsReflexive(m: MaterialData)
    requires m.itemType.Str?
    ensures m.Equals(m) == Returns(true)
  {
  }

  /** With a null type, `m.equals(m)` throws instead of returning true. */
  lemma EqualsNullTypeThrows(m: MaterialData, obj: object?)
    requires obj is MaterialData && (obj as MaterialData).itemType.Null?
    ensures m.Equals(obj) == Throws(NullPointerException)
  {
  }

  /** Between MaterialData values with non-null types, equals is symmetric. */
  lemma EqualsSymmetric(a: MaterialData, b: MaterialData)
    requires a.itemType.Str? && b.itemType.Str?
    ensures a.Equals(b) == b.Equals(a)
  {
  }

  lemma EqualsTransitive(a: MaterialData, b: MaterialData, c: MaterialData)
    requires a.Equals(b) == Returns(true) && b.Equals(c) == Returns(true)
    ensures a.Equals(c) == Returns(true)
  {
  }

  /** equals is false for null and for objects of another class. */
  lemma EqualsOtherClass(m: MaterialData, stack: ItemStack?)
    ensures m.Equals(stack) == Returns(false)
  {
  }

  // -----------------------------------------------------------------------
  // hashCode

  /** Equal values have equal hash codes, and computing them does not throw. */
  lemma HashCodeConsistentWithEquals(a: MaterialData, b: MaterialData)
    requires a.Equals(b) == Returns(true)
    ensures a.HashCode().Returns? && a.HashCode() == b.HashCode()
  {
  }

  /** The hash code in terms of the formula `String.hashCode` documents:
      the type's sum s[0]*31^(n-1) + ... + s[n-1] reduced to 32 bits, shifted
      left by 8, xor the sign-extended data. */
  lemma HashCodeFormula(m: MaterialData)
    requires m.itemType.Str?
    ensures m.HashCode() ==
      Returns(((DocumentedHashSum(m.itemType.units) % Modulus) as bv32 << 8) ^ SignExtend(m.data))
  {
    HashLoopIsDocumentedSum(m.itemType.units);
  }

  /** For one type, the hash code tells the data bytes apart. */
  lemma HashCodeSeparatesData(a: MaterialData, b: MaterialData)
    requires a.itemType == b.itemType && a.itemType.Str?
    requires a.HashCode() == b.HashCode()
    ensures a.data == b.data
  {
    HashWordSeparates(StringHashCode(a.itemType.units), a.data, b.data);
  }

  /** The data byte is recoverable from `(h << 8) ^ (int) data`. */
  lemma HashWordSeparates(h: bv32, x: Byte, y: Byte)
    requires (h << 8) ^ SignExtend(x) == (h << 8) ^ SignExtend(y)
    ensures x == y
  {
    assert SignExtend(x) == SignExtend(y);
    SignExtendInjective(x, y);
  }

  // -----------------------------------------------------------------------
  // toString

  /** Index of the last `c` in `s`, if any. */
  function LastIndexOf(s: JString, c: Char16): (r: Option<nat>)
    ensures r.None? ==> c !in s
    ensures r.Some? ==> r.value < |s| && s[r.value] == c && c !in s[r.value + 1..]
  {
    if s == [] then None
    else if s[|s| - 1] == c then Some(|s| - 1)
    else
      var r := LastIndexOf(s[..|s| - 1], c);
      assert r.Some? ==> s[r.value + 1..] == s[..|s| - 1][r.value + 1..] + [s[|s| - 1]];
      r
  }

  /** Splits a `type(data)` rendering at its last '(' back into the type
      text and the data byte. */
  function ParseRendering(s: JString): Option<(JString, Byte)>
  {
    match LastIndexOf(s, OpenParen)
    case None => None
    case Some(k) =>
      if k + 2 <= |s| && s[|s| - 1] == CloseParen then
        match ParseByteText(s[k + 1..|s| - 1])
        case None => None
        case Some(d) => Some((s[..k], d))
      else None
  }

  /** The rendering reads back as the type text and the data byte. */
  lemma ToStringRoundTrip(m: MaterialData)
    ensures ParseRendering(m.ToString()) == Some((ConcatText(m.itemType), m.data))
  {
    var t, d := ConcatText(m.itemType), ByteText(m.data);
    var s := m.ToString();
    assert s == t + [OpenParen] + d + [CloseParen];
    ByteTextHasNoParen(m.data);
    assert s[|t| + 1..] == d + [CloseParen];
    assert OpenParen !in s[|t| + 1..];
    var k := LastIndexOf(s, OpenParen);
    assert s[|t|] == OpenParen;
    assert k.Some?;
    assert k.value == |t|;
    assert s[|t| + 1..|s| - 1] == d;
    ByteTextRoundTrip(m.data);
    assert s[..|t|] == t;
    assert ParseByteText(s[|t| + 1..|s| - 1]) == Some(m.data);
    assert s[|s| - 1] == CloseParen;
  }

  /** Two MaterialData with non-null types that print alike have equal type
      and data. */
  lemma ToStringInjective(a: MaterialData, b: MaterialData)
    requires a.itemType.Str? && b.itemType.Str?
    requires a.ToString() == b.ToString()
    ensures a.itemType == b.itemType && a.data == b.data
  {
    ToStringRoundTrip(a);
    ToStringRoundTrip(b);
  }

  /** A null type prints as the text "null", so it cannot be told apart from
      the type named "null". */
  lemma ToStringNullType(a: MaterialData, b: MaterialData)
    requires a.itemType.Null? && b.itemType == Str(NullText) && a.data == b.data
    ensures a.ToString() == b.ToString()
    ensures !(a.Equals(b) == Returns(true))
  {
  }
}
