# MaterialData — a verified Dafny model

This project models `MaterialData` from the AliceInWonderland server
abstraction (package `com.nao20010128nao.AIW`). A `MaterialData` pairs a
material type name, fixed at construction, with a raw data byte that can be
changed. It converts to an item stack, compares by value, hashes
consistently with that comparison and prints itself as `type(data)`.

Files:

- `java_lang.dfy` (module `JavaLang`) holds the Java platform pieces the
  class relies on:
  - `byte` (`Byte`) and `int` (`Int32`) as bounded integers;
  - a `String` as a possibly-null sequence of UTF-16 code units (`StrRef`,
    `JString`);
  - `String.hashCode` as the JDK's `h = 31*h + c` loop with 32-bit
    wrap-around (`HashLoop`, `StringHashCode`);
  - the decimal text of a byte (`ByteText`) and a parser that reads it back;
  - sign extension of a byte to a 32-bit word (`SignExtend`);
  - `Outcome`, which records whether a call returns or throws
    `NullPointerException`.
- `item_stack.dfy` (module `ItemStacks`) holds `ItemStack`, reduced to the
  three fields that `MaterialData` assigns.
- `material_data.dfy` (module `AIW`) holds the class `MaterialData` and the
  lemmas about it:
  - `itemType` is a `const`, because the Java field is `final`;
  - `data` is a mutable field;
  - `getData`, `getItemType`, `toString`, `hashCode` and `equals` are
    functions that read the object;
  - the constructors, `setData` and the two `toItemStack` conversions are
    imperative.

The Java constructors accept a null type, and the model keeps that case:

- `hashCode` on a null type throws `NullPointerException`.
- `a.equals(b)` throws when `b`'s type is null, because it calls `equals` on
  `b`'s type. It returns false when only `a`'s type is null.
- So `equals` is reflexive and symmetric only between values whose types are
  non-null.
- `toString` prints a null type as `null`. A null type therefore prints like
  the type named `"null"`, although the two values are not equal.

The getters `GetData` and `GetItemType` return the fields. What they return
is stated by the contracts of the constructors and of `SetData`.

## Model

| member | source | states |
|---|---|---|
| AIW.MaterialData.OfType | AliceInWonderland.Abstract/src/com/nao20010128nao/AIW/MaterialData.java:13-15 | the one-argument constructor stores the given type, and the data is 0 |
| AIW.MaterialData.constructor | AliceInWonderland.Abstract/src/com/nao20010128nao/AIW/MaterialData.java:25-28 | the two-argument constructor stores exactly the given type and data, as the getters then report |
| AIW.MaterialData.GetData | AliceInWonderland.Abstract/src/com/nao20010128nao/AIW/MaterialData.java:37-39 | returns the data byte; its value is the one the constructors store and `SetData` replaces, as their ensures state |
| AIW.MaterialData.GetItemType | AliceInWonderland.Abstract/src/com/nao20010128nao/AIW/MaterialData.java:58-60 | returns the type given at construction (null allowed), as the constructors' ensures state; nothing changes it afterwards |
| AIW.MaterialData.SetData | AliceInWonderland.Abstract/src/com/nao20010128nao/AIW/MaterialData.java:49-51 | afterwards `GetData()` is the new byte; the type is a `const` (Java `final`), so it cannot change |
| AIW.MaterialData.ToItemStack | AliceInWonderland.Abstract/src/com/nao20010128nao/AIW/MaterialData.java:67-73 | returns a freshly allocated stack with this type, amount 0 and meta equal to this data; the MaterialData is unchanged |
| AIW.MaterialData.ToItemStackOf | AliceInWonderland.Abstract/src/com/nao20010128nao/AIW/MaterialData.java:82-88 | returns a freshly allocated stack with the given amount, this type and meta equal to this data; the MaterialData is unchanged |
| AIW.MaterialData.ToString | AliceInWonderland.Abstract/src/com/nao20010128nao/AIW/MaterialData.java:91-93 | renders the type text (or "null"), '(', the decimal data byte, ')'; its behaviour is stated by ToStringRoundTrip, ToStringInjective and ByteText |
| AIW.MaterialData.HashCode | AliceInWonderland.Abstract/src/com/nao20010128nao/AIW/MaterialData.java:96-98 | throws exactly when the type is null; otherwise the low 8 bits of the hash are the data byte's bit pattern |
| AIW.MaterialData.Equals | AliceInWonderland.Abstract/src/com/nao20010128nao/AIW/MaterialData.java:101-107 | false for null and for other classes; throws exactly when the other MaterialData's type is null; true iff the other is a MaterialData with a non-null, equal type and the same data byte |
| AIW.EqualsReflexive | AliceInWonderland.Abstract/src/com/nao20010128nao/AIW/MaterialData.java:101-107 | a MaterialData with a non-null type equals itself |
| AIW.EqualsNullTypeThrows | AliceInWonderland.Abstract/src/com/nao20010128nao/AIW/MaterialData.java:102-104 | comparing with a MaterialData whose type is null throws NullPointerException, including comparing such a value with itself |
| AIW.EqualsSymmetric | AliceInWonderland.Abstract/src/com/nao20010128nao/AIW/MaterialData.java:101-107 | for two values with non-null types, `a.equals(b)` and `b.equals(a)` give the same result |
| AIW.EqualsTransitive | AliceInWonderland.Abstract/src/com/nao20010128nao/AIW/MaterialData.java:101-107 | if a equals b and b equals c then a equals c |
| AIW.EqualsOtherClass | AliceInWonderland.Abstract/src/com/nao20010128nao/AIW/MaterialData.java:102-106 | equals is false for null and for an object of another class (an ItemStack) |
| AIW.HashCodeConsistentWithEquals | AliceInWonderland.Abstract/src/com/nao20010128nao/AIW/MaterialData.java:96-107 | values that are equal both hash without throwing, to the same code |
| AIW.HashCodeFormula | AliceInWonderland.Abstract/src/com/nao20010128nao/AIW/MaterialData.java:96-98 | for a non-null type, the hash is `((sum of s[i]*31^(n-1-i)) mod 2^32) << 8`, xor the sign-extended data (Java precedence: the shift binds tighter than `^`) |
| AIW.HashCodeSeparatesData | AliceInWonderland.Abstract/src/com/nao20010128nao/AIW/MaterialData.java:96-98 | two values with the same non-null type and equal hash codes have the same data byte |
| AIW.HashWordSeparates | AliceInWonderland.Abstract/src/com/nao20010128nao/AIW/MaterialData.java:97 | for any shifted type hash h, `(h << 8) ^ (int) d` determines d |
| AIW.ToStringRoundTrip | AliceInWonderland.Abstract/src/com/nao20010128nao/AIW/MaterialData.java:91-93 | the rendering is the type text (or "null"), '(', the decimal data, ')': splitting it at its last '(' and parsing the rest gives back the type text and the data byte |
| AIW.ToStringInjective | AliceInWonderland.Abstract/src/com/nao20010128nao/AIW/MaterialData.java:91-93 | two values with non-null types that print alike have the same type and data |
| AIW.ToStringNullType | AliceInWonderland.Abstract/src/com/nao20010128nao/AIW/MaterialData.java:91-93 | a null type prints exactly like the type "null" with the same data, yet the two are not equal |
| JavaLang.HashLoopIsDocumentedSum | AliceInWonderland.Abstract/src/com/nao20010128nao/AIW/MaterialData.java:97 | the type's `String.hashCode` (the loop with 32-bit wrap-around) equals the documented formula s[0]*31^(n-1)+...+s[n-1] modulo 2^32 |
| JavaLang.ByteText | AliceInWonderland.Abstract/src/com/nao20010128nao/AIW/MaterialData.java:92 | the decimal text of the data byte has 1 to 4 units, starts with '-' exactly when the byte is negative, and is digits otherwise |
| JavaLang.ByteTextRoundTrip | AliceInWonderland.Abstract/src/com/nao20010128nao/AIW/MaterialData.java:92 | parsing the decimal text of any byte, negative ones included, gives the byte back |
| JavaLang.SignExtend | AliceInWonderland.Abstract/src/com/nao20010128nao/AIW/MaterialData.java:97 | widening the byte to int keeps its bit pattern in the low 8 bits and fills the upper 24 bits with zeros for a non-negative byte and with ones for a negative byte |
| JavaLang.SignExtendInjective | AliceInWonderland.Abstract/src/com/nao20010128nao/AIW/MaterialData.java:97 | distinct bytes widen to distinct int words |

## Left out

- `Server.java` is an interface with no implementation code. Its player
  registry, ban and whitelist sets, broadcast, command dispatch, reload and
  shutdown exist only as documentation, so there is no behaviour to check a
  model against. The only executable logic is `MaterialData`.
- The default method `getWhitelist()` in `Server.java` only delegates to an
  abstract method.
- Thread safety and iteration over the online-player view are concurrency
  behaviour of `Server.java` and are not modelled.
- Web lookups, disk reload and save, logging and shutdown are I/O in
  `Server.java` and are not modelled.
- `ItemStack` is not part of this model beyond the three fields
  `MaterialData` assigns:
  - Its constructor's defaults are unspecified, because every conversion
    overwrites all three fields.
  - `meta` is typed as a byte, because its declared type is not shown.
- `Player`, `World`, `GameMode` and `CommandSender` are not needed by
  `MaterialData`.
- AIW.MaterialData.SetData: its contract does not repeat that the type is
  unchanged. The type is a `const`, so no method can change it.
- `instanceof` also accepts subclasses of `MaterialData`. Dafny classes
  cannot be extended, so the model has no subclasses.
- String concatenation in `toString` is modelled as sequence concatenation
  of UTF-16 code units.
- `String.hashCode` is not part of this repository. It is modelled by the
  loop the JDK documents, and `String.hashCode` caching is not modelled.
- `@Deprecated` annotations carry no behaviour.
