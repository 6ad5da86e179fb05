/**
  The older `StaticString<MAX_SIZE>` of src/StaticString.h. It keeps
  `char m_data[MAX_SIZE]`, so it holds at most `MAX_SIZE - 1` characters: the
  same array as the newer class instantiated with `MAX_SIZE - 1`. It has no
  `set`, `operator=`, `empty` or numeric `+`.
 */
module LegacyStaticStrings {
  import opened CBuffer
  import opened StaticStrings

  /** The number of characters a `StaticString<maxSize>` can hold. */
  function Capacity(maxSize: nat): nat
    requires maxSize >= 1
  {
    maxSize - 1
  }

  /** A value of `StaticString<maxSize>`. */
  predicate IsLegacy(s: SString, maxSize: nat) {
    maxSize >= 1 && s.cap == Capacity(maxSize) && Wf(s)
  }

  /** `StaticString()`: the zero-initialised array. */
  function New(maxSize: nat): (s: SString)
    requires maxSize >= 1
    ensures IsLegacy(s, maxSize) && |s.data| == maxSize
    ensures Length(s) == 0
  {
    Default(Capacity(maxSize))
  }

  /** `StaticString(str)` and the `%s`-only formatting constructor. */
  function Make(maxSize: nat, str: string): (s: SString)
    requires maxSize >= 1 && CString(str)
    ensures IsLegacy(s, maxSize) && |s.data| == maxSize
    ensures Length(s) <= maxSize - 1
    ensures Value(s) == str[..Min(|str|, maxSize - 1)]
  {
    FromCStr(Capacity(maxSize), str)
  }

  /** `a + b`, both overloads: the concatenation cut to `maxSize - 1` characters. */
  function Concat(maxSize: nat, s: SString, str: string): (r: SString)
    requires IsLegacy(s, maxSize) && CString(str)
    ensures IsLegacy(r, maxSize)
    ensures Value(r) == (Value(s) + str)[..Min(Length(s) + |str|, maxSize - 1)]
  {
    PlusStr(s, str)
  }

  /** `a + other` where `other` is another `StaticString<maxSize>`. */
  lemma ConcatStrings(maxSize: nat, s: SString, t: SString)
    requires IsLegacy(s, maxSize) && IsLegacy(t, maxSize)
    ensures Concat(maxSize, s, Value(t)) == Plus(s, t)
    ensures Value(Plus(s, t)) == (Value(s) + Value(t))[..Min(Length(s) + Length(t), maxSize - 1)]
  {
  }

  /** `substring(i, j)`: formatted from `m_data + i` when `i < maxSize`, with size `min(maxSize, j - i + 1)`. */
  function Sub(maxSize: nat, s: SString, i: nat, j: nat): (r: SString)
    requires IsLegacy(s, maxSize) && i < SizeMax && j < SizeMax
    requires i < maxSize ==> '%' !in CStrAt(s.data, i)
    ensures IsLegacy(r, maxSize)
    ensures i >= maxSize ==> Length(r) == 0
  {
    Substring(s, i, j)
  }

  /** For `i <= j` inside the contents, `substring(i, j)` is the characters `i .. min(j, length)`. */
  lemma SubInside(maxSize: nat, s: SString, i: nat, j: nat)
    requires IsLegacy(s, maxSize) && i <= j < SizeMax && j - i + 1 < SizeMax && i <= Length(s)
    requires '%' !in CStrAt(s.data, i)
    ensures Value(Sub(maxSize, s, i, j)) == Value(s)[i..Min(j, Length(s))]
  {
    SubstringInside(s, i, j);
  }
}
