/**
  `StaticString<N>` of src/static_string.h: a string of at most N characters
  kept in `char m_data[N + 1]`. Every operation formats into a buffer with
  `snprintf`, so results longer than N are cut to their first N characters.
 */
module StaticStrings {
  import opened CBuffer
  import opened Text

  /** `StaticString<cap>`: the template argument and the array contents. */
  datatype SString = SString(cap: nat, data: seq<char>)

  predicate Wf(s: SString) {
    |s.data| == s.cap + 1 && Valid(s.data)
  }

  /** `c_str()`: the contents up to the first NUL. */
  function Value(s: SString): (v: string)
    requires Wf(s)
    ensures |v| <= s.cap && CString(v)
  {
    CStrAt(s.data, 0)
  }

  /** `length()`, i.e. `strlen(m_data)`. */
  function Length(s: SString): nat
    requires Wf(s)
  {
    |CStrAt(s.data, 0)|
  }

  /** `empty()`, i.e. `strlen(m_data) == 0`. */
  predicate Empty(s: SString)
    requires Wf(s)
  {
    Length(s) == 0
  }

  /** The first `cap` characters of `text`: what a fresh buffer keeps of it. */
  function Cut(text: string, cap: nat): (r: string)
    ensures |r| == Min(|text|, cap) && r == text[..|r|]
  {
    text[..Min(|text|, cap)]
  }

  /** `StaticString()`. */
  function Default(cap: nat): (s: SString)
    ensures Wf(s) && s.cap == cap && Value(s) == "" && Empty(s)
  {
    SString(cap, Zeroed(cap + 1))
  }

  /** `StaticString(str)` and the `%s`-only formatting constructor, whose text is the pieces joined. */
  function FromCStr(cap: nat, str: string): (s: SString)
    requires CString(str)
    ensures Wf(s) && s.cap == cap
    ensures Value(s) == Cut(str, cap)
  {
    SString(cap, Format(cap + 1, str))
  }

  /** `set(str)`: `*this = StaticString(str)`, a copy of a whole fresh object. */
  function Set(s: SString, str: string): (r: SString)
    requires CString(str)
    ensures Wf(r) && r.cap == s.cap
    ensures Value(r) == Cut(str, s.cap)
  {
    FromCStr(s.cap, str)
  }

  /**
    `operator=(const char*)`: formats into the existing array, so the bytes
    after the new terminator keep their old contents.
   */
  function Assign(s: SString, str: string): (r: SString)
    requires Wf(s) && CString(str)
    ensures Wf(r) && r.cap == s.cap
    ensures Value(r) == Cut(str, s.cap)
    ensures r.data[Min(|str|, s.cap) + 1..] == s.data[Min(|str|, s.cap) + 1..]
  {
    SString(s.cap, Snprintf(s.data, s.cap + 1, str))
  }

  /** `set` and `operator=` give the same string, whatever the old contents. */
  lemma SetAssignSameValue(s: SString, str: string)
    requires Wf(s) && CString(str)
    ensures Value(Set(s, str)) == Value(Assign(s, str))
  {
  }

  /** `s + t` for two strings of the same capacity. */
  function Plus(s: SString, t: SString): (r: SString)
    requires Wf(s) && Wf(t) && s.cap == t.cap
    ensures Wf(r) && r.cap == s.cap
    ensures Value(r) == Cut(Value(s) + Value(t), s.cap)
    ensures Length(r) == Min(Length(s) + Length(t), s.cap)
  {
    FromCStr(s.cap, Value(s) + Value(t))
  }

  /** `s + str`. */
  function PlusStr(s: SString, str: string): (r: SString)
    requires Wf(s) && CString(str)
    ensures Wf(r) && r.cap == s.cap
    ensures Value(r) == Cut(Value(s) + str, s.cap)
  {
    FromCStr(s.cap, Value(s) + str)
  }

  /** `s + i` for an `unsigned long` (32 bits): the `%lu` decimal text appended. */
  function PlusNum(s: SString, i: nat): (r: SString)
    requires Wf(s) && i < 0x1_0000_0000
    ensures Wf(r) && r.cap == s.cap
    ensures Value(r) == Cut(Value(s) + NatToDecimal(i), s.cap)
  {
    DigitsAreCString(NatToDecimal(i));
    FromCStr(s.cap, Value(s) + NatToDecimal(i))
  }

  lemma DigitsAreCString(d: string)
    requires AllDigits(d)
    ensures CString(d)
  {
  }

  /** A difference reduced to `size_t`: unsigned arithmetic wraps modulo 2^32. */
  function SizeT(x: int): (r: nat)
    ensures r < SizeMax
    ensures 0 <= x < SizeMax ==> r == x
    ensures -(SizeMax as int) < x < 0 ==> r == x + SizeMax
  {
    x % SizeMax
  }

  /**
    `substring(i, j)`: when `i` is inside the array, a fresh string formatted
    from `m_data + i` with `size_t` size `min(N + 1, j - i + 1)`; otherwise
    empty. The contents are used as a format, so only '%'-free ones are
    modelled.
   */
  function Substring(s: SString, i: nat, j: nat): (r: SString)
    requires Wf(s) && i < SizeMax && j < SizeMax
    requires i < s.cap + 1 ==> '%' !in CStrAt(s.data, i)
    ensures Wf(r) && r.cap == s.cap
    ensures i >= s.cap + 1 ==> Value(r) == ""
    ensures i < s.cap + 1 && SizeT(j - i + 1) == 0 ==> Value(r) == ""
    ensures i < s.cap + 1 && SizeT(j - i + 1) > 0 ==>
      Value(r) == Cut(CStrAt(s.data, i), Min(s.cap, SizeT(j - i + 1) - 1))
  {
    if i < s.cap + 1 then
      var size := Min(s.cap + 1, SizeT(j - i + 1));
      SString(s.cap, Snprintf(Zeroed(s.cap + 1), size, CStrAt(s.data, i)))
    else Default(s.cap)
  }

  /** Inside the string, the C string at `i` is the string's own tail. */
  lemma TailAt(s: SString, i: nat)
    requires Wf(s) && i <= Length(s)
    ensures CStrAt(s.data, i) == Value(s)[i..]
  {
    var v := Value(s);
    assert s.data[i..i + |v[i..]|] == v[i..];
    CStrAtIs(s.data, i, v[i..]);
  }

  /** For `i <= j` inside the string, `substring(i, j)` is the characters `i .. min(j, length)`. */
  lemma SubstringInside(s: SString, i: nat, j: nat)
    requires Wf(s) && i <= j < SizeMax && j - i + 1 < SizeMax && i <= Length(s)
    requires '%' !in CStrAt(s.data, i)
    ensures Value(Substring(s, i, j)) == Value(s)[i..Min(j, Length(s))]
  {
    TailAt(s, i);
    var v := Value(s);
    var tail := CStrAt(s.data, i);
    assert SizeT(j - i + 1) == j - i + 1;
    var n := Min(|tail|, Min(s.cap, j - i));
    assert n == Min(j, |v|) - i;
    assert Cut(tail, Min(s.cap, j - i)) == v[i..][..n];
  }

  /** With `j + 1 == i` the size is 0 and nothing is written. */
  lemma SubstringEmptyRange(s: SString, i: nat)
    requires Wf(s) && 1 <= i < SizeMax && i <= Length(s)
    requires '%' !in CStrAt(s.data, i)
    ensures Value(Substring(s, i, i - 1)) == ""
  {
    TailAt(s, i);
  }

  /**
    With `j + 1 < i` the unsigned size wraps to a huge value, so the whole
    tail from `i` is returned instead of nothing.
   */
  lemma SubstringWrapsAround(s: SString, i: nat, j: nat)
    requires Wf(s) && s.cap < SizeMax && j + 1 < i <= Length(s)
    requires '%' !in CStrAt(s.data, i)
    ensures Value(Substring(s, i, j)) == Value(s)[i..]
  {
    TailAt(s, i);
    var size := SizeT(j - i + 1);
    assert size == j - i + 1 + SizeMax;
    var tail := CStrAt(s.data, i);
    assert |tail| <= Min(s.cap, size - 1);
    assert Cut(tail, Min(s.cap, size - 1)) == tail;
  }

  /**
    Past the terminator `substring` reads bytes an earlier, longer value left
    behind: "a" assigned over "abcd" still yields "cd" for `substring(2, 4)`.
   */
  lemma SubstringReadsStaleBytes()
    ensures Value(AssignedOver()) == "a"
    ensures Value(Substring(AssignedOver(), 2, 4)) == "cd"
  {
    StaleTail(AssignedOver());
  }

  /** A `StaticString<4>` built from "abcd" and then assigned "a". */
  function AssignedOver(): (s: SString)
    ensures s == SString(4, ['a', NUL, 'c', 'd', NUL])
  {
    var s := Assign(FromCStr(4, "abcd"), "a");
    StaleArray(s, 4);
    s
  }

  lemma StaleArray(s: SString, cap: nat)
    requires cap == 4 && s == Assign(FromCStr(cap, "abcd"), "a")
    ensures s.data == ['a', NUL, 'c', 'd', NUL]
  {
    var prev := FromCStr(cap, "abcd");
    assert prev.data == Snprintf(Zeroed(5), 5, "abcd");
    assert prev.data == ['a', 'b', 'c', 'd', NUL];
    assert s.data == Snprintf(prev.data, 5, "a");
  }

  lemma StaleTail(s: SString)
    requires s == SString(4, ['a', NUL, 'c', 'd', NUL])
    ensures Value(s) == "a"
    ensures Value(Substring(s, 2, 4)) == "cd"
  {
    CStrAtIs(s.data, 0, "a");
    CStrAtIs(s.data, 2, "cd");
    assert SizeT(4 - 2 + 1) == 3;
    assert Cut("cd", Min(4, 2)) == "cd";
  }
}
