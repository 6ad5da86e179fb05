/**
  Fixed-size `char` arrays holding NUL-terminated C strings, and `snprintf`
  into them with a format whose only directives are `%s` (so the formatted
  text is the concatenation of its pieces). This is the storage both
  StaticString classes are built on.
 */
module CBuffer {

  const NUL: char := 0 as char

  /** `size_t` is 32 bits wide on the ESP32. */
  const SizeMax: nat := 0x1_0000_0000

  function Min(a: nat, b: nat): nat {
    if a <= b then a else b
  }

  /** A C string: no NUL inside. */
  predicate CString(s: string) {
    NUL !in s
  }

  /** A `char[size]` whose last byte is NUL, as every `snprintf` into it leaves it. */
  predicate Valid(buf: seq<char>) {
    |buf| >= 1 && buf[|buf| - 1] == NUL
  }

  /** A zero-initialised array, as `char m_data[SIZE] = {'\0'}` declares it. */
  function Zeroed(size: nat): (buf: seq<char>)
    requires size >= 1
    ensures Valid(buf) && |buf| == size
    ensures forall i :: 0 <= i < size ==> buf[i] == NUL
  {
    seq(size, _ => NUL)
  }

  /** The C string that starts at `buf[i]`: the characters up to the next NUL. */
  function CStrAt(buf: seq<char>, i: nat): (s: string)
    requires Valid(buf) && i < |buf|
    ensures CString(s) && i + |s| < |buf|
    ensures buf[i + |s|] == NUL && s == buf[i..i + |s|]
    decreases |buf| - i
  {
    if buf[i] == NUL then "" else [buf[i]] + CStrAt(buf, i + 1)
  }

  /** A NUL-free stretch ended by a NUL is exactly the C string found there. */
  lemma {:induction false} CStrAtIs(buf: seq<char>, i: nat, s: string)
    requires Valid(buf) && i + |s| < |buf|
    requires CString(s) && buf[i..i + |s|] == s && buf[i + |s|] == NUL
    ensures CStrAt(buf, i) == s
    decreases |s|
  {
    if |s| > 0 {
      assert buf[i] == s[0];
      assert buf[i + 1..i + 1 + |s[1..]|] == s[1..];
      CStrAtIs(buf, i + 1, s[1..]);
      assert [s[0]] + s[1..] == s;
    }
  }

  /**
    `snprintf(buf, n, "%s", text)`: at most `n - 1` characters of `text` and a
    terminating NUL are written at the front of `buf`; with `n == 0` nothing is
    written. Bytes past the terminator keep whatever they held.
   */
  function Snprintf(buf: seq<char>, n: nat, text: string): (r: seq<char>)
    requires Valid(buf) && n <= |buf| && CString(text)
    ensures Valid(r) && |r| == |buf|
    ensures n == 0 ==> r == buf
    ensures n > 0 ==> CStrAt(r, 0) == text[..Min(|text|, n - 1)]
    ensures n > 0 ==> r[Min(|text|, n - 1) + 1..] == buf[Min(|text|, n - 1) + 1..]
  {
    if n == 0 then buf
    else
      var k := Min(|text|, n - 1);
      var r := text[..k] + [NUL] + buf[k + 1..];
      assert r[0..0 + |text[..k]|] == text[..k];
      CStrAtIs(r, 0, text[..k]);
      r
  }

  /** A fresh `char[size]` formatted with `text`: the text cut to `size - 1` characters. */
  function Format(size: nat, text: string): (buf: seq<char>)
    requires size >= 1 && CString(text)
    ensures Valid(buf) && |buf| == size
    ensures CStrAt(buf, 0) == text[..Min(|text|, size - 1)]
  {
    Snprintf(Zeroed(size), size, text)
  }

  /** What a C reader sees of `s`: the characters before its first NUL. */
  function CPrefix(s: string): (r: string)
    ensures CString(r) && r <= s
    ensures |r| < |s| ==> s[|r|] == NUL
    ensures CString(s) ==> r == s
  {
    if |s| == 0 || s[0] == NUL then "" else [s[0]] + CPrefix(s[1..])
  }
}
