/**
  `increment_serial` of tools/helpers.py: split on '-', replace the second
  piece by its integer value plus one, zero-filled to three digits, and join
  back. Python's `int()` is modelled on ASCII text: surrounding whitespace,
  an optional sign and digits grouped by single underscores.
 */
module Helpers {
  import opened Text
  import opened Wrappers
  import FactoryData

  /** `serial[1]` raises IndexError; `int(serial[1])` raises ValueError. */
  datatype IncrementError = NoSuffix | SuffixNotInteger

  function Suffix(serial: string): string
    requires Count(serial, '-') >= 1
  {
    Split(serial, '-')[1]
  }

  /**
    The ASCII characters `int()` skips around a number, those `str.isspace`
    accepts: space, '\t' to '\r', and the separators U+001C to U+001F.
   */
  predicate IsSpace(c: char) {
    c == ' ' || '\t' <= c <= '\r' || '\U{1C}' <= c <= '\U{1F}'
  }

  /** `s` without its leading whitespace. */
  function StripStart(s: string): (r: string)
    ensures |r| <= |s|
    ensures |r| > 0 ==> !IsSpace(r[0])
    decreases |s|
  {
    if |s| > 0 && IsSpace(s[0]) then StripStart(s[1..]) else s
  }

  /** `s` without its trailing whitespace. */
  function StripEnd(s: string): (r: string)
    ensures |r| <= |s|
    ensures |r| > 0 ==> !IsSpace(r[|r| - 1])
    decreases |s|
  {
    if |s| > 0 && IsSpace(s[|s| - 1]) then StripEnd(s[..|s| - 1]) else s
  }

  function Strip(s: string): string {
    StripEnd(StripStart(s))
  }

  /** Stripping keeps a contiguous part of the text. */
  lemma {:induction false} StripStartIsSuffix(s: string)
    ensures StripStart(s) == s[|s| - |StripStart(s)|..]
    decreases |s|
  {
    if |s| > 0 && IsSpace(s[0]) {
      StripStartIsSuffix(s[1..]);
    }
  }

  lemma {:induction false} StripEndIsPrefix(s: string)
    ensures StripEnd(s) == s[..|StripEnd(s)|]
    decreases |s|
  {
    if |s| > 0 && IsSpace(s[|s| - 1]) {
      StripEndIsPrefix(s[..|s| - 1]);
    }
  }

  /**
    The value of a run of digits in which a single underscore may stand
    between two digits (PEP 515), read from the right like `DecimalValue`;
    `None` for anything else.
   */
  function Magnitude(t: string): Option<nat>
    decreases |t|
  {
    if |t| == 0 || !IsDigit(t[|t| - 1]) then None
    else if |t| == 1 then Some(DigitValue(t[0]))
    else
      var k := if t[|t| - 2] == '_' then |t| - 2 else |t| - 1;
      match Magnitude(t[..k])
      case Some(m) => Some(m * 10 + DigitValue(t[|t| - 1]))
      case None => None
  }

  /** An optional sign followed by a grouped run of digits. */
  function Signed(t: string): Option<int> {
    if |t| > 0 && t[0] == '-' then
      match Magnitude(t[1..])
      case Some(m) => Some(-(m as int))
      case None => None
    else if |t| > 0 && t[0] == '+' then Magnitude(t[1..])
    else Magnitude(t)
  }

  /**
    Python's `int()` on text, base 10: optional whitespace, an optional sign,
    grouped digits, optional whitespace. `None` is the ValueError.
   */
  function PyInt(s: string): Option<int> {
    Signed(Strip(s))
  }

  /** Text that neither starts nor ends with whitespace is not stripped. */
  lemma StripTrimmed(s: string)
    requires |s| > 0 && !IsSpace(s[0]) && !IsSpace(s[|s| - 1])
    ensures Strip(s) == s
  {
  }

  /** On a plain digit string `int()` is its decimal value. */
  lemma {:induction false} PyIntOfDigits(s: string)
    requires |s| > 0 && AllDigits(s)
    ensures PyInt(s) == Some(DecimalValue(s))
  {
    StripTrimmed(s);
    MagnitudeOfDigits(s);
    assert Signed(s) == Magnitude(s);
  }

  /** Text without '-' never parses to a negative number. */
  lemma {:induction false} PyIntNoMinus(s: string)
    requires '-' !in s && PyInt(s).Some?
    ensures PyInt(s).value >= 0
  {
    var t := Strip(s);
    var u := StripStart(s);
    StripStartIsSuffix(s);
    StripEndIsPrefix(u);
    if |t| > 0 {
      assert t[0] == u[0] == s[|s| - |u|];
    }
  }

  /** `str(v + 1).zfill(3)` for the non-negative value `v` of a suffix. */
  function NextSuffix(v: nat): (r: string)
    ensures AllDigits(r) && |r| >= 3
    ensures DecimalValue(r) == v + 1
  {
    var digits := NatToDecimal(v + 1);
    DecimalRoundTrip(v + 1);
    if |digits| < 3 then ZerosPrefixValue(3 - |digits|, digits); ZFill(digits, 3)
    else ZFill(digits, 3)
  }

  /** `int()` reads the new suffix back as the old value plus one. */
  lemma NextSuffixRoundTrip(v: nat)
    ensures PyInt(NextSuffix(v)) == Some(v + 1)
  {
    PyIntOfDigits(NextSuffix(v));
  }

  /** Whitespace before the number is ignored. */
  lemma {:induction false} PyIntLeadingSpace(c: char, s: string)
    requires IsSpace(c)
    ensures PyInt([c] + s) == PyInt(s)
  {
    assert ([c] + s)[1..] == s;
    assert StripStart([c] + s) == StripStart(s);
  }

  /** Whitespace after a number that neither starts nor ends with whitespace is ignored. */
  lemma {:induction false} PyIntTrailingSpace(s: string, c: char)
    requires IsSpace(c) && |s| > 0 && !IsSpace(s[0]) && !IsSpace(s[|s| - 1])
    ensures PyInt(s + [c]) == PyInt(s)
  {
    StripTrimmed(s);
    assert StripStart(s + [c]) == s + [c];
    assert (s + [c])[..|s|] == s;
    assert StripEnd(s + [c]) == StripEnd(s);
  }

  /** A sign before the digits: '+' keeps the value, '-' negates it. */
  lemma {:induction false} PyIntSigned(s: string)
    requires |s| > 0 && AllDigits(s)
    ensures PyInt("+" + s) == Some(DecimalValue(s))
    ensures PyInt("-" + s) == Some(-(DecimalValue(s) as int))
  {
    MagnitudeOfDigits(s);
    PlusMagnitude(s, DecimalValue(s));
    MinusMagnitude(s, DecimalValue(s));
  }

  lemma {:induction false} MagnitudeOfDigits(s: string)
    requires |s| > 0 && AllDigits(s)
    ensures Magnitude(s) == Some(DecimalValue(s))
    decreases |s|
  {
    if |s| == 1 {
      assert s[..0] == [];
    } else {
      MagnitudeOfDigits(s[..|s| - 1]);
    }
  }

  /** '+' before a number without surrounding whitespace keeps its value. */
  lemma {:induction false} PlusMagnitude(s: string, m: nat)
    requires |s| > 0 && IsDigit(s[|s| - 1]) && Magnitude(s) == Some(m)
    ensures PyInt("+" + s) == Some(m as int)
  {
    var p := "+" + s;
    assert p[0] == '+' && p[1..] == s && p[|p| - 1] == s[|s| - 1];
    StripTrimmed(p);
  }

  /** '-' before a number without surrounding whitespace negates it. */
  lemma {:induction false} MinusMagnitude(s: string, m: nat)
    requires |s| > 0 && IsDigit(s[|s| - 1]) && Magnitude(s) == Some(m)
    ensures PyInt("-" + s) == Some(-(m as int))
  {
    var p := "-" + s;
    assert p[0] == '-' && p[1..] == s && p[|p| - 1] == s[|s| - 1];
    StripTrimmed(p);
  }

  /** Digits, one underscore, digits: the underscore is skipped. */
  lemma {:induction false} MagnitudeUnderscore(a: string, b: string)
    requires |a| > 0 && AllDigits(a) && |b| > 0 && AllDigits(b)
    ensures AllDigits(a + b) && Magnitude(a + "_" + b) == Some(DecimalValue(a + b))
    decreases |b|
  {
    var t := a + "_" + b;
    assert (a + b)[..|a + b| - 1] == a + b[..|b| - 1];
    if |b| == 1 {
      assert t[..|t| - 2] == a && t[|t| - 2] == '_';
      assert a + b[..0] == a;
      MagnitudeOfDigits(a);
    } else {
      assert t[|t| - 2] == b[|b| - 2] && t[..|t| - 1] == a + "_" + b[..|b| - 1];
      MagnitudeUnderscore(a, b[..|b| - 1]);
    }
  }

  /** An underscore between two digit runs is dropped: `int("1_000")` is 1000. */
  lemma {:induction false} PyIntUnderscore(a: string, b: string)
    requires |a| > 0 && AllDigits(a) && |b| > 0 && AllDigits(b)
    ensures AllDigits(a + b) && PyInt(a + "_" + b) == Some(DecimalValue(a + b))
  {
    var s := a + "_" + b;
    assert s[0] == a[0] && s[|s| - 1] == b[|b| - 1];
    StripTrimmed(s);
    MagnitudeUnderscore(a, b);
    assert Signed(s) == Magnitude(s);
  }

  /** Forms `int()` rejects: a leading or doubled underscore, a space after the sign, no digits. */
  lemma PyIntRejects()
    ensures PyInt("_1") == None && PyInt("1__0") == None && PyInt("- 1") == None
    ensures PyInt("") == None && PyInt("+") == None
  {
    assert Strip("_1") == "_1" && "_1"[..0] == [];
    assert Strip("1__0") == "1__0" && "1__0"[..2] == "1_";
    assert Strip("- 1") == "- 1" && "- 1"[1..] == " 1" && " 1"[..1] == " ";
    assert Strip("+") == "+" && "+"[1..] == [];
  }

  function IncrementSerial(serial: string): (r: Result<string, IncrementError>)
    ensures Count(serial, '-') == 0 ==> r == Failure(NoSuffix)
    ensures Count(serial, '-') >= 1 ==> (r.Success? <==> PyInt(Suffix(serial)).Some?)
  {
    var parts := Split(serial, '-');
    if |parts| < 2 then Failure(NoSuffix)
    else match PyInt(parts[1])
      case None => Failure(SuffixNotInteger)
      case Some(v) =>
        PyIntNoMinus(parts[1]);
        Success(Join([parts[0], NextSuffix(v)] + parts[2..], '-'))
  }

  /** The pieces of an incremented serial: the second replaced by the successor of its value. */
  lemma {:induction false} IncrementPieces(serial: string) returns (v: nat)
    requires IncrementSerial(serial).Success?
    ensures var parts := Split(serial, '-');
      PyInt(parts[1]) == Some(v as int)
      && Split(IncrementSerial(serial).value, '-') == [parts[0], NextSuffix(v)] + parts[2..]
  {
    var parts := Split(serial, '-');
    PyIntNoMinus(parts[1]);
    v := PyInt(parts[1]).value;
    var next := NextSuffix(v);
    assert '-' !in next by {
      assert forall i :: 0 <= i < |next| ==> IsDigit(next[i]);
    }
    var pieces := [parts[0], next] + parts[2..];
    assert forall k :: 0 <= k < |pieces| ==> '-' !in pieces[k] by {
      forall k | 0 <= k < |pieces| ensures '-' !in pieces[k] {
        if k >= 2 { assert pieces[k] == parts[k]; }
      }
    }
    SplitJoin(pieces, '-');
  }

  /**
    A successful increment keeps every piece but the second, and the second
    becomes a digit string of at least three characters that `int()` reads
    as one more than it read before.
   */
  lemma {:induction false} IncrementShape(serial: string)
    requires IncrementSerial(serial).Success?
    ensures var before := Split(serial, '-');
      var after := Split(IncrementSerial(serial).value, '-');
      |after| == |before| && after[0] == before[0] && after[2..] == before[2..]
      && PyInt(before[1]).Some? && PyInt(before[1]).value >= 0
      && after[1] == NextSuffix(PyInt(before[1]).value)
      && PyInt(after[1]) == Some(PyInt(before[1]).value + 1)
      && |after[1]| >= 3 && AllDigits(after[1])
  {
    var v := IncrementPieces(serial);
    NextSuffixRoundTrip(v);
    PiecesShape(Split(serial, '-'), Split(IncrementSerial(serial).value, '-'), v);
  }

  lemma PiecesShape(before: seq<string>, after: seq<string>, v: nat)
    requires |before| >= 2 && PyInt(before[1]) == Some(v as int)
    requires after == [before[0], NextSuffix(v)] + before[2..]
    requires PyInt(NextSuffix(v)) == Some(v + 1)
    ensures |after| == |before| && after[0] == before[0] && after[2..] == before[2..]
      && PyInt(before[1]).Some? && PyInt(before[1]).value >= 0
      && after[1] == NextSuffix(PyInt(before[1]).value)
      && PyInt(after[1]) == Some(PyInt(before[1]).value + 1)
      && |after[1]| >= 3 && AllDigits(after[1])
  {
    assert after[2..] == before[2..];
  }

  lemma ThreeDigits(s: string)
    requires |s| == 3 && AllDigits(s)
    ensures DecimalValue(s) == 100 * DigitValue(s[0]) + 10 * DigitValue(s[1]) + DigitValue(s[2])
  {
    var s2 := s[..2];
    var s1 := s2[..1];
    assert DecimalValue(s1) == DecimalValue(s1[..0]) * 10 + DigitValue(s1[0]);
    assert s1[..0] == [];
    assert DecimalValue(s2) == DecimalValue(s1) * 10 + DigitValue(s2[1]);
    assert DecimalValue(s) == DecimalValue(s2) * 10 + DigitValue(s[2]);
  }

  /** A serial of two pieces: the second is replaced by its successor, the first kept. */
  lemma {:induction false} IncrementTwoPieces(serial: string, prefix: string, suffix: string, v: nat)
    requires serial == prefix + "-" + suffix
    requires '-' !in prefix && '-' !in suffix && PyInt(suffix) == Some(v as int)
    ensures IncrementSerial(serial) == Success(prefix + "-" + NextSuffix(v))
  {
    var parts := [prefix, suffix];
    JoinPair(prefix, suffix);
    assert forall k | 0 <= k < |parts| :: '-' !in parts[k];
    SplitJoin(parts, '-');
    assert Split(serial, '-') == parts;
    var next := NextSuffix(v);
    JoinPair(prefix, next);
    assert [parts[0], next] + parts[2..] == [prefix, next];
  }

  /** The documented example: "2301-001" becomes "2301-002". */
  lemma {:induction false} IncrementExample(serial: string)
    requires serial == "2301-001"
    ensures IncrementSerial(serial) == Success("2301-002")
  {
    assert '-' !in "2301";
    assert "2301" + "-001" == serial && "2301" + "-002" == "2301-002";
    IncrementFirstSuffix("2301");
  }

  /** Any serial whose suffix is "001" moves on to "002", the prefix untouched. */
  lemma {:induction false} IncrementFirstSuffix(prefix: string)
    requires '-' !in prefix
    ensures IncrementSerial(prefix + "-001") == Success(prefix + "-002")
  {
    assert AllDigits("001");
    ThreeDigits("001");
    PyIntOfDigits("001");
    assert '-' !in "001";
    assert prefix + "-001" == prefix + "-" + "001";
    IncrementReadsOne(prefix, "001");
  }

  /**
    Any suffix `int()` reads as 1, whatever its spelling ("001", "+01",
    " 01", "0_1"), increments to "002".
   */
  lemma {:induction false} IncrementReadsOne(prefix: string, suffix: string)
    requires '-' !in prefix && '-' !in suffix && PyInt(suffix) == Some(1)
    ensures IncrementSerial(prefix + "-" + suffix) == Success(prefix + "-002")
  {
    IncrementTwoPieces(prefix + "-" + suffix, prefix, suffix, 1);
    SuccessorOfOne();
    assert prefix + "-" + "002" == prefix + "-002";
  }

  /** "+01", " 01" and "0_1" all read as 1. */
  lemma SpelledOne()
    ensures PyInt("+01") == Some(1) && PyInt(" 01") == Some(1) && PyInt("0_1") == Some(1)
  {
    assert AllDigits("01") && DecimalValue("01") == 1 by { assert "01"[..1] == "0"; }
    PyIntSigned("01");
    assert "+" + "01" == "+01";
    PyIntOfDigits("01");
    PyIntLeadingSpace(' ', "01");
    assert [' '] + "01" == " 01";
    PyIntUnderscore("0", "1");
    assert "0" + "_" + "1" == "0_1" && "0" + "1" == "01";
  }

  lemma JoinPair(a: string, b: string)
    ensures Join([a, b], '-') == a + (['-'] + b)
  {
    assert [a, b][1..] == [b];
  }

  lemma SuccessorOfOne()
    ensures NextSuffix(1) == "002"
  {
    assert NatToDecimal(2) == "2";
    assert Zeros(2) == "00" by { assert Zeros(1) == "0"; }
    assert ZFill("2", 3) == Zeros(2) + "2";
  }

  /** Below 999 the incremented serial still passes `verify_serial`. */
  lemma {:induction false} IncrementKeepsFormat(serial: string)
    requires FactoryData.VerifySerial(serial)
    requires PyInt(Suffix(serial)).Some? && PyInt(Suffix(serial)).value < 999
    ensures IncrementSerial(serial).Success?
    ensures FactoryData.VerifySerial(IncrementSerial(serial).value)
  {
    IncrementShape(serial);
    var n := PyInt(Suffix(serial)).value + 1;
    var digits := NatToDecimal(n);
    DecimalLength(n, 3);
    assert Pow10(3) == 1000;
    assert |NextSuffix(n - 1)| == 3;
  }

  /**
    At "xxxx-999" the suffix grows to four digits: no error is raised, but
    the result no longer passes `verify_serial`.
   */
  lemma {:induction false} IncrementPastFormat(serial: string)
    requires FactoryData.VerifySerial(serial) && PyInt(Suffix(serial)) == Some(999)
    ensures IncrementSerial(serial).Success?
    ensures !FactoryData.VerifySerial(IncrementSerial(serial).value)
  {
    var r := IncrementSerial(serial).value;
    IncrementShape(serial);
    var after := Split(r, '-');
    assert after[1] == NextSuffix(999);
    DecimalLength(1000, 3);
    assert Pow10(3) == 1000;
    assert |NatToDecimal(1000)| > 3;
    assert |after[1]| > 3;
  }
}
