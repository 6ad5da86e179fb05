/**
  `check_button_label` of src/utils.cpp: the label a button shows for a user
  supplied text, and how it relates to the `ButtonLabel` (`StaticString<15>`)
  the label is stored in.
 */
module Labels {
  import opened CBuffer
  import opened StaticStrings

  /** `BTN_LABEL_MAXLEN` of src/config.h. */
  const BtnLabelMaxLen: nat := 15

  /** Arduino `String::substring(0, n)`: the first `n` characters, or all of them. */
  function Prefix(s: string, n: nat): (r: string)
    ensures r == s[..Min(|s|, n)]
  {
    if |s| <= n then s else s[..n]
  }

  /** An empty label becomes "-", any other is cut to `BTN_LABEL_MAXLEN` characters. */
  function CheckButtonLabel(txt: string): (r: string)
    ensures 1 <= |r| <= BtnLabelMaxLen
    ensures |txt| > 0 ==> r == txt[..Min(|txt|, BtnLabelMaxLen)]
    ensures |txt| == 0 ==> r == "-"
  {
    if |txt| < 1 then "-" else Prefix(txt, BtnLabelMaxLen)
  }

  /** Checking an already checked label changes nothing. */
  lemma CheckIdempotent(txt: string)
    ensures CheckButtonLabel(CheckButtonLabel(txt)) == CheckButtonLabel(txt)
  {
  }

  /** A non-empty txt that fits is kept as it is. */
  lemma CheckKeepsShortLabels(txt: string)
    requires 1 <= |txt| <= BtnLabelMaxLen
    ensures CheckButtonLabel(txt) == txt
  {
  }

  /**
    For a non-empty C string the check agrees with storing the txt in a
    `ButtonLabel`, which keeps the same first 15 characters.
   */
  lemma CheckAgreesWithButtonLabel(txt: string)
    requires |txt| > 0 && CString(txt)
    ensures CheckButtonLabel(txt) == Value(FromCStr(BtnLabelMaxLen, txt))
  {
  }
}
