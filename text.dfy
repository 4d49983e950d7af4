/** Text handling for the status display: every line is cut to what fits on
    the 128-pixel-wide panel in the default font. */
module Text {

  /** Characters that fit on one display line (oled_status.py:12). */
  const MaxChars: nat := 21

  function Min(a: nat, b: nat): nat { if a <= b then a else b }

  /** `clamp(s)`, i.e. the slice `s[:MAX_CHARS]`: the first MaxChars characters
      of `s`, or all of `s` when it is shorter. */
  function Clamp(s: string): (r: string)
    ensures |r| == Min(|s|, MaxChars)
    ensures r == s[..|r|]
    ensures |s| <= MaxChars ==> r == s
  {
    if |s| <= MaxChars then s else s[..MaxChars]
  }

  /** Clamping an already clamped line changes nothing. */
  lemma ClampIdempotent(s: string)
    ensures Clamp(Clamp(s)) == Clamp(s)
  {
  }
}
