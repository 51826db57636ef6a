/** `isFullWidth`, written out identically in the screen buffer and in the
    line editor: the code-point ranges that take two terminal columns. */
module CharWidth {
  /** Hangul Jamo, CJK radicals to unified ideographs, Hangul syllables, CJK
      compatibility ideographs, vertical forms, CJK compatibility forms,
      full-width forms, full-width signs, and the supplementary ideographic
      plane. */
  predicate IsFullWidth(c: char) {
    var code := c as int;
    (0x1100 <= code <= 0x115F) ||
    (0x2E80 <= code <= 0x9FFF) ||
    (0xAC00 <= code <= 0xD7A3) ||
    (0xF900 <= code <= 0xFAFF) ||
    (0xFE10 <= code <= 0xFE1F) ||
    (0xFE30 <= code <= 0xFE6F) ||
    (0xFF00 <= code <= 0xFF60) ||
    (0xFFE0 <= code <= 0xFFE6) ||
    (0x20000 <= code <= 0x2FFFF)
  }

  /** The columns one code point takes. */
  function Width(c: char): (w: nat)
    ensures w == 1 || w == 2
    ensures w == 2 <==> IsFullWidth(c)
  {
    if IsFullWidth(c) then 2 else 1
  }

  /** ASCII and Latin-1 are narrow; kana, kanji, Hangul and the full-width
      Latin letters are wide; half-width katakana is narrow. */
  lemma WidthExamples()
    ensures forall c: char :: c < '\U{100}' ==> !IsFullWidth(c)
    ensures IsFullWidth('\U{3042}') && IsFullWidth('\U{6F22}') && IsFullWidth('\U{D55C}')
    ensures IsFullWidth('\U{FF21}') && !IsFullWidth('\U{FF71}')
  {
  }
}
