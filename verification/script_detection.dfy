/** Script detection by Unicode scalar ranges (`containsJapanese`,
    `containsChinese`, `guessLanguageCode`), identical in the OCR services
    of CaptureLingo and SnapLingo. */
module ScriptDetector {
  import opened Wrappers
  import opened TextOps

  /** Hiragana and Katakana, U+3040...U+30FF. */
  predicate IsKana(c: char) {
    0x3040 <= c as int <= 0x30FF
  }

  /** CJK Unified Ideographs, U+4E00...U+9FFF. */
  predicate IsCJK(c: char) {
    0x4E00 <= c as int <= 0x9FFF
  }

  /** The ideographic iteration mark U+3005. */
  predicate IsIterationMark(c: char) {
    c as int == 0x3005
  }

  /** A scalar counted as Japanese: kana, a CJK ideograph or U+3005. */
  predicate IsJapaneseScalar(c: char) {
    IsKana(c) || IsCJK(c) || IsIterationMark(c)
  }

  /** `containsJapanese` */
  predicate ContainsJapanese(s: string) {
    exists i :: 0 <= i < |s| && IsJapaneseScalar(s[i])
  }

  predicate ContainsKana(s: string) {
    exists i :: 0 <= i < |s| && IsKana(s[i])
  }

  predicate ContainsCJK(s: string) {
    exists i :: 0 <= i < |s| && IsCJK(s[i])
  }

  /** `containsChinese`: some ideograph and no kana at all. */
  predicate ContainsChinese(s: string) {
    ContainsCJK(s) && !ContainsKana(s)
  }

  /** `CharacterSet.letters.contains(c) && c.isASCII` */
  predicate IsAsciiLetter(tab: CharTable, c: char) {
    tab.isLetter(c) && c as int < 0x80
  }

  predicate ContainsAsciiLetter(tab: CharTable, s: string) {
    exists i :: 0 <= i < |s| && IsAsciiLetter(tab, s[i])
  }

  /** `guessLanguageCode(from:)`: "ja", then "zh", then "en", else nil,
      judged on the trimmed text. */
  function GuessLanguageCode(tab: CharTable, text: string): Option<string> {
    var trimmed := Trim(tab, text);
    if trimmed == [] then None
    else if ContainsJapanese(trimmed) then Some("ja")
    else if ContainsChinese(trimmed) then Some("zh")
    else if ContainsAsciiLetter(tab, trimmed) then Some("en")
    else None
  }

  /** Facts of the real Unicode tables that some lemmas rely on: no kana,
      ideograph, U+3005, letter or printable ASCII scalar is whitespace. */
  ghost predicate WellFormed(tab: CharTable) {
    && (forall c :: IsJapaneseScalar(c) ==> !tab.isWhitespace(c))
    && (forall c :: tab.isLetter(c) ==> !tab.isWhitespace(c))
    && (forall c :: 0x21 <= c as int <= 0x7E ==> !tab.isWhitespace(c))
  }

  // ---------------------------------------------------------------- lemmas

  /** Every ideograph is also a Japanese scalar, so Chinese text is always
      Japanese text as well. */
  lemma ChineseImpliesJapanese(s: string)
    requires ContainsChinese(s)
    ensures ContainsJapanese(s)
  {
    var c :| c in s && IsCJK(c);
    assert IsJapaneseScalar(c);
  }

  /** The three possible guesses, each with its exact condition on the
      trimmed text; in particular "zh" is never returned. */
  lemma GuessLanguageCodeCases(tab: CharTable, text: string)
    ensures var r := GuessLanguageCode(tab, text);
            r == None || r == Some("ja") || r == Some("en")
    ensures var trimmed := Trim(tab, text);
            GuessLanguageCode(tab, text) == Some("ja") <==> trimmed != [] && ContainsJapanese(trimmed)
    ensures var trimmed := Trim(tab, text);
            GuessLanguageCode(tab, text) == Some("en") <==>
              !ContainsJapanese(trimmed) && ContainsAsciiLetter(tab, trimmed)
    ensures var trimmed := Trim(tab, text);
            GuessLanguageCode(tab, text) == None <==>
              !ContainsJapanese(trimmed) && !ContainsAsciiLetter(tab, trimmed)
  {
    var trimmed := Trim(tab, text);
    if trimmed != [] && !ContainsJapanese(trimmed) && ContainsChinese(trimmed) {
      ChineseImpliesJapanese(trimmed);
    }
  }

  /** `guessLanguageCode` never yields "zh". */
  lemma GuessNeverChinese(tab: CharTable, text: string)
    ensures GuessLanguageCode(tab, text) != Some("zh")
  {
    GuessLanguageCodeCases(tab, text);
  }

  /** Whitespace-only text has no guess. */
  lemma GuessBlankIsNone(tab: CharTable, text: string)
    requires WhitespaceOnly(tab, text)
    ensures GuessLanguageCode(tab, text) == None
  {
    TrimEmptyIff(tab, text);
  }

  /** With the real Unicode tables the guess needs no trimming: "ja" for any
      Japanese-range scalar (so for any ideograph), else "en" for any ASCII
      letter, else nil. */
  lemma GuessLanguageCodeUntrimmed(tab: CharTable, text: string)
    requires WellFormed(tab)
    ensures GuessLanguageCode(tab, text) ==
      if ContainsJapanese(text) then Some("ja")
      else if ContainsAsciiLetter(tab, text) then Some("en")
      else None
  {
    var trimmed := Trim(tab, text);
    GuessLanguageCodeCases(tab, text);
    if ContainsJapanese(text) {
      var c :| c in text && IsJapaneseScalar(c);
      TrimKeepsChar(tab, text, c);
    }
    if ContainsAsciiLetter(tab, text) {
      var c :| c in text && IsAsciiLetter(tab, c);
      TrimKeepsChar(tab, text, c);
    }
  }

  /** Any text with an ideograph is guessed Japanese. */
  lemma GuessIdeographIsJapanese(tab: CharTable, text: string)
    requires WellFormed(tab) && ContainsCJK(text)
    ensures GuessLanguageCode(tab, text) == Some("ja")
  {
    var c :| c in text && IsCJK(c);
    assert IsJapaneseScalar(c);
    GuessLanguageCodeUntrimmed(tab, text);
  }
}
