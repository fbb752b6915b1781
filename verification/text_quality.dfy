/** The OCR quality gate `isUsableOCRText` / `isLikelyNoiseText`, identical
    in both OCR services. The `Double` ratio tests `(p + s) / n > 0.35` and
    `(a + c + k) / n < 0.65` are stated by cross-multiplying with integers. */
module TextQuality {
  import opened TextOps
  import opened ScriptDetector

  /** The per-class scalar counts over the non-whitespace scalars. Each
      count is taken on its own, so a scalar in two classes counts twice. */
  datatype ClassCounts = ClassCounts(
    total: nat, alphaNum: nat, punctuation: nat, symbol: nat, cjk: nat, kana: nat)

  function CountClasses(tab: CharTable, text: string): (r: ClassCounts)
    ensures r.total == |NonWhitespace(tab, text)|
  {
    var scalars := NonWhitespace(tab, text);
    ClassCounts(
      |scalars|,
      Count(scalars, tab.isAlphanumeric),
      Count(scalars, tab.isPunctuation),
      Count(scalars, tab.isSymbol),
      Count(scalars, IsCJK),
      Count(scalars, IsKana))
  }

  /** Too many punctuation/symbol scalars (over 35%) together with too
      little language signal (under 65%). */
  predicate NoiseRatios(k: ClassCounts) {
    100 * (k.punctuation + k.symbol) > 35 * k.total
    && 100 * (k.alphaNum + k.cjk + k.kana) < 65 * k.total
  }

  /** `isLikelyNoiseText` */
  predicate IsLikelyNoiseText(tab: CharTable, text: string) {
    var k := CountClasses(tab, text);
    k.total == 0 || NoiseRatios(k)
  }

  /** `isUsableOCRText`: non-blank after trimming, and not noise. */
  predicate IsUsableOCRText(tab: CharTable, text: string) {
    var trimmed := Trim(tab, text);
    trimmed != [] && !IsLikelyNoiseText(tab, trimmed)
  }

  // ---------------------------------------------------------------- lemmas

  /** `Count` distributes over concatenation. */
  lemma CountAppend(a: string, b: string, p: char -> bool)
    ensures Count(a + b, p) == Count(a, p) + Count(b, p)
  {
    FilterAppend(a, b, p);
  }

  /** When every character satisfies `p` or `q`, the two counts together
      cover the whole text. */
  lemma {:induction false} CountCover(s: string, p: char -> bool, q: char -> bool)
    requires forall k :: 0 <= k < |s| ==> p(s[k]) || q(s[k])
    ensures Count(s, p) + Count(s, q) >= |s|
  {
    if s != [] {
      CountCover(s[1..], p, q);
    }
  }

  /** A class no character belongs to counts zero. */
  lemma CountNone(s: string, p: char -> bool)
    requires forall k :: 0 <= k < |s| ==> !p(s[k])
    ensures Count(s, p) == 0
  {
    FilterNone(s, p);
  }

  /** Characters of `NonWhitespace(tab, s)` are characters of `s`. */
  lemma NonWhitespaceChars(tab: CharTable, s: string)
    ensures forall c :: c in NonWhitespace(tab, s) ==> c in s && !tab.isWhitespace(c)
  {
    forall c | c in NonWhitespace(tab, s) ensures c in s && !tab.isWhitespace(c) {
      FilterMembership(s, NotWhitespace(tab), c);
    }
  }

  /** The gate in closed form on the untrimmed text: usable exactly when some
      scalar is not whitespace and the noise ratios do not both trip. */
  lemma UsableCharacterization(tab: CharTable, text: string)
    ensures IsUsableOCRText(tab, text) <==>
      var k := CountClasses(tab, text);
      k.total > 0 && !NoiseRatios(k)
  {
    var trimmed := Trim(tab, text);
    TrimKeepsNonWhitespace(tab, text);
    assert CountClasses(tab, trimmed) == CountClasses(tab, text);
    TrimEmptyIff(tab, text);
    if CountClasses(tab, text).total > 0 {
      var c := NonWhitespace(tab, text)[0];
      NonWhitespaceChars(tab, text);
      assert c in NonWhitespace(tab, text);
      assert !WhitespaceOnly(tab, text);
    }
  }

  /** "" and whitespace-only text are never usable. */
  lemma BlankNotUsable(tab: CharTable, text: string)
    requires WhitespaceOnly(tab, text)
    ensures !IsUsableOCRText(tab, text)
  {
    TrimEmptyIff(tab, text);
  }

  /** Text made only of ideographs and kana is always usable. */
  lemma IdeographsAndKanaUsable(tab: CharTable, text: string)
    requires WellFormed(tab)
    requires text != []
    requires forall k :: 0 <= k < |text| ==> IsCJK(text[k]) || IsKana(text[k])
    ensures IsUsableOCRText(tab, text)
  {
    forall k | 0 <= k < |text| ensures !tab.isWhitespace(text[k]) {
      assert IsJapaneseScalar(text[k]);
    }
    FilterAll(text, NotWhitespace(tab));
    CountCover(text, IsCJK, IsKana);
    UsableCharacterization(tab, text);
  }

  /** Non-blank text whose every non-whitespace scalar is punctuation or a
      symbol, and none alphanumeric, ideograph or kana, is noise. */
  lemma SymbolSoupNotUsable(tab: CharTable, text: string)
    requires !WhitespaceOnly(tab, text)
    requires forall c :: c in text && !tab.isWhitespace(c) ==>
      (tab.isPunctuation(c) || tab.isSymbol(c))
      && !tab.isAlphanumeric(c) && !IsCJK(c) && !IsKana(c)
    ensures !IsUsableOCRText(tab, text)
  {
    var scalars := NonWhitespace(tab, text);
    NonWhitespaceChars(tab, text);
    assert forall k :: 0 <= k < |scalars| ==> scalars[k] in scalars;
    CountCover(scalars, tab.isPunctuation, tab.isSymbol);
    CountNone(scalars, tab.isAlphanumeric);
    CountNone(scalars, IsCJK);
    CountNone(scalars, IsKana);
    var i :| 0 <= i < |text| && !tab.isWhitespace(text[i]);
    FilterMembership(text, NotWhitespace(tab), text[i]);
    UsableCharacterization(tab, text);
  }
}
