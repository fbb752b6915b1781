/** `decodeCommonHTMLEntities` of SnapLingo's translation service: five
    `replacingOccurrences` calls applied one after another in a fixed
    order, so text produced by one step is seen by the later ones. */
module HtmlEntities {
  import opened TextOps

  /** `&quot;` `&#39;` `&amp;` `&lt;` `&gt;` in that order, each with the
      character it decodes to. */
  const EntityNames: seq<string> := ["&quot;", "&#39;", "&amp;", "&lt;", "&gt;"]
  const EntityChars: seq<char> := ['"', '\'', '&', '<', '>']

  /** `decodeCommonHTMLEntities(in:)` */
  function DecodeCommonHTMLEntities(text: string): string {
    var t := ReplaceAll(text, "&quot;", "\"");
    var t := ReplaceAll(t, "&#39;", "'");
    var t := ReplaceAll(t, "&amp;", "&");
    var t := ReplaceAll(t, "&lt;", "<");
    ReplaceAll(t, "&gt;", ">")
  }

  /** The first `n` decoding steps. */
  function DecodeSteps(text: string, n: nat): string
    requires n <= 5
  {
    if n == 0 then text else ReplaceAll(DecodeSteps(text, n - 1), EntityNames[n - 1], [EntityChars[n - 1]])
  }

  // --------------------------------------------- escaping, the inverse

  /** The position of a character among the five the decoder restores. */
  function EntityIndex(c: char): (r: nat)
    ensures r <= 5
    ensures r < 5 ==> EntityChars[r] == c
  {
    if c == '"' then 0 else if c == '\'' then 1 else if c == '&' then 2
    else if c == '<' then 3 else if c == '>' then 4 else 5
  }

  /** HTML escaping of one character, as the remote service may apply it. */
  function EscapeChar(c: char): string {
    var k := EntityIndex(c);
    if k < 5 then EntityNames[k] else [c]
  }

  function Escape(x: string): string {
    if x == [] then [] else EscapeChar(x[0]) + Escape(x[1..])
  }

  /** The escape of `c` after the first `n` decoding steps. */
  function Token(c: char, n: nat): string {
    if EntityIndex(c) < 5 && EntityIndex(c) >= n then EntityNames[EntityIndex(c)] else [c]
  }

  function Staged(x: string, n: nat): string {
    if x == [] then [] else Token(x[0], n) + Staged(x[1..], n)
  }

  // ---------------------------------------------------------------- lemmas

  /** Text without '&' is left unchanged. */
  lemma DecodeWithoutAmpersand(text: string)
    requires '&' !in text
    ensures DecodeCommonHTMLEntities(text) == text
  {
    ReplaceAllAbsent(text, "&quot;", "\"");
    ReplaceAllAbsent(text, "&#39;", "'");
    ReplaceAllAbsent(text, "&amp;", "&");
    ReplaceAllAbsent(text, "&lt;", "<");
    ReplaceAllAbsent(text, "&gt;", ">");
  }

  /** The decoder is the five steps in the order of `EntityNames`. */
  lemma DecodeIsSteps(text: string)
    ensures DecodeCommonHTMLEntities(text) == DecodeSteps(text, 5)
  {
    assert DecodeSteps(text, 1) == ReplaceAll(text, "&quot;", "\"");
    assert DecodeSteps(text, 2) == ReplaceAll(DecodeSteps(text, 1), "&#39;", "'");
    assert DecodeSteps(text, 3) == ReplaceAll(DecodeSteps(text, 2), "&amp;", "&");
    assert DecodeSteps(text, 4) == ReplaceAll(DecodeSteps(text, 3), "&lt;", "<");
  }

  /** A prefix without the pattern's first character passes through. */
  lemma {:induction false} ReplaceAllPassPrefix(w: string, rest: string, pat: string, rep: string)
    requires |pat| > 0 && pat[0] !in w
    ensures ReplaceAll(w + rest, pat, rep) == w + ReplaceAll(rest, pat, rep)
  {
    if w != [] {
      var s := w + rest;
      if |s| < |pat| {
        assert ReplaceAll(rest, pat, rep) == rest;
      } else {
        assert s[..|pat|][0] == w[0];
        assert s[1..] == w[1..] + rest;
        ReplaceAllPassPrefix(w[1..], rest, pat, rep);
      }
    } else {
      assert w + rest == rest;
    }
  }

  /** One decoding step turns the stage-`n` escape of a character into its
      stage-`n + 1` escape and goes on with the rest. */
  lemma ReplaceAllToken(c: char, rest: string, n: nat)
    requires c != '&' && n < 5
    ensures ReplaceAll(Token(c, n) + rest, EntityNames[n], [EntityChars[n]])
         == Token(c, n + 1) + ReplaceAll(rest, EntityNames[n], [EntityChars[n]])
  {
    var k := EntityIndex(c);
    if k == n {
      TokenHit(c, rest, n);
    } else if n < k < 5 {
      TokenLater(c, rest, n);
    } else {
      TokenPlain(c, rest, n);
    }
  }

  /** The step for the character's own entity decodes it. */
  lemma TokenHit(c: char, rest: string, n: nat)
    requires n < 5 && EntityIndex(c) == n
    ensures ReplaceAll(Token(c, n) + rest, EntityNames[n], [EntityChars[n]])
         == Token(c, n + 1) + ReplaceAll(rest, EntityNames[n], [EntityChars[n]])
  {
    assert Token(c, n) == EntityNames[n];
    assert Token(c, n + 1) == [c] == [EntityChars[n]];
    ReplaceAllHit(EntityNames[n], rest, [EntityChars[n]]);
  }

  /** The steps before the character's own entity pass its escape by. */
  lemma TokenLater(c: char, rest: string, n: nat)
    requires n < EntityIndex(c) < 5
    ensures ReplaceAll(Token(c, n) + rest, EntityNames[n], [EntityChars[n]])
         == Token(c, n + 1) + ReplaceAll(rest, EntityNames[n], [EntityChars[n]])
  {
    var k := EntityIndex(c);
    var t := EntityNames[k];
    assert Token(c, n) == t && Token(c, n + 1) == t;
    EntityShapes(n, k);
    PassEntity(t, rest, EntityNames[n], [EntityChars[n]]);
  }

  /** A character that is not escaped at stage `n` passes every later
      step. */
  lemma TokenPlain(c: char, rest: string, n: nat)
    requires c != '&' && n < 5 && !(n <= EntityIndex(c) < 5)
    ensures ReplaceAll(Token(c, n) + rest, EntityNames[n], [EntityChars[n]])
         == Token(c, n + 1) + ReplaceAll(rest, EntityNames[n], [EntityChars[n]])
  {
    assert Token(c, n) == [c] && Token(c, n + 1) == [c];
    EntityShapes(n, n);
    ReplaceAllPassPrefix([c], rest, EntityNames[n], [EntityChars[n]]);
  }

  /** Every entity name starts with '&', has at least four characters and
      no further '&'; distinct names differ in their second character. */
  lemma EntityShapes(n: nat, k: nat)
    requires n < 5 && k < 5
    ensures |EntityNames[n]| >= 4 && EntityNames[n][0] == '&' && '&' !in EntityNames[k][1..]
    ensures |EntityNames[k]| >= 4 && EntityNames[k][0] == '&'
    ensures n != k ==> EntityNames[n][1] != EntityNames[k][1]
  {
  }

  /** On '&'-free text, each decoding step advances every escape by one
      stage. */
  lemma {:induction false} StagedStep(x: string, n: nat)
    requires '&' !in x && n < 5
    ensures ReplaceAll(Staged(x, n), EntityNames[n], [EntityChars[n]]) == Staged(x, n + 1)
  {
    if x != [] {
      ReplaceAllToken(x[0], Staged(x[1..], n), n);
      StagedStep(x[1..], n);
    }
  }

  /** Stage 0 is the escape; stage 5 is the text itself. */
  lemma {:induction false} StagedEnds(x: string)
    ensures Staged(x, 0) == Escape(x)
    ensures Staged(x, 5) == x
  {
    if x != [] {
      StagedEnds(x[1..]);
      assert x == [x[0]] + x[1..];
    }
  }

  lemma {:induction false} DecodeStepsStaged(x: string, n: nat)
    requires '&' !in x && n <= 5
    ensures DecodeSteps(Escape(x), n) == Staged(x, n)
  {
    if n == 0 {
      StagedEnds(x);
    } else {
      DecodeStepsStaged(x, n - 1);
      StagedStep(x, n - 1);
    }
  }

  /** Decoding undoes HTML escaping of any text that has no '&'. */
  lemma DecodeEscapeRoundTrip(x: string)
    requires '&' !in x
    ensures DecodeCommonHTMLEntities(Escape(x)) == x
  {
    DecodeIsSteps(Escape(x));
    DecodeStepsStaged(x, 5);
    StagedEnds(x);
  }

  /** An occurrence at the front is replaced and the scan resumes after it. */
  lemma ReplaceAllHit(pat: string, rest: string, rep: string)
    requires |pat| > 0
    ensures ReplaceAll(pat + rest, pat, rep) == rep + ReplaceAll(rest, pat, rep)
  {
    assert (pat + rest)[..|pat|] == pat;
    assert (pat + rest)[|pat|..] == rest;
  }

  /** Text whose second character differs from the pattern's keeps its
      first character and the scan moves on by one. */
  lemma ReplaceAllMissAt(s: string, pat: string, rep: string)
    requires |pat| >= 2 && |s| >= 2 && s[1] != pat[1]
    ensures ReplaceAll(s, pat, rep) == [s[0]] + ReplaceAll(s[1..], pat, rep)
  {
    if |s| < |pat| {
      assert ReplaceAll(s[1..], pat, rep) == s[1..];
    } else {
      assert s[..|pat|][1] == s[1];
    }
  }

  /** `w` followed by `rest`, where `w` starts with '&' that does not begin
      the pattern and has no other '&', is passed over. */
  lemma PassEntity(w: string, rest: string, pat: string, rep: string)
    requires |pat| >= 2 && pat[0] == '&' && |w| >= 2 && w[1] != pat[1] && '&' !in w[1..]
    ensures ReplaceAll(w + rest, pat, rep) == w + ReplaceAll(rest, pat, rep)
  {
    ReplaceAllMissAt(w + rest, pat, rep);
    assert (w + rest)[1..] == w[1..] + rest;
    ReplaceAllPassPrefix(w[1..], rest, pat, rep);
    assert [w[0]] + w[1..] == w;
  }

  lemma PassBoth(s: string, p1: string, r1: string, p2: string, r2: string)
    requires |p1| >= 2 && p1[0] == '&' && |p2| >= 2 && p2[0] == '&'
    requires |s| >= 2 && s[1] != p1[1] && s[1] != p2[1] && '&' !in s[1..]
    ensures ReplaceAll(s, p1, r1) == s
    ensures ReplaceAll(s, p2, r2) == s
  {
    assert s == s + [];
    PassEntity(s, [], p1, r1);
    PassEntity(s, [], p2, r2);
  }

  lemma AmpFront(s: string, rest: string)
    requires s == "&amp;" + rest && '&' !in rest
    ensures ReplaceAll(s, "&amp;", "&") == "&" + rest
  {
    ReplaceAllHit("&amp;", rest, "&");
    ReplaceAllAbsent(rest, "&amp;", "&");
  }

  /** "&amp;" is decoded third: after "&quot;" and "&#39;", which never
      see it, and before "&lt;" and "&gt;", which see its result. */
  lemma DecodeAmpThird(rest: string)
    requires '&' !in rest
    ensures DecodeCommonHTMLEntities("&amp;" + rest)
         == ReplaceAll(ReplaceAll("&" + rest, "&lt;", "<"), "&gt;", ">")
  {
    var amp := "&amp;";
    var s := amp + rest;
    assert s[1] == 'a';
    assert s[1..] == amp[1..] + rest;
    PassBoth(s, "&quot;", "\"", "&#39;", "'");
    AmpFront(s, rest);
  }

  /** "&amp;lt;" decodes all the way to "<". */
  lemma DecodeAmpLt(rest: string)
    requires rest == "lt;"
    ensures DecodeCommonHTMLEntities("&amp;" + rest) == "<"
  {
    DecodeAmpThird(rest);
    var t := "&" + rest;
    assert t == "&lt;" + [];
    ReplaceAllHit("&lt;", [], "<");
    ReplaceAllAbsent("<", "&gt;", ">");
  }

  /** "&amp;quot;" becomes "&quot;" and stays so: "&quot;" was decoded
      before "&amp;" produced it. */
  lemma DecodeOrderMatters(rest: string)
    requires rest == "quot;"
    ensures DecodeCommonHTMLEntities("&amp;" + rest) == "&" + rest
  {
    DecodeAmpThird(rest);
    var t := "&" + rest;
    PassBoth(t, "&lt;", "<", "&gt;", ">");
  }

  /** Text without any of the five characters is its own escape. */
  lemma {:induction false} EscapePlain(x: string)
    requires forall i :: 0 <= i < |x| ==> EntityIndex(x[i]) == 5
    ensures Escape(x) == x
  {
    if x != [] {
      assert EntityIndex(x[0]) == 5;
      EscapePlain(x[1..]);
      assert x == [x[0]] + x[1..];
    }
  }

  /** The escape of the text "&lt;" decodes to "<", not back to "&lt;":
      the round trip fails once '&' is allowed. */
  lemma DoubleDecoding(rest: string)
    requires rest == "lt;"
    ensures Escape("&" + rest) == "&amp;" + rest
    ensures DecodeCommonHTMLEntities(Escape("&" + rest)) == "<" != "&" + rest
  {
    var x := "&" + rest;
    assert x[1..] == rest;
    EscapePlain(rest);
    DecodeAmpLt(rest);
  }

  /** The quoted and separated parts of the example, as each step sees
      them. */
  function ExampleHead(hello: string): string {
    "\"" + (hello + ("\"" + " "))
  }

  lemma ExampleQuotStep(hello: string, bye: string)
    requires '&' !in hello && '&' !in bye
    ensures ReplaceAll("&quot;" + (hello + ("&quot;" + (" " + ("&amp;" + bye)))), "&quot;", "\"")
         == ExampleHead(hello) + ("&amp;" + bye)
  {
    var q := "&quot;";
    var amp := "&amp;";
    var tail := " " + (amp + bye);
    QuotedPass(hello, tail, q, "\"");
    SpacedEntityPass(amp, bye, q, "\"");
    assert ExampleHead(hello) + (amp + bye) == "\"" + (hello + ("\"" + tail));
  }

  /** A pattern-free word between two occurrences of the pattern. */
  lemma QuotedPass(w: string, tail: string, pat: string, rep: string)
    requires |pat| > 0 && pat[0] !in w
    ensures ReplaceAll(pat + (w + (pat + tail)), pat, rep) == rep + (w + (rep + ReplaceAll(tail, pat, rep)))
  {
    ReplaceAllHit(pat, w + (pat + tail), rep);
    ReplaceAllPassPrefix(w, pat + tail, pat, rep);
    ReplaceAllHit(pat, tail, rep);
  }

  /** A space, another entity and '&'-free text pass a step unchanged. */
  lemma SpacedEntityPass(w: string, rest: string, pat: string, rep: string)
    requires |pat| >= 2 && pat[0] == '&' && pat[0] != ' ' && |w| >= 2 && w[1] != pat[1] && '&' !in w[1..] && '&' !in rest
    ensures ReplaceAll(" " + (w + rest), pat, rep) == " " + (w + rest)
  {
    ReplaceAllPassPrefix(" ", w + rest, pat, rep);
    PassEntity(w, rest, pat, rep);
    ReplaceAllAbsent(rest, pat, rep);
  }

  lemma ExampleMiddleSteps(hello: string, bye: string)
    requires '&' !in hello && '&' !in bye
    ensures ReplaceAll(ExampleHead(hello) + ("&amp;" + bye), "&#39;", "'") == ExampleHead(hello) + ("&amp;" + bye)
    ensures ReplaceAll(ExampleHead(hello) + ("&amp;" + bye), "&amp;", "&") == ExampleHead(hello) + ("&" + bye)
  {
    var head := ExampleHead(hello);
    var amp := "&amp;";
    ReplaceAllPassPrefix(head, amp + bye, "&#39;", "'");
    PassEntity(amp, bye, "&#39;", "'");
    ReplaceAllAbsent(bye, "&#39;", "'");
    ReplaceAllPassPrefix(head, amp + bye, amp, "&");
    ReplaceAllHit(amp, bye, "&");
    ReplaceAllAbsent(bye, amp, "&");
  }

  /** An '&' that starts neither pattern, followed by '&'-free text, is
      passed over by both later steps. */
  lemma ExampleLastStep(hello: string, bye: string, pat: string, rep: string)
    requires pat == "&lt;" || pat == "&gt;"
    requires '&' !in hello && '&' !in bye && |bye| >= 1 && bye[0] != 'l' && bye[0] != 'g'
    ensures ReplaceAll(ExampleHead(hello) + ("&" + bye), pat, rep) == ExampleHead(hello) + ("&" + bye)
  {
    var one := "&" + bye;
    assert one[1..] == bye;
    assert one == one + [];
    PassEntity(one, [], pat, rep);
    ReplaceAllPassPrefix(ExampleHead(hello), one, pat, rep);
  }

  /** `"&quot;Hello&quot; &amp; Goodbye"` decodes to `"\"Hello\" & Goodbye"`. */
  lemma DecodeExample(hello: string, bye: string)
    requires hello == "Hello" && bye == " Goodbye"
    ensures DecodeCommonHTMLEntities("&quot;" + hello + "&quot; &amp;" + bye) == "\"" + hello + "\" &" + bye
  {
    assert "&quot;" + hello + "&quot; &amp;" + bye == "&quot;" + (hello + ("&quot;" + (" " + ("&amp;" + bye))));
    ExampleQuotStep(hello, bye);
    ExampleMiddleSteps(hello, bye);
    ExampleLastStep(hello, bye, "&lt;", "<");
    ExampleLastStep(hello, bye, "&gt;", ">");
    assert ExampleHead(hello) + ("&" + bye) == "\"" + hello + "\" &" + bye;
  }
}
