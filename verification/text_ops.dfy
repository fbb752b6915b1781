/** String operations the pipeline borrows from Foundation: trimming,
    ASCII lower-casing, `replacingOccurrences`, `hasPrefix`, `joined` and
    `split(separator:).first`.

    A Swift `String` is viewed through its `unicodeScalars`. A Dafny `char`
    is exactly one Unicode scalar value, so a `string` here is a sequence of
    scalars and `c as int` is the scalar's value. */
module TextOps {
  import opened Wrappers

  /** The Foundation `CharacterSet` classes the code consults. Their
      membership tables are Unicode data this model does not reproduce, so
      each is an uninterpreted predicate; the classes may overlap. */
  datatype CharTable = CharTable(
    isWhitespace: char -> bool,     // CharacterSet.whitespacesAndNewlines
    isAlphanumeric: char -> bool,   // CharacterSet.alphanumerics
    isPunctuation: char -> bool,    // CharacterSet.punctuationCharacters
    isSymbol: char -> bool,         // CharacterSet.symbols
    isLetter: char -> bool)         // CharacterSet.letters

  /** Every character of `s` is whitespace (vacuously true of ""). */
  ghost predicate WhitespaceOnly(tab: CharTable, s: string) {
    forall k :: 0 <= k < |s| ==> tab.isWhitespace(s[k])
  }

  /** The characters of `s` that satisfy `p`, in order. */
  function Filter(s: string, p: char -> bool): (r: string)
    ensures |r| <= |s|
  {
    if s == [] then []
    else (if p(s[0]) then [s[0]] else []) + Filter(s[1..], p)
  }

  /** `s.unicodeScalars.filter(p).count` */
  function Count(s: string, p: char -> bool): nat {
    |Filter(s, p)|
  }

  /** Membership in the complement of `whitespacesAndNewlines`. */
  function NotWhitespace(tab: CharTable): char -> bool {
    c => !tab.isWhitespace(c)
  }

  /** The characters of `s` that are not whitespace. */
  function NonWhitespace(tab: CharTable, s: string): string {
    Filter(s, NotWhitespace(tab))
  }

  /** Drops the leading whitespace of `s`. */
  function TrimLeading(tab: CharTable, s: string): (r: string)
    ensures |r| <= |s| && r == s[|s| - |r|..]
    ensures r == [] || !tab.isWhitespace(r[0])
    ensures forall k :: 0 <= k < |s| - |r| ==> tab.isWhitespace(s[k])
  {
    if |s| > 0 && tab.isWhitespace(s[0]) then TrimLeading(tab, s[1..]) else s
  }

  /** Drops the trailing whitespace of `s`. */
  function TrimTrailing(tab: CharTable, s: string): (r: string)
    ensures |r| <= |s| && r == s[..|r|]
    ensures r == [] || !tab.isWhitespace(r[|r| - 1])
    ensures forall k :: |r| <= k < |s| ==> tab.isWhitespace(s[k])
    ensures WhitespaceOnly(tab, s[|r|..])
  {
    if |s| > 0 && tab.isWhitespace(s[|s| - 1]) then TrimTrailing(tab, s[..|s| - 1]) else s
  }

  /** The length of the leading run of whitespace of `s`. */
  function LeadingWhitespace(tab: CharTable, s: string): (n: nat)
    ensures n <= |s| && WhitespaceOnly(tab, s[..n])
    ensures n < |s| ==> !tab.isWhitespace(s[n])
  {
    |s| - |TrimLeading(tab, s)|
  }

  /** `trimmingCharacters(in: .whitespacesAndNewlines)`: the slice of `s`
      that starts after its leading whitespace and stops before its trailing
      whitespace; it neither starts nor ends with whitespace. */
  function Trim(tab: CharTable, s: string): (r: string)
    ensures |r| <= |s|
    ensures r == [] || (!tab.isWhitespace(r[0]) && !tab.isWhitespace(r[|r| - 1]))
    ensures var n := LeadingWhitespace(tab, s);
      n + |r| <= |s| && r == s[n..n + |r|] && WhitespaceOnly(tab, s[n + |r|..])
  {
    var lead := TrimLeading(tab, s);
    var r := TrimTrailing(tab, lead);
    var n := |s| - |lead|;
    assert r == s[n..n + |r|];
    assert s[n + |r|..] == lead[|r|..];
    r
  }

  /** Maps 'A'...'Z' to 'a'...'z' and leaves every other scalar alone. */
  function LowerChar(c: char): char {
    if 'A' <= c <= 'Z' then (c as int + 32) as char else c
  }

  /** `lowercased()`, restricted to the ASCII case mapping. */
  function Lower(s: string): (r: string)
    ensures |r| == |s|
    ensures forall k :: 0 <= k < |s| ==> r[k] == LowerChar(s[k])
  {
    seq(|s|, k requires 0 <= k < |s| => LowerChar(s[k]))
  }

  /** `s.hasPrefix(p)` */
  predicate HasPrefix(s: string, p: string) {
    |p| <= |s| && s[..|p|] == p
  }

  /** `s.replacingOccurrences(of: pat, with: rep)`: a single left-to-right
      scan that replaces non-overlapping occurrences and never rescans the
      replacement text. */
  function ReplaceAll(s: string, pat: string, rep: string): string
    requires |pat| > 0
    decreases |s|
  {
    if |s| < |pat| then s
    else if s[..|pat|] == pat then rep + ReplaceAll(s[|pat|..], pat, rep)
    else [s[0]] + ReplaceAll(s[1..], pat, rep)
  }

  /** `lines.joined(separator: sep)` */
  function Join(lines: seq<string>, sep: string): string {
    if lines == [] then []
    else if |lines| == 1 then lines[0]
    else lines[0] + sep + Join(lines[1..], sep)
  }

  /** Drops the leading run of `sep` characters. */
  function SkipSeparators(s: string, sep: char): (r: string)
    ensures |r| <= |s| && r == s[|s| - |r|..]
    ensures r == [] || r[0] != sep
    ensures forall k :: 0 <= k < |s| - |r| ==> s[k] == sep
  {
    if |s| > 0 && s[0] == sep then SkipSeparators(s[1..], sep) else s
  }

  /** The longest prefix of `s` without `sep`. */
  function TakeUntil(s: string, sep: char): (r: string)
    ensures |r| <= |s| && r == s[..|r|]
    ensures sep !in r
    ensures |r| < |s| ==> s[|r|] == sep
  {
    if |s| == 0 || s[0] == sep then [] else [s[0]] + TakeUntil(s[1..], sep)
  }

  /** `s.split(separator: sep).first`: Swift omits empty pieces, so this is
      the first maximal non-empty run without `sep`, or nil when `s` holds
      nothing but separators. */
  function FirstComponent(s: string, sep: char): (r: Option<string>)
    ensures r == None <==> forall k :: 0 <= k < |s| ==> s[k] == sep
    ensures r.Some? ==> r.value != [] && sep !in r.value
    ensures r.Some? ==> var i := |s| - |SkipSeparators(s, sep)|;
      && i + |r.value| <= |s| && s[i..i + |r.value|] == r.value
      && (forall k :: 0 <= k < i ==> s[k] == sep)
      && (i + |r.value| == |s| || s[i + |r.value|] == sep)
  {
    var t := SkipSeparators(s, sep);
    if t == [] then None
    else
      var v := TakeUntil(t, sep);
      RunInside(s, t, v, sep);
      Some(v)
  }

  // ---------------------------------------------------------------- lemmas

  /** A prefix `v` of a suffix `t` of `s` sits in `s` at `|s| - |t|`, and
      the character after it in `t` follows it in `s`. */
  lemma RunInside(s: string, t: string, v: string, sep: char)
    requires |t| <= |s| && t == s[|s| - |t|..]
    requires |v| <= |t| && v == t[..|v|] && (|v| < |t| ==> t[|v|] == sep)
    ensures var i := |s| - |t|;
      i + |v| <= |s| && s[i..i + |v|] == v && (i + |v| == |s| || s[i + |v|] == sep)
  {
    var i := |s| - |t|;
    assert forall k :: 0 <= k < |v| ==> s[i..i + |v|][k] == t[k];
    if i + |v| < |s| {
      assert s[i + |v|] == t[|v|];
    }
  }

  lemma {:induction false} FilterAppend(a: string, b: string, p: char -> bool)
    ensures Filter(a + b, p) == Filter(a, p) + Filter(b, p)
  {
    if a == [] {
      assert a + b == b;
    } else {
      var ab := a + b;
      assert ab[0] == a[0];
      assert ab[1..] == a[1..] + b;
      FilterAppend(a[1..], b, p);
      assert Filter(ab, p) == (if p(a[0]) then [a[0]] else []) + Filter(a[1..] + b, p);
      assert Filter(a, p) == (if p(a[0]) then [a[0]] else []) + Filter(a[1..], p);
    }
  }

  /** A character is kept by `Filter` exactly when it occurs and satisfies `p`. */
  lemma {:induction false} FilterMembership(s: string, p: char -> bool, c: char)
    ensures c in Filter(s, p) <==> c in s && p(c)
  {
    if s != [] {
      FilterMembership(s[1..], p, c);
      assert s == [s[0]] + s[1..];
    }
  }

  /** Filtering with a predicate that drops every character of `s` gives "". */
  lemma {:induction false} FilterNone(s: string, p: char -> bool)
    requires forall k :: 0 <= k < |s| ==> !p(s[k])
    ensures Filter(s, p) == []
  {
    if s != [] {
      FilterNone(s[1..], p);
    }
  }

  /** Filtering with a predicate that keeps every character of `s` gives `s`. */
  lemma {:induction false} FilterAll(s: string, p: char -> bool)
    requires forall k :: 0 <= k < |s| ==> p(s[k])
    ensures Filter(s, p) == s
  {
    if s != [] {
      FilterAll(s[1..], p);
    }
  }

  /** Trimming leaves "" exactly for whitespace-only input. */
  lemma TrimEmptyIff(tab: CharTable, s: string)
    ensures Trim(tab, s) == [] <==> WhitespaceOnly(tab, s)
  {
    var l := TrimLeading(tab, s);
    var t := TrimTrailing(tab, l);
    if t != [] {
      assert t[0] == l[0] == s[|s| - |l|];
    }
  }

  /** Whitespace-only text has no non-whitespace characters. */
  lemma {:induction false} NonWhitespaceOfBlank(tab: CharTable, s: string)
    requires WhitespaceOnly(tab, s)
    ensures NonWhitespace(tab, s) == []
  {
    if s != [] {
      NonWhitespaceOfBlank(tab, s[1..]);
    }
  }

  /** Dropping whitespace in front keeps the non-whitespace characters. */
  lemma NonWhitespaceAfterBlank(tab: CharTable, w: string, s: string)
    requires WhitespaceOnly(tab, w)
    ensures NonWhitespace(tab, w + s) == NonWhitespace(tab, s)
  {
    FilterAppend(w, s, NotWhitespace(tab));
    NonWhitespaceOfBlank(tab, w);
  }

  /** Dropping whitespace behind keeps the non-whitespace characters. */
  lemma NonWhitespaceBeforeBlank(tab: CharTable, s: string, w: string)
    requires WhitespaceOnly(tab, w)
    ensures NonWhitespace(tab, s + w) == NonWhitespace(tab, s)
  {
    FilterAppend(s, w, NotWhitespace(tab));
    NonWhitespaceOfBlank(tab, w);
  }

  /** Dropping leading whitespace keeps the non-whitespace characters. */
  lemma TrimLeadingKeepsNonWhitespace(tab: CharTable, s: string)
    ensures NonWhitespace(tab, TrimLeading(tab, s)) == NonWhitespace(tab, s)
  {
    var l := TrimLeading(tab, s);
    var w := s[..|s| - |l|];
    assert WhitespaceOnly(tab, w);
    assert s == w + l;
    NonWhitespaceAfterBlank(tab, w, l);
  }

  /** Dropping trailing whitespace keeps the non-whitespace characters. */
  lemma TrimTrailingKeepsNonWhitespace(tab: CharTable, s: string)
    ensures NonWhitespace(tab, TrimTrailing(tab, s)) == NonWhitespace(tab, s)
  {
    var t := TrimTrailing(tab, s);
    var w := s[|t|..];
    assert WhitespaceOnly(tab, w);
    assert s == t + w;
    NonWhitespaceBeforeBlank(tab, t, w);
  }

  /** Trimming only ever removes whitespace: the non-whitespace characters
      of the trimmed text are those of the original, in order. */
  lemma TrimKeepsNonWhitespace(tab: CharTable, s: string)
    ensures NonWhitespace(tab, Trim(tab, s)) == NonWhitespace(tab, s)
  {
    TrimLeadingKeepsNonWhitespace(tab, s);
    TrimTrailingKeepsNonWhitespace(tab, TrimLeading(tab, s));
  }

  /** A non-whitespace character occurs in the trimmed text exactly when it
      occurs in the original. */
  lemma TrimKeepsChar(tab: CharTable, s: string, c: char)
    requires !tab.isWhitespace(c)
    ensures c in Trim(tab, s) <==> c in s
  {
    var p := NotWhitespace(tab);
    TrimKeepsNonWhitespace(tab, s);
    FilterMembership(s, p, c);
    FilterMembership(Trim(tab, s), p, c);
  }

  /** Every character of the trimmed text occurs in the original. */
  lemma TrimSubset(tab: CharTable, s: string, c: char)
    requires c in Trim(tab, s)
    ensures c in s
  {
    var r := Trim(tab, s);
    var i := LeadingWhitespace(tab, s);
    var k :| 0 <= k < |r| && r[k] == c;
    assert s[i + k] == c;
  }

  /** Text that neither starts nor ends with whitespace is its own trim. */
  lemma TrimFixedPoint(tab: CharTable, s: string)
    requires s == [] || (!tab.isWhitespace(s[0]) && !tab.isWhitespace(s[|s| - 1]))
    ensures Trim(tab, s) == s
  {
  }

  /** Trimming twice is trimming once. */
  lemma TrimIdempotent(tab: CharTable, s: string)
    ensures Trim(tab, Trim(tab, s)) == Trim(tab, s)
  {
    TrimFixedPoint(tab, Trim(tab, s));
  }

  /** Text in which the pattern's first character never occurs is left as
      it is by `ReplaceAll`. */
  lemma {:induction false} ReplaceAllAbsent(s: string, pat: string, rep: string)
    requires |pat| > 0 && pat[0] !in s
    ensures ReplaceAll(s, pat, rep) == s
  {
    if |s| >= |pat| {
      assert s[..|pat|][0] == s[0];
      ReplaceAllAbsent(s[1..], pat, rep);
      assert s == [s[0]] + s[1..];
    }
  }

  /** Lower-casing is idempotent. */
  lemma LowerIdempotent(s: string)
    ensures Lower(Lower(s)) == Lower(s)
  {
  }
}
