/**
 * The per-line helpers of the scanning activity: normalising an OCR line to
 * the MRZ alphabet, padding or cutting a row to a fixed width, the length
 * tolerance test and the "looks like an MRZ line" filler-ratio test.
 */
module MrzLines {
  import opened Wrappers
  import opened JavaText

  /** The characters a normalised line keeps: A-Z, 0-9 and the filler. */
  predicate IsMrzChar(c: char) {
    'A' <= c <= 'Z' || '0' <= c <= '9' || c == '<'
  }

  predicate InMrzAlphabet(s: string) {
    forall i :: 0 <= i < |s| ==> IsMrzChar(s[i])
  }

  /** The characters the regular expression `\s` matches. */
  predicate IsRegexSpace(c: char) {
    c == ' ' || c == '\t' || c == '\n' || c == '\U{000B}' || c == '\U{000C}' || c == '\r'
  }

  /** replaceAll("\\s+", ""): the line without its white space. */
  function RemoveSpaces(s: string): (r: string)
    ensures |r| <= |s|
    ensures forall i :: 0 <= i < |r| ==> !IsRegexSpace(r[i])
    ensures Count('<', r) == Count('<', s)
  {
    if s == [] then []
    else
      var head := if IsRegexSpace(s[0]) then [] else [s[0]];
      var rest := RemoveSpaces(s[1..]);
      CountAppend('<', head, rest);
      CountAppend('<', [s[0]], s[1..]);
      assert [s[0]] + s[1..] == s;
      head + rest
  }

  /** replaceAll("[^A-Z0-9<]", ""): the line without anything outside the
      MRZ alphabet. */
  function KeepMrzChars(s: string): (r: string)
    ensures |r| <= |s|
    ensures InMrzAlphabet(r)
    ensures Count('<', r) == Count('<', s)
    ensures InMrzAlphabet(s) ==> r == s
  {
    if s == [] then []
    else
      var head := if IsMrzChar(s[0]) then [s[0]] else [];
      var rest := KeepMrzChars(s[1..]);
      CountAppend('<', head, rest);
      CountAppend('<', [s[0]], s[1..]);
      assert [s[0]] + s[1..] == s;
      head + rest
  }

  /** normalizeLine: drop white space, upper-case, keep only A-Z, 0-9 and '<'. */
  function NormalizeLine(raw: string): (norm: string)
    ensures |norm| <= |raw|
    ensures InMrzAlphabet(norm)
  {
    KeepMrzChars(UpperCase(RemoveSpaces(raw)))
  }

  lemma UpperCaseCount(s: string)
    ensures Count('<', UpperCase(s)) == Count('<', s)
    decreases |s|
  {
    if s != [] {
      assert UpperCase(s)[1..] == UpperCase(s[1..]);
      UpperCaseCount(s[1..]);
    }
  }

  /** Normalising keeps every filler of the line. */
  lemma NormalizeKeepsFillers(raw: string)
    ensures Count('<', NormalizeLine(raw)) == Count('<', raw)
  {
    UpperCaseCount(RemoveSpaces(raw));
  }

  lemma {:induction false} RemoveSpacesKeeps(s: string)
    requires InMrzAlphabet(s)
    ensures RemoveSpaces(s) == s
    decreases |s|
  {
    if s != [] {
      RemoveSpacesKeeps(s[1..]);
      assert [s[0]] + s[1..] == s;
    }
  }

  /** A line already in the MRZ alphabet is its own normal form. */
  lemma NormalizeFixesMrzText(s: string)
    requires InMrzAlphabet(s)
    ensures NormalizeLine(s) == s
  {
    RemoveSpacesKeeps(s);
    UpperCaseKeeps(s);
  }

  /** A line is its own normal form exactly when it is in the MRZ alphabet. */
  lemma NormalizeFixedPoint(s: string)
    ensures NormalizeLine(s) == s <==> InMrzAlphabet(s)
  {
    if InMrzAlphabet(s) {
      NormalizeFixesMrzText(s);
    }
  }

  /** Normalising twice is normalising once. */
  lemma NormalizeIdempotent(raw: string)
    ensures NormalizeLine(NormalizeLine(raw)) == NormalizeLine(raw)
  {
    NormalizeFixesMrzText(NormalizeLine(raw));
  }

  // ---------------------------------------------------------------------------
  // padToLength

  /** padToLength as a value: the upper-cased line (a null line reads as
      ""), cut to `len` characters or filled up to `len` with fillers. */
  function Padded(s: Option<string>, len: nat): (r: string)
    ensures |r| == len
    ensures var u := UpperCase(if s.None? then "" else s.value);
      forall i :: 0 <= i < len ==> r[i] == if i < |u| then u[i] else '<'
  {
    var u := UpperCase(if s.None? then "" else s.value);
    if |u| >= len then u[..len] else u + Fillers(len - |u|)
  }

  /** padToLength: upper-case, then cut, or append fillers one at a time. */
  method PadToLength(s: Option<string>, len: nat) returns (r: string)
    ensures r == Padded(s, len)
  {
    var t := if s.None? then "" else s.value;
    t := UpperCase(t);
    if |t| >= len {
      return t[..len];
    }
    r := t;
    while |r| < len
      invariant |t| <= |r| <= len
      invariant r[..|t|] == t
      invariant forall i :: |t| <= i < |r| ==> r[i] == '<'
      decreases len - |r|
    {
      r := r + "<";
    }
    assert forall i :: 0 <= i < len ==> r[i] == Padded(s, len)[i];
  }

  /** Padding a padded row to the same width changes nothing. */
  lemma PaddedIdempotent(s: Option<string>, len: nat)
    ensures Padded(Some(Padded(s, len)), len) == Padded(s, len)
  {
    var p := Padded(s, len);
    var u := UpperCase(if s.None? then "" else s.value);
    assert forall i :: 0 <= i < |u| ==> !IsLowerAscii(u[i]);
    assert forall i :: 0 <= i < len ==> !IsLowerAscii(p[i]);
    UpperCaseKeeps(p);
  }

  /** A padded row of an upper-case line that is long enough is the line's prefix. */
  lemma PaddedPrefix(s: string, len: nat)
    requires len <= |s| && InMrzAlphabet(s)
    ensures Padded(Some(s), len) == s[..len]
  {
    UpperCaseKeeps(s);
  }

  /** A padded row of a short line keeps the line and its fillers and adds
      one filler for each missing column. */
  lemma PaddedFillerCount(s: string, len: nat)
    requires |s| <= len
    ensures Count('<', Padded(Some(s), len)) == Count('<', s) + (len - |s|)
  {
    PaddedShort(s, len);
    UpperCaseCount(s);
    CountAppend('<', UpperCase(s), Fillers(len - |s|));
  }

  lemma PaddedShort(s: string, len: nat)
    requires |s| <= len
    ensures Padded(Some(s), len) == UpperCase(s) + Fillers(len - |s|)
  {
  }

  // ---------------------------------------------------------------------------
  // isLengthApprox and looksLikeMrzLine

  /** isLengthApprox: the length lies within six below and two above the target. */
  predicate IsLengthApprox(s: Option<string>, target: int) {
    s.Some? && target - 6 <= |s.value| <= target + 2
  }

  /** The window both TD3 guards use: 38 to 46 columns; a null line is never in it. */
  lemma LengthApproxTD3Window(s: Option<string>)
    ensures IsLengthApprox(s, 44) <==> s.Some? && 38 <= |s.value| <= 46
    ensures !IsLengthApprox(None, 44) && !LooksLikeMrz(None)
  {
  }

  function Max(a: int, b: int): int {
    if a >= b then a else b
  }

  /** The filler-ratio rule: at least three fillers and at least a fifth of
      the line (integer division). A null line fails. */
  predicate LooksLikeMrz(s: Option<string>) {
    s.Some? && Count('<', s.value) >= Max(3, |s.value| / 5)
  }

  lemma CountPrefixStep(c: char, s: string, i: nat)
    requires i < |s|
    ensures Count(c, s[..i + 1]) == Count(c, s[..i]) + (if s[i] == c then 1 else 0)
  {
    assert s[..i + 1] == s[..i] + [s[i]];
    CountAppend(c, s[..i], [s[i]]);
  }

  /** looksLikeMrzLine: counts the fillers in one pass, then compares. */
  method LooksLikeMrzLine(s: Option<string>) returns (b: bool)
    ensures b == LooksLikeMrz(s)
  {
    if s.None? {
      return false;
    }
    var line := s.value;
    var len := |line|;
    var chevrons := 0;
    var i := 0;
    while i < len
      invariant 0 <= i <= len
      invariant chevrons == Count('<', line[..i])
    {
      CountPrefixStep('<', line, i);
      if line[i] == '<' {
        chevrons := chevrons + 1;
      }
      i := i + 1;
    }
    assert line[..len] == line;
    b := chevrons >= Max(3, len / 5);
  }

  /** Lines of up to 19 characters qualify exactly when they hold three
      fillers; longer lines need a fifth of their length. */
  lemma LooksLikeMrzThreshold(s: string)
    ensures |s| < 20 ==> (LooksLikeMrz(Some(s)) <==> Count('<', s) >= 3)
    ensures |s| >= 20 ==> (LooksLikeMrz(Some(s)) <==> 5 * Count('<', s) >= |s| - |s| % 5)
  {
  }

  /** A full-width TD3 row qualifies exactly when it holds at least eight fillers. */
  lemma LooksLikeTD3Row(s: string)
    requires |s| == 44
    ensures LooksLikeMrz(Some(s)) <==> Count('<', s) >= 8
  {
  }

  // ---------------------------------------------------------------------------
  // What the row guards read

  /** `s.startsWith("P") || s.startsWith("V")`: a passport or visa row 1. */
  predicate StartsWithPassportOrVisa(s: string) {
    |s| > 0 && (s[0] == 'P' || s[0] == 'V')
  }

  /** Two lines the length, filler and P/V tests cannot tell apart. */
  predicate SameShape(s: string, t: string) {
    && |s| == |t|
    && Count('<', s) == Count('<', t)
    && (StartsWithPassportOrVisa(s) <==> StartsWithPassportOrVisa(t))
  }

  /** Lines of the same shape pass the filler-ratio test alike. */
  lemma SameShapeLooksAlike(s: string, t: string)
    requires SameShape(s, t)
    ensures LooksLikeMrz(Some(s)) <==> LooksLikeMrz(Some(t))
    ensures IsLengthApprox(Some(s), 44) <==> IsLengthApprox(Some(t), 44)
  {
  }
}
