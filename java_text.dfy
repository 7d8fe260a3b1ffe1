/**
 * The java.lang.String operations the MRZ core is built from, restricted to
 * what the core uses: counting a character, trim(), replace(char, char),
 * replace("<", ""), the ASCII part of toUpperCase(), and split("<<").
 */
module JavaText {

  /** Number of occurrences of `c` in `s`. */
  function Count(c: char, s: string): (n: nat)
    ensures n <= |s|
    ensures n == 0 <==> c !in s
  {
    if s == [] then 0 else (if s[0] == c then 1 else 0) + Count(c, s[1..])
  }

  lemma {:induction false} CountAppend(c: char, a: string, b: string)
    ensures Count(c, a + b) == Count(c, a) + Count(c, b)
  {
    if a == [] {
      assert a + b == b;
    } else {
      assert (a + b)[1..] == a[1..] + b;
      CountAppend(c, a[1..], b);
    }
  }

  // ---------------------------------------------------------------------------
  // trim()

  /** String.trim() removes every character at or below U+0020 from both ends. */
  predicate IsBlankChar(c: char) {
    c <= ' '
  }

  /** A string that trim() leaves alone. */
  predicate Trimmed(s: string) {
    s == [] || (!IsBlankChar(s[0]) && !IsBlankChar(s[|s| - 1]))
  }

  /** A string made of blank characters only (`s.trim().isEmpty()`). */
  predicate IsBlank(s: string) {
    forall i :: 0 <= i < |s| ==> IsBlankChar(s[i])
  }

  function TrimStart(s: string): (r: string)
    ensures |r| <= |s| && r == s[|s| - |r|..]
    ensures forall i :: 0 <= i < |s| - |r| ==> IsBlankChar(s[i])
    ensures r == [] || !IsBlankChar(r[0])
  {
    if s != [] && IsBlankChar(s[0]) then
      var r := TrimStart(s[1..]);
      assert s[1..][|s| - 1 - |r|..] == s[|s| - |r|..];
      assert forall i :: 1 <= i < |s| - |r| ==> s[i] == s[1..][i - 1];
      r
    else s
  }

  function TrimEnd(s: string): (r: string)
    ensures |r| <= |s| && r == s[..|r|]
    ensures forall i :: |r| <= i < |s| ==> IsBlankChar(s[i])
    ensures r == [] || !IsBlankChar(r[|r| - 1])
  {
    if s != [] && IsBlankChar(s[|s| - 1]) then
      var r := TrimEnd(s[..|s| - 1]);
      assert s[..|s| - 1][..|r|] == s[..|r|];
      r
    else s
  }

  /** `r` is `s[a..b]` and only blanks lie outside that slice. */
  predicate BlankCut(s: string, r: string, a: int, b: int) {
    0 <= a <= b <= |s| && r == s[a..b] && IsBlank(s[..a]) && IsBlank(s[b..])
  }

  lemma BlankPrefix(s: string, k: nat)
    requires k <= |s| && forall i :: 0 <= i < k ==> IsBlankChar(s[i])
    ensures IsBlank(s[..k])
  {
    assert forall i :: 0 <= i < k ==> s[..k][i] == s[i];
  }

  lemma BlankSuffix(s: string, k: nat)
    requires k <= |s| && forall i :: k <= i < |s| ==> IsBlankChar(s[i])
    ensures IsBlank(s[k..])
  {
    assert forall i :: 0 <= i < |s| - k ==> s[k..][i] == s[k + i];
  }

  /** Cutting leading blanks off `s` to get `t`, then trailing blanks off `t`
      to get `r`, leaves `r` a slice of `s` with only blanks outside it. */
  lemma CutBothEnds(s: string, t: string, r: string)
    requires |t| <= |s| && t == s[|s| - |t|..]
    requires forall i :: 0 <= i < |s| - |t| ==> IsBlankChar(s[i])
    requires |r| <= |t| && r == t[..|r|]
    requires forall i :: |r| <= i < |t| ==> IsBlankChar(t[i])
    ensures BlankCut(s, r, |s| - |t|, |s| - |t| + |r|)
  {
    var a, b := |s| - |t|, |s| - |t| + |r|;
    BlankPrefix(s, a);
    BlankSuffix(t, |r|);
    assert r == s[a..b] by {
      forall i | 0 <= i < |r| ensures r[i] == s[a + i] {
        assert r[i] == t[i];
      }
    }
    assert s[b..] == t[|r|..];
  }

  /** String.trim(): the result has no blank character at either end, it
      is empty exactly when `s` is blank, and a trimmed string is kept;
      TrimIsBlankCut adds that it is a slice of `s` cut only at blanks. */
  function Trim(s: string): (r: string)
    ensures Trimmed(r)
    ensures |r| <= |s|
    ensures forall c :: c in r ==> c in s
    ensures r == [] <==> IsBlank(s)
    ensures Trimmed(s) ==> r == s
  {
    var t := TrimStart(s);
    assert forall c :: c in t ==> c in s by {
      forall c | c in t ensures c in s {
        var k :| 0 <= k < |t| && t[k] == c;
        assert s[|s| - |t| + k] == c;
      }
    }
    TrimEnd(t)
  }

  /** trim() removes blanks only at the two ends: its result is a contiguous
      slice of `s` with nothing but blanks before and after it. */
  lemma TrimIsBlankCut(s: string)
    ensures exists a, b :: BlankCut(s, Trim(s), a, b)
  {
    CutBothEnds(s, TrimStart(s), Trim(s));
  }

  lemma TrimLeadingSpace(x: string)
    requires Trimmed(x)
    ensures Trim(" " + x) == x
  {
    assert (" " + x)[1..] == x;
  }

  lemma TrimTrailingSpace(x: string)
    requires Trimmed(x)
    ensures Trim(x + " ") == x
  {
    if x == [] {
      assert TrimStart(" ") == TrimStart(""[..]);
    } else {
      assert (x + " ")[..|x|] == x;
    }
  }

  // ---------------------------------------------------------------------------
  // replace

  /** String.replace(char, char): every `from` becomes `to`, nothing else moves. */
  function ReplaceChar(s: string, from: char, to: char): (r: string)
    ensures |r| == |s|
    ensures forall i :: 0 <= i < |s| ==> r[i] == if s[i] == from then to else s[i]
    ensures from != to ==> from !in r
  {
    seq(|s|, i requires 0 <= i < |s| => if s[i] == from then to else s[i])
  }

  /** A run of `k` filler characters. */
  function Fillers(k: nat): (r: string)
    ensures |r| == k && Count('<', r) == k
    ensures forall i :: 0 <= i < k ==> r[i] == '<'
  {
    if k == 0 then "" else "<" + Fillers(k - 1)
  }

  /** String.replace("<", ""): every filler is dropped and the rest is kept in order. */
  function RemoveFiller(s: string): (r: string)
    ensures '<' !in r
    ensures |r| == |s| - Count('<', s)
    ensures '<' !in s ==> r == s
  {
    if s == [] then []
    else (if s[0] == '<' then [] else [s[0]]) + RemoveFiller(s[1..])
  }

  lemma {:induction false} RemoveFillerAppend(a: string, b: string)
    ensures RemoveFiller(a + b) == RemoveFiller(a) + RemoveFiller(b)
  {
    if a == [] {
      assert a + b == b;
    } else {
      assert (a + b)[1..] == a[1..] + b;
      RemoveFillerAppend(a[1..], b);
    }
  }

  /** Dropping the fillers from a filler-free text padded with fillers gives the text back. */
  lemma RemoveFillerPadded(a: string, k: nat)
    requires '<' !in a
    ensures RemoveFiller(a + Fillers(k)) == a
  {
    RemoveFillerAppend(a, Fillers(k));
  }

  // ---------------------------------------------------------------------------
  // toUpperCase (ASCII letters only)

  predicate IsLowerAscii(c: char) {
    'a' <= c <= 'z'
  }

  function ToUpper(c: char): (u: char)
    ensures !IsLowerAscii(u)
    ensures !IsLowerAscii(c) ==> u == c
  {
    if IsLowerAscii(c) then (c as int - 32) as char else c
  }

  function UpperCase(s: string): (r: string)
    ensures |r| == |s|
    ensures forall i :: 0 <= i < |s| ==> r[i] == ToUpper(s[i])
  {
    seq(|s|, i requires 0 <= i < |s| => ToUpper(s[i]))
  }

  /** A string without lower-case ASCII letters is its own upper-case form. */
  lemma UpperCaseKeeps(s: string)
    requires forall i :: 0 <= i < |s| ==> !IsLowerAscii(s[i])
    ensures UpperCase(s) == s
  {
  }

  // ---------------------------------------------------------------------------
  // split("<<")

  /** No "<<" occurs in `s`. */
  predicate NoDoubleFiller(s: string) {
    forall i :: 0 <= i < |s| - 1 ==> !(s[i] == '<' && s[i + 1] == '<')
  }

  /** The pieces of `s` around each "<<", the separators matched from left
      to right without overlap as java.util.regex does; this is String.split
      before it drops trailing empty pieces. */
  function SplitPieces(s: string): (r: seq<string>)
    ensures |r| >= 1
    decreases |s|
  {
    if |s| < 2 then [s]
    else if s[0] == '<' && s[1] == '<' then [""] + SplitPieces(s[2..])
    else
      var rest := SplitPieces(s[1..]);
      [[s[0]] + rest[0]] + rest[1..]
  }

  /** The inverse of SplitPieces: the pieces glued back with "<<". */
  function JoinPieces(ps: seq<string>): string
    requires |ps| >= 1
  {
    if |ps| == 1 then ps[0] else ps[0] + "<<" + JoinPieces(ps[1..])
  }

  lemma {:induction false} JoinPiecesHead(c: char, ps: seq<string>)
    requires |ps| >= 1
    ensures JoinPieces([[c] + ps[0]] + ps[1..]) == [c] + JoinPieces(ps)
  {
    var qs := [[c] + ps[0]] + ps[1..];
    assert qs[1..] == ps[1..];
  }

  /** Splitting loses nothing: gluing the pieces back gives `s`. */
  lemma {:induction false} SplitJoin(s: string)
    ensures JoinPieces(SplitPieces(s)) == s
    decreases |s|
  {
    if |s| < 2 {
    } else if s[0] == '<' && s[1] == '<' {
      SplitJoin(s[2..]);
      var ps := [""] + SplitPieces(s[2..]);
      assert ps[1..] == SplitPieces(s[2..]);
      assert s == "<<" + s[2..];
    } else {
      var rest := SplitPieces(s[1..]);
      SplitJoin(s[1..]);
      JoinPiecesHead(s[0], rest);
      assert s == [s[0]] + s[1..];
    }
  }

  /** A text without "<<" that does not end in a filler is the whole first
      piece when a "<<" follows it. */
  lemma {:induction false} SplitAfterClean(a: string, b: string)
    requires NoDoubleFiller(a)
    requires a == [] || a[|a| - 1] != '<'
    ensures SplitPieces(a + "<<" + b) == [a] + SplitPieces(b)
    decreases |a|
  {
    var s := a + "<<" + b;
    if a == [] {
      assert s[2..] == b;
    } else {
      assert s[1..] == a[1..] + "<<" + b;
      assert !(s[0] == '<' && s[1] == '<') by {
        if |a| == 1 { assert s[0] == a[0] && a[0] != '<'; }
        else { assert s[1] == a[1]; }
      }
      SplitAfterClean(a[1..], b);
      assert [a[0]] + a[1..] == a;
    }
  }

  /** Without any "<<" there is nothing to split. */
  lemma {:induction false} SplitNone(s: string)
    requires NoDoubleFiller(s)
    ensures SplitPieces(s) == [s]
    decreases |s|
  {
    if |s| >= 2 {
      SplitNone(s[1..]);
      assert [s[0]] + s[1..] == s;
    }
  }

  /** String.split drops trailing empty strings. */
  function DropTrailingEmpty(ps: seq<string>): (r: seq<string>)
    ensures |r| <= |ps| && r == ps[..|r|]
    ensures forall i :: |r| <= i < |ps| ==> ps[i] == ""
    ensures r == [] || r[|r| - 1] != ""
  {
    if ps != [] && ps[|ps| - 1] == "" then DropTrailingEmpty(ps[..|ps| - 1]) else ps
  }

  /** String.split("<<"): when no separator occurs the result is the whole
      text (also for ""), otherwise the pieces with every trailing empty one
      dropped. */
  function Split(s: string): (r: seq<string>)
    ensures |r| <= |SplitPieces(s)| && r == SplitPieces(s)[..|r|]
    ensures forall i :: |r| <= i < |SplitPieces(s)| ==> SplitPieces(s)[i] == ""
    ensures |SplitPieces(s)| == 1 ==> r == SplitPieces(s)
    ensures |SplitPieces(s)| > 1 ==> r == [] || r[|r| - 1] != ""
  {
    var pieces := SplitPieces(s);
    if |pieces| == 1 then pieces else DropTrailingEmpty(pieces)
  }

  /** Piece `i`, or "" when there is none. */
  function PieceOr(ps: seq<string>, i: nat): string {
    if i < |ps| then ps[i] else ""
  }

  /** Reading piece `i` with "" as the default gives the same text whether or
      not trailing empty pieces were dropped. */
  lemma SplitPieceOr(s: string, i: nat)
    ensures PieceOr(Split(s), i) == PieceOr(SplitPieces(s), i)
  {
  }
}
