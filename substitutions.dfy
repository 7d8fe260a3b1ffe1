/**
 * The OCR confusion substitutions of the correction search: `applyMap`
 * (one letter read where a digit was printed), `applyMapToList`, and
 * `aggressiveMap` (all ten at once), with the fact the resolver depends on:
 * none of them changes a line's length, its fillers or a leading P or V.
 */
module Substitutions {
  import opened Wrappers
  import opened JavaText
  import opened MrzLines

  /** One confusion: `from` is read where `to` was printed. */
  datatype Substitution = Substitution(from: char, to: char)

  /** The ten confusions, in the order the correction search tries them. */
  const ConfusionMaps: seq<Substitution> := [
    Substitution('O', '0'), Substitution('Q', '0'), Substitution('D', '0'),
    Substitution('I', '1'), Substitution('L', '1'), Substitution('T', '7'),
    Substitution('Z', '2'), Substitution('S', '5'), Substitution('B', '8'),
    Substitution('G', '6')]

  /** The letters `aggressiveMap` rewrites, in the order it rewrites them. */
  const AggressiveOrder: seq<Substitution> := [
    Substitution('O', '0'), Substitution('Q', '0'), Substitution('D', '0'),
    Substitution('I', '1'), Substitution('L', '1'), Substitution('Z', '2'),
    Substitution('S', '5'), Substitution('B', '8'), Substitution('G', '6'),
    Substitution('T', '7')]

  /** The letters some confusion rewrites. */
  predicate IsConfusable(c: char) {
    c in {'O', 'Q', 'D', 'I', 'L', 'Z', 'S', 'B', 'G', 'T'}
  }

  /** A substitution that neither reads nor writes a filler, a P or a V. */
  predicate Harmless(m: Substitution) {
    m.from !in {'<', 'P', 'V'} && m.to !in {'<', 'P', 'V'}
  }

  lemma ConfusionMapsHarmless()
    ensures forall i :: 0 <= i < |ConfusionMaps| ==> Harmless(ConfusionMaps[i])
    ensures forall i :: 0 <= i < |AggressiveOrder| ==> Harmless(AggressiveOrder[i])
  {
  }

  /** applyMap on a non-null line: copies the line character by character,
      writing `to` for each `from`. */
  function MapChars(s: string, from: char, to: char): (r: string)
    ensures |r| == |s|
    ensures forall i :: 0 <= i < |s| ==> r[i] == if s[i] == from then to else s[i]
  {
    if s == [] then [] else [if s[0] == from then to else s[0]] + MapChars(s[1..], from, to)
  }

  /** applyMap: a null line stays null. */
  function ApplyMap(s: Option<string>, from: char, to: char): (r: Option<string>)
    ensures r.Some? <==> s.Some?
  {
    if s.None? then None else Some(MapChars(s.value, from, to))
  }

  /** applyMap and String.replace(char, char) agree. */
  lemma ApplyMapIsReplace(s: string, from: char, to: char)
    ensures ApplyMap(Some(s), from, to) == Some(ReplaceChar(s, from, to))
  {
    assert MapChars(s, from, to) == ReplaceChar(s, from, to);
  }

  /** A substitution applied to a line that no longer holds its letter
      changes nothing. */
  lemma ApplyMapAbsent(s: string, from: char, to: char)
    requires from !in s
    ensures ApplyMap(Some(s), from, to) == Some(s)
  {
    assert forall i :: 0 <= i < |s| ==> s[i] != from;
    assert MapChars(s, from, to) == s;
  }

  /** The substitutions applied one after the other, in sequence order. */
  function ApplyAll(s: string, ms: seq<Substitution>): (r: string)
    ensures |r| == |s|
    decreases |ms|
  {
    if ms == [] then s else ApplyAll(ReplaceChar(s, ms[0].from, ms[0].to), ms[1..])
  }

  /** The character a sequence of substitutions turns `c` into. */
  function ApplyAllChar(c: char, ms: seq<Substitution>): char
    decreases |ms|
  {
    if ms == [] then c else ApplyAllChar(if c == ms[0].from then ms[0].to else c, ms[1..])
  }

  /** Substitutions act on each character on its own. */
  lemma {:induction false} ApplyAllPointwise(s: string, ms: seq<Substitution>)
    ensures forall i :: 0 <= i < |s| ==> ApplyAll(s, ms)[i] == ApplyAllChar(s[i], ms)
    decreases |ms|
  {
    if ms != [] {
      ApplyAllPointwise(ReplaceChar(s, ms[0].from, ms[0].to), ms[1..]);
    }
  }

  /** aggressiveMap: the ten String.replace calls in their written order. */
  function AggressiveMap(s: Option<string>): (r: Option<string>)
    ensures r.Some? <==> s.Some?
    ensures s.Some? ==> |r.value| == |s.value|
    ensures s.Some? ==> forall i :: 0 <= i < |s.value| ==> !IsConfusable(r.value[i])
    ensures s.Some? ==> forall i :: 0 <= i < |s.value| ==>
      !IsConfusable(s.value[i]) ==> r.value[i] == s.value[i]
  {
    if s.None? then None
    else
      var t := ReplaceChar(ReplaceChar(ReplaceChar(s.value, 'O', '0'), 'Q', '0'), 'D', '0');
      var u := ReplaceChar(ReplaceChar(ReplaceChar(t, 'I', '1'), 'L', '1'), 'Z', '2');
      var v := ReplaceChar(ReplaceChar(ReplaceChar(u, 'S', '5'), 'B', '8'), 'G', '6');
      Some(ReplaceChar(v, 'T', '7'))
  }

  /** The aggressive pass is the ten substitutions in its own order... */
  lemma AggressiveIsAllMaps(s: string)
    ensures AggressiveMap(Some(s)) == Some(ApplyAll(s, AggressiveOrder))
  {
    var ms := AggressiveOrder;
    assert ms[1..][1..][1..][1..][1..][1..][1..][1..][1..][1..] == [];
  }

  /** ...and gives the same line as the ten single confusions applied in
      the search's order: no confusion writes a letter another one reads. */
  lemma AggressiveOrderIrrelevant(s: string)
    ensures ApplyAll(s, AggressiveOrder) == ApplyAll(s, ConfusionMaps)
  {
    ApplyAllPointwise(s, AggressiveOrder);
    ApplyAllPointwise(s, ConfusionMaps);
    forall i | 0 <= i < |s|
      ensures ApplyAll(s, AggressiveOrder)[i] == ApplyAll(s, ConfusionMaps)[i]
    {
      CharOrderIrrelevant(s[i]);
    }
  }

  /** Each character ends up as its digit, or as itself, in either order. */
  lemma CharOrderIrrelevant(c: char)
    ensures ApplyAllChar(c, AggressiveOrder) == ApplyAllChar(c, ConfusionMaps)
  {
    var a, m := AggressiveOrder, ConfusionMaps;
    assert a[1..][1..][1..][1..][1..][1..][1..][1..][1..][1..] == [];
    assert m[1..][1..][1..][1..][1..][1..][1..][1..][1..][1..] == [];
  }

  // ---------------------------------------------------------------------------
  // Substitutions keep a line's shape

  lemma {:induction false} CountSamePositions(c: char, s: string, t: string)
    requires |s| == |t|
    requires forall i :: 0 <= i < |s| ==> (s[i] == c <==> t[i] == c)
    ensures Count(c, s) == Count(c, t)
    decreases |s|
  {
    if s != [] {
      CountSamePositions(c, s[1..], t[1..]);
    }
  }

  /** A harmless substitution keeps the length, the fillers and a leading P or V. */
  lemma ReplaceKeepsShape(s: string, m: Substitution)
    requires Harmless(m)
    ensures SameShape(s, ReplaceChar(s, m.from, m.to))
  {
    CountSamePositions('<', s, ReplaceChar(s, m.from, m.to));
  }

  predicate AllHarmless(ms: seq<Substitution>) {
    forall i :: 0 <= i < |ms| ==> Harmless(ms[i])
  }

  lemma {:induction false} ApplyAllKeepsShape(s: string, ms: seq<Substitution>)
    requires AllHarmless(ms)
    ensures SameShape(s, ApplyAll(s, ms))
    decreases |ms|
  {
    if ms != [] {
      var t := ReplaceChar(s, ms[0].from, ms[0].to);
      ReplaceKeepsShape(s, ms[0]);
      assert AllHarmless(ms[1..]) by {
        forall i | 0 <= i < |ms[1..]| ensures Harmless(ms[1..][i]) {
          assert ms[1..][i] == ms[i + 1];
        }
      }
      ApplyAllKeepsShape(t, ms[1..]);
    }
  }

  /** Substitutions distribute over concatenation. */
  lemma {:induction false} ApplyAllAppend(a: string, b: string, ms: seq<Substitution>)
    ensures ApplyAll(a + b, ms) == ApplyAll(a, ms) + ApplyAll(b, ms)
    decreases |ms|
  {
    if ms != [] {
      var m := ms[0];
      assert ReplaceChar(a + b, m.from, m.to) == ReplaceChar(a, m.from, m.to) + ReplaceChar(b, m.from, m.to);
      ApplyAllAppend(ReplaceChar(a, m.from, m.to), ReplaceChar(b, m.from, m.to), ms[1..]);
    }
  }

  lemma ApplyAllEmpty(ms: seq<Substitution>)
    ensures ApplyAll("", ms) == ""
  {
  }

  // ---------------------------------------------------------------------------
  // applyMapToList

  /** A substitution sequence applied to every line of a list. */
  function MapLines(lines: seq<string>, ms: seq<Substitution>): (r: seq<string>)
    ensures |r| == |lines|
    ensures forall i :: 0 <= i < |lines| ==> r[i] == ApplyAll(lines[i], ms)
  {
    seq(|lines|, i requires 0 <= i < |lines| => ApplyAll(lines[i], ms))
  }

  lemma ApplyAllSingle(s: string, m: Substitution)
    ensures ApplyAll(s, [m]) == MapChars(s, m.from, m.to)
  {
    assert [m][1..] == [];
  }

  /** applyMapToList: a new list holding applyMap of each line, in order;
      the input list is left as it was. */
  method ApplyMapToList(src: seq<string>, from: char, to: char) returns (out: seq<string>)
    ensures out == MapLines(src, [Substitution(from, to)])
  {
    out := [];
    var i := 0;
    while i < |src|
      invariant 0 <= i <= |src|
      invariant out == MapLines(src[..i], [Substitution(from, to)])
    {
      var mapped := ApplyMap(Some(src[i]), from, to);
      ApplyAllSingle(src[i], Substitution(from, to));
      out := out + [mapped.value];
      i := i + 1;
    }
    assert src[..i] == src;
  }
}
