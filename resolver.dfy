/**
 * The TD3 resolver of the scanning activity: each adjacent pair of row
 * candidates is tested by the TD3 guard and by the fallback guard; a pair
 * that passes is padded to 44 columns and handed to the TD3 parser, first
 * in reading order and then swapped.
 */
module Resolver {
  import opened Wrappers
  import opened JavaText
  import opened MrzLines
  import opened MrzParser
  import opened RowAssembly

  /** The TD3 guard: one of the rows is about 44 columns wide or the first
      starts with P or V, and both pass the filler-ratio rule. */
  predicate Td3Guard(a: string, b: string) {
    && (IsLengthApprox(Some(a), TD3Width) || IsLengthApprox(Some(b), TD3Width) || StartsWithPassportOrVisa(a))
    && LooksLikeMrz(Some(a)) && LooksLikeMrz(Some(b))
  }

  /** The fallback guard: both rows have at least 18 columns and pass the
      filler-ratio rule. */
  predicate FallbackGuard(a: string, b: string) {
    |a| >= 18 && |b| >= 18 && LooksLikeMrz(Some(a)) && LooksLikeMrz(Some(b))
  }

  predicate Qualifies(a: string, b: string) {
    Td3Guard(a, b) || FallbackGuard(a, b)
  }

  /** Pair `j` of the rows passes a guard. */
  predicate PairQualifies(rows: seq<string>, j: nat) {
    j + 1 < |rows| && Qualifies(rows[j], rows[j + 1])
  }

  /** One parse attempt on a pair: both rows padded or cut to 44 columns. */
  function TryPair(a: string, b: string): Option<ParsedMrz> {
    ParseTD3(Some(Padded(Some(a), TD3Width)), Some(Padded(Some(b), TD3Width)))
  }

  /** The pair loop from pair `i` on, for a given pair parser: the TD3
      guard tries the pair in order and then swapped, and so does the
      fallback guard; otherwise the next pair is tried. The calls to the
      undefined relaxed parser are left out. */
  function PairLoop(rows: seq<string>, i: nat, parse: (string, string) -> Option<ParsedMrz>): Option<ParsedMrz>
    decreases |rows| - i
  {
    if i + 1 >= |rows| then None
    else
      var a, b := rows[i], rows[i + 1];
      var direct, swapped := parse(a, b), parse(b, a);
      if Td3Guard(a, b) && direct.Some? then direct
      else if Td3Guard(a, b) && swapped.Some? then swapped
      else if FallbackGuard(a, b) && direct.Some? then direct
      else if FallbackGuard(a, b) && swapped.Some? then swapped
      else PairLoop(rows, i + 1, parse)
  }

  /** findAndParseMrzTD3Only as a value: assemble the rows, then run the
      pair loop with the TD3 parser on padded rows. */
  function Resolve(lines: seq<OcrLine>): Option<ParsedMrz> {
    PairLoop(RowCandidates(lines), 0, TryPair)
  }

  /** findAndParseMrzStringsTD3 as a value: the texts as lines without
      coordinates, then the resolver. */
  function ResolveNorms(norms: seq<string>): Option<ParsedMrz> {
    Resolve(Unplaced(norms))
  }

  // ---------------------------------------------------------------------------
  // What the pair loop does

  /** A pair parser that returns a record for every pair. */
  ghost predicate NeverRefuses(parse: (string, string) -> Option<ParsedMrz>) {
    forall a, b :: parse(a, b).Some?
  }

  /** The TD3 parser never refuses a padded pair. */
  lemma TryPairNeverRefuses()
    ensures NeverRefuses(TryPair)
  {
    forall a, b ensures TryPair(a, b).Some? {
      TryPairSome(a, b);
    }
  }

  lemma TryPairSome(a: string, b: string)
    ensures TryPair(a, b).Some?
  {
  }

  /** The record of a padded pair is read from the padded rows. */
  lemma TryPairFields(a: string, b: string)
    ensures var r := TryPair(a, b);
      && r.Some?
      && WellShaped(r.value, 14)
      && r.value.name == DecodeName(Padded(Some(a), TD3Width)[5..])
      && r.value.documentNumber == RemoveFiller(Padded(Some(b), TD3Width)[0..9])
      && r.value.expiryDate == Padded(Some(b), TD3Width)[21..27]
  {
  }

  /** One step of the pair loop: with a parser that never refuses, a pair
      that passes a guard gives its in-order parse. */
  lemma PairLoopStep(rows: seq<string>, i: nat, parse: (string, string) -> Option<ParsedMrz>)
    requires i + 1 < |rows| && NeverRefuses(parse)
    ensures PairLoop(rows, i, parse)
         == if PairQualifies(rows, i) then parse(rows[i], rows[i + 1]) else PairLoop(rows, i + 1, parse)
  {
    assert parse(rows[i], rows[i + 1]).Some?;
  }

  /** The loop returns nothing exactly when no adjacent pair passes either guard. */
  lemma {:induction false} PairLoopNoneIff(rows: seq<string>, i: nat, parse: (string, string) -> Option<ParsedMrz>)
    requires NeverRefuses(parse)
    ensures PairLoop(rows, i, parse).None? <==> forall j :: i <= j ==> !PairQualifies(rows, j)
    decreases |rows| - i
  {
    if i + 1 < |rows| {
      PairLoopStep(rows, i, parse);
      PairLoopNoneIff(rows, i + 1, parse);
      assert parse(rows[i], rows[i + 1]).Some?;
    }
  }

  /** Pairs that pass no guard are skipped. */
  lemma {:induction false} PairLoopSkipTo(rows: seq<string>, i: nat, j: nat, parse: (string, string) -> Option<ParsedMrz>)
    requires i <= j < |rows| && NeverRefuses(parse)
    requires forall t :: i <= t < j ==> !PairQualifies(rows, t)
    ensures PairLoop(rows, i, parse) == PairLoop(rows, j, parse)
    decreases j - i
  {
    if i < j {
      PairLoopStep(rows, i, parse);
      PairLoopSkipTo(rows, i + 1, j, parse);
    }
  }

  /** The loop returns the in-order parse of the first pair that passes a
      guard: with a parser that never refuses, the swapped attempts are
      never reached. */
  lemma PairLoopFirstQualifying(rows: seq<string>, i: nat, j: nat, parse: (string, string) -> Option<ParsedMrz>)
    requires NeverRefuses(parse)
    requires i <= j && PairQualifies(rows, j)
    requires forall t :: i <= t < j ==> !PairQualifies(rows, t)
    ensures PairLoop(rows, i, parse) == parse(rows[j], rows[j + 1])
  {
    PairLoopSkipTo(rows, i, j, parse);
    PairLoopStep(rows, j, parse);
  }

  /** On the at most two rows the assembler produces, the resolver parses
      the pair exactly when it passes a guard. */
  lemma ResolveTwoRows(rows: seq<string>)
    requires |rows| <= 2
    ensures PairLoop(rows, 0, TryPair)
         == if |rows| == 2 && Qualifies(rows[0], rows[1]) then TryPair(rows[0], rows[1]) else None
  {
    TryPairNeverRefuses();
    if |rows| == 2 && Qualifies(rows[0], rows[1]) {
      PairLoopFirstQualifying(rows, 0, 0, TryPair);
    } else {
      PairLoopNoneIff(rows, 0, TryPair);
      assert forall j :: 0 <= j ==> !PairQualifies(rows, j);
    }
  }

  // ---------------------------------------------------------------------------
  // The guards only read a row's shape

  /** Two lists whose rows pairwise have the same shape. */
  predicate SameShapes(xs: seq<string>, ys: seq<string>) {
    |xs| == |ys| && forall i :: 0 <= i < |xs| ==> SameShape(xs[i], ys[i])
  }

  lemma QualifiesByShape(a: string, b: string, a': string, b': string)
    requires SameShape(a, a') && SameShape(b, b')
    ensures Qualifies(a, b) <==> Qualifies(a', b')
  {
    SameShapeLooksAlike(a, a');
    SameShapeLooksAlike(b, b');
  }

  /** Rows of the same shapes are resolved alike: both or neither succeed. */
  lemma ResolveByShape(rows: seq<string>, rows': seq<string>)
    requires SameShapes(rows, rows')
    ensures PairLoop(rows, 0, TryPair).Some? <==> PairLoop(rows', 0, TryPair).Some?
  {
    TryPairNeverRefuses();
    PairLoopNoneIff(rows, 0, TryPair);
    PairLoopNoneIff(rows', 0, TryPair);
    forall j | 0 <= j
      ensures PairQualifies(rows, j) <==> PairQualifies(rows', j)
    {
      if j + 1 < |rows| {
        QualifiesByShape(rows[j], rows[j + 1], rows'[j], rows'[j + 1]);
      }
    }
  }

  // ---------------------------------------------------------------------------
  // The imperative resolver

  /** findAndParseMrzTD3Only: assemble the rows, then walk the adjacent
      pairs; a guard that passes pads both rows and parses them. */
  method FindAndParseMrzTD3Only(lines: seq<OcrLine>) returns (r: Option<ParsedMrz>)
    ensures r == Resolve(lines)
  {
    var rowCandidates := BuildRowCandidates(lines);
    var i := 0;
    while i + 1 < |rowCandidates|
      invariant 0 <= i
      invariant PairLoop(rowCandidates, i, TryPair) == Resolve(lines)
      decreases |rowCandidates| - i
    {
      var a, b := rowCandidates[i], rowCandidates[i + 1];
      TryPairNeverRefuses();
      PairLoopStep(rowCandidates, i, TryPair);
      var lenA, lenB := IsLengthApprox(Some(a), TD3Width), IsLengthApprox(Some(b), TD3Width);
      var looksA := LooksLikeMrzLine(Some(a));
      var looksB := LooksLikeMrzLine(Some(b));
      if (lenA || lenB || StartsWithPassportOrVisa(a)) && looksA && looksB {
        var p := ParsePadded(a, b);
        if p.Some? {
          return p;
        }
        p := ParsePadded(b, a);
        if p.Some? {
          return p;
        }
      }
      if |a| >= 18 && |b| >= 18 && looksA && looksB {
        var p := ParsePadded(a, b);
        if p.Some? {
          return p;
        }
        p := ParsePadded(b, a);
        if p.Some? {
          return p;
        }
      }
      i := i + 1;
    }
    return None;
  }

  /** One attempt: pad both rows to 44 columns and parse them. */
  method ParsePadded(a: string, b: string) returns (p: Option<ParsedMrz>)
    ensures p == TryPair(a, b)
    ensures p.Some?
  {
    var l1 := PadToLength(Some(a), TD3Width);
    var l2 := PadToLength(Some(b), TD3Width);
    TryPairSome(a, b);
    p := ParseTD3(Some(l1), Some(l2));
  }

  /** findAndParseMrzStringsTD3: wraps every text as a line without
      coordinates and resolves them. */
  method FindAndParseMrzStringsTD3(norms: seq<string>) returns (r: Option<ParsedMrz>)
    ensures r == ResolveNorms(norms)
  {
    var tmp: seq<OcrLine> := [];
    var i := 0;
    while i < |norms|
      invariant 0 <= i <= |norms|
      invariant tmp == Unplaced(norms[..i])
    {
      tmp := tmp + [OcrLine(norms[i], norms[i], 0, 0, 0)];
      i := i + 1;
    }
    assert norms[..i] == norms;
    r := FindAndParseMrzTD3Only(tmp);
  }

  // ---------------------------------------------------------------------------
  // The documented passport specimen

  const SpecimenRow2Head := "L898902C36UTO7408122F1204159ZE184226B"

  lemma SpecimenRow2Parts()
    ensures SpecimenTD3Row2 == SpecimenRow2Head + "<<<<<<" + "1"
  {
  }

  lemma SpecimenRow2HeadClean()
    ensures Count('<', SpecimenRow2Head) == 0
  {
    assert forall i | 0 <= i < |SpecimenRow2Head| :: SpecimenRow2Head[i] != '<';
  }

  lemma SpecimenRow2Fillers()
    ensures Count('<', SpecimenTD3Row2) == 6
  {
    SpecimenRow2Parts();
    SpecimenRow2HeadClean();
    CountAppend('<', SpecimenRow2Head + "<<<<<<", "1");
    CountAppend('<', SpecimenRow2Head, "<<<<<<");
    SixFillers();
  }

  lemma SixFillers()
    ensures Count('<', "<<<<<<") == 6 && Count('<', "1") == 0
  {
    assert Fillers(6) == "<<<<<<";
  }

  /** Two texts of twelve characters or more whose second one fails the
      filler-ratio rule are never resolved: both are kept as rows of their
      own, and neither guard lets the pair through. */
  lemma SparseSecondRowRefused(r1: string, r2: string)
    requires |r1| >= 12 && |r2| >= 12 && !LooksLikeMrz(Some(r2))
    ensures ResolveNorms([r1, r2]).None?
  {
    var norms := [r1, r2];
    KeptBoth(r1, r2);
    RowCandidatesUnplaced(norms);
    assert RowCandidates(Unplaced(norms)) == norms;
    ResolveTwoRows(norms);
    assert !Qualifies(r1, r2);
  }

  /** Two texts of twelve characters or more are both kept. */
  lemma KeptBoth(r1: string, r2: string)
    requires |r1| >= 12 && |r2| >= 12
    ensures KeptNorms([r1, r2]) == [r1, r2]
  {
    assert [r1, r2][1..] == [r2];
    assert [r2][1..] == [];
  }

  /** The specimen in the doc comment of parseTD3, which the TD3 parser
      reads (SpecimenTD3), has only six fillers in row 2, fewer than a fifth
      of 44: neither guard lets the pair through and the resolver returns
      nothing. */
  lemma SpecimenNotResolved()
    ensures ResolveNorms([SpecimenTD3Row1, SpecimenTD3Row2]).None?
  {
    SpecimenLengths();
    SpecimenRow2Sparse();
    SparseSecondRowRefused(SpecimenTD3Row1, SpecimenTD3Row2);
  }

  lemma SpecimenLengths()
    ensures |SpecimenTD3Row1| == 44 && |SpecimenTD3Row2| == 44
  {
  }

  lemma SpecimenRow2Sparse()
    ensures !LooksLikeMrz(Some(SpecimenTD3Row2))
  {
    SpecimenLengths();
    SpecimenRow2Fillers();
    var n := Count('<', SpecimenTD3Row2);
    assert n == 6 && |SpecimenTD3Row2| / 5 == 8;
  }
}
