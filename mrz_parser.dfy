/**
 * The fixed-width MRZ field extractors for the three ICAO Doc 9303 sizes:
 * TD3 (2 x 44, Part 4), TD2 (2 x 36, Part 6) and TD1 (3 x 30, Part 5), the
 * name decoding they share, and the dispatcher `autoDetect`.
 *
 * No check digit is verified anywhere: a decoder accepts any rows that are
 * long enough, and the check-digit positions never influence the record.
 */
module MrzParser {
  import opened Wrappers
  import opened JavaText

  /** The decoded record; every field is a piece of the rows. */
  datatype ParsedMrz = ParsedMrz(
    documentType: string,
    issuingCountry: string,
    name: string,
    documentNumber: string,
    nationality: string,
    dob: string,
    gender: string,
    expiryDate: string,
    personalNumber: string)

  const TD3Width := 44
  const TD2Width := 36
  const TD1Width := 30

  /** The shape every decoder guarantees: fixed-width date, sex, country
      and nationality fields, filler-free number fields of bounded length,
      and a filler-free, trimmed name. */
  predicate WellShaped(m: ParsedMrz, maxPersonal: nat) {
    && |m.documentType| <= 2 && Trimmed(m.documentType)
    && |m.issuingCountry| == 3 && |m.nationality| == 3
    && |m.dob| == 6 && |m.gender| == 1 && |m.expiryDate| == 6
    && |m.documentNumber| <= 9 && '<' !in m.documentNumber
    && |m.personalNumber| <= maxPersonal && '<' !in m.personalNumber
    && Trimmed(m.name) && '<' !in m.name
  }

  // ---------------------------------------------------------------------------
  // Name decoding

  /** The name rule shared by all three formats: split at "<<"; the surname
      is piece 0 with fillers as spaces, the given names are piece 1 with
      fillers as spaces and trimmed; the full name is both, joined by a
      space and trimmed. Later pieces are ignored. */
  function DecodeName(field: string): (name: string)
    ensures Trimmed(name)
    ensures '<' !in name
  {
    var names := Split(field);
    var surname := if |names| > 0 then ReplaceChar(names[0], '<', ' ') else "";
    var givenNames := if |names| > 1 then Trim(ReplaceChar(names[1], '<', ' ')) else "";
    assert '<' !in surname + " " + givenNames;
    Trim(surname + " " + givenNames)
  }

  predicate IsNameLetter(c: char) {
    'A' <= c <= 'Z'
  }

  /** One MRZ name component (the primary or the secondary identifier):
      letters, with single fillers between words, starting and ending on a letter. */
  predicate NamePart(s: string) {
    && (forall i :: 0 <= i < |s| ==> IsNameLetter(s[i]) || s[i] == '<')
    && NoDoubleFiller(s)
    && (s == [] || (IsNameLetter(s[0]) && IsNameLetter(s[|s| - 1])))
  }

  /** The name a reader expects from a surname and given names written in
      MRZ form: the words separated by single spaces. */
  function ExpectedName(surname: string, givenNames: string): string {
    var s := ReplaceChar(surname, '<', ' ');
    var g := ReplaceChar(givenNames, '<', ' ');
    if surname == [] then g else if givenNames == [] then s else s + " " + g
  }

  lemma SpacedNamePart(s: string)
    requires NamePart(s)
    ensures Trimmed(ReplaceChar(s, '<', ' '))
  {
  }

  /** The given-names piece of a name field is the given names, possibly
      followed by one filler when exactly one filler pads the field. */
  lemma {:induction false} GivenPiece(g: string, f: nat)
    requires NamePart(g)
    ensures Trim(ReplaceChar(SplitPieces(g + Fillers(f))[0], '<', ' ')) == ReplaceChar(g, '<', ' ')
  {
    var sg := ReplaceChar(g, '<', ' ');
    SpacedNamePart(g);
    if f >= 2 {
      assert Fillers(f) == "<<" + Fillers(f - 2) by {
        assert Fillers(f) == "<" + Fillers(f - 1);
        assert Fillers(f - 1) == "<" + Fillers(f - 2);
      }
      assert g + Fillers(f) == g + "<<" + Fillers(f - 2);
      SplitAfterClean(g, Fillers(f - 2));
    } else if f == 1 {
      assert Fillers(1) == "<";
      assert NoDoubleFiller(g + "<");
      SplitNone(g + "<");
      assert ReplaceChar(g + "<", '<', ' ') == sg + " ";
      TrimTrailingSpace(sg);
    } else {
      assert g + Fillers(0) == g;
      SplitNone(g);
    }
  }

  /** Name decoding reads only the first two raw pieces of the split; a
      missing piece reads as "". */
  lemma DecodeNameByPieces(field: string)
    ensures var pieces := SplitPieces(field);
      DecodeName(field) == Trim(ReplaceChar(PieceOr(pieces, 0), '<', ' ') + " " + Trim(ReplaceChar(PieceOr(pieces, 1), '<', ' ')))
  {
    SplitPieceOr(field, 0);
    SplitPieceOr(field, 1);
    assert ReplaceChar("", '<', ' ') == "";
  }

  /** Joining the decoded surname and given names as DecodeName does. */
  lemma JoinDecoded(surname: string, givenNames: string)
    requires NamePart(surname) && NamePart(givenNames)
    ensures Trim(ReplaceChar(surname, '<', ' ') + " " + ReplaceChar(givenNames, '<', ' ')) == ExpectedName(surname, givenNames)
  {
    var s := ReplaceChar(surname, '<', ' ');
    var g := ReplaceChar(givenNames, '<', ' ');
    SpacedNamePart(surname);
    SpacedNamePart(givenNames);
    if surname == [] {
      assert s + " " + g == " " + g;
      TrimLeadingSpace(g);
    } else if givenNames == [] {
      assert s + " " + g == s + " ";
      TrimTrailingSpace(s);
    } else {
      assert Trimmed(s + " " + g);
    }
  }

  /** Name decoding inverts the MRZ name encoding: surname, "<<", given
      names, then any number of fillers, decodes to the words of both
      separated by single spaces. */
  lemma {:induction false} DecodeNameRoundTrip(surname: string, givenNames: string, f: nat)
    requires NamePart(surname) && NamePart(givenNames)
    ensures DecodeName(surname + "<<" + givenNames + Fillers(f)) == ExpectedName(surname, givenNames)
  {
    var field := surname + "<<" + givenNames + Fillers(f);
    assert field == surname + "<<" + (givenNames + Fillers(f));
    SplitAfterClean(surname, givenNames + Fillers(f));
    var pieces := SplitPieces(field);
    assert pieces == [surname] + SplitPieces(givenNames + Fillers(f));
    assert PieceOr(pieces, 0) == surname;
    assert PieceOr(pieces, 1) == SplitPieces(givenNames + Fillers(f))[0];
    GivenPiece(givenNames, f);
    DecodeNameByPieces(field);
    JoinDecoded(surname, givenNames);
  }

  // ---------------------------------------------------------------------------
  // The record built from the field slices, shared by the three layouts

  /** The record every decoder builds from its slices: the document type is
      trimmed, the name field decoded, the number fields lose their fillers,
      and the other fields are copied. */
  function Record(docType: string, country: string, nameField: string, docNumber: string,
                  nationality: string, dob: string, gender: string, expiry: string,
                  personal: string): (m: ParsedMrz)
    requires |docType| == 2 && |country| == 3 && |docNumber| == 9 && |nationality| == 3
    requires |dob| == 6 && |gender| == 1 && |expiry| == 6
    ensures WellShaped(m, |personal|)
  {
    ParsedMrz(Trim(docType), country, DecodeName(nameField), RemoveFiller(docNumber),
              nationality, dob, gender, expiry, RemoveFiller(personal))
  }

  // ---------------------------------------------------------------------------
  // TD3 (passport)

  /** TD3: rejects a missing row or one shorter than 44; any other two rows
      decode, whatever their check digits. */
  function ParseTD3(l1: Option<string>, l2: Option<string>): (r: Option<ParsedMrz>)
    ensures r.Some? <==> l1.Some? && l2.Some? && |l1.value| >= TD3Width && |l2.value| >= TD3Width
    ensures r.Some? ==> WellShaped(r.value, 14)
    ensures r.Some? ==>
      && r.value.issuingCountry == l1.value[2..5]
      && r.value.nationality == l2.value[10..13]
      && r.value.dob == l2.value[13..19]
      && r.value.gender == l2.value[20..21]
      && r.value.expiryDate == l2.value[21..27]
      && r.value.documentNumber == RemoveFiller(l2.value[0..9])
      && r.value.personalNumber == RemoveFiller(l2.value[28..42])
      && r.value.name == DecodeName(l1.value[5..])
      && r.value.documentType == Trim(l1.value[0..2])
  {
    if l1.None? || l2.None? then None
    else if |l1.value| < TD3Width || |l2.value| < TD3Width then None
    else
      var a, b := l1.value, l2.value;
      var m := Record(a[0..2], a[2..5], a[5..], b[0..9], b[10..13], b[13..19], b[20..21], b[21..27], b[28..42]);
      assert WellShaped(m, |b[28..42]|) && |b[28..42]| == 14;
      Some(m)
  }

  // ---------------------------------------------------------------------------
  // TD2 (visa / card)

  /** TD2: the TD3 layout with threshold 36 and the personal number taken
      from columns 28..35. */
  function ParseTD2(l1: Option<string>, l2: Option<string>): (r: Option<ParsedMrz>)
    ensures r.Some? <==> l1.Some? && l2.Some? && |l1.value| >= TD2Width && |l2.value| >= TD2Width
    ensures r.Some? ==> WellShaped(r.value, 7)
    ensures r.Some? ==>
      && r.value.issuingCountry == l1.value[2..5]
      && r.value.nationality == l2.value[10..13]
      && r.value.dob == l2.value[13..19]
      && r.value.gender == l2.value[20..21]
      && r.value.expiryDate == l2.value[21..27]
      && r.value.documentNumber == RemoveFiller(l2.value[0..9])
      && r.value.personalNumber == RemoveFiller(l2.value[28..35])
      && r.value.name == DecodeName(l1.value[5..])
      && r.value.documentType == Trim(l1.value[0..2])
  {
    if l1.None? || l2.None? then None
    else if |l1.value| < TD2Width || |l2.value| < TD2Width then None
    else
      var a, b := l1.value, l2.value;
      var m := Record(a[0..2], a[2..5], a[5..], b[0..9], b[10..13], b[13..19], b[20..21], b[21..27], b[28..35]);
      assert WellShaped(m, |b[28..35]|) && |b[28..35]| == 7;
      Some(m)
  }

  /** On rows long enough for both, TD2 and TD3 decode the same record
      except for the personal number, which TD2 reads from 28..35. */
  lemma TD2AgreesWithTD3(l1: string, l2: string)
    requires |l1| >= TD3Width && |l2| >= TD3Width
    ensures ParseTD2(Some(l1), Some(l2)).Some? && ParseTD3(Some(l1), Some(l2)).Some?
    ensures ParseTD2(Some(l1), Some(l2)).value
         == ParseTD3(Some(l1), Some(l2)).value.(personalNumber := RemoveFiller(l2[28..35]))
  {
  }

  // ---------------------------------------------------------------------------
  // TD1 (identity card)

  /** TD1 as corrected: the personal number is the optional data of row 2,
      columns 18..29, leaving out the composite check digit at column 29
      as TD3 and TD2 leave out theirs. */
  function ParseTD1(l1: Option<string>, l2: Option<string>, l3: Option<string>): (r: Option<ParsedMrz>)
    ensures r.Some? <==>
      l1.Some? && l2.Some? && l3.Some? &&
      |l1.value| >= TD1Width && |l2.value| >= TD1Width && |l3.value| >= TD1Width
    ensures r.Some? ==> WellShaped(r.value, 11)
    ensures r.Some? ==>
      && r.value.documentType == Trim(l1.value[0..2])
      && r.value.issuingCountry == l1.value[2..5]
      && r.value.documentNumber == RemoveFiller(l1.value[5..14])
      && r.value.dob == l2.value[0..6]
      && r.value.gender == l2.value[7..8]
      && r.value.expiryDate == l2.value[8..14]
      && r.value.nationality == l2.value[15..18]
      && r.value.personalNumber == RemoveFiller(l2.value[18..29])
      && r.value.name == DecodeName(l3.value)
  {
    if l1.None? || l2.None? || l3.None? then None
    else if |l1.value| < TD1Width || |l2.value| < TD1Width || |l3.value| < TD1Width then None
    else
      var a, b, c := l1.value, l2.value, l3.value;
      var m := Record(a[0..2], a[2..5], c, a[5..14], b[15..18], b[0..6], b[7..8], b[8..14], b[18..29]);
      assert WellShaped(m, |b[18..29]|) && |b[18..29]| == 11;
      Some(m)
  }

  /** TD1 as written: the personal number is everything of row 2 from
      column 18 on, fillers removed, so it takes in the composite check
      digit and anything past column 30. */
  function ParseTD1AsWritten(l1: Option<string>, l2: Option<string>, l3: Option<string>): (r: Option<ParsedMrz>)
    ensures r.Some? <==> ParseTD1(l1, l2, l3).Some?
    ensures r.Some? ==> r.value == ParseTD1(l1, l2, l3).value.(personalNumber := RemoveFiller(l2.value[18..]))
  {
    if l1.None? || l2.None? || l3.None? then None
    else if |l1.value| < TD1Width || |l2.value| < TD1Width || |l3.value| < TD1Width then None
    else
      var a, b, c := l1.value, l2.value, l3.value;
      Some(Record(a[0..2], a[2..5], c, a[5..14], b[15..18], b[0..6], b[7..8], b[8..14], b[18..]))
  }

  // ---------------------------------------------------------------------------
  // autoDetect

  /** `s != null && !s.trim().isEmpty()` */
  predicate NonBlank(s: Option<string>) {
    s.Some? && !IsBlank(s.value)
  }

  /** The number of lines that are neither null nor blank. */
  function CountNonBlank(lines: seq<Option<string>>): (n: nat)
    ensures n <= |lines|
    ensures n == |NonBlankLines(lines)|
  {
    if lines == [] then 0
    else (if NonBlank(lines[0]) then 1 else 0) + CountNonBlank(lines[1..])
  }

  /** The lines that are neither null nor blank, in order. */
  function NonBlankLines(lines: seq<Option<string>>): (r: seq<string>)
  {
    if lines == [] then []
    else (if NonBlank(lines[0]) then [lines[0].value] else []) + NonBlankLines(lines[1..])
  }

  /** What a Java call returns, or the exception it throws. */
  datatype Outcome = Returned(mrz: Option<ParsedMrz>) | NullPointerException

  /** autoDetect as written: it counts the non-blank lines but then reads
      lines[0] and lines[1] (or lines[0..2]) by position. */
  function AutoDetectAsWritten(lines: Option<seq<Option<string>>>): (r: Outcome)
    ensures r.NullPointerException? <==>
      lines.Some? && CountNonBlank(lines.value) == 2 && lines.value[0].None?
    ensures r.Returned? && r.mrz.Some? ==> lines.Some? && CountNonBlank(lines.value) in {2, 3}
    ensures lines.None? || CountNonBlank(lines.value) !in {2, 3} ==> r == Returned(None)
    ensures lines.Some? && CountNonBlank(lines.value) == 2 && lines.value[0].Some? ==>
      r == Returned(if |Trim(lines.value[0].value)| > 36 then ParseTD3(lines.value[0], lines.value[1])
                    else ParseTD2(lines.value[0], lines.value[1]))
    ensures lines.Some? && CountNonBlank(lines.value) == 3 ==>
      r == Returned(ParseTD1AsWritten(lines.value[0], lines.value[1], lines.value[2]))
  {
    if lines.None? then Returned(None)
    else
      var ls := lines.value;
      var count := CountNonBlank(ls);
      if count == 2 then
        if ls[0].None? then NullPointerException
        else if |Trim(ls[0].value)| > 36 then Returned(ParseTD3(ls[0], ls[1]))
        else Returned(ParseTD2(ls[0], ls[1]))
      else if count == 3 then Returned(ParseTD1AsWritten(ls[0], ls[1], ls[2]))
      else Returned(None)
  }

  /** autoDetect as corrected: it dispatches on the non-blank lines
      themselves, so null or blank lines anywhere are skipped. */
  function AutoDetect(lines: Option<seq<Option<string>>>): (r: Option<ParsedMrz>)
    ensures r.Some? ==> lines.Some? && CountNonBlank(lines.value) in {2, 3}
    ensures lines.Some? && CountNonBlank(lines.value) == 2 ==>
      var ns := NonBlankLines(lines.value);
      r == if |Trim(ns[0])| > 36 then ParseTD3(Some(ns[0]), Some(ns[1])) else ParseTD2(Some(ns[0]), Some(ns[1]))
    ensures lines.Some? && CountNonBlank(lines.value) == 3 ==>
      var ns := NonBlankLines(lines.value);
      r == ParseTD1(Some(ns[0]), Some(ns[1]), Some(ns[2]))
  {
    if lines.None? then None
    else
      var ns := NonBlankLines(lines.value);
      if |ns| == 2 then
        if |Trim(ns[0])| > 36 then ParseTD3(Some(ns[0]), Some(ns[1]))
        else ParseTD2(Some(ns[0]), Some(ns[1]))
      else if |ns| == 3 then ParseTD1(Some(ns[0]), Some(ns[1]), Some(ns[2]))
      else None
  }

  // ---------------------------------------------------------------------------
  // TD3 round trip

  /** The fields a TD3 document is printed from. `checks` holds the five
      check-digit characters (document number, birth date, expiry date,
      personal number, composite); no decoder reads them. */
  datatype Td3Fields = Td3Fields(
    documentType: string,
    issuingCountry: string,
    surname: string,
    givenNames: string,
    documentNumber: string,
    nationality: string,
    dob: string,
    gender: string,
    expiryDate: string,
    personalNumber: string,
    checks: string)

  predicate ValidTd3Fields(x: Td3Fields) {
    && |x.documentType| == 2 && Trimmed(x.documentType)
    && |x.issuingCountry| == 3
    && NamePart(x.surname) && NamePart(x.givenNames)
    && |x.surname| + 2 + |x.givenNames| <= 39
    && |x.documentNumber| <= 9 && '<' !in x.documentNumber
    && |x.nationality| == 3 && |x.dob| == 6 && |x.gender| == 1 && |x.expiryDate| == 6
    && |x.personalNumber| <= 14 && '<' !in x.personalNumber
    && |x.checks| == 5
  }

  /** Row 1 as ICAO Doc 9303 Part 4 lays it out. */
  function EncodeTD3Row1(x: Td3Fields): (row: string)
    requires ValidTd3Fields(x)
    ensures |row| == TD3Width
  {
    x.documentType + x.issuingCountry
      + (x.surname + "<<" + x.givenNames + Fillers(39 - |x.surname| - 2 - |x.givenNames|))
  }

  /** Row 2 as ICAO Doc 9303 Part 4 lays it out. */
  function EncodeTD3Row2(x: Td3Fields): (row: string)
    requires ValidTd3Fields(x)
    ensures |row| == TD3Width
  {
    (x.documentNumber + Fillers(9 - |x.documentNumber|)) + [x.checks[0]]
      + x.nationality + x.dob + [x.checks[1]] + x.gender + x.expiryDate + [x.checks[2]]
      + (x.personalNumber + Fillers(14 - |x.personalNumber|)) + x.checks[3..5]
  }

  /** The record a reader expects from the printed fields. */
  function ExpectedTD3(x: Td3Fields): ParsedMrz {
    ParsedMrz(x.documentType, x.issuingCountry, ExpectedName(x.surname, x.givenNames),
              x.documentNumber, x.nationality, x.dob, x.gender, x.expiryDate, x.personalNumber)
  }

  lemma EncodeTD3Row1Slices(x: Td3Fields)
    requires ValidTd3Fields(x)
    ensures var a := EncodeTD3Row1(x);
      && a[0..2] == x.documentType && a[2..5] == x.issuingCountry
      && a[5..] == x.surname + "<<" + x.givenNames + Fillers(39 - |x.surname| - 2 - |x.givenNames|)
  {
  }

  lemma EncodeTD3Row2Slices(x: Td3Fields)
    requires ValidTd3Fields(x)
    ensures var b := EncodeTD3Row2(x);
      && b[0..9] == x.documentNumber + Fillers(9 - |x.documentNumber|)
      && b[10..13] == x.nationality && b[13..19] == x.dob && b[20..21] == x.gender
      && b[21..27] == x.expiryDate
      && b[28..42] == x.personalNumber + Fillers(14 - |x.personalNumber|)
  {
    var dn := x.documentNumber + Fillers(9 - |x.documentNumber|);
    var pn := x.personalNumber + Fillers(14 - |x.personalNumber|);
    assert EncodeTD3Row2(x) == dn + [x.checks[0]] + x.nationality + x.dob + [x.checks[1]] + x.gender
      + x.expiryDate + [x.checks[2]] + pn + x.checks[3..5];
    Row2Slices(dn, x.checks[0], x.nationality, x.dob, x.checks[1], x.gender, x.expiryDate, x.checks[2],
               pn, x.checks[3..5]);
  }

  /** Where each field of a TD3 row 2 lies, whatever the fields hold. */
  lemma Row2Slices(dn: string, c0: char, nation: string, dob: string, c1: char, g: string, exp: string, c2: char,
                   pn: string, tail: string)
    requires |dn| == 9 && |nation| == 3 && |dob| == 6 && |g| == 1 && |exp| == 6 && |pn| == 14
    ensures var b := dn + [c0] + nation + dob + [c1] + g + exp + [c2] + pn + tail;
      && b[0..9] == dn && b[10..13] == nation && b[13..19] == dob
      && b[20..21] == g && b[21..27] == exp && b[28..42] == pn
  {
    var head := dn + [c0] + nation + dob + [c1] + g + exp + [c2];
    Row2HeadSlices(dn, c0, nation, dob, c1, g, exp, c2);
    PrefixSlices(head, pn, tail);
  }

  /** Slices of `h + p + t` that lie inside `h`, and `p` itself. */
  lemma PrefixSlices(h: string, p: string, t: string)
    ensures forall i, j :: 0 <= i <= j <= |h| ==> (h + p + t)[i..j] == h[i..j]
    ensures (h + p + t)[|h|..|h| + |p|] == p
  {
  }

  lemma Row2HeadSlices(dn: string, c0: char, nation: string, dob: string, c1: char, g: string, exp: string, c2: char)
    requires |dn| == 9 && |nation| == 3 && |dob| == 6 && |g| == 1 && |exp| == 6
    ensures var head := dn + [c0] + nation + dob + [c1] + g + exp + [c2];
      && |head| == 28
      && head[0..9] == dn && head[10..13] == nation && head[13..19] == dob
      && head[20..21] == g && head[21..27] == exp
  {
  }

  /** Decoding a printed TD3 document gives back the fields it was printed
      from, whatever its five check digits are. */
  lemma TD3RoundTrip(x: Td3Fields)
    requires ValidTd3Fields(x)
    ensures ParseTD3(Some(EncodeTD3Row1(x)), Some(EncodeTD3Row2(x))) == Some(ExpectedTD3(x))
  {
    var a, b := EncodeTD3Row1(x), EncodeTD3Row2(x);
    EncodeTD3Row1Slices(x);
    EncodeTD3Row2Slices(x);
    var r := ParseTD3(Some(a), Some(b));
    assert r.Some?;
    var m := r.value;
    DecodeNameRoundTrip(x.surname, x.givenNames, 39 - |x.surname| - 2 - |x.givenNames|);
    assert m.name == ExpectedName(x.surname, x.givenNames);
    RemoveFillerPadded(x.documentNumber, 9 - |x.documentNumber|);
    assert m.documentNumber == x.documentNumber;
    RemoveFillerPadded(x.personalNumber, 14 - |x.personalNumber|);
    assert m.personalNumber == x.personalNumber;
    assert m.documentType == x.documentType;
  }

  /** The specimen rows in the doc comment of parseTD3. */
  const SpecimenTD3Row1 := "P<UTO" + "ERIKSSON<<ANNA<MARIA" + "<<<<<<<<<<<<<<<<<<<"
  const SpecimenTD3Row2 := "L898902C36UTO7408122F1204159ZE184226B<<<<<<1"

  /** The fields the specimen is printed from. */
  function SpecimenTD3Fields(): Td3Fields {
    Td3Fields("P<", "UTO", "ERIKSSON", "ANNA<MARIA", "L898902C3", "UTO",
              "740812", "F", "120415", "ZE184226B", "629<1")
  }

  lemma SpecimenTD3FieldsValid()
    ensures ValidTd3Fields(SpecimenTD3Fields())
  {
    assert NamePart("ERIKSSON");
    assert NamePart("ANNA<MARIA");
  }

  lemma FillerRun19()
    ensures Fillers(19) == "<<<<<<<<<<<<<<<<<<<"
  {
    assert forall i | 0 <= i < 19 :: Fillers(19)[i] == '<';
  }

  lemma SpecimenTD3Row1Layout()
    ensures EncodeTD3Row1(SpecimenTD3Fields())
         == "P<" + "UTO" + ("ERIKSSON" + "<<" + "ANNA<MARIA" + Fillers(19))
  {
    SpecimenTD3FieldsValid();
  }

  lemma SpecimenTD3Row1Text()
    ensures "P<" + "UTO" + ("ERIKSSON" + "<<" + "ANNA<MARIA" + Fillers(19)) == SpecimenTD3Row1
  {
    FillerRun19();
    SpecimenTD3Row1Literal();
  }

  lemma SpecimenTD3Row1Literal()
    ensures "P<" + "UTO" + ("ERIKSSON" + "<<" + "ANNA<MARIA" + "<<<<<<<<<<<<<<<<<<<") == SpecimenTD3Row1
  {
    var fill := "<<<<<<<<<<<<<<<<<<<";
    assert "P<" + "UTO" == "P<UTO";
    assert "ERIKSSON" + "<<" + "ANNA<MARIA" == "ERIKSSON<<ANNA<MARIA";
    assert "P<UTO" + ("ERIKSSON<<ANNA<MARIA" + fill) == "P<UTO" + "ERIKSSON<<ANNA<MARIA" + fill;
  }

  lemma SpecimenTD3Row2Layout()
    ensures EncodeTD3Row2(SpecimenTD3Fields())
         == ("L898902C3" + Fillers(0)) + ['6'] + "UTO" + "740812" + ['2'] + "F" + "120415" + ['9']
            + ("ZE184226B" + Fillers(5)) + "<1"
  {
    SpecimenTD3FieldsValid();
    assert SpecimenTD3Fields().checks[3..5] == "<1";
  }

  lemma SpecimenTD3Row2Text()
    ensures ("L898902C3" + Fillers(0)) + ['6'] + "UTO" + "740812" + ['2'] + "F" + "120415" + ['9']
            + ("ZE184226B" + Fillers(5)) + "<1" == SpecimenTD3Row2
  {
    assert Fillers(0) == "";
    FillerRun5();
    SpecimenTD3Row2Literal();
  }

  lemma FillerRun5()
    ensures Fillers(5) == "<<<<<"
  {
    assert forall i | 0 <= i < 5 :: Fillers(5)[i] == '<';
  }

  lemma SpecimenTD3Row2Literal()
    ensures ("L898902C3" + "") + ['6'] + "UTO" + "740812" + ['2'] + "F" + "120415" + ['9']
            + ("ZE184226B" + "<<<<<") + "<1" == SpecimenTD3Row2
  {
  }

  lemma SpecimenTD3Name()
    ensures ExpectedName("ERIKSSON", "ANNA<MARIA") == "ERIKSSON ANNA MARIA"
  {
    assert ReplaceChar("ERIKSSON", '<', ' ') == "ERIKSSON";
    assert ReplaceChar("ANNA<MARIA", '<', ' ') == "ANNA MARIA";
  }

  /** The specimen decodes to ERIKSSON ANNA MARIA, document L898902C3. */
  lemma SpecimenTD3()
    ensures ParseTD3(Some(SpecimenTD3Row1), Some(SpecimenTD3Row2))
         == Some(ParsedMrz("P<", "UTO", "ERIKSSON ANNA MARIA", "L898902C3", "UTO",
                           "740812", "F", "120415", "ZE184226B"))
  {
    SpecimenTD3FieldsValid();
    SpecimenTD3Row1Layout();
    SpecimenTD3Row1Text();
    SpecimenTD3Row2Layout();
    SpecimenTD3Row2Text();
    TD3RoundTrip(SpecimenTD3Fields());
    SpecimenTD3Name();
  }

  // ---------------------------------------------------------------------------
  // TD1: the composite check digit in the personal number

  /** Whatever follows column 29 of row 2 (the composite check digit and any
      overlong tail) does not reach the corrected TD1 record. */
  lemma TD1IgnoresCompositeDigit(l1: Option<string>, l2: string, l2': string, l3: Option<string>)
    requires |l2| >= TD1Width && |l2'| >= TD1Width && l2[..29] == l2'[..29]
    ensures ParseTD1(l1, Some(l2), l3) == ParseTD1(l1, Some(l2'), l3)
  {
    assert forall i | 0 <= i < 29 :: l2[i] == l2'[i] by {
      forall i | 0 <= i < 29 ensures l2[i] == l2'[i] {
        assert l2[..29][i] == l2'[..29][i];
      }
    }
    assert l2[18..29] == l2'[18..29];
    assert l2[0..6] == l2'[0..6] && l2[7..8] == l2'[7..8];
    assert l2[8..14] == l2'[8..14] && l2[15..18] == l2'[15..18];
  }

  /** As written, a 30-character row 2 whose composite check digit is not a
      filler yields a personal number that ends in that check digit. */
  lemma TD1AsWrittenKeepsCompositeDigit(l1: Option<string>, l2: string, l3: Option<string>)
    requires |l2| == TD1Width && l2[29] != '<'
    requires ParseTD1(l1, Some(l2), l3).Some?
    ensures ParseTD1AsWritten(l1, Some(l2), l3).Some?
    ensures ParseTD1AsWritten(l1, Some(l2), l3).value.personalNumber
         == ParseTD1(l1, Some(l2), l3).value.personalNumber + [l2[29]]
  {
    var written := ParseTD1AsWritten(l1, Some(l2), l3);
    var corrected := ParseTD1(l1, Some(l2), l3);
    assert written.value.personalNumber == RemoveFiller(l2[18..]);
    assert corrected.value.personalNumber == RemoveFiller(l2[18..29]);
    PersonalTail(l2);
  }

  /** Dropping fillers from row 2's last twelve characters keeps the
      composite check digit after the personal number. */
  lemma PersonalTail(l2: string)
    requires |l2| == TD1Width && l2[29] != '<'
    ensures RemoveFiller(l2[18..]) == RemoveFiller(l2[18..29]) + [l2[29]]
  {
    assert l2[18..] == l2[18..29] + l2[29..];
    assert l2[29..] == [l2[29]];
    RemoveFillerAppend(l2[18..29], l2[29..]);
    RemoveFillerOne(l2[29]);
  }

  lemma RemoveFillerOne(c: char)
    requires c != '<'
    ensures RemoveFiller([c]) == [c]
  {
    assert [c][1..] == [];
  }

  /** An empty optional-data field: no filler survives. */
  lemma RemoveFillerOnly(k: nat)
    ensures RemoveFiller(Fillers(k)) == ""
  {
  }

  const SpecimenTD1Row1 := "I<UTOD231458907<<<<<<<<<<<<<<<"
  const SpecimenTD1Row2 := "7408122F1204159UTO<<<<<<<<<<<6"
  const DocumentedTD1Row3 := "ERIKSSON<<ANNA<MARIA<<<<<<<<<"

  lemma SpecimenTD1Row2Tail()
    ensures SpecimenTD1Row2[18..29] == Fillers(11)
  {
    assert forall i | 0 <= i < 11 :: SpecimenTD1Row2[18..29][i] == '<';
  }

  /** Row 2 of the TD1 specimen, whose optional data field is empty, under
      any rows 1 and 3: as written the personal number is "6", the
      composite check digit; corrected it is empty. */
  lemma SpecimenTD1PersonalNumber(l1: string, l3: string)
    requires |l1| >= TD1Width && |l3| >= TD1Width
    ensures ParseTD1AsWritten(Some(l1), Some(SpecimenTD1Row2), Some(l3)).Some?
    ensures ParseTD1AsWritten(Some(l1), Some(SpecimenTD1Row2), Some(l3)).value.personalNumber == "6"
    ensures ParseTD1(Some(l1), Some(SpecimenTD1Row2), Some(l3)).value.personalNumber == ""
  {
    SpecimenTD1Row2Facts();
    TD1AsWrittenKeepsCompositeDigit(Some(l1), SpecimenTD1Row2, Some(l3));
  }

  lemma SpecimenTD1Row2Facts()
    ensures |SpecimenTD1Row2| == TD1Width && SpecimenTD1Row2[29] == '6'
    ensures RemoveFiller(SpecimenTD1Row2[18..29]) == ""
  {
    SpecimenTD1Row2Tail();
    RemoveFillerOnly(11);
  }

  /** The rows of the TD1 example as printed in MrzParser's documentation;
      the third is 29 characters long, so the example itself is refused. */
  lemma DocumentedTD1ExampleRefused()
    ensures ParseTD1(Some(SpecimenTD1Row1), Some(SpecimenTD1Row2), Some(DocumentedTD1Row3)) == None
  {
    assert |DocumentedTD1Row3| == 29;
  }

  // ---------------------------------------------------------------------------
  // autoDetect: positions versus non-blank lines

  lemma {:induction false} NonBlankLinesAppend(a: seq<Option<string>>, b: seq<Option<string>>)
    ensures NonBlankLines(a + b) == NonBlankLines(a) + NonBlankLines(b)
  {
    if a == [] {
      assert a + b == b;
    } else {
      assert (a + b)[1..] == a[1..] + b;
      NonBlankLinesAppend(a[1..], b);
    }
  }

  function NonBlankOf(x: Option<string>): seq<string> {
    if NonBlank(x) then [x.value] else []
  }

  lemma NonBlankLinesCons(x: Option<string>, rest: seq<Option<string>>)
    ensures NonBlankLines([x] + rest) == NonBlankOf(x) + NonBlankLines(rest)
  {
    assert ([x] + rest)[1..] == rest;
  }

  lemma NonBlankLinesOfTwo(y: Option<string>, z: Option<string>)
    ensures NonBlankLines([y, z]) == NonBlankOf(y) + NonBlankOf(z)
  {
    NonBlankLinesCons(z, []);
    assert [z] + [] == [z];
    NonBlankLinesCons(y, [z]);
    assert [y] + [z] == [y, z];
  }

  lemma NonBlankLinesOfThree(x: Option<string>, y: Option<string>, z: Option<string>)
    ensures NonBlankLines([x, y]) == NonBlankOf(x) + NonBlankOf(y)
    ensures NonBlankLines([x, y, z]) == NonBlankOf(x) + NonBlankOf(y) + NonBlankOf(z)
  {
    NonBlankLinesOfTwo(x, y);
    NonBlankLinesOfTwo(y, z);
    NonBlankLinesCons(x, [y, z]);
    assert [x] + [y, z] == [x, y, z];
  }

  /** The corrected autoDetect does not see null or blank lines, wherever
      they are inserted. */
  lemma AutoDetectSkipsBlank(a: seq<Option<string>>, x: Option<string>, b: seq<Option<string>>)
    requires !NonBlank(x)
    ensures AutoDetect(Some(a + [x] + b)) == AutoDetect(Some(a + b))
  {
    assert NonBlankLines(a + [x] + b) == NonBlankLines(a + b) by {
      NonBlankLinesAppend(a + [x], b);
      NonBlankLinesAppend(a, [x]);
      NonBlankLinesAppend(a, b);
      assert [x][1..] == [];
      assert NonBlankLines([x]) == [];
      assert NonBlankLines(a) + [] == NonBlankLines(a);
    }
  }

  /** When every line is non-blank both versions read the same lines, and
      for two lines they return the same record. */
  lemma AutoDetectAgreesWithoutBlanks(ls: seq<Option<string>>)
    requires forall i :: 0 <= i < |ls| ==> NonBlank(ls[i])
    ensures |ls| == 2 ==> AutoDetectAsWritten(Some(ls)) == Returned(AutoDetect(Some(ls)))
    ensures |ls| == 3 ==> AutoDetect(Some(ls)) == ParseTD1(ls[0], ls[1], ls[2])
    ensures |ls| == 3 ==> AutoDetectAsWritten(Some(ls)) == Returned(ParseTD1AsWritten(ls[0], ls[1], ls[2]))
  {
    if |ls| == 2 {
      assert ls == [ls[0], ls[1]];
      AgreeOnTwo(ls[0], ls[1]);
    } else if |ls| == 3 {
      assert ls == [ls[0], ls[1], ls[2]];
      AgreeOnThree(ls[0], ls[1], ls[2]);
    }
  }

  lemma AgreeOnTwo(x: Option<string>, y: Option<string>)
    requires NonBlank(x) && NonBlank(y)
    ensures AutoDetectAsWritten(Some([x, y])) == Returned(AutoDetect(Some([x, y])))
  {
    NonBlankLinesOfTwo(x, y);
    assert NonBlankLines([x, y]) == [x.value, y.value];
  }

  lemma AgreeOnThree(x: Option<string>, y: Option<string>, z: Option<string>)
    requires NonBlank(x) && NonBlank(y) && NonBlank(z)
    ensures AutoDetect(Some([x, y, z])) == ParseTD1(x, y, z)
    ensures AutoDetectAsWritten(Some([x, y, z])) == Returned(ParseTD1AsWritten(x, y, z))
  {
    NonBlankLinesOfThree(x, y, z);
    assert NonBlankLines([x, y, z]) == [x.value, y.value, z.value];
  }

  /** A null line in front of two MRZ rows: as written autoDetect throws a
      NullPointerException; corrected it decodes the two rows. */
  lemma AutoDetectNullFirstLine(r1: string, r2: string)
    requires NonBlank(Some(r1)) && NonBlank(Some(r2))
    ensures AutoDetectAsWritten(Some([None, Some(r1), Some(r2)])) == NullPointerException
    ensures AutoDetect(Some([None, Some(r1), Some(r2)]))
         == if |Trim(r1)| > 36 then ParseTD3(Some(r1), Some(r2)) else ParseTD2(Some(r1), Some(r2))
  {
    var ls := [None, Some(r1), Some(r2)];
    NonBlankLinesOfThree(None, Some(r1), Some(r2));
    assert NonBlankLines(ls) == [r1, r2];
    assert CountNonBlank(ls) == 2;
  }

  /** A blank line shorter than 36 characters (the empty line, say) in
      front of two MRZ rows: as written autoDetect hands the blank line to
      parseTD2, which refuses it, so the result is null; corrected it
      decodes the two rows. */
  lemma AutoDetectBlankFirstLine(blank: string, r1: string, r2: string)
    requires IsBlank(blank) && |blank| < TD2Width
    requires NonBlank(Some(r1)) && NonBlank(Some(r2))
    ensures AutoDetectAsWritten(Some([Some(blank), Some(r1), Some(r2)])) == Returned(None)
    ensures AutoDetect(Some([Some(blank), Some(r1), Some(r2)]))
         == if |Trim(r1)| > 36 then ParseTD3(Some(r1), Some(r2)) else ParseTD2(Some(r1), Some(r2))
  {
    var ls := [Some(blank), Some(r1), Some(r2)];
    NonBlankLinesOfThree(Some(blank), Some(r1), Some(r2));
    assert NonBlankLines(ls) == [r1, r2];
    assert CountNonBlank(ls) == 2;
    assert Trim(blank) == [];
  }
}
