/**
 * The scanning activity's stabilisation tracker: a record is accepted only
 * once two consecutive recognition passes agree on its document number,
 * name and expiry date. Each pass sorts the recognised lines top to bottom,
 * resolves them directly, and only when that yields nothing runs the
 * correction search.
 */
module Scanner {
  import opened Wrappers
  import opened MrzParser
  import opened Substitutions
  import opened RowAssembly
  import opened Resolver
  import opened Corrections

  /** Passes that must agree before a record is accepted. */
  const RequiredStableHits: nat := 2

  /** safeEquals: null equals null, a single null is a mismatch. */
  function SafeEquals(a: Option<string>, b: Option<string>): (r: bool)
    ensures r <==> a == b
  {
    if a.None? && b.None? then true
    else if a.None? || b.None? then false
    else a.value == b.value
  }

  /** The three fields the tracker compares. */
  predicate SameIdentity(last: ParsedMrz, candidate: ParsedMrz) {
    && SafeEquals(Some(last.documentNumber), Some(candidate.documentNumber))
    && SafeEquals(Some(last.name), Some(candidate.name))
    && SafeEquals(Some(last.expiryDate), Some(candidate.expiryDate))
  }

  /** The tracker's three fields as a value. */
  datatype TrackerState = TrackerState(isScanning: bool, lastCandidate: Option<ParsedMrz>, stableHits: nat)

  /** What a pass shows: nothing to do, the "place the MRZ in the frame"
      message, the stabilising count, or the accepted record with the flag
      saying whether a correction produced it. */
  datatype Verdict =
    | Ignored
    | NoMrz
    | Stabilising(hits: nat)
    | Accepted(mrz: ParsedMrz, corrected: bool)

  datatype Step = Step(state: TrackerState, verdict: Verdict)

  /** The field initialisers, and what resetScanning restores. */
  function Initial(): TrackerState {
    TrackerState(true, None, 0)
  }

  /** onCandidateDetected as a transition on the tracker's state. */
  function Detect(s: TrackerState, candidate: Option<ParsedMrz>, corrected: bool): Step {
    if candidate.None? then Step(s, Ignored)
    else
      var c := candidate.value;
      var agrees := s.lastCandidate.Some? && SameIdentity(s.lastCandidate.value, c);
      var last := if agrees then s.lastCandidate else candidate;
      var hits := if agrees then s.stableHits + 1 else 1;
      if hits >= RequiredStableHits then Step(TrackerState(false, last, hits), Accepted(c, corrected))
      else Step(TrackerState(s.isScanning, last, hits), Stabilising(hits))
  }

  /** handleVisionText on lines already collected from the recogniser. */
  function HandleText(s: TrackerState, lines: seq<OcrLine>): Step {
    if lines == [] then Step(s, NoMrz)
    else
      var sorted := SortBy(lines, Vertical);
      var parsed := Resolve(sorted);
      if parsed.Some? then Detect(s, parsed, false)
      else
        var corrected := FirstSuccess(Norms(sorted), Plan());
        if corrected.Some? then Detect(s, corrected, true) else Step(s, NoMrz)
  }

  /** The recogniser's success listener: a pass is handled only while scanning. */
  function Recognised(s: TrackerState, lines: seq<OcrLine>): Step {
    if s.isScanning then HandleText(s, lines) else Step(s, Ignored)
  }

  // ---------------------------------------------------------------------------
  // The tracker

  class Tracker {
    var isScanning: bool
    var lastCandidate: Option<ParsedMrz>
    var stableHits: nat

    function State(): TrackerState
      reads this
    {
      TrackerState(isScanning, lastCandidate, stableHits)
    }

    constructor ()
      ensures State() == Initial()
    {
      isScanning := true;
      lastCandidate := None;
      stableHits := 0;
    }

    /** onCandidateDetected: count an agreeing pass or start again from the
        new candidate; accept once the count reaches the threshold. */
    method OnCandidateDetected(candidate: Option<ParsedMrz>, corrected: bool) returns (v: Verdict)
      modifies this
      ensures Step(State(), v) == Detect(old(State()), candidate, corrected)
    {
      if candidate.None? {
        return Ignored;
      }
      var c := candidate.value;
      if lastCandidate.Some?
        && SafeEquals(Some(lastCandidate.value.documentNumber), Some(c.documentNumber))
        && SafeEquals(Some(lastCandidate.value.name), Some(c.name))
        && SafeEquals(Some(lastCandidate.value.expiryDate), Some(c.expiryDate))
      {
        stableHits := stableHits + 1;
      } else {
        lastCandidate := candidate;
        stableHits := 1;
      }
      if stableHits >= RequiredStableHits {
        isScanning := false;
        v := Accepted(c, corrected);
      } else {
        v := Stabilising(stableHits);
      }
    }

    /** resetScanning, state part only. */
    method ResetScanning()
      modifies this
      ensures State() == Initial()
    {
      isScanning := true;
      lastCandidate := None;
      stableHits := 0;
    }

    /** handleVisionText: sort top to bottom, resolve directly, then try the
        corrections, reporting the first record found to the tracker. */
    method HandleVisionText(lines: seq<OcrLine>) returns (v: Verdict)
      modifies this
      ensures Step(State(), v) == HandleText(old(State()), lines)
    {
      if |lines| == 0 {
        return NoMrz;
      }
      var sorted := SortBy(lines, Vertical);
      var parsed := FindAndParseMrzTD3Only(sorted);
      if parsed.Some? {
        v := OnCandidateDetected(parsed, false);
        return;
      }
      var corrected := TryHeuristicCorrectionsTD3(sorted);
      if corrected.Some? {
        v := OnCandidateDetected(corrected, true);
        return;
      }
      v := NoMrz;
    }

    /** The success listener: handle the pass only while scanning. */
    method OnRecognised(lines: seq<OcrLine>) returns (v: Verdict)
      modifies this
      ensures Step(State(), v) == Recognised(old(State()), lines)
    {
      if isScanning {
        v := HandleVisionText(lines);
      } else {
        v := Ignored;
      }
    }
  }

  // ---------------------------------------------------------------------------
  // What the tracker guarantees

  /** A candidate is remembered exactly when the count is positive, and
      scanning goes on exactly while the count is below the threshold. */
  predicate Inv(s: TrackerState) {
    && (s.lastCandidate.None? <==> s.stableHits == 0)
    && (s.isScanning <==> s.stableHits < RequiredStableHits)
  }

  lemma InitialInv()
    ensures Inv(Initial()) && Initial().isScanning
  {
  }

  /** A pass reported while scanning keeps the invariant. */
  lemma DetectKeepsInv(s: TrackerState, candidate: Option<ParsedMrz>, corrected: bool)
    requires Inv(s) && s.isScanning
    ensures Inv(Detect(s, candidate, corrected).state)
  {
  }

  /** A missing candidate changes nothing. */
  lemma DetectNothing(s: TrackerState, corrected: bool)
    ensures Detect(s, None, corrected) == Step(s, Ignored)
  {
  }

  /** A candidate that disagrees with the remembered one, or arrives when
      none is remembered, replaces it and restarts the count at one. */
  lemma DisagreementRestarts(s: TrackerState, c: ParsedMrz, corrected: bool)
    requires Inv(s) && s.isScanning
    requires s.lastCandidate.None? || !SameIdentity(s.lastCandidate.value, c)
    ensures Detect(s, Some(c), corrected) == Step(TrackerState(true, Some(c), 1), Stabilising(1))
  {
  }

  /** A record is accepted only when the pass before it agreed on the
      document number, name and expiry date; the tracker keeps the earlier
      record, the verdict carries the later one. */
  lemma AcceptanceNeedsAgreement(s: TrackerState, candidate: Option<ParsedMrz>, corrected: bool)
    requires Inv(s) && s.isScanning
    requires Detect(s, candidate, corrected).verdict.Accepted?
    ensures candidate.Some? && s.lastCandidate.Some? && s.stableHits == 1
    ensures SameIdentity(s.lastCandidate.value, candidate.value)
    ensures Detect(s, candidate, corrected)
         == Step(TrackerState(false, s.lastCandidate, 2), Accepted(candidate.value, corrected))
  {
  }

  /** From a fresh start, two agreeing passes accept the second record. */
  lemma TwoAgreeingPassesAccept(c1: ParsedMrz, c2: ParsedMrz, f1: bool, f2: bool)
    requires SameIdentity(c1, c2)
    ensures var s1 := Detect(Initial(), Some(c1), f1);
      && s1.verdict == Stabilising(1) && s1.state.isScanning
      && Detect(s1.state, Some(c2), f2) == Step(TrackerState(false, Some(c1), 2), Accepted(c2, f2))
  {
  }

  /** A pass handled while scanning keeps the invariant. */
  lemma HandleTextKeepsInv(s: TrackerState, lines: seq<OcrLine>)
    requires Inv(s) && s.isScanning
    ensures Inv(HandleText(s, lines).state)
  {
    if lines != [] {
      var sorted := SortBy(lines, Vertical);
      DetectKeepsInv(s, Resolve(sorted), false);
      DetectKeepsInv(s, FirstSuccess(Norms(sorted), Plan()), true);
    }
  }

  /** Once a record is accepted, further passes change nothing until the
      scan is reset. */
  lemma AcceptedIsFinal(s: TrackerState, lines: seq<OcrLine>)
    requires !s.isScanning
    ensures Recognised(s, lines) == Step(s, Ignored)
  {
  }

  /** The order of a pass: the directly resolved record if there is one;
      otherwise a correction, which exists exactly when the lines resolve
      once their coordinates are dropped, and is then the record read with
      O taken as 0; otherwise the "place the MRZ" message. */
  lemma HandleTextOrder(s: TrackerState, lines: seq<OcrLine>)
    ensures var sorted := SortBy(lines, Vertical);
      var norms := Norms(sorted);
      HandleText(s, lines)
        == if lines == [] then Step(s, NoMrz)
           else if Resolve(sorted).Some? then Detect(s, Resolve(sorted), false)
           else if ResolveNorms(norms).Some? then Detect(s, Attempt(norms, Single(Substitution('O', '0'))), true)
           else Step(s, NoMrz)
  {
    var sorted := SortBy(lines, Vertical);
    SearchDecidedByFirstAttempt(Norms(sorted));
    if ResolveNorms(Norms(sorted)).Some? {
      AttemptDecided(Norms(sorted), 0);
      PlanShape();
    }
  }
}
