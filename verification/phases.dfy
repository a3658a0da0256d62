/** Labour-phase classification of one interval between two taps. The
    interval kind (break or contraction) comes from the parity of the tap
    that ends it; the phase comes from the interval's length in
    milliseconds. Ranges of neighbouring phases share their end points, so
    a length can carry two phase labels, or none. */
module Phases {
  import opened Optional
  import opened Millis

  datatype Kind = Break | Contraction

  datatype Phase = Initial | Active | Transition

  /** A tap at an even index closes a break, one at an odd index closes a
      contraction. */
  function KindAt(index: nat): (k: Kind)
    ensures k == Contraction <==> index % 2 == 1
  {
    if index % 2 == 1 then Contraction else Break
  }

  // The six duration tests, as the screen writes them.

  predicate BreakInitial(d: int) {
    d <= 30 * Minute && d >= 5 * Minute
  }

  predicate BreakActive(d: int) {
    d <= 5 * Minute && d >= 3 * Minute
  }

  predicate BreakTransition(d: int) {
    d <= 3 * Minute && d >= 2 * Minute
  }

  predicate ContractionInitial(d: int) {
    d <= 40 * Second && d >= 15 * Second
  }

  predicate ContractionActive(d: int) {
    d <= 60 * Second && d >= 40 * Second
  }

  predicate ContractionTransition(d: int) {
    d > 60 * Second
  }

  /** The six tests as one lookup: does the test for (kind, phase) accept d? */
  predicate Matches(kind: Kind, phase: Phase, d: int) {
    match (kind, phase)
    case (Break, Initial) => BreakInitial(d)
    case (Break, Active) => BreakActive(d)
    case (Break, Transition) => BreakTransition(d)
    case (Contraction, Initial) => ContractionInitial(d)
    case (Contraction, Active) => ContractionActive(d)
    case (Contraction, Transition) => ContractionTransition(d)
  }

  // An independent statement of the same classification: the table of
  // phase bands, each a lower bound (inclusive or strict) and an optional
  // inclusive upper bound.

  datatype Lower = Inclusive(v: int) | Exclusive(v: int)

  datatype Band = Band(kind: Kind, phase: Phase, lower: Lower, upper: Option<int>)

  predicate InBand(b: Band, d: int) {
    && (match b.lower
        case Inclusive(lo) => lo <= d
        case Exclusive(lo) => lo < d)
    && (match b.upper
        case None => true
        case Some(hi) => d <= hi)
  }

  const Bands: seq<Band> := [
    Band(Break, Initial, Inclusive(300_000), Some(1_800_000)),
    Band(Break, Active, Inclusive(180_000), Some(300_000)),
    Band(Break, Transition, Inclusive(120_000), Some(180_000)),
    Band(Contraction, Initial, Inclusive(15_000), Some(40_000)),
    Band(Contraction, Active, Inclusive(40_000), Some(60_000)),
    Band(Contraction, Transition, Exclusive(60_000), None)
  ]

  /** Every phase whose band for `kind` contains `d`. */
  function Classify(d: int, kind: Kind): set<Phase>
  {
    set i | 0 <= i < |Bands| && Bands[i].kind == kind && InBand(Bands[i], d) :: Bands[i].phase
  }

  /** The screen's six tests agree with the band table. */
  lemma MatchesIffClassified(kind: Kind, phase: Phase, d: int)
    ensures Matches(kind, phase, d) <==> phase in Classify(d, kind)
  {
    var i := match (kind, phase)
      case (Break, Initial) => 0
      case (Break, Active) => 1
      case (Break, Transition) => 2
      case (Contraction, Initial) => 3
      case (Contraction, Active) => 4
      case (Contraction, Transition) => 5;
    assert Bands[i].kind == kind && Bands[i].phase == phase;
    if phase in Classify(d, kind) {
      var j :| 0 <= j < |Bands| && Bands[j].kind == kind && InBand(Bands[j], d) && Bands[j].phase == phase;
      assert j == i;
    }
  }

  /** Break phases: initial for 5 to 30 minutes, active for 3 to 5,
      transition for 2 to 3, all bounds inclusive. */
  lemma BreakRanges(d: int)
    ensures Initial in Classify(d, Break) <==> 300_000 <= d <= 1_800_000
    ensures Active in Classify(d, Break) <==> 180_000 <= d <= 300_000
    ensures Transition in Classify(d, Break) <==> 120_000 <= d <= 180_000
  {
    MatchesIffClassified(Break, Initial, d);
    MatchesIffClassified(Break, Active, d);
    MatchesIffClassified(Break, Transition, d);
  }

  /** Contraction phases: initial for 15 to 40 seconds, active for 40 to
      60, transition beyond 60 seconds. */
  lemma ContractionRanges(d: int)
    ensures Initial in Classify(d, Contraction) <==> 15_000 <= d <= 40_000
    ensures Active in Classify(d, Contraction) <==> 40_000 <= d <= 60_000
    ensures Transition in Classify(d, Contraction) <==> d > 60_000
  {
    MatchesIffClassified(Contraction, Initial, d);
    MatchesIffClassified(Contraction, Active, d);
    MatchesIffClassified(Contraction, Transition, d);
  }

  /** A break of exactly 5 minutes is both initial and active; one of
      exactly 3 minutes is both active and transition. */
  lemma BreakBoundariesOverlap()
    ensures Classify(300_000, Break) == {Initial, Active}
    ensures Classify(180_000, Break) == {Active, Transition}
  {
    BreakRanges(300_000);
    BreakRanges(180_000);
  }

  /** A break gets no phase exactly when it is shorter than 2 minutes or
      longer than 30. */
  lemma BreakGaps(d: int)
    ensures Classify(d, Break) == {} <==> d < 120_000 || d > 1_800_000
  {
    BreakRanges(d);
  }

  /** A contraction of at least 15 seconds gets a phase, a shorter one
      none; active and transition never both apply. */
  lemma ContractionCoverage(d: int)
    ensures Classify(d, Contraction) != {} <==> d >= 15_000
    ensures !(Active in Classify(d, Contraction) && Transition in Classify(d, Contraction))
  {
    ContractionRanges(d);
  }

  /** A 100-second contraction is in transition; a 10-second one matches
      no phase. */
  lemma ContractionExamples()
    ensures Classify(100_000, Contraction) == {Transition}
    ensures Classify(10_000, Contraction) == {}
  {
    ContractionRanges(100_000);
    ContractionRanges(10_000);
  }
}
