/** The contraction timer screen: a log of tap timestamps (milliseconds),
    persisted whole under one key after every tap, rendered as a list of
    intervals labelled break or contraction by parity and tagged with
    labour phases by length. The clock is a parameter (`now`). */
module ContractionsScreen {
  import opened Optional
  import opened KeyValueStore
  import opened TapJson
  import opened Phases
  import opened DurationFormat

  const TapTimesKey: string := "tapTimes"

  /** `showFirstItem` hides the row of the very first tap once anything
      has been logged or restored. */
  datatype TapScreen = TapScreen(taps: seq<int>, showFirstItem: bool)

  const StartScreen: TapScreen := TapScreen([], true)

  /** The interval ending at `index`: undefined for the first tap, whose
      predecessor `tapTimes[-1]` is `undefined`; every comparison with the
      resulting NaN is false. */
  function Gap(taps: seq<int>, index: nat): int
    requires 0 < index < |taps|
  {
    taps[index] - taps[index - 1]
  }

  // The six per-row predicates of the screen.

  predicate InitialPhaseBreaks(taps: seq<int>, index: nat)
    requires index < |taps|
  {
    index % 2 == 0 && index > 0 && BreakInitial(Gap(taps, index))
  }

  predicate ActivePhaseBreaks(taps: seq<int>, index: nat)
    requires index < |taps|
  {
    index % 2 == 0 && index > 0 && BreakActive(Gap(taps, index))
  }

  predicate TransitionPhaseBreaks(taps: seq<int>, index: nat)
    requires index < |taps|
  {
    index % 2 == 0 && index > 0 && BreakTransition(Gap(taps, index))
  }

  predicate InitialPhaseContraction(taps: seq<int>, index: nat)
    requires index < |taps|
  {
    index % 2 == 1 && ContractionInitial(Gap(taps, index))
  }

  predicate ActivePhaseContraction(taps: seq<int>, index: nat)
    requires index < |taps|
  {
    index % 2 == 1 && ContractionActive(Gap(taps, index))
  }

  predicate TransitionPhaseContraction(taps: seq<int>, index: nat)
    requires index < |taps|
  {
    index % 2 == 1 && ContractionTransition(Gap(taps, index))
  }

  predicate AnyBreakPhase(taps: seq<int>, index: nat)
    requires index < |taps|
  {
    InitialPhaseBreaks(taps, index) || ActivePhaseBreaks(taps, index) || TransitionPhaseBreaks(taps, index)
  }

  predicate AnyContractionPhase(taps: seq<int>, index: nat)
    requires index < |taps|
  {
    InitialPhaseContraction(taps, index) || ActivePhaseContraction(taps, index) || TransitionPhaseContraction(taps, index)
  }

  /** The row's test for one (kind, phase) pair: the row closes an
      interval of that kind and the duration test for the pair accepts
      it. */
  predicate PhaseShown(taps: seq<int>, index: nat, kind: Kind, phase: Phase)
    requires index < |taps|
  {
    index > 0 && KindAt(index) == kind && Matches(kind, phase, Gap(taps, index))
  }

  /** Break labels appear only on even rows after the first, contraction
      labels only on odd rows, so no row carries both. */
  lemma ParityExclusive(taps: seq<int>, index: nat)
    requires index < |taps|
    ensures AnyBreakPhase(taps, index) ==> index % 2 == 0 && index > 0
    ensures AnyContractionPhase(taps, index) ==> index % 2 == 1
    ensures !(AnyBreakPhase(taps, index) && AnyContractionPhase(taps, index))
  {
  }

  /** A row shows a phase label exactly when the row closes an interval of
      that row's kind and the band table puts the interval's length in
      that phase. */
  lemma PhaseShownIffClassified(taps: seq<int>, index: nat, kind: Kind, phase: Phase)
    requires index < |taps|
    ensures PhaseShown(taps, index, kind, phase) <==>
      index > 0 && kind == KindAt(index) && phase in Classify(Gap(taps, index), kind)
  {
    if index > 0 {
      MatchesIffClassified(kind, phase, Gap(taps, index));
    }
  }

  // ---------------------------------------------------------------------
  // Taps and persistence

  datatype TapStep = TapStep(screen: TapScreen, store: Store)

  /** The stored entry parses back to exactly `taps`. */
  predicate Persisted(store: Store, taps: seq<int>) {
    TapTimesKey in store && Decode(store[TapTimesKey]) == Some(taps)
  }

  /** `handleTap`: append `now` and write the whole new list back. */
  function HandleTap(s: TapScreen, store: Store, now: int): (r: TapStep)
    ensures |r.screen.taps| == |s.taps| + 1
    ensures r.screen.taps[..|s.taps|] == s.taps && r.screen.taps[|s.taps|] == now
    ensures !r.screen.showFirstItem
    ensures TapTimesKey in r.store && r.store[TapTimesKey] == Encode(r.screen.taps)
    ensures forall k :: k != TapTimesKey ==> GetItem(r.store, k) == GetItem(store, k)
  {
    var taps := s.taps + [now];
    TapStep(TapScreen(taps, false), SetItem(store, TapTimesKey, Encode(taps)))
  }

  /** The mount-time restore: an absent or empty entry leaves the screen
      as it is, and so does a value that does not parse (the parse sits
      inside the `try` and its failure is only logged). */
  function LoadTapTimes(s: TapScreen, store: Store): (r: TapScreen)
    ensures (TapTimesKey !in store || store[TapTimesKey] == "") ==> r == s
    ensures TapTimesKey in store && store[TapTimesKey] != "" && Decode(store[TapTimesKey]).None? ==> r == s
    ensures TapTimesKey in store && store[TapTimesKey] != "" && Decode(store[TapTimesKey]).Some? ==>
      r.taps == Decode(store[TapTimesKey]).value && !r.showFirstItem
  {
    match GetItem(store, TapTimesKey)
    case None => s
    case Some(saved) =>
      if saved == "" then s
      else match Decode(saved)
        case None => s
        case Some(taps) => TapScreen(taps, false)
  }

  /** The list written by a tap parses back to the new in-memory log. */
  lemma HandleTapPersists(s: TapScreen, store: Store, now: int)
    ensures Persisted(HandleTap(s, store, now).store, HandleTap(s, store, now).screen.taps)
  {
    DecodeEncode(HandleTap(s, store, now).screen.taps);
  }

  /** A restart after a tap restores exactly the in-memory log. */
  lemma RestoreAfterTap(s: TapScreen, store: Store, now: int, start: TapScreen)
    ensures LoadTapTimes(start, HandleTap(s, store, now).store) == HandleTap(s, store, now).screen
  {
    var r := HandleTap(s, store, now);
    HandleTapPersists(s, store, now);
    assert Encode(r.screen.taps) != "";
  }

  /** A run of taps at the given times. */
  function TapAll(s: TapScreen, store: Store, times: seq<int>): TapStep
    decreases |times|
  {
    if times == [] then TapStep(s, store)
    else
      var step := HandleTap(s, store, times[0]);
      TapAll(step.screen, step.store, times[1..])
  }

  /** One step of a run: the first tap, then the rest. */
  lemma TapAllStep(s: TapScreen, store: Store, times: seq<int>)
    requires times != []
    ensures TapAll(s, store, times) ==
      TapAll(HandleTap(s, store, times[0]).screen, HandleTap(s, store, times[0]).store, times[1..])
  {
  }

  /** After taps at t1 ... tN the log in memory is the old log followed
      by t1 ... tN. */
  lemma {:induction false} TapAllAppends(s: TapScreen, store: Store, times: seq<int>)
    ensures TapAll(s, store, times).screen.taps == s.taps + times
    decreases |times|
  {
    if times == [] {
      assert s.taps + times == s.taps;
    } else {
      var step := HandleTap(s, store, times[0]);
      TapAllStep(s, store, times);
      TapAllAppends(step.screen, step.store, times[1..]);
      assert step.screen.taps == s.taps + [times[0]];
      assert s.taps + [times[0]] + times[1..] == s.taps + times;
    }
  }

  /** After a non-empty run of taps the stored entry decodes to the log
      in memory. */
  lemma {:induction false} TapAllPersists(s: TapScreen, store: Store, times: seq<int>)
    requires times != []
    ensures Persisted(TapAll(s, store, times).store, TapAll(s, store, times).screen.taps)
    decreases |times|
  {
    var step := HandleTap(s, store, times[0]);
    TapAllStep(s, store, times);
    if |times| == 1 {
      assert TapAll(step.screen, step.store, times[1..]) == step;
      HandleTapPersists(s, store, times[0]);
    } else {
      TapAllPersists(step.screen, step.store, times[1..]);
    }
  }

  /** Property of the whole screen: starting from nothing, taps at
      t1 ... tN leave exactly [t1, ..., tN] in memory and in the store. */
  lemma TapLogFromScratch(store: Store, times: seq<int>)
    requires times != []
    ensures TapAll(StartScreen, store, times).screen.taps == times
    ensures Persisted(TapAll(StartScreen, store, times).store, times)
  {
    TapAllAppends(StartScreen, store, times);
    TapAllPersists(StartScreen, store, times);
    assert StartScreen.taps + times == times;
  }

  /** Once the log is non-empty the first tap's row stays hidden. */
  predicate FirstRowHidden(s: TapScreen) {
    |s.taps| > 0 ==> !s.showFirstItem
  }

  lemma FirstRowHiddenInvariant(s: TapScreen, store: Store, now: int)
    requires FirstRowHidden(s)
    ensures FirstRowHidden(HandleTap(s, store, now).screen)
    ensures FirstRowHidden(LoadTapTimes(s, store))
  {
  }

  // ---------------------------------------------------------------------
  // Rendering

  /** The length of every interval, oldest first. */
  function Gaps(taps: seq<int>): (g: seq<int>)
    ensures |g| == if |taps| == 0 then 0 else |taps| - 1
    ensures forall i :: 1 <= i < |taps| ==> g[i - 1] == taps[i] - taps[i - 1]
    decreases |taps|
  {
    if |taps| < 2 then []
    else Gaps(taps[..|taps| - 1]) + [taps[|taps| - 1] - taps[|taps| - 2]]
  }

  function FormatAll(ds: seq<int>): (r: seq<string>)
    ensures |r| == |ds|
    ensures forall i :: 0 <= i < |ds| ==> r[i] == FormatDuration(ds[i])
  {
    if ds == [] then [] else [FormatDuration(ds[0])] + FormatAll(ds[1..])
  }

  /** `calculateDurations`: the `mm:ss` text of every interval, oldest
      first, one fewer than there are taps. */
  function CalculateDurations(taps: seq<int>): (r: seq<string>)
    ensures |r| == if |taps| == 0 then 0 else |taps| - 1
  {
    FormatAll(Gaps(taps))
  }

  lemma GapsEntry(taps: seq<int>, i: nat)
    requires 1 <= i < |taps|
    ensures Gaps(taps)[i - 1] == Gap(taps, i)
  {
  }

  lemma FormattedGapsEntry(taps: seq<int>, i: nat)
    requires 1 <= i < |taps|
    ensures CalculateDurations(taps)[i - 1] == FormatDuration(Gaps(taps)[i - 1])
  {
  }

  /** Entry `i - 1` of the list is the text of the interval that tap `i`
      closes. */
  lemma CalculateDurationsEntry(taps: seq<int>, i: nat)
    requires 1 <= i < |taps|
    ensures CalculateDurations(taps)[i - 1] == FormatDuration(Gap(taps, i))
  {
    GapsEntry(taps, i);
    FormattedGapsEntry(taps, i);
  }

  /** The phase labels of a row, in the order the row renders them. */
  function PhaseLabels(taps: seq<int>, index: nat): seq<Phase>
    requires index < |taps|
  {
    (if InitialPhaseBreaks(taps, index) then [Initial] else [])
    + (if ActivePhaseBreaks(taps, index) then [Active] else [])
    + (if TransitionPhaseBreaks(taps, index) then [Transition] else [])
    + (if InitialPhaseContraction(taps, index) then [Initial] else [])
    + (if ActivePhaseContraction(taps, index) then [Active] else [])
    + (if TransitionPhaseContraction(taps, index) then [Transition] else [])
  }

  /** One list row: phase labels, the kind word, how long the interval
      lasted, and its start and end timestamps. */
  datatype Row = Row(phases: seq<Phase>, kind: Kind, lasted: Option<string>, start: Option<int>, end: int)

  function KindText(k: Kind): string
  {
    match k
    case Contraction => "Схватка"
    case Break => "Пауза"
  }

  function RenderItem(s: TapScreen, index: nat): Option<Row>
    requires index < |s.taps|
  {
    if index == 0 && !s.showFirstItem then None
    else
      Some(Row(
        PhaseLabels(s.taps, index),
        KindAt(index),
        if index > 0 then Some(CalculateDurations(s.taps)[index - 1]) else None,
        if index > 0 then Some(s.taps[index - 1]) else None,
        s.taps[index]))
  }

  /** A later row shows the interval since the previous tap and its
      length as `mm:ss`. */
  lemma RenderedRowLasted(s: TapScreen, index: nat)
    requires 0 < index < |s.taps|
    ensures RenderItem(s, index).Some?
    ensures RenderItem(s, index).value.lasted == Some(FormatDuration(Gap(s.taps, index)))
    ensures RenderItem(s, index).value.start == Some(s.taps[index - 1])
    ensures RenderItem(s, index).value.end == s.taps[index]
    ensures RenderItem(s, index).value.kind == KindAt(index)
  {
    CalculateDurationsEntry(s.taps, index);
  }

  /** A phase label is in a row's list exactly when one of the six
      predicates for that phase holds there. */
  lemma PhaseLabelsMembers(taps: seq<int>, index: nat, p: Phase)
    requires index < |taps|
    ensures p in PhaseLabels(taps, index) <==> PhaseShown(taps, index, Break, p) || PhaseShown(taps, index, Contraction, p)
  {
  }

  /** A later row carries exactly the phases the band table gives the
      interval's length for the row's kind. */
  lemma RenderedRowPhases(s: TapScreen, index: nat)
    requires 0 < index < |s.taps|
    ensures RenderItem(s, index).Some?
    ensures forall p :: p in RenderItem(s, index).value.phases <==>
      p in Classify(Gap(s.taps, index), KindAt(index))
  {
    forall p
      ensures p in PhaseLabels(s.taps, index) <==> p in Classify(Gap(s.taps, index), KindAt(index))
    {
      PhaseLabelsMembers(s.taps, index, p);
      PhaseShownIffClassified(s.taps, index, Break, p);
      PhaseShownIffClassified(s.taps, index, Contraction, p);
    }
  }

  /** While the list is visible (some tap logged) the first tap's row is
      never drawn. */
  lemma FirstRowNeverRendered(s: TapScreen)
    requires FirstRowHidden(s) && |s.taps| > 0
    ensures RenderItem(s, 0).None?
  {
  }

  // ---------------------------------------------------------------------
  // Live caption and button

  function LiveLabel(length: nat): string
  {
    if length == 0 then "Пауза"
    else if length % 2 == 1 then "Схватка"
    else "Пауза"
  }

  function ButtonLabel(length: nat): string
  {
    if length == 0 then "Начать схватку"
    else if length % 2 == 1 then "Закончить схватку"
    else "Начать схватку"
  }

  /** The live caption names the kind of the interval now running, the
      one the next tap will close; the button offers to end a contraction
      exactly when one is running. */
  lemma LabelsFollowParity(length: nat)
    ensures LiveLabel(length) == KindText(KindAt(length))
    ensures LiveLabel(length) == "Схватка" <==> length % 2 == 1
    ensures ButtonLabel(length) == "Закончить схватку" <==> length % 2 == 1
    ensures ButtonLabel(length) == "Начать схватку" <==> length % 2 == 0
  {
  }

  /** The live line: caption, then the running time since the last tap. */
  function LiveText(s: TapScreen, liveDuration: int): string
  {
    LiveLabel(|s.taps|) + ": " + FormatDuration(liveDuration)
  }

  /** The live line names the kind of the interval now running, then its
      running time; for a non-negative time that text reads back as its
      whole minutes and left-over seconds. */
  lemma LiveTextShape(s: TapScreen, liveDuration: int)
    ensures LiveText(s, liveDuration)[..|KindText(KindAt(|s.taps|))| + 2] == KindText(KindAt(|s.taps|)) + ": "
    ensures liveDuration >= 0 ==>
      ParseClock(LiveText(s, liveDuration)[|KindText(KindAt(|s.taps|))| + 2..]) ==
        Some(Clock(liveDuration / 60_000, (liveDuration % 60_000) / 1000))
  {
    var caption := KindText(KindAt(|s.taps|));
    LabelsFollowParity(|s.taps|);
    var text := LiveText(s, liveDuration);
    assert text == caption + ": " + FormatDuration(liveDuration);
    assert text[..|caption| + 2] == caption + ": ";
    assert text[|caption| + 2..] == FormatDuration(liveDuration);
    if liveDuration >= 0 {
      FormatDurationRoundTrip(liveDuration);
    }
  }
}
