/** The refresh guard of `fetchOverlayData`: a click starts the segment fetch
    and the trail-highlight fetch together and sets `isSending`; the flag is
    cleared in the `finally` of the `Promise.all` over the two. The fetches
    themselves are events: each settles by fulfilling or rejecting. */
module Refresh {

  /** The state of one of the two fetches of the latest refresh. */
  datatype Fetch = NotIssued | InFlight | Fulfilled | Rejected

  datatype Guard = Guard(isSending: bool, topTen: Fetch, highlights: Fetch)

  /** `useState(false)`, with nothing fetched yet. */
  const Initial := Guard(false, NotIssued, NotIssued)

  predicate Settled(f: Fetch) {
    f == Fulfilled || f == Rejected
  }

  /** When `Promise.all` settles: as soon as one input rejects, or once both
      have fulfilled. */
  predicate AllFinished(a: Fetch, b: Fetch) {
    a == Rejected || b == Rejected || (a == Fulfilled && b == Fulfilled)
  }

  /** When `Promise.allSettled` settles: once both inputs have settled. */
  predicate AllSettled(a: Fetch, b: Fetch) {
    Settled(a) && Settled(b)
  }

  /** A click on the load button: with a map and `isSending` false both fetches
      start and the flag is set; otherwise nothing happens. */
  function Trigger(g: Guard, mapPresent: bool): (r: Guard)
    ensures g.isSending || !mapPresent ==> r == g
    ensures !g.isSending && mapPresent ==> r.isSending && r.topTen == InFlight && r.highlights == InFlight
  {
    if mapPresent && !g.isSending then Guard(true, InFlight, InFlight) else g
  }

  /** `fetchTopTen(...).then(setTopSegments)` settles. It catches its own
      errors, so it always fulfils; the flag clears if that completes the
      `Promise.all`. */
  function TopTenSettle(g: Guard): (r: Guard)
    ensures g.topTen != InFlight ==> r == g
    ensures g.topTen == InFlight ==> r.topTen == Fulfilled && r.highlights == g.highlights
    ensures g.topTen == InFlight ==> (r.isSending <==> g.isSending && !AllFinished(Fulfilled, g.highlights))
  {
    if g.topTen != InFlight then g
    else g.(topTen := Fulfilled, isSending := g.isSending && !AllFinished(Fulfilled, g.highlights))
  }

  /** `getKomootHighlights(...).then(...)` settles: it fulfils, or rejects when
      one of its tile fetches fails. The flag clears when the `Promise.all`
      settles, which a rejection does at once. */
  function HighlightsSettle(g: Guard, ok: bool): (r: Guard)
    ensures g.highlights != InFlight ==> r == g
    ensures g.highlights == InFlight ==> r.topTen == g.topTen && (r.highlights == Fulfilled <==> ok) && Settled(r.highlights)
    ensures g.highlights == InFlight ==> (r.isSending <==> g.isSending && !AllFinished(g.topTen, r.highlights))
    ensures g.highlights == InFlight && !ok ==> !r.isSending
  {
    if g.highlights != InFlight then g
    else
      var h := if ok then Fulfilled else Rejected;
      g.(highlights := h, isSending := g.isSending && !AllFinished(g.topTen, h))
  }

  /** The same event with the flag cleared in the `finally` of a
      `Promise.allSettled`, which waits for the segment fetch too. */
  function HighlightsSettleCorrected(g: Guard, ok: bool): (r: Guard)
    ensures g.highlights != InFlight ==> r == g
    ensures g.highlights == InFlight ==> r.topTen == g.topTen && (r.highlights == Fulfilled <==> ok) && Settled(r.highlights)
    ensures g.highlights == InFlight && g.topTen == InFlight ==> r.isSending == g.isSending
  {
    if g.highlights != InFlight then g
    else
      var h := if ok then Fulfilled else Rejected;
      g.(highlights := h, isSending := g.isSending && !AllSettled(g.topTen, h))
  }

  datatype Event = Click(mapPresent: bool) | TopTenDone | HighlightsDone(ok: bool)

  function Step(g: Guard, e: Event): Guard {
    match e
    case Click(mapPresent) => Trigger(g, mapPresent)
    case TopTenDone => TopTenSettle(g)
    case HighlightsDone(ok) => HighlightsSettle(g, ok)
  }

  function StepCorrected(g: Guard, e: Event): Guard {
    match e
    case Click(mapPresent) => Trigger(g, mapPresent)
    case TopTenDone => TopTenSettle(g)
    case HighlightsDone(ok) => HighlightsSettleCorrected(g, ok)
  }

  function Run(g: Guard, es: seq<Event>): Guard
    decreases |es|
  {
    if es == [] then g else Run(Step(g, es[0]), es[1..])
  }

  function RunCorrected(g: Guard, es: seq<Event>): Guard
    decreases |es|
  {
    if es == [] then g else RunCorrected(StepCorrected(g, es[0]), es[1..])
  }

  /** The flag is set only while a fetch is outstanding. */
  predicate NeverStuck(g: Guard) {
    g.isSending ==> g.topTen == InFlight || g.highlights == InFlight
  }

  /** The flag is clear only when no fetch is outstanding: a click accepted
      now cannot overlap a fetch of an earlier refresh. */
  predicate NotReentrant(g: Guard) {
    !g.isSending ==> g.topTen != InFlight && g.highlights != InFlight
  }

  /** While the flag is set as written, the batch is one of the states the
      two callbacks can leave it in before the `Promise.all` settles. This is
      the one-way half of `FlagTracksAll` below, which also says the flag
      stays set until then. */
  predicate Pending(g: Guard) {
    g.isSending ==>
      (g.topTen == InFlight && (g.highlights == InFlight || g.highlights == Fulfilled)) ||
      (g.topTen == Fulfilled && g.highlights == InFlight)
  }

  lemma {:induction false} RunPending(g: Guard, es: seq<Event>)
    requires Pending(g)
    ensures Pending(Run(g, es)) && NeverStuck(Run(g, es))
    decreases |es|
  {
    if es != [] {
      var g' := Step(g, es[0]);
      assert Pending(g');
      RunPending(g', es[1..]);
    }
  }

  /** As written, the flag is set exactly while the `Promise.all` of the
      latest refresh has not settled. The segment fetch never rejects, and the
      two fetches are issued together. */
  predicate FlagTracksAll(g: Guard) {
    (g.isSending <==> g.topTen != NotIssued && !AllFinished(g.topTen, g.highlights)) &&
    g.topTen != Rejected &&
    (g.topTen == NotIssued <==> g.highlights == NotIssued)
  }

  lemma {:induction false} RunFlagTracksAll(g: Guard, es: seq<Event>)
    requires FlagTracksAll(g)
    ensures FlagTracksAll(Run(g, es))
    decreases |es|
  {
    if es != [] {
      var g' := Step(g, es[0]);
      assert FlagTracksAll(g');
      RunFlagTracksAll(g', es[1..]);
    }
  }

  /** From the initial state, the flag stays set until the `Promise.all` of the
      latest refresh settles, and is clear from then on. */
  lemma FlagUntilAllSettles(es: seq<Event>)
    ensures var g := Run(Initial, es);
      g.isSending <==> g.topTen != NotIssued && !AllFinished(g.topTen, g.highlights)
  {
    RunFlagTracksAll(Initial, es);
  }

  /** As written, the flag never stays set once both fetches have settled. */
  lemma RunNeverStuck(es: seq<Event>)
    ensures NeverStuck(Run(Initial, es))
  {
    RunPending(Initial, es);
  }

  /** As written the guard is re-entrant: a failed trail-highlight fetch clears
      `isSending` while the segment fetch is still outstanding, so the next
      click starts a second segment fetch beside the first. */
  lemma PromiseAllReentry()
    ensures var g := Run(Initial, [Click(true), HighlightsDone(false)]);
      !g.isSending && g.topTen == InFlight && !NotReentrant(g) &&
      Step(g, Click(true)).isSending
  {
    var g1 := Step(Initial, Click(true));
    var g2 := Step(g1, HighlightsDone(false));
    assert [Click(true), HighlightsDone(false)][1..] == [HighlightsDone(false)];
    assert Run(Initial, [Click(true), HighlightsDone(false)]) == Run(g2, []);
  }

  /** With `allSettled`, the flag is set exactly while a fetch is outstanding. */
  predicate Guarded(g: Guard) {
    NeverStuck(g) && NotReentrant(g) &&
    (g.isSending ==> g.topTen != NotIssued && g.highlights != NotIssued)
  }

  lemma {:induction false} RunCorrectedGuarded(g: Guard, es: seq<Event>)
    requires Guarded(g)
    ensures Guarded(RunCorrected(g, es))
    decreases |es|
  {
    if es != [] {
      var g' := StepCorrected(g, es[0]);
      assert Guarded(g');
      RunCorrectedGuarded(g', es[1..]);
    }
  }

  /** From the initial state, no sequence of clicks and settlements ever lets
      a click start a refresh while a fetch of the previous one is outstanding. */
  lemma CorrectedNeverReentrant(es: seq<Event>, mapPresent: bool)
    ensures var g := RunCorrected(Initial, es);
      Trigger(g, mapPresent) != g ==> g.topTen != InFlight && g.highlights != InFlight
  {
    RunCorrectedGuarded(Initial, es);
  }

  /** The component's state, updated in place by the button handler and the
      promise callbacks. */
  class RefreshGuard {
    var isSending: bool
    var topTen: Fetch
    var highlights: Fetch

    function State(): Guard
      reads this
    {
      Guard(isSending, topTen, highlights)
    }

    constructor ()
      ensures State() == Initial
    {
      isSending, topTen, highlights := false, NotIssued, NotIssued;
    }

    /** `fetchOverlayData`; `started` says whether the two fetches were issued. */
    method FetchOverlayData(mapPresent: bool) returns (started: bool)
      modifies this
      ensures started <==> mapPresent && !old(isSending)
      ensures State() == Trigger(old(State()), mapPresent)
    {
      started := false;
      if mapPresent && !isSending {
        isSending := true;
        topTen, highlights := InFlight, InFlight;
        started := true;
      }
    }

    method TopTenSettled()
      modifies this
      ensures State() == TopTenSettle(old(State()))
    {
      if topTen == InFlight {
        topTen := Fulfilled;
        if AllFinished(topTen, highlights) {
          isSending := false;
        }
      }
    }

    method HighlightsSettled(ok: bool)
      modifies this
      ensures State() == HighlightsSettle(old(State()), ok)
    {
      if highlights == InFlight {
        highlights := if ok then Fulfilled else Rejected;
        if AllFinished(topTen, highlights) {
          isSending := false;
        }
      }
    }

    /** The settlement with the flag cleared by `Promise.allSettled`. */
    method HighlightsSettledCorrected(ok: bool)
      modifies this
      ensures State() == HighlightsSettleCorrected(old(State()), ok)
    {
      if highlights == InFlight {
        highlights := if ok then Fulfilled else Rejected;
        if AllSettled(topTen, highlights) {
          isSending := false;
        }
      }
    }
  }
}
