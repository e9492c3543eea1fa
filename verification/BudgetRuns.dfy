/** Whole runs of one budget: what the counters hold after any interleaving of reservations and releases. */
module BudgetRuns {
  import opened Prelude
  import opened Cost
  import opened Budget

  // A reservation that was granted at some time; a process that dies simply never releases its own.
  datatype Entry = Entry(hold: Hold, released: bool)

  datatype State = State(record: seq<byte>, ledger: seq<Entry>)

  datatype Action =
    | Reserve(start: int64, req: BudgetRequest, io: Outcome)  // start is read from the clock before the transaction
    | Release(entry: nat, io: Outcome)

  /** What the transactions of FileBudget.Reserve and FileBudgetReservation.Release do. */
  function Act(limits: Limits, s: State, a: Action): State {
    match a
    case Reserve(start, req, io) =>
      (match ChargeOf(limits, s.record, start, req, io)
       case Refused(_) => s
       case Charged(after) =>
         AcceptedShape(limits, s.record, start, req, io);
         State(after, s.ledger + [Entry(HoldOf(start, req), false)]))
    case Release(n, io) =>
      if n >= |s.ledger| || s.ledger[n].released then s
      else
        match RefundOf(s.record, s.ledger[n].hold, io)
        case Returned(after) => State(after, s.ledger[n := s.ledger[n].(released := true)])
        case _ => s
  }

  datatype Totals = Totals(requests: nat, inputBytes: nat, outputTokens: nat, costMicros: nat)

  function Plus(t: Totals, h: Hold): Totals {
    Totals(t.requests + 1, t.inputBytes + h.inputBytes, t.outputTokens + h.outputTokens, t.costMicros + h.costMicros)
  }

  predicate Counts(e: Entry, window: int64) {
    !e.released && e.hold.windowStart == window
  }

  /** The unreleased reservations of one window, added up. */
  function Held(ledger: seq<Entry>, window: int64): Totals {
    if ledger == [] then Totals(0, 0, 0, 0)
    else
      var t, last := Held(ledger[..|ledger| - 1], window), ledger[|ledger| - 1];
      if Counts(last, window) then Plus(t, last.hold) else t
  }

  predicate Matches(c: Counters, t: Totals) {
    c.requests == t.requests && c.inputBytes == t.inputBytes && c.outputTokens == t.outputTokens && c.costMicros == t.costMicros
  }

  predicate Within(t: Totals, limits: Limits) {
    && t.requests <= limits.requests && t.inputBytes <= limits.inputBytes && t.outputTokens <= limits.outputTokens
    && (limits.costMicros > 0 ==> t.costMicros <= limits.costMicros)
  }

  /**
   * The record decodes, its four counters are the sums over the unreleased reservations of its window, which stay within
   * the limits, and no reservation is of a later window.
   */
  predicate Inv(limits: Limits, s: State) {
    && DecodeBudget(s.record).Some?
    && (var c := DecodeBudget(s.record).value;
        && Matches(c, Held(s.ledger, c.windowStart))
        && Within(Held(s.ledger, c.windowStart), limits)
        && (forall e :: e in s.ledger ==> e.hold.windowStart <= c.windowStart)
        && (s.ledger != [] ==> exists e :: e in s.ledger && e.hold.windowStart == c.windowStart))
  }

  /** Transactions commit in non-decreasing window order. */
  predicate InOrder(s: State, a: Action) {
    a.Reserve? ==> forall e :: e in s.ledger ==> e.hold.windowStart <= a.start
  }

  lemma HeldAppend(ledger: seq<Entry>, e: Entry, window: int64)
    ensures Held(ledger + [e], window) == if Counts(e, window) then Plus(Held(ledger, window), e.hold) else Held(ledger, window)
  {
    assert (ledger + [e])[..|ledger|] == ledger;
  }

  lemma {:induction false} HeldNone(ledger: seq<Entry>, window: int64)
    requires forall e :: e in ledger ==> e.hold.windowStart < window
    ensures Held(ledger, window) == Totals(0, 0, 0, 0)
  {
    if ledger != [] {
      assert ledger[|ledger| - 1] in ledger;
      HeldNone(ledger[..|ledger| - 1], window);
    }
  }

  /** Releasing one live entry takes exactly its amounts out of its own window and nothing out of any other. */
  lemma {:induction false} HeldRelease(ledger: seq<Entry>, n: nat, window: int64)
    requires n < |ledger| && !ledger[n].released
    ensures var after := ledger[n := ledger[n].(released := true)];
            Held(ledger, window) == if Counts(ledger[n], window) then Plus(Held(after, window), ledger[n].hold) else Held(after, window)
    decreases |ledger|
  {
    var after := ledger[n := ledger[n].(released := true)];
    var init := ledger[..|ledger| - 1];
    if n < |ledger| - 1 {
      HeldRelease(init, n, window);
      assert after[..|ledger| - 1] == init[n := init[n].(released := true)];
    } else {
      assert after[..|ledger| - 1] == init;
    }
  }

  /**
   * A reservation in window order is granted exactly when it is well formed, what its window holds already leaves room for it
   * under every limit, the sum of costs can be counted, and nothing fails; the counters then hold it too.
   */
  lemma GrantedIff(limits: Limits, s: State, start: int64, req: BudgetRequest, io: Outcome)
    requires Inv(limits, s) && InOrder(s, Reserve(start, req, io))
    ensures var held, charge := Held(s.ledger, start), ChargeOf(limits, s.record, start, req, io);
      && (charge.Charged? <==>
            && io.Fine? && req.inputBytes >= 1 && req.maxOutputTokens >= 1 && (limits.costMicros == 0 || req.costMicros >= 1)
            && held.requests + 1 <= limits.requests && held.inputBytes + req.inputBytes <= limits.inputBytes
            && held.outputTokens + req.maxOutputTokens <= limits.outputTokens
            && held.costMicros + req.costMicros < 0x1_0000_0000_0000_0000
            && (limits.costMicros == 0 || held.costMicros + req.costMicros <= limits.costMicros))
      && (charge.Charged? ==>
            DecodeBudget(charge.record) ==
              Some(Counters(start, held.requests + 1, held.inputBytes + req.inputBytes, held.outputTokens + req.maxOutputTokens,
                            held.costMicros + req.costMicros)))
  {
    hide DecodeBudget, EncodeBudget, Held;
    var stored := DecodeBudget(s.record).value;
    if stored.windowStart != start {
      NoLaterThan(s.ledger, stored.windowStart, start);
      HeldNone(s.ledger, start);
    }
    var c := InWindow(stored, start);
    assert Matches(c, Held(s.ledger, start));
    if ChargeOf(limits, s.record, start, req, io).Charged? {
      RecordRoundTrip(Counters(start, c.requests + 1, c.inputBytes + req.inputBytes, c.outputTokens + req.maxOutputTokens,
                               c.costMicros + req.costMicros));
    }
  }

  lemma ReserveKeepsInv(limits: Limits, s: State, a: Action)
    requires a.Reserve? && Inv(limits, s) && InOrder(s, a)
    ensures Inv(limits, Act(limits, s, a))
  {
    hide DecodeBudget, EncodeBudget, Held;
    var charge := ChargeOf(limits, s.record, a.start, a.req, a.io);
    if charge.Charged? {
      AcceptedShape(limits, s.record, a.start, a.req, a.io);
      var e := Entry(HoldOf(a.start, a.req), false);
      var stored := DecodeBudget(s.record).value;
      var c := InWindow(stored, a.start);
      if stored.windowStart != a.start {
        NoLaterThan(s.ledger, stored.windowStart, a.start);
        HeldNone(s.ledger, a.start);
      }
      assert Matches(c, Held(s.ledger, a.start));
      HeldAppend(s.ledger, e, a.start);
      RecordRoundTrip(Counters(a.start, c.requests + 1, c.inputBytes + a.req.inputBytes,
                               c.outputTokens + a.req.maxOutputTokens, c.costMicros + a.req.costMicros));
      assert e in s.ledger + [e];
    }
  }

  lemma NoLaterThan(ledger: seq<Entry>, stored: int64, start: int64)
    requires stored != start && forall e :: e in ledger ==> e.hold.windowStart <= stored && e.hold.windowStart <= start
    requires ledger != [] ==> exists e :: e in ledger && e.hold.windowStart == stored
    ensures forall e :: e in ledger ==> e.hold.windowStart < start
  {
  }

  /**
   * Releasing an unreleased reservation never meets counters too small for it; it succeeds whenever the database commits,
   * and takes out exactly what it put in, if its window is still the current one.
   */
  lemma LiveReleaseSucceeds(limits: Limits, s: State, n: nat, io: Outcome)
    requires Inv(limits, s) && n < |s.ledger| && !s.ledger[n].released
    ensures RefundOf(s.record, s.ledger[n].hold, io) != CountersTooSmall
    ensures io.Fine? ==> RefundOf(s.record, s.ledger[n].hold, io).Returned?
    ensures io.Fine? ==>
      var c, h := DecodeBudget(s.record).value, s.ledger[n].hold;
      DecodeBudget(RefundOf(s.record, h, io).record) ==
        if c.windowStart != h.windowStart then Some(c)
        else Some(Counters(c.windowStart, c.requests - 1, c.inputBytes - h.inputBytes, c.outputTokens - h.outputTokens,
                           c.costMicros - h.costMicros))
  {
    hide DecodeBudget, EncodeBudget, Held;
    var c, h := DecodeBudget(s.record).value, s.ledger[n].hold;
    HeldRelease(s.ledger, n, c.windowStart);
    if c.windowStart == h.windowStart {
      RecordRoundTrip(Counters(c.windowStart, c.requests - 1, c.inputBytes - h.inputBytes, c.outputTokens - h.outputTokens,
                               c.costMicros - h.costMicros));
    }
  }

  /** A release that the database commits takes effect: the reservation is gone from its window, and from no other. */
  lemma ReleaseTakesEffect(limits: Limits, s: State, n: nat, window: int64)
    requires Inv(limits, s) && n < |s.ledger| && !s.ledger[n].released
    ensures var t := Act(limits, s, Release(n, Fine));
      && |t.ledger| == |s.ledger| && t.ledger[n].released
      && Held(s.ledger, window) ==
           (if s.ledger[n].hold.windowStart == window then Plus(Held(t.ledger, window), s.ledger[n].hold) else Held(t.ledger, window))
  {
    hide DecodeBudget, EncodeBudget, Held;
    LiveReleaseSucceeds(limits, s, n, Fine);
    HeldRelease(s.ledger, n, window);
  }

  lemma ReleaseKeepsInv(limits: Limits, s: State, a: Action)
    requires a.Release? && Inv(limits, s)
    ensures Inv(limits, Act(limits, s, a))
  {
    hide DecodeBudget, EncodeBudget, Held;
    if a.entry < |s.ledger| && !s.ledger[a.entry].released {
      var c := DecodeBudget(s.record).value;
      LiveReleaseSucceeds(limits, s, a.entry, a.io);
      LiveReleaseSucceeds(limits, s, a.entry, Fine);
      HeldRelease(s.ledger, a.entry, c.windowStart);
      var after := s.ledger[a.entry := s.ledger[a.entry].(released := true)];
      assert s.ledger[a.entry] in s.ledger;
      SameWindows(s.ledger, a.entry, c.windowStart);
    }
  }

  lemma SameWindows(ledger: seq<Entry>, n: nat, window: int64)
    requires n < |ledger|
    requires exists e :: e in ledger && e.hold.windowStart == window
    ensures exists e :: e in ledger[n := ledger[n].(released := true)] && e.hold.windowStart == window
  {
    var after := ledger[n := ledger[n].(released := true)];
    var e :| e in ledger && e.hold.windowStart == window;
    var i :| 0 <= i < |ledger| && ledger[i] == e;
    assert after[i] in after && after[i].hold == e.hold;
  }

  // ---- runs

  function Run(limits: Limits, s: State, run: seq<Action>): State
    decreases |run|
  {
    if run == [] then s else Run(limits, Act(limits, s, run[0]), run[1..])
  }

  predicate RunInOrder(limits: Limits, s: State, run: seq<Action>)
    decreases |run|
  {
    run == [] || (InOrder(s, run[0]) && RunInOrder(limits, Act(limits, s, run[0]), run[1..]))
  }

  /** Conservation over every run whose transactions commit in window order. */
  lemma {:induction false} RunConserves(limits: Limits, s: State, run: seq<Action>)
    requires Inv(limits, s) && RunInOrder(limits, s, run)
    ensures Inv(limits, Run(limits, s, run))
    decreases |run|
  {
    hide Inv, Act, InOrder;
    if run != [] {
      if run[0].Reserve? {
        ReserveKeepsInv(limits, s, run[0]);
      } else {
        ReleaseKeepsInv(limits, s, run[0]);
      }
      RunConserves(limits, Act(limits, s, run[0]), run[1..]);
    }
  }

  const EMPTY: State := State([], [])

  lemma FreshBudget(limits: Limits)
    ensures Inv(limits, EMPTY) && AllWithin(limits, EMPTY.ledger)
  {
  }

  // ---- every window, not only the stored one

  /** What each window holds is within the limits. */
  ghost predicate AllWithin(limits: Limits, ledger: seq<Entry>) {
    forall window: int64 :: Within(Held(ledger, window), limits)
  }

  lemma ActKeepsAllWithin(limits: Limits, s: State, a: Action)
    requires Inv(limits, s) && InOrder(s, a) && AllWithin(limits, s.ledger)
    ensures AllWithin(limits, Act(limits, s, a).ledger)
  {
    var t := Act(limits, s, a);
    if a.Reserve? {
      ReserveKeepsInv(limits, s, a);
    }
    forall window: int64 ensures Within(Held(t.ledger, window), limits) {
      hide DecodeBudget, EncodeBudget, Held;
      assert Within(Held(s.ledger, window), limits);
      match a
      case Reserve(start, req, io) =>
        if t.ledger != s.ledger {
          ChargedStart(limits, s, a);
          HeldAppend(s.ledger, Entry(HoldOf(start, req), false), window);
        }
      case Release(n, io) =>
        if t.ledger != s.ledger {
          HeldRelease(s.ledger, n, window);
        }
    }
  }

  lemma ChargedStart(limits: Limits, s: State, a: Action)
    requires a.Reserve? && Act(limits, s, a).ledger != s.ledger
    ensures a.req.inputBytes >= 1 && a.req.maxOutputTokens >= 1
    ensures Act(limits, s, a).ledger == s.ledger + [Entry(HoldOf(a.start, a.req), false)]
    ensures DecodeBudget(Act(limits, s, a).record).Some? && DecodeBudget(Act(limits, s, a).record).value.windowStart == a.start
  {
    hide DecodeBudget, EncodeBudget;
    AcceptedShape(limits, s.record, a.start, a.req, a.io);
    var c := InWindow(DecodeBudget(s.record).value, a.start);
    RecordRoundTrip(Counters(a.start, c.requests + 1, c.inputBytes + a.req.inputBytes,
                             c.outputTokens + a.req.maxOutputTokens, c.costMicros + a.req.costMicros));
  }

  lemma {:induction false} RunKeepsAllWithin(limits: Limits, s: State, run: seq<Action>)
    requires Inv(limits, s) && RunInOrder(limits, s, run) && AllWithin(limits, s.ledger)
    ensures AllWithin(limits, Run(limits, s, run).ledger)
    decreases |run|
  {
    hide Inv, Act, InOrder, AllWithin;
    if run != [] {
      ActKeepsAllWithin(limits, s, run[0]);
      if run[0].Reserve? {
        ReserveKeepsInv(limits, s, run[0]);
      } else {
        ReleaseKeepsInv(limits, s, run[0]);
      }
      RunKeepsAllWithin(limits, Act(limits, s, run[0]), run[1..]);
    }
  }

  /**
   * From an empty database, in window order: the stored counters are the unreleased reservations of the stored window, and no
   * window, current or past, ever holds more than a limit.
   */
  lemma BudgetHolds(limits: Limits, run: seq<Action>)
    requires RunInOrder(limits, EMPTY, run)
    ensures Inv(limits, Run(limits, EMPTY, run)) && AllWithin(limits, Run(limits, EMPTY, run).ledger)
  {
    FreshBudget(limits);
    RunConserves(limits, EMPTY, run);
    RunKeepsAllWithin(limits, EMPTY, run);
  }

  /** A released reservation is spent: releasing it again changes nothing, in any later state of any run. */
  lemma {:induction false} ReleasedStaysReleased(limits: Limits, s: State, run: seq<Action>, n: nat)
    requires n < |s.ledger| && s.ledger[n].released
    ensures n < |Run(limits, s, run).ledger| && Run(limits, s, run).ledger[n] == s.ledger[n]
    ensures forall io :: Act(limits, Run(limits, s, run), Release(n, io)) == Run(limits, s, run)
    decreases |run|
  {
    hide ChargeOf, RefundOf;
    if run != [] {
      ReleasedStaysReleased(limits, Act(limits, s, run[0]), run[1..], n);
    }
  }

  // ---- out of order

  /**
   * Exactly when a granted reservation keeps conservation: when nothing was ever granted, or when its window is not earlier
   * than the stored one.
   */
  lemma ChargeConservesIff(limits: Limits, s: State, a: Action)
    requires Inv(limits, s) && a.Reserve? && ChargeOf(limits, s.record, a.start, a.req, a.io).Charged?
    ensures Inv(limits, Act(limits, s, a)) <==> s.ledger == [] || a.start >= DecodeBudget(s.record).value.windowStart
  {
    if s.ledger == [] || a.start >= DecodeBudget(s.record).value.windowStart {
      ReserveKeepsInv(limits, s, a);
    } else {
      EntriesGrow(limits, s, a);
      ChargedStart(limits, s, a);
      hide DecodeBudget, Held, Act;
      var e :| e in s.ledger && e.hold.windowStart == DecodeBudget(s.record).value.windowStart;
      assert e in Act(limits, s, a).ledger;
    }
  }

  lemma EntriesGrow(limits: Limits, s: State, a: Action)
    requires a.Reserve? && ChargeOf(limits, s.record, a.start, a.req, a.io).Charged?
    ensures Act(limits, s, a).ledger != s.ledger
  {
    AcceptedShape(limits, s.record, a.start, a.req, a.io);
  }

  /** The request would be granted by a budget that has counted nothing yet. */
  predicate Affordable(limits: Limits, req: BudgetRequest) {
    && req.inputBytes >= 1 && req.maxOutputTokens >= 1 && (limits.costMicros > 0 ==> req.costMicros > 0)
    && !Full(limits, NO_COUNTERS, req.inputBytes, req.maxOutputTokens, req.costMicros)
  }

  /**
   * What one commit out of order costs: the window it displaces is forgotten, so that whatever an empty budget would grant is
   * granted there on top of all that the window already holds.
   */
  lemma DisplacedWindowIsForgotten(limits: Limits, s: State, early: Action, req: BudgetRequest)
    requires DecodeBudget(s.record).Some? && early.Reserve?
    requires ChargeOf(limits, s.record, early.start, early.req, early.io).Charged?
    requires early.start < DecodeBudget(s.record).value.windowStart && Affordable(limits, req)
    ensures var window := DecodeBudget(s.record).value.windowStart;
            Held(Run(limits, s, [early, Reserve(window, req, Fine)]).ledger, window) == Plus(Held(s.ledger, window), HoldOf(window, req))
  {
    var window := DecodeBudget(s.record).value.windowStart;
    var late := Reserve(window, req, Fine);
    var s1 := Act(limits, s, early);
    EntriesGrow(limits, s, early);
    ChargedStart(limits, s, early);
    Regranted(limits, s1, window, req);
    EntriesGrow(limits, s1, late);
    ChargedStart(limits, s1, late);
    Two(limits, s, early, late);
    hide Act, Held, DecodeBudget, ChargeOf;
    HeldAppend(s.ledger, Entry(HoldOf(early.start, early.req), false), window);
    HeldAppend(s1.ledger, Entry(HoldOf(window, req), false), window);
  }

  lemma Regranted(limits: Limits, s: State, window: int64, req: BudgetRequest)
    requires DecodeBudget(s.record).Some? && DecodeBudget(s.record).value.windowStart != window && Affordable(limits, req)
    ensures ChargeOf(limits, s.record, window, req, Fine).Charged?
  {
    hide DecodeBudget, EncodeBudget;
  }

  lemma Two(limits: Limits, s: State, a: Action, b: Action)
    ensures Run(limits, s, [a, b]) == Act(limits, Act(limits, s, a), b)
  {
    hide Act;
    assert [a, b][1..] == [b] && [b][1..] == [];
    assert Run(limits, Act(limits, s, a), [b]) == Act(limits, Act(limits, s, a), b);
  }

  /** In particular every full window that is displaced so can be pushed past its ceiling of requests. */
  lemma FullWindowIsPassed(limits: Limits, s: State, early: Action, req: BudgetRequest)
    requires Inv(limits, s) && early.Reserve? && ChargeOf(limits, s.record, early.start, early.req, early.io).Charged?
    requires DecodeBudget(s.record).value.requests == limits.requests
    requires early.start < DecodeBudget(s.record).value.windowStart && Affordable(limits, req)
    ensures var window := DecodeBudget(s.record).value.windowStart;
            Held(Run(limits, s, [early, Reserve(window, req, Fine)]).ledger, window).requests > limits.requests
  {
    DisplacedWindowIsForgotten(limits, s, early, req);
    hide Run, Held, DecodeBudget;
  }

  /** A smallest run in which it happens: a ceiling of one request, and two requests in one window. */
  lemma OutOfOrderOvercharges()
    ensures var limits, req := Limits(1, 10, 10, 0), BudgetRequest(1, 1, 0);
            var run := [Reserve(60, req, Fine), Reserve(0, req, Fine), Reserve(60, req, Fine)];
            Held(Run(limits, EMPTY, run).ledger, 60).requests == 2
  {
    var limits, req := Limits(1, 10, 10, 0), BudgetRequest(1, 1, 0);
    var a, b := Reserve(60, req, Fine), Reserve(0, req, Fine);
    var s := Act(limits, EMPTY, a);
    FirstGrant(a);
    hide DecodeBudget, EncodeBudget, ChargeOf, Act, Held;
    assert [a, b, a][1..] == [b, a];
    assert Run(limits, EMPTY, [a, b, a]) == Run(limits, s, [b, a]);
    hide Run;
    DisplacedWindowIsForgotten(limits, s, b, req);
  }

  lemma FirstGrant(a: Action)
    requires a == Reserve(60, BudgetRequest(1, 1, 0), Fine)
    ensures var limits := Limits(1, 10, 10, 0);
      var s := Act(limits, EMPTY, a);
      && Held(s.ledger, 60).requests == 1
      && DecodeBudget(s.record).Some? && DecodeBudget(s.record).value.windowStart == 60
      && ChargeOf(limits, s.record, 0, BudgetRequest(1, 1, 0), Fine).Charged?
  {
    var e := Entry(Hold(60, 1, 1, 0), false);
    NewWindow([], 60);
    NewWindow(EncodeBudget(Counters(60, 1, 1, 1, 0)), 0);
    RecordRoundTrip(Counters(60, 1, 1, 1, 0));
    HeldAppend([], e, 60);
    hide DecodeBudget, EncodeBudget, ChargeOf;
    assert Act(Limits(1, 10, 10, 0), EMPTY, a).ledger == [] + [e];
  }

  lemma NewWindow(record: seq<byte>, start: int64)
    requires record == [] || exists w: int64 :: w != start && record == EncodeBudget(Counters(w, 1, 1, 1, 0))
    ensures ChargeOf(Limits(1, 10, 10, 0), record, start, BudgetRequest(1, 1, 0), Fine) ==
            Charged(EncodeBudget(Counters(start, 1, 1, 1, 0)))
  {
    hide EncodeBudget;
    if record != [] {
      var w: int64 :| w != start && record == EncodeBudget(Counters(w, 1, 1, 1, 0));
      RecordRoundTrip(Counters(w, 1, 1, 1, 0));
      hide DecodeBudget;
    }
  }

  // ---- what the cost ceiling is worth

  /** Every reservation was priced by the estimator at these rates. */
  predicate Priced(ledger: seq<Entry>, rates: CostRates) {
    forall e :: e in ledger ==>
      e.hold.inputBytes < TWO_64 / 2 && e.hold.outputTokens < TWO_64 / 2 &&
      EstimateCostMicros(e.hold.inputBytes, e.hold.outputTokens, rates) == Some(e.hold.costMicros)
  }

  /** A million times the exact price of the unreleased reservations of a window. */
  function ExactPrice(ledger: seq<Entry>, window: int64, rates: CostRates): int {
    if ledger == [] then 0
    else
      var p, last := ExactPrice(ledger[..|ledger| - 1], window, rates), ledger[|ledger| - 1];
      if Counts(last, window) then p + rates.ExactTimesMillion(last.hold.inputBytes, last.hold.outputTokens) else p
  }

  lemma {:induction false} EstimatesCover(ledger: seq<Entry>, window: int64, rates: CostRates)
    requires Priced(ledger, rates)
    ensures ExactPrice(ledger, window, rates) <= Held(ledger, window).costMicros * MICROS_PER_UNIT
  {
    hide EstimateCostMicros, CostRates.ExactTimesMillion;
    var held := Held(ledger, window).costMicros;
    if ledger == [] {
      assert held * MICROS_PER_UNIT == 0;
    } else {
      var init, last := ledger[..|ledger| - 1], ledger[|ledger| - 1];
      assert last in ledger;
      EstimatesCover(init, window, rates);
      var p, t := ExactPrice(init, window, rates), Held(init, window).costMicros;
      if Counts(last, window) {
        EstimateBounds(last.hold.inputBytes, last.hold.outputTokens, rates);
        var q := rates.ExactTimesMillion(last.hold.inputBytes, last.hold.outputTokens);
        AddPrices(p, t, q, last.hold.costMicros);
        assert held == t + last.hold.costMicros && ExactPrice(ledger, window, rates) == p + q;
      } else {
        assert held == t && ExactPrice(ledger, window, rates) == p;
      }
      assert ExactPrice(ledger, window, rates) <= held * MICROS_PER_UNIT;
    }
  }

  lemma AddPrices(p: int, t: nat, q: int, more: nat)
    requires p <= t * MICROS_PER_UNIT && q <= more * MICROS_PER_UNIT
    ensures p + q <= (t + more) * MICROS_PER_UNIT
  {
  }

  /** Under a configured cost ceiling the exact price of everything reserved and not released stays below it, in every window. */
  lemma CostCeilingHolds(limits: Limits, run: seq<Action>, rates: CostRates, window: int64)
    requires RunInOrder(limits, EMPTY, run) && limits.costMicros > 0 && Priced(Run(limits, EMPTY, run).ledger, rates)
    ensures ExactPrice(Run(limits, EMPTY, run).ledger, window, rates) <= limits.costMicros * MICROS_PER_UNIT
  {
    BudgetHolds(limits, run);
    var ledger := Run(limits, EMPTY, run).ledger;
    EstimatesCover(ledger, window, rates);
    hide DecodeBudget, EstimateCostMicros, Held, ExactPrice, Run;
    assert Within(Held(ledger, window), limits);
    TimesMonotone(Held(ledger, window).costMicros, limits.costMicros, MICROS_PER_UNIT);
  }
}
