/** Fixed-window budgets: the stored counter record, reserving and releasing, and several ceilings at once. */
module Budget {
  import opened Prelude
  import opened Cost

  datatype Counters = Counters(windowStart: int64, requests: uint64, inputBytes: uint64, outputTokens: uint64, costMicros: uint64)

  const NO_COUNTERS: Counters := Counters(0, 0, 0, 0, 0)

  // ---- the record

  function FromSigned(n: int64): uint64 {
    if n < 0 then n + TWO_64 else n
  }

  function ToSigned(n: uint64): int64 {
    if n >= TWO_64 / 2 then n - TWO_64 else n
  }

  function EncodeBudget(c: Counters): (data: seq<byte>)
    ensures |data| == 40
  {
    PutU64(FromSigned(c.windowStart)) + PutU64(c.requests) + PutU64(c.inputBytes) + PutU64(c.outputTokens) + PutU64(c.costMicros)
  }

  /** Nothing stored reads as zeros; a 32-byte record is the older form without costs. */
  function DecodeBudget(data: seq<byte>): Option<Counters> {
    if data == [] then Some(NO_COUNTERS)
    else if |data| != 32 && |data| != 40 then None
    else
      Some(Counters(ToSigned(U64(data[0..8])), U64(data[8..16]), U64(data[16..24]), U64(data[24..32]),
                    if |data| == 40 then U64(data[32..40]) else 0))
  }

  lemma RecordRoundTrip(c: Counters)
    ensures DecodeBudget(EncodeBudget(c)) == Some(c)
  {
    var a, r, i, o, m := PutU64(FromSigned(c.windowStart)), PutU64(c.requests), PutU64(c.inputBytes), PutU64(c.outputTokens),
                         PutU64(c.costMicros);
    U64RoundTrip(FromSigned(c.windowStart));
    U64RoundTrip(c.requests);
    U64RoundTrip(c.inputBytes);
    U64RoundTrip(c.outputTokens);
    U64RoundTrip(c.costMicros);
    hide PutU64, U64;
    FiveWords(a, r, i, o, m);
  }

  lemma FiveWords(a: seq<byte>, r: seq<byte>, i: seq<byte>, o: seq<byte>, m: seq<byte>)
    requires |a| == |r| == |i| == |o| == |m| == 8
    ensures var all := a + r + i + o + m;
            all[0..8] == a && all[8..16] == r && all[16..24] == i && all[24..32] == o && all[32..40] == m
  {
  }

  /** A record of the older form, without costs, reads as the same counters with none; nothing reads as zeros, and no other size reads. */
  lemma OtherRecords(c: Counters, data: seq<byte>)
    ensures DecodeBudget(EncodeBudget(c)[..32]) == Some(c.(costMicros := 0)) && DecodeBudget([]) == Some(Counters(0, 0, 0, 0, 0))
    ensures DecodeBudget(data).Some? <==> |data| == 0 || |data| == 32 || |data| == 40
  {
    RecordRoundTrip(c);
    var all := EncodeBudget(c);
    hide EncodeBudget, U64, ToSigned;
    assert all[..32][0..8] == all[0..8] && all[..32][8..16] == all[8..16] && all[..32][16..24] == all[16..24] && all[..32][24..32] == all[24..32];
  }

  // ---- windows

  /** The window an instant falls in, in Unix seconds; before 1970 the truncated division makes one double-length window. */
  function WindowOf(now: int64, seconds: int): (start: int64)
    requires 60 <= seconds <= 86_400
    ensures start % seconds == 0 && -seconds < now - start < seconds
    ensures if now >= 0 then 0 <= start <= now else now <= start <= 0
  {
    WindowHolds(now, seconds);
    Quotient(now, seconds) * seconds
  }

  lemma DivisionStep(n: nat, d: int)
    requires d > 0
    ensures 0 <= n / d * d <= n < n / d * d + d && (-(n / d)) * d == -(n / d * d)
  {
  }

  lemma Truncates(n: int, d: int)
    requires d > 0
    ensures n >= 0 ==> 0 <= Quotient(n, d) * d <= n < Quotient(n, d) * d + d
    ensures n < 0 ==> Quotient(n, d) * d - d < n <= Quotient(n, d) * d <= 0
  {
    if n < 0 {
      DivisionStep(-n, d);
    } else {
      DivisionStep(n, d);
    }
  }

  lemma WindowHolds(now: int64, seconds: int)
    requires 60 <= seconds <= 86_400
    ensures var start: int := Quotient(now, seconds) * seconds;
            start % seconds == 0 && -seconds < now - start < seconds
            && (if now >= 0 then 0 <= start <= now else now <= start <= 0)
            && -0x8000_0000_0000_0000 <= start < 0x8000_0000_0000_0000
  {
    MultipleDivides(Quotient(now, seconds), seconds);
    Truncates(now, seconds);
    hide Quotient;
  }

  // ---- one reservation against one record

  datatype BudgetRequest = BudgetRequest(inputBytes: int64, maxOutputTokens: int64, costMicros: uint64)

  // A cost ceiling of zero means that there is none.
  datatype Limits = Limits(requests: uint64, inputBytes: uint64, outputTokens: uint64, costMicros: uint64)

  datatype Refusal = BadRequest | CostRequired | Cancelled | CorruptRecord | CostOverflow | Exhausted | TransactionFailed

  // How the surroundings treat one call: the context is cancelled, the database cannot commit, or neither.
  datatype Outcome = Fine | ContextDone | CommitFails

  datatype Charge = Charged(record: seq<byte>) | Refused(why: Refusal)

  predicate Full(limits: Limits, c: Counters, input: uint64, tokens: uint64, cost: uint64) {
    || c.requests >= limits.requests
    || input > limits.inputBytes || c.inputBytes > limits.inputBytes - input
    || tokens > limits.outputTokens || c.outputTokens > limits.outputTokens - tokens
    || (limits.costMicros > 0 && (cost > limits.costMicros || c.costMicros > limits.costMicros - cost))
  }

  /** The counters that apply to a window: those stored, when they are of that window. */
  function InWindow(c: Counters, start: int64): Counters {
    if c.windowStart == start then c else Counters(start, 0, 0, 0, 0)
  }

  function ChargeOf(limits: Limits, record: seq<byte>, start: int64, req: BudgetRequest, io: Outcome): Charge {
    if req.inputBytes < 1 || req.maxOutputTokens < 1 then Refused(BadRequest)
    else if limits.costMicros > 0 && req.costMicros == 0 then Refused(CostRequired)
    else if io.ContextDone? then Refused(Cancelled)
    else
      match DecodeBudget(record)
      case None => Refused(CorruptRecord)
      case Some(stored) =>
        var c := InWindow(stored, start);
        if req.costMicros > TWO_64 - 1 - c.costMicros then Refused(CostOverflow)
        else if Full(limits, c, req.inputBytes, req.maxOutputTokens, req.costMicros) then Refused(Exhausted)
        else if io.CommitFails? then Refused(TransactionFailed)
        else
          Charged(EncodeBudget(Counters(start, c.requests + 1, c.inputBytes + req.inputBytes,
                                        c.outputTokens + req.maxOutputTokens, c.costMicros + req.costMicros)))
  }

  // What one reservation holds: it is released at most once.
  datatype Hold = Hold(windowStart: int64, inputBytes: uint64, outputTokens: uint64, costMicros: uint64)

  datatype Refund = Returned(record: seq<byte>) | NotReturned(why: Refusal) | CountersTooSmall

  predicate Covers(c: Counters, h: Hold) {
    c.requests > 0 && c.inputBytes >= h.inputBytes && c.outputTokens >= h.outputTokens && c.costMicros >= h.costMicros
  }

  function RefundOf(record: seq<byte>, h: Hold, io: Outcome): Refund {
    if io.ContextDone? then NotReturned(Cancelled)
    else
      match DecodeBudget(record)
      case None => NotReturned(CorruptRecord)
      case Some(c) =>
        if c.windowStart != h.windowStart then (if io.CommitFails? then NotReturned(TransactionFailed) else Returned(record))
        else if !Covers(c, h) then CountersTooSmall
        else if io.CommitFails? then NotReturned(TransactionFailed)
        else
          Returned(EncodeBudget(Counters(c.windowStart, c.requests - 1, c.inputBytes - h.inputBytes,
                                         c.outputTokens - h.outputTokens, c.costMicros - h.costMicros)))
  }

  function HoldOf(start: int64, req: BudgetRequest): Hold
    requires req.inputBytes >= 1 && req.maxOutputTokens >= 1
  {
    Hold(start, req.inputBytes, req.maxOutputTokens, req.costMicros)
  }

  /** What a usage report shows for a window. */
  function UsageOf(record: seq<byte>, start: int64): Option<Counters> {
    match DecodeBudget(record)
    case None => None
    case Some(c) => Some(InWindow(c, start))
  }

  /** A reservation given back leaves the usage of its window as it was, whatever window was stored before. */
  lemma RefundUndoesCharge(limits: Limits, record: seq<byte>, start: int64, req: BudgetRequest, io: Outcome)
    requires ChargeOf(limits, record, start, req, io).Charged?
    ensures var charged := ChargeOf(limits, record, start, req, io).record;
            && RefundOf(charged, HoldOf(start, req), Fine).Returned?
            && UsageOf(RefundOf(charged, HoldOf(start, req), Fine).record, start) == UsageOf(record, start)
  {
    hide DecodeBudget, EncodeBudget;
    var c := InWindow(DecodeBudget(record).value, start);
    var after := Counters(start, c.requests + 1, c.inputBytes + req.inputBytes, c.outputTokens + req.maxOutputTokens,
                          c.costMicros + req.costMicros);
    RecordRoundTrip(after);
    RecordRoundTrip(c);
  }

  lemma AcceptedShape(limits: Limits, record: seq<byte>, start: int64, req: BudgetRequest, io: Outcome)
    requires ChargeOf(limits, record, start, req, io).Charged?
    ensures req.inputBytes >= 1 && req.maxOutputTokens >= 1
  {
  }

  // ---- the objects

  class FileBudget {
    const limits: Limits
    const windowSeconds: int
    var record: seq<byte>

    constructor (limits: Limits, windowSeconds: int, record: seq<byte>)
      ensures this.limits == limits && this.windowSeconds == windowSeconds && this.record == record
    {
      this.limits, this.windowSeconds, this.record := limits, windowSeconds, record;
    }

    function Usage(now: int64): Option<Counters>
      requires 60 <= windowSeconds <= 86_400
      reads this`record
    {
      UsageOf(record, WindowOf(now, windowSeconds))
    }

    /** The window is read from the clock before the transaction starts. */
    method Reserve(req: BudgetRequest, now: int64, io: Outcome) returns (r: FileBudgetReservation?, why: Option<Refusal>)
      requires 60 <= windowSeconds <= 86_400
      modifies this`record
      ensures var charge := ChargeOf(limits, old(record), WindowOf(now, windowSeconds), req, io);
              match charge
              case Refused(reason) => r == null && why == Some(reason) && record == old(record)
              case Charged(after) =>
                && why == None && record == after
                && r != null && fresh(r) && r.budget == this && !r.released
                && r.hold == HoldOf(WindowOf(now, windowSeconds), req)
    {
      hide DecodeBudget, EncodeBudget, WindowOf;
      r := null;
      if req.inputBytes < 1 || req.maxOutputTokens < 1 { return r, Some(BadRequest); }
      if limits.costMicros > 0 && req.costMicros == 0 { return r, Some(CostRequired); }
      if io.ContextDone? { return r, Some(Cancelled); }
      var start := WindowOf(now, windowSeconds);
      var input, tokens := req.inputBytes as uint64, req.maxOutputTokens as uint64;
      var stored := DecodeBudget(record);
      if stored.None? { return r, Some(CorruptRecord); }
      var c := stored.value;
      if c.windowStart != start {
        c := Counters(start, 0, 0, 0, 0);
      }
      if req.costMicros > TWO_64 - 1 - c.costMicros { return r, Some(CostOverflow); }
      if c.requests >= limits.requests || input > limits.inputBytes || c.inputBytes > limits.inputBytes - input
         || tokens > limits.outputTokens || c.outputTokens > limits.outputTokens - tokens
         || (limits.costMicros > 0 && (req.costMicros > limits.costMicros || c.costMicros > limits.costMicros - req.costMicros))
      {
        return r, Some(Exhausted);
      }
      if io.CommitFails? { return r, Some(TransactionFailed); }
      record := EncodeBudget(Counters(start, c.requests + 1, c.inputBytes + input, c.outputTokens + tokens,
                                      c.costMicros + req.costMicros));
      r := new FileBudgetReservation(this, Hold(start, input, tokens, req.costMicros));
      why := None;
    }
  }

  class FileBudgetReservation {
    const budget: FileBudget
    const hold: Hold
    var released: bool

    constructor (budget: FileBudget, hold: Hold)
      ensures this.budget == budget && this.hold == hold && !released
    {
      this.budget, this.hold, released := budget, hold, false;
    }

    method Release(io: Outcome) returns (ok: bool)
      modifies this`released, budget`record
      ensures old(released) ==> ok && released && budget.record == old(budget.record)
      ensures !old(released) ==>
        match RefundOf(old(budget.record), hold, io)
        case Returned(after) => ok && released && budget.record == after
        case _ => !ok && !released && budget.record == old(budget.record)
    {
      hide DecodeBudget, EncodeBudget;
      if released { return true; }
      if io.ContextDone? { return false; }
      var stored := DecodeBudget(budget.record);
      if stored.None? { return false; }
      var c := stored.value;
      if c.windowStart == hold.windowStart {
        if c.requests == 0 || c.inputBytes < hold.inputBytes || c.outputTokens < hold.outputTokens || c.costMicros < hold.costMicros {
          return false;
        }
        if io.CommitFails? { return false; }
        budget.record := EncodeBudget(Counters(c.windowStart, c.requests - 1, c.inputBytes - hold.inputBytes,
                                               c.outputTokens - hold.outputTokens, c.costMicros - hold.costMicros));
      } else if io.CommitFails? {
        return false;
      }
      released := true;
      return true;
    }
  }

  // ---- several ceilings at once

  // One call of Reserve per ceiling, and the way its release would go.
  datatype Visit = Visit(now: int64, reserve: Outcome, release: Outcome)

  class MultiBudget {
    const budgets: seq<FileBudget>

    constructor (budgets: seq<FileBudget>)
      ensures this.budgets == budgets
    {
      this.budgets := budgets;
    }

    ghost predicate Valid()
    {
      && (forall i :: 0 <= i < |budgets| ==> 60 <= budgets[i].windowSeconds <= 86_400)
      && (forall i, j :: 0 <= i < j < |budgets| ==> budgets[i] != budgets[j])
    }

    ghost function ChargeAt(records: seq<seq<byte>>, visits: seq<Visit>, req: BudgetRequest, i: nat): Charge
      requires Valid() && i < |budgets| == |records| == |visits|
    {
      ChargeOf(budgets[i].limits, records[i], WindowOf(visits[i].now, budgets[i].windowSeconds), req, visits[i].reserve)
    }

    ghost function Records(): (r: seq<seq<byte>>)
      reads budgets
      ensures |r| == |budgets| && forall i :: 0 <= i < |r| ==> r[i] == budgets[i].record
    {
      seq(|budgets|, i requires 0 <= i < |budgets| reads budgets => budgets[i].record)
    }

    /** The reservation belongs to a ceiling that was charged from its record before the call and not touched since. */
    ghost predicate Held(before: seq<seq<byte>>, visits: seq<Visit>, req: BudgetRequest, i: nat, r: FileBudgetReservation)
      requires Valid() && i < |budgets| == |before| == |visits|
      reads budgets[i], r
    {
      && ChargeAt(before, visits, req, i).Charged? && budgets[i].record == ChargeAt(before, visits, req, i).record
      && r.budget == budgets[i] && !r.released && req.inputBytes >= 1 && req.maxOutputTokens >= 1
      && r.hold == HoldOf(WindowOf(visits[i].now, budgets[i].windowSeconds), req)
    }

    /** If its release works, a ceiling shows the usage it showed before the call. */
    ghost predicate Restored(before: seq<seq<byte>>, visits: seq<Visit>, i: nat)
      requires Valid() && i < |budgets| == |before| == |visits|
      reads budgets[i]
    {
      visits[i].release.Fine? ==>
        var start := WindowOf(visits[i].now, budgets[i].windowSeconds);
        UsageOf(budgets[i].record, start) == UsageOf(before[i], start)
    }

    /** All or nothing: every ceiling is charged, or each one (whose release works) shows the usage it showed before. */
    method Reserve(req: BudgetRequest, visits: seq<Visit>) returns (r: Option<seq<FileBudgetReservation>>)
      requires Valid() && |visits| == |budgets|
      modifies budgets
      ensures r.Some? <==> budgets != [] && forall i :: 0 <= i < |budgets| ==> ChargeAt(old(Records()), visits, req, i).Charged?
      ensures r.Some? ==> |r.value| == |budgets|
      ensures r.Some? ==> forall i :: 0 <= i < |budgets| ==>
                Held(old(Records()), visits, req, i, r.value[i]) && fresh(r.value[i])
      ensures r.None? ==> forall i :: 0 <= i < |budgets| ==> Restored(old(Records()), visits, i)
    {
      hide ChargeOf, RefundOf, UsageOf, DecodeBudget, EncodeBudget, WindowOf;
      if budgets == [] { return None; }
      ghost var before := Records();
      var reservations := ReserveEach(req, visits);
      if |reservations| == |budgets| {
        forall i | 0 <= i < |budgets| ensures ChargeAt(before, visits, req, i).Charged? {
          assert Held(before, visits, req, i, reservations[i]);
        }
        return Some(reservations);
      }
      assert !ChargeAt(before, visits, req, |reservations|).Charged?;
      ReleaseAll(before, req, visits, reservations);
      return None;
    }

    /** Reserves in order up to the first ceiling that refuses. */
    method ReserveEach(req: BudgetRequest, visits: seq<Visit>) returns (reservations: seq<FileBudgetReservation>)
      requires Valid() && |visits| == |budgets|
      modifies budgets
      ensures |reservations| <= |budgets|
      ensures forall i :: 0 <= i < |reservations| ==> Held(old(Records()), visits, req, i, reservations[i]) && fresh(reservations[i])
      ensures forall i, j :: 0 <= i < j < |reservations| ==> reservations[i] != reservations[j]
      ensures |reservations| < |budgets| ==> ChargeAt(old(Records()), visits, req, |reservations|).Refused?
      ensures forall i :: |reservations| <= i < |budgets| ==> budgets[i].record == old(budgets[i].record)
    {
      hide ChargeOf, RefundOf, DecodeBudget, EncodeBudget, WindowOf, HoldOf;
      ghost var before := Records();
      reservations := [];
      while |reservations| < |budgets|
        invariant |reservations| <= |budgets|
        invariant forall i :: 0 <= i < |reservations| ==> Held(before, visits, req, i, reservations[i]) && fresh(reservations[i])
        invariant forall i, j :: 0 <= i < j < |reservations| ==> reservations[i] != reservations[j]
        invariant forall i :: |reservations| <= i < |budgets| ==> budgets[i].record == before[i]
      {
        label L:
        var n := |reservations|;
        var reservation, why := budgets[n].Reserve(req, visits[n].now, visits[n].reserve);
        if reservation == null { break; }
        forall i | 0 <= i < n ensures Held(before, visits, req, i, reservations[i]) {
          assert old@L(Held(before, visits, req, i, reservations[i]));
        }
        AcceptedShape(budgets[n].limits, before[n], WindowOf(visits[n].now, budgets[n].windowSeconds), req, visits[n].reserve);
        reservations := reservations + [reservation];
      }
    }

    /** Gives back what an unsuccessful call had taken, last ceiling first, whatever happens to each release. */
    method ReleaseAll(ghost before: seq<seq<byte>>, ghost req: BudgetRequest, visits: seq<Visit>,
                      reservations: seq<FileBudgetReservation>)
      requires Valid() && |before| == |visits| == |budgets| >= |reservations|
      requires forall i :: 0 <= i < |reservations| ==> Held(before, visits, req, i, reservations[i])
      requires forall i, j :: 0 <= i < j < |reservations| ==> reservations[i] != reservations[j]
      requires forall i :: |reservations| <= i < |budgets| ==> budgets[i].record == before[i]
      modifies budgets, reservations
      ensures forall i :: 0 <= i < |budgets| ==> Restored(before, visits, i)
    {
      hide ChargeOf, RefundOf, UsageOf, WindowOf;
      var n := |reservations|;
      while n > 0
        invariant 0 <= n <= |reservations|
        invariant forall i :: 0 <= i < n ==> Held(before, visits, req, i, reservations[i])
        invariant forall i :: n <= i < |budgets| ==> Restored(before, visits, i)
      {
        n := n - 1;
        label L:
        assert Held(before, visits, req, n, reservations[n]);
        var ok := reservations[n].Release(visits[n].release);
        Undone(before, visits, req, n);
        forall i | 0 <= i < n ensures Held(before, visits, req, i, reservations[i]) {
          assert old@L(Held(before, visits, req, i, reservations[i]));
        }
        forall i | n < i < |budgets| ensures Restored(before, visits, i) {
          assert old@L(Restored(before, visits, i));
        }
      }
    }

    lemma Undone(before: seq<seq<byte>>, visits: seq<Visit>, req: BudgetRequest, i: nat)
      requires Valid() && i < |budgets| == |before| == |visits| && ChargeAt(before, visits, req, i).Charged?
      requires req.inputBytes >= 1 && req.maxOutputTokens >= 1
      ensures var start := WindowOf(visits[i].now, budgets[i].windowSeconds);
              var charged := ChargeAt(before, visits, req, i).record;
              && RefundOf(charged, HoldOf(start, req), Fine).Returned?
              && UsageOf(RefundOf(charged, HoldOf(start, req), Fine).record, start) == UsageOf(before[i], start)
    {
      hide ChargeOf, RefundOf, UsageOf, WindowOf;
      RefundUndoesCharge(budgets[i].limits, before[i], WindowOf(visits[i].now, budgets[i].windowSeconds), req, visits[i].reserve);
    }
  }
}
