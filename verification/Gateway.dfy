/** The gateway's token path: what one request does, and what any interleaving of requests can do. */
module Gateway {
  import opened Prelude
  import JournalFormat
  import opened RedemptionStores
  import Runs = RedemptionRuns
  import opened Cost
  import B = Budget

  datatype Outcome = Spent | Refunded | Rejected | Invalid

  // ---- before anything is reserved

  datatype TokenHeader = Missing | Unreadable | Read(tok: Token, keyAccepted: bool, verifies: bool)

  // What the request policy picks: the body size, the output ceiling and the model's prices.
  datatype Pick = Pick(size: int64, maxOutputTokens: int64, rates: CostRates)

  datatype Request = Request(header: TokenHeader, pick: Option<Pick>)

  datatype Verdict = Stop(outcome: Outcome) | Go(tok: Token, charge: B.BudgetRequest)

  function Examine(r: Request): Verdict {
    if !r.header.Read? || !r.header.keyAccepted || !r.header.verifies then Stop(Invalid)
    else if r.pick.None? then Stop(Rejected)
    else
      var p := r.pick.value;
      match EstimateCostMicros(p.size, p.maxOutputTokens, p.rates)
      case None => Stop(Rejected)
      case Some(cost) => Go(r.header.tok, B.BudgetRequest(p.size, p.maxOutputTokens, cost))
  }

  // ---- after dispatch

  // The layers of a transport error, outermost first.
  datatype Layer = Dns | NetOp(op: string) | Other

  datatype Upstream = Response(status: int) | Failure(err: seq<Layer>)

  /** The operation of the first network-operation layer, which is the one errors.As finds. */
  function FirstOp(err: seq<Layer>): Option<string> {
    if err == [] then None else if err[0].NetOp? then Some(err[0].op) else FirstOp(err[1..])
  }

  predicate NeverDispatched(err: seq<Layer>) {
    Dns in err || FirstOp(err) == Some("dial")
  }

  predicate OutermostOp(err: seq<Layer>, i: int, op: string) {
    0 <= i < |err| && err[i] == NetOp(op) && forall j :: 0 <= j < i ==> !err[j].NetOp?
  }

  /** No connection was ever made: a name could not be resolved, or the outermost network operation that failed was a dial. */
  ghost predicate NoConnection(err: seq<Layer>) {
    (exists i :: 0 <= i < |err| && err[i] == Dns) || (exists i :: OutermostOp(err, i, "dial"))
  }

  /** The classification is that of connections, no more and no less: a failed read or write is never taken for a failed dial. */
  lemma NeverDispatchedIff(err: seq<Layer>)
    ensures NeverDispatched(err) <==> NoConnection(err)
  {
    var k := FirstOpAt(err);
  }

  lemma {:induction false} FirstOpAt(err: seq<Layer>) returns (i: int)
    ensures FirstOp(err).Some? ==> OutermostOp(err, i, FirstOp(err).value)
    ensures FirstOp(err).None? ==> forall j :: 0 <= j < |err| ==> !err[j].NetOp?
  {
    i := 0;
    if err != [] && !err[0].NetOp? {
      var k := FirstOpAt(err[1..]);
      assert forall j :: 0 < j < |err| ==> err[j] == err[1..][j - 1];
      i := k + 1;
    }
  }

  // ---- one request on its own

  // What the surroundings do to one request.
  datatype Weather = Weather(now: int64, reserve: B.Outcome, release: B.Outcome, spend: Io, upstream: Upstream, refund: Io)

  // The answer, and the journal, store and budget record it leaves.
  datatype Handled = Handled(outcome: Outcome, file: seq<byte>, store: Store, record: seq<byte>)

  function GiveBack(record: seq<byte>, h: B.Hold, io: B.Outcome): seq<byte> {
    match B.RefundOf(record, h, io)
    case Returned(after) => after
    case _ => record
  }

  /** Budget before token, token before dispatch, and a refund only when nothing was dispatched. */
  ghost function Serve(format: JournalFormat.Format, limits: B.Limits, seconds: int, file: seq<byte>, store: Store,
                       record: seq<byte>, r: Request, w: Weather): Handled
    requires 60 <= seconds <= 86_400
  {
    match Examine(r)
    case Stop(outcome) => Handled(outcome, file, store, record)
    case Go(tok, req) =>
      var start := B.WindowOf(w.now, seconds);
      match B.ChargeOf(limits, record, start, req, w.reserve)
      case Refused(_) => Handled(Rejected, file, store, record)
      case Charged(held) =>
        B.AcceptedShape(limits, record, start, req, w.reserve);
        var hold := B.HoldOf(start, req);
        var paid := Perform(format, file, store, Op.Spend(Some(tok)), w.spend);
        if paid.reply != Done then Handled(Invalid, paid.file, paid.store, GiveBack(held, hold, w.release))
        else if w.upstream.Response? || !NeverDispatched(w.upstream.err) then Handled(Spent, paid.file, paid.store, held)
        else
          var back := Perform(format, paid.file, paid.store, Op.Refund(Some(tok)), w.refund);
          Handled(if back.reply == Done then Refunded else Spent, back.file, back.store, GiveBack(held, hold, w.release))
  }

  class Server {
    const store: FileSpentSet
    const budget: B.FileBudget

    constructor (store: FileSpentSet, budget: B.FileBudget)
      ensures this.store == store && this.budget == budget
    {
      this.store, this.budget := store, budget;
    }

    method ServeHTTP(r: Request, w: Weather) returns (outcome: Outcome)
      requires 60 <= budget.windowSeconds <= 86_400
      modifies store, store.file, budget`record
      ensures Handled(outcome, store.file.data, store.View(), budget.record) ==
              Serve(store.format, budget.limits, budget.windowSeconds, old(store.file.data), old(store.View()), old(budget.record), r, w)
    {
      hide EstimateCostMicros, Perform, B.ChargeOf, B.RefundOf, B.WindowOf, NeverDispatched;
      if !r.header.Read? || !r.header.keyAccepted || !r.header.verifies { return Invalid; }
      if r.pick.None? { return Rejected; }
      var tok, pick := r.header.tok, r.pick.value;
      var cost := EstimateCostMicros(pick.size, pick.maxOutputTokens, pick.rates);
      if cost.None? { return Rejected; }
      var reservation, why := budget.Reserve(B.BudgetRequest(pick.size, pick.maxOutputTokens, cost.value), w.now, w.reserve);
      if reservation == null { return Rejected; }
      var reply := store.Spend(Some(tok), w.spend);
      if reply != Done {
        var released := reservation.Release(w.release);
        return Invalid;
      }
      match w.upstream
      case Response(_) => return Spent;
      case Failure(err) => outcome := HandleError(tok, reservation, err, w);
    }

    method HandleError(tok: Token, reservation: B.FileBudgetReservation, err: seq<Layer>, w: Weather) returns (outcome: Outcome)
      requires reservation.budget == budget && !reservation.released
      modifies store, store.file, budget`record, reservation
      ensures !NeverDispatched(err) ==> outcome == Spent && store.View() == old(store.View()) &&
                                        store.file.data == old(store.file.data) && budget.record == old(budget.record)
      ensures NeverDispatched(err) ==>
        var back := Perform(store.format, old(store.file.data), old(store.View()), Op.Refund(Some(tok)), w.refund);
        && outcome == (if back.reply == Done then Refunded else Spent)
        && store.View() == back.store && store.file.data == back.file
        && budget.record == GiveBack(old(budget.record), reservation.hold, w.release)
    {
      hide Perform, B.RefundOf, NeverDispatched;
      if !NeverDispatched(err) { return Spent; }
      var released := reservation.Release(w.release);
      var reply := store.Refund(Some(tok), w.refund);
      return if reply == Done then Refunded else Spent;
    }
  }

  // ---- any number of requests, interleaved step by step

  datatype Phase =
    | Examined                     // found acceptable, nothing held yet
    | Reserved                     // holds budget
    | SpendFailed                  // the store said no; budget still to be given back
    | Paid                         // token recorded as spent
    | Sent                         // the transport has been asked to deliver
    | Unreached                    // the transport says nothing was delivered
    | Refunding                    // budget given back, token to be given back
    | Answered(outcome: Outcome)
    | Lost                         // the process died

  // reached is whether the provider really got it, whatever the transport reports.
  datatype Presentation = Presentation(tok: Token, request: Request, charge: B.BudgetRequest, phase: Phase, reached: bool)

  // charged is what each request holds of the budget.
  datatype State = State(spent: set<Runs.TokenId>, requests: map<nat, Presentation>, charged: map<nat, B.BudgetRequest>)

  const NO_CHARGE: B.BudgetRequest := B.BudgetRequest(0, 0, 0)

  /** A request whose token could be read, once it has been looked at. */
  function Presented(r: Request): (p: Presentation)
    requires r.header.Read?
    ensures p.tok == r.header.tok && p.request == r && !p.reached
  {
    match Examine(r)
    case Stop(outcome) => Presentation(r.header.tok, r, NO_CHARGE, Answered(outcome), false)
    case Go(tok, charge) => Presentation(tok, r, charge, Examined, false)
  }

  // How a redemption store takes one operation: it answers, or it fails before or after the change was made durable.
  datatype Fate = Answers | FailsBefore | FailsAfter

  datatype Action =
    | Arrive(id: nat, request: Request)
    | ReserveBudget(id: nat, ok: bool)
    | SpendToken(id: nat, fate: Fate)
    | Abandon(id: nat, released: bool)
    | Dispatch(id: nat, reached: bool)
    | Conclude(id: nat, upstream: Upstream)
    | ReleaseBudget(id: nat, released: bool)
    | RefundToken(id: nat, fate: Fate)
    | Crash

  ghost function Redeem(spent: set<Runs.TokenId>, op: Op, fate: Fate): (set<Runs.TokenId>, Reply)
  {
    if !Runs.ValidOp(op) || fate.FailsBefore? then (spent, RedemptionStores.Refused)
    else (Runs.Ideal(spent, op).0, if fate.Answers? then Runs.Ideal(spent, op).1 else RedemptionStores.Refused)
  }

  /** The fate of one operation of one process on the shared journal. */
  ghost function FateOf(format: JournalFormat.Format, sys: Runs.System, e: Runs.Event): Fate {
    if Runs.Step(format, sys, e).1 != RedemptionStores.Refused then Answers
    else if Runs.TookEffect(format, sys, e) then FailsAfter
    else FailsBefore
  }

  /** Every operation on the shared journal has its fate, by any of its processes, in any reachable state. */
  lemma JournalFates(format: JournalFormat.Format, toks: set<Runs.TokenId>, sys: Runs.System, spent: set<Runs.TokenId>, e: Runs.Event)
    requires Runs.NoCollisions(format, toks) && Runs.Models(format, toks, sys, spent)
    requires e.Do? && (Runs.ValidOp(e.op) ==> Runs.Within(e.op, toks))
    ensures Redeem(spent, e.op, FateOf(format, sys, e)) == (Runs.Next(format, sys, spent, e), Runs.Step(format, sys, e).1)
    ensures Runs.Models(format, toks, Runs.Step(format, sys, e).0, Runs.Next(format, sys, spent, e))
  {
    Runs.StepModels(format, toks, sys, spent, e);
    hide Runs.Step, Runs.TookEffect, Runs.Models, Runs.Ideal;
    if Runs.Step(format, sys, e).1 != RedemptionStores.Refused {
      AnsweredTakesEffect(format, sys, e);
    }
  }

  lemma AnsweredTakesEffect(format: JournalFormat.Format, sys: Runs.System, e: Runs.Event)
    requires e.Do? && Runs.Step(format, sys, e).1 != RedemptionStores.Refused
    ensures Runs.TookEffect(format, sys, e)
  {
  }

  function Move(s: State, id: nat, phase: Phase): State
    requires id in s.requests
  {
    s.(requests := s.requests[id := s.requests[id].(phase := phase)])
  }

  predicate In(s: State, id: nat, phase: Phase) {
    id in s.requests && s.requests[id].phase == phase
  }

  ghost function Act(s: State, a: Action): State {
    match a
    case Arrive(id, r) =>
      if id in s.requests || !r.header.Read? then s
      else s.(requests := s.requests[id := Presented(r)])
    case ReserveBudget(id, ok) =>
      if !In(s, id, Examined) then s
      else if ok then Move(s, id, Reserved).(charged := s.charged[id := s.requests[id].charge]) else Move(s, id, Answered(Rejected))
    case SpendToken(id, fate) =>
      if !In(s, id, Reserved) then s
      else
        var (spent, reply) := Redeem(s.spent, Op.Spend(Some(s.requests[id].tok)), fate);
        Move(s, id, if reply == Done then Paid else SpendFailed).(spent := spent)
    case Abandon(id, released) =>
      if !In(s, id, SpendFailed) then s
      else Move(s, id, Answered(Invalid)).(charged := if released then s.charged - {id} else s.charged)
    case Dispatch(id, reached) =>
      if !In(s, id, Paid) then s
      else s.(requests := s.requests[id := s.requests[id].(phase := Sent, reached := reached)])
    case Conclude(id, upstream) =>
      if !In(s, id, Sent) then s
      else Move(s, id, if upstream.Failure? && NeverDispatched(upstream.err) then Unreached else Answered(Spent))
    case ReleaseBudget(id, released) =>
      if !In(s, id, Unreached) then s
      else Move(s, id, Refunding).(charged := if released then s.charged - {id} else s.charged)
    case RefundToken(id, fate) =>
      if !In(s, id, Refunding) then s
      else
        var (spent, reply) := Redeem(s.spent, Op.Refund(Some(s.requests[id].tok)), fate);
        Move(s, id, Answered(if reply == Done then Refunded else Spent)).(spent := spent)
    case Crash =>
      s.(requests := map id | id in s.requests ::
           if s.requests[id].phase.Answered? then s.requests[id] else s.requests[id].(phase := Lost))
  }

  /** A dial or name-resolution error is reported only when the provider was not reached. */
  ghost predicate HonestTransport(s: State, a: Action) {
    (a.Conclude? && In(s, a.id, Sent) && a.upstream.Failure? && NoConnection(a.upstream.err)) ==> !s.requests[a.id].reached
  }

  function Identity(p: Presentation): Runs.TokenId {
    Runs.IdOf(p.tok)
  }

  /** The request has the use of its token: the provider got it, or may still get it. */
  predicate Holds(p: Presentation) {
    p.reached || p.phase.Paid? || p.phase.Sent? || p.phase.Unreached? || p.phase.Refunding?
  }

  predicate MayBeReached(phase: Phase) {
    phase.Sent? || phase == Answered(Spent) || phase.Lost?
  }

  predicate HoldsBudget(p: Presentation) {
    p.reached || p.phase.Reserved? || p.phase.SpendFailed? || p.phase.Paid? || p.phase.Sent? || p.phase.Unreached?
  }

  predicate Rivals(p: Presentation, q: Presentation) {
    Holds(p) && Holds(q) && Identity(p) == Identity(q)
  }

  ghost predicate Inv(s: State) {
    && (forall id :: id in s.requests && Holds(s.requests[id]) ==> Identity(s.requests[id]) in s.spent)
    && (forall i, j :: i in s.requests && j in s.requests && i != j ==> !Rivals(s.requests[i], s.requests[j]))
    && (forall id :: id in s.requests && s.requests[id].reached ==> MayBeReached(s.requests[id].phase))
    && (forall id :: id in s.requests && HoldsBudget(s.requests[id]) ==> id in s.charged)
  }

  /** Nobody but this request holds the token. */
  ghost predicate Alone(s: State, id: nat, token: Runs.TokenId) {
    forall j :: j in s.requests && j != id && Identity(s.requests[j]) == token ==> !Holds(s.requests[j])
  }

  lemma OneRequestMoves(s: State, t: State, id: nat, p: Presentation)
    requires Inv(s) && t.requests == s.requests[id := p]
    requires forall x :: x in s.spent && x != Identity(p) ==> x in t.spent
    requires forall j :: j in s.charged && j != id ==> j in t.charged
    requires Identity(p) in t.spent || Alone(s, id, Identity(p))
    requires Holds(p) ==> Identity(p) in t.spent && Alone(s, id, Identity(p))
    requires (p.reached ==> MayBeReached(p.phase)) && (HoldsBudget(p) ==> id in t.charged)
    ensures Inv(t)
  {
    hide Holds, HoldsBudget, MayBeReached, Identity;
  }

  lemma CrashKeepsInv(s: State)
    requires Inv(s)
    ensures Inv(Act(s, Crash))
  {
    var t := Act(s, Crash);
    assert forall id :: id in t.requests ==>
      && Identity(t.requests[id]) == Identity(s.requests[id])
      && (Holds(t.requests[id]) ==> Holds(s.requests[id])) && (HoldsBudget(t.requests[id]) ==> HoldsBudget(s.requests[id]));
    hide Holds, HoldsBudget, Identity;
  }

  /** An operation on one token says nothing about the others, and what is granted was not spent and is now. */
  lemma RedeemTouchesOne(spent: set<Runs.TokenId>, op: Op, fate: Fate)
    requires !op.Retire? && op.tok.Some?
    ensures var (after, reply) := Redeem(spent, op, fate);
      && (forall x :: x in spent && x != Runs.IdOf(op.tok.value) ==> x in after)
      && (op.Spend? ==> spent <= after)
      && (op.Spend? && reply == Done ==> Runs.IdOf(op.tok.value) in after && Runs.IdOf(op.tok.value) !in spent)
  {
  }

  lemma PresentedHoldsNothing(r: Request)
    requires r.header.Read?
    ensures !Holds(Presented(r)) && !HoldsBudget(Presented(r))
  {
    hide EstimateCostMicros;
  }

  lemma ActKeepsInv(s: State, a: Action)
    requires Inv(s) && HonestTransport(s, a)
    ensures Inv(Act(s, a))
  {
    hide Examine, NeverDispatched, NoConnection, OutermostOp, Presented;
    var t := Act(s, a);
    if a.Conclude? && a.upstream.Failure? {
      NeverDispatchedIff(a.upstream.err);
    }
    if a.Arrive? && a.request.header.Read? {
      PresentedHoldsNothing(a.request);
    }
    if (a.SpendToken? || a.RefundToken?) && a.id in s.requests {
      var tok := s.requests[a.id].tok;
      RedeemTouchesOne(s.spent, if a.SpendToken? then Op.Spend(Some(tok)) else Op.Refund(Some(tok)), a.fate);
    }
    hide Redeem, Runs.IdOf;
    if a.Crash? {
      CrashKeepsInv(s);
    } else if t != s {
      OneRequestMoves(s, t, a.id, t.requests[a.id]);
    }
  }

  ghost function Run(s: State, run: seq<Action>): State
    decreases |run|
  {
    if run == [] then s else Run(Act(s, run[0]), run[1..])
  }

  ghost predicate HonestRun(s: State, run: seq<Action>)
    decreases |run|
  {
    run == [] || (HonestTransport(s, run[0]) && HonestRun(Act(s, run[0]), run[1..]))
  }

  lemma {:induction false} RunKeepsInv(s: State, run: seq<Action>)
    requires Inv(s) && HonestRun(s, run)
    ensures Inv(Run(s, run))
    decreases |run|
  {
    hide Inv, Act, HonestTransport;
    if run != [] {
      ActKeepsInv(s, run[0]);
      RunKeepsInv(Act(s, run[0]), run[1..]);
    }
  }

  /** One token, one purchase: of all the requests ever presenting a token, at most one reaches the provider. */
  lemma OneTokenOnePurchase(s: State, run: seq<Action>, i: nat, j: nat)
    requires Inv(s) && HonestRun(s, run)
    requires var after := Run(s, run).requests;
             i in after && j in after && Identity(after[i]) == Identity(after[j]) && after[i].reached && after[j].reached
    ensures i == j
  {
    RunKeepsInv(s, run);
  }

  /** Everything the provider was asked to do is still paid for, in token and in budget. */
  lemma ReachedIsCharged(s: State, run: seq<Action>, id: nat)
    requires Inv(s) && HonestRun(s, run) && id in Run(s, run).requests && Run(s, run).requests[id].reached
    ensures id in Run(s, run).charged && Identity(Run(s, run).requests[id]) in Run(s, run).spent
  {
    RunKeepsInv(s, run);
  }

  /** A gateway that has just started satisfies the invariant, whatever has been spent before. */
  lemma JustStarted(spent: set<Runs.TokenId>)
    ensures Inv(State(spent, map[], map[]))
  {
  }

  // ---- the steps are those of the code

  lemma {:induction false} RunConcat(s: State, a: seq<Action>, b: seq<Action>)
    ensures Run(s, a + b) == Run(Run(s, a), b)
    decreases |a|
  {
    hide Act;
    if a == [] {
      assert a + b == b;
    } else {
      assert (a + b)[1..] == a[1..] + b;
      RunConcat(Act(s, a[0]), a[1..], b);
    }
  }

  lemma RunTwo(s: State, a: Action, b: Action)
    ensures Run(s, [a, b]) == Act(Act(s, a), b)
  {
    hide Act;
    assert [a, b][1..] == [b] && [b][1..] == [];
    assert Run(Act(s, a), [b]) == Act(Act(s, a), b);
  }

  lemma RunThree(s: State, a: Action, b: Action, c: Action)
    ensures Run(s, [a, b, c]) == Act(Act(Act(s, a), b), c)
  {
    hide Act;
    RunTwo(Act(s, a), b, c);
    assert [a, b, c][1..] == [b, c];
  }

  function Outset(id: nat, r: Request, fate: Fate): seq<Action> {
    [Arrive(id, r), ReserveBudget(id, true), SpendToken(id, fate)]
  }

  /** The steps of one request, with the fates its journal operations meet. */
  ghost function ServeRun(format: JournalFormat.Format, limits: B.Limits, seconds: int, sys: Runs.System, who: nat,
                          record: seq<byte>, r: Request, w: Weather, id: nat, reached: bool): seq<Action>
    requires 60 <= seconds <= 86_400
  {
    match Examine(r)
    case Stop(_) => [Arrive(id, r)]
    case Go(tok, req) =>
      var start := B.WindowOf(w.now, seconds);
      match B.ChargeOf(limits, record, start, req, w.reserve)
      case Refused(_) => [Arrive(id, r), ReserveBudget(id, false)]
      case Charged(held) =>
        B.AcceptedShape(limits, record, start, req, w.reserve);
        var released := B.RefundOf(held, B.HoldOf(start, req), w.release).Returned?;
        var spend := Runs.Do(who, Op.Spend(Some(tok)), w.spend);
        var (next, reply) := Runs.Step(format, sys, spend);
        Outset(id, r, FateOf(format, sys, spend)) +
        if reply != Done then [Abandon(id, released)]
        else
          [Dispatch(id, reached), Conclude(id, w.upstream)] +
          if w.upstream.Response? || !NeverDispatched(w.upstream.err) then []
          else
            [ReleaseBudget(id, released), RefundToken(id, FateOf(format, next, Runs.Do(who, Op.Refund(Some(tok)), w.refund)))]
  }

  /** Whether the request's reservation is still charged when it is answered. */
  ghost predicate StillCharged(format: JournalFormat.Format, limits: B.Limits, seconds: int, file: seq<byte>, store: Store,
                               record: seq<byte>, r: Request, w: Weather)
    requires 60 <= seconds <= 86_400
  {
    match Examine(r)
    case Stop(_) => false
    case Go(tok, req) =>
      var start := B.WindowOf(w.now, seconds);
      match B.ChargeOf(limits, record, start, req, w.reserve)
      case Refused(_) => false
      case Charged(held) =>
        B.AcceptedShape(limits, record, start, req, w.reserve);
        || (Perform(format, file, store, Op.Spend(Some(tok)), w.spend).reply == Done &&
            (w.upstream.Response? || !NeverDispatched(w.upstream.err)))
        || !B.RefundOf(held, B.HoldOf(start, req), w.release).Returned?
  }

  lemma OutsetRuns(s: State, id: nat, r: Request, fate: Fate)
    requires Examine(r).Go? && id !in s.requests
    ensures var tok := Examine(r).tok;
      var (spent, reply) := Redeem(s.spent, Op.Spend(Some(tok)), fate);
      Run(s, Outset(id, r, fate)) ==
        State(spent, s.requests[id := Presented(r).(phase := if reply == Done then Paid else SpendFailed)], s.charged[id := Examine(r).charge])
  {
    var tok := Examine(r).tok;
    var s1 := s.(requests := s.requests[id := Presented(r)]);
    var s2 := State(s.spent, s.requests[id := Presented(r).(phase := Reserved)], s.charged[id := Examine(r).charge]);
    assert Act(s, Arrive(id, r)) == s1;
    hide EstimateCostMicros, Examine, Redeem;
    assert Act(s1, ReserveBudget(id, true)) == s2;
    RunThree(s, Arrive(id, r), ReserveBudget(id, true), SpendToken(id, fate));
    hide Run;
  }

  lemma DeliveryRuns(s: State, id: nat, upstream: Upstream, reached: bool)
    requires In(s, id, Paid)
    ensures Run(s, [Dispatch(id, reached), Conclude(id, upstream)]) ==
      var phase := if upstream.Failure? && NeverDispatched(upstream.err) then Unreached else Answered(Spent);
      s.(requests := s.requests[id := s.requests[id].(phase := phase, reached := reached)])
  {
    hide NeverDispatched;
    RunTwo(s, Dispatch(id, reached), Conclude(id, upstream));
  }

  lemma RefundRuns(s: State, id: nat, released: bool, fate: Fate)
    requires In(s, id, Unreached)
    ensures var p := s.requests[id];
      var (spent, reply) := Redeem(s.spent, Op.Refund(Some(p.tok)), fate);
      Run(s, [ReleaseBudget(id, released), RefundToken(id, fate)]) ==
        State(spent, s.requests[id := p.(phase := Answered(if reply == Done then Refunded else Spent))],
              if released then s.charged - {id} else s.charged)
  {
    hide Redeem;
    RunTwo(s, ReleaseBudget(id, released), RefundToken(id, fate));
  }

  /** A request has been answered so, with this journal and store, and holds or does not hold budget; nothing else changed. */
  ghost predicate Ends(format: JournalFormat.Format, toks: set<Runs.TokenId>, sys: Runs.System, who: nat, s: State, id: nat,
                       tok: Token, outcome: Outcome, file: seq<byte>, store: Store, kept: bool, t: State)
  {
    && id in t.requests && t.requests[id].phase == Answered(outcome) && t.requests[id].tok == tok
    && t.requests == s.requests[id := t.requests[id]]
    && Runs.Models(format, toks, Runs.System(file, sys.stores[who := store]), t.spent)
    && t.charged == if kept then s.charged[id := t.requests[id].charge] else s.charged
  }

  /**
   * One request alone: its steps end with the answer the verified code gives, a spent set that models the journal the code
   * leaves, and the reservation charged exactly when the code leaves it charged.
   */
  lemma ServeIsARun(format: JournalFormat.Format, toks: set<Runs.TokenId>, limits: B.Limits, seconds: int, sys: Runs.System,
                    who: nat, record: seq<byte>, r: Request, w: Weather, s: State, id: nat, reached: bool)
    requires 60 <= seconds <= 86_400 && who in sys.stores && r.header.Read? && id !in s.requests && id !in s.charged
    requires Runs.NoCollisions(format, toks) && Runs.Models(format, toks, sys, s.spent)
    requires ValidToken(Some(r.header.tok)) && Runs.IdOf(r.header.tok) in toks
    ensures var h := Serve(format, limits, seconds, sys.file, sys.stores[who], record, r, w);
      var t := Run(s, ServeRun(format, limits, seconds, sys, who, record, r, w, id, reached));
      Ends(format, toks, sys, who, s, id, r.header.tok, h.outcome, h.file, h.store,
           StillCharged(format, limits, seconds, sys.file, sys.stores[who], record, r, w), t)
  {
    hide EstimateCostMicros, Perform, B.ChargeOf, B.RefundOf, B.WindowOf, NeverDispatched, Runs.NoCollisions, Runs.Models, Redeem;
    assert sys.stores[who := sys.stores[who]] == sys.stores;
    var verdict := Examine(r);
    if verdict.Stop? {
      assert [Arrive(id, r)][1..] == [];
    } else if B.ChargeOf(limits, record, B.WindowOf(w.now, seconds), verdict.charge, w.reserve).Refused? {
      RunTwo(s, Arrive(id, r), ReserveBudget(id, false));
    } else {
      ChargedIsARun(format, toks, limits, seconds, sys, who, record, r, w, s, id, reached);
    }
  }

  lemma SpendStep(format: JournalFormat.Format, toks: set<Runs.TokenId>, sys: Runs.System, spent: set<Runs.TokenId>, who: nat,
                  op: Op, io: Io)
    requires who in sys.stores && Runs.NoCollisions(format, toks) && Runs.Models(format, toks, sys, spent)
    requires !op.Retire? && ValidToken(op.tok) && Runs.IdOf(op.tok.value) in toks
    ensures var e := Runs.Do(who, op, io);
      var o := Perform(format, sys.file, sys.stores[who], op, io);
      && Runs.Step(format, sys, e) == (Runs.System(o.file, sys.stores[who := o.store]), o.reply)
      && Redeem(spent, op, FateOf(format, sys, e)).1 == o.reply
      && Runs.Models(format, toks, Runs.Step(format, sys, e).0, Redeem(spent, op, FateOf(format, sys, e)).0)
  {
    JournalFates(format, toks, sys, spent, Runs.Do(who, op, io));
    hide Perform, Runs.Models, Redeem, FateOf, Runs.TookEffect;
  }

  lemma ChargedIsARun(format: JournalFormat.Format, toks: set<Runs.TokenId>, limits: B.Limits, seconds: int, sys: Runs.System,
                      who: nat, record: seq<byte>, r: Request, w: Weather, s: State, id: nat, reached: bool)
    requires 60 <= seconds <= 86_400 && who in sys.stores && r.header.Read? && id !in s.requests && id !in s.charged
    requires Runs.NoCollisions(format, toks) && Runs.Models(format, toks, sys, s.spent)
    requires ValidToken(Some(r.header.tok)) && Runs.IdOf(r.header.tok) in toks
    requires Examine(r).Go? && B.ChargeOf(limits, record, B.WindowOf(w.now, seconds), Examine(r).charge, w.reserve).Charged?
    ensures var h := Serve(format, limits, seconds, sys.file, sys.stores[who], record, r, w);
      var t := Run(s, ServeRun(format, limits, seconds, sys, who, record, r, w, id, reached));
      Ends(format, toks, sys, who, s, id, r.header.tok, h.outcome, h.file, h.store,
           StillCharged(format, limits, seconds, sys.file, sys.stores[who], record, r, w), t)
  {
    var tok, req, start := Examine(r).tok, Examine(r).charge, B.WindowOf(w.now, seconds);
    assert tok == r.header.tok;
    hide EstimateCostMicros, Examine, Perform, B.ChargeOf, B.RefundOf, B.WindowOf, NeverDispatched, Runs.NoCollisions, Runs.Models,
      Redeem, FateOf, Run, Act, Runs.Step, Runs.IdOf;
    B.AcceptedShape(limits, record, start, req, w.reserve);
    var held := B.ChargeOf(limits, record, start, req, w.reserve).record;
    var released := B.RefundOf(held, B.HoldOf(start, req), w.release).Returned?;
    var o := Perform(format, sys.file, sys.stores[who], Op.Spend(Some(tok)), w.spend);
    SpendStep(format, toks, sys, s.spent, who, Op.Spend(Some(tok)), w.spend);
    if o.reply != Done {
      EndsUnspent(format, toks, sys, who, r, w, s, id, released);
    } else if w.upstream.Response? || !NeverDispatched(w.upstream.err) {
      EndsDelivered(format, toks, sys, who, r, w, s, id, reached);
    } else {
      EndsReturned(format, toks, sys, who, r, w, s, id, reached, released);
    }
    hide Ends;
  }

  lemma EndsUnspent(format: JournalFormat.Format, toks: set<Runs.TokenId>, sys: Runs.System, who: nat, r: Request, w: Weather,
                    s: State, id: nat, released: bool)
    requires who in sys.stores && id !in s.requests && id !in s.charged && Examine(r).Go?
    requires Runs.NoCollisions(format, toks) && Runs.Models(format, toks, sys, s.spent)
    requires ValidToken(Some(Examine(r).tok)) && Runs.IdOf(Examine(r).tok) in toks
    requires Perform(format, sys.file, sys.stores[who], Op.Spend(Some(Examine(r).tok)), w.spend).reply != Done
    ensures var tok := Examine(r).tok;
      var o := Perform(format, sys.file, sys.stores[who], Op.Spend(Some(tok)), w.spend);
      var fate := FateOf(format, sys, Runs.Do(who, Op.Spend(Some(tok)), w.spend));
      Ends(format, toks, sys, who, s, id, tok, Invalid, o.file, o.store, !released,
           Run(s, Outset(id, r, fate) + [Abandon(id, released)]))
  {
    hide Examine, Perform, Runs.NoCollisions, Runs.Models, Redeem, FateOf, Run, Act, Runs.Step, Runs.IdOf, Outset;
    var tok := Examine(r).tok;
    var fate := FateOf(format, sys, Runs.Do(who, Op.Spend(Some(tok)), w.spend));
    SpendStep(format, toks, sys, s.spent, who, Op.Spend(Some(tok)), w.spend);
    OutsetRuns(s, id, r, fate);
    RunConcat(s, Outset(id, r, fate), [Abandon(id, released)]);
    AbandonRuns(Run(s, Outset(id, r, fate)), id, released);
  }

  lemma EndsDelivered(format: JournalFormat.Format, toks: set<Runs.TokenId>, sys: Runs.System, who: nat, r: Request, w: Weather,
                      s: State, id: nat, reached: bool)
    requires who in sys.stores && id !in s.requests && id !in s.charged && Examine(r).Go?
    requires Runs.NoCollisions(format, toks) && Runs.Models(format, toks, sys, s.spent)
    requires ValidToken(Some(Examine(r).tok)) && Runs.IdOf(Examine(r).tok) in toks
    requires Perform(format, sys.file, sys.stores[who], Op.Spend(Some(Examine(r).tok)), w.spend).reply == Done
    requires w.upstream.Response? || !NeverDispatched(w.upstream.err)
    ensures var tok := Examine(r).tok;
      var o := Perform(format, sys.file, sys.stores[who], Op.Spend(Some(tok)), w.spend);
      var fate := FateOf(format, sys, Runs.Do(who, Op.Spend(Some(tok)), w.spend));
      Ends(format, toks, sys, who, s, id, tok, Spent, o.file, o.store, true,
           Run(s, Outset(id, r, fate) + ([Dispatch(id, reached), Conclude(id, w.upstream)] + [])))
  {
    hide Examine, Perform, Runs.NoCollisions, Runs.Models, Redeem, FateOf, Run, Act, Runs.Step, Runs.IdOf, Outset, NeverDispatched;
    var tok := Examine(r).tok;
    var fate := FateOf(format, sys, Runs.Do(who, Op.Spend(Some(tok)), w.spend));
    var delivery := [Dispatch(id, reached), Conclude(id, w.upstream)];
    SpendStep(format, toks, sys, s.spent, who, Op.Spend(Some(tok)), w.spend);
    OutsetRuns(s, id, r, fate);
    DeliveryRuns(Run(s, Outset(id, r, fate)), id, w.upstream, reached);
    RunConcat(s, Outset(id, r, fate), delivery);
    assert delivery + [] == delivery;
  }

  lemma EndsReturned(format: JournalFormat.Format, toks: set<Runs.TokenId>, sys: Runs.System, who: nat, r: Request, w: Weather,
                     s: State, id: nat, reached: bool, released: bool)
    requires who in sys.stores && id !in s.requests && id !in s.charged && Examine(r).Go?
    requires Runs.NoCollisions(format, toks) && Runs.Models(format, toks, sys, s.spent)
    requires ValidToken(Some(Examine(r).tok)) && Runs.IdOf(Examine(r).tok) in toks
    requires Perform(format, sys.file, sys.stores[who], Op.Spend(Some(Examine(r).tok)), w.spend).reply == Done
    requires w.upstream.Failure? && NeverDispatched(w.upstream.err)
    ensures var tok := Examine(r).tok;
      var spend, refund := Runs.Do(who, Op.Spend(Some(tok)), w.spend), Runs.Do(who, Op.Refund(Some(tok)), w.refund);
      var o := Perform(format, sys.file, sys.stores[who], Op.Spend(Some(tok)), w.spend);
      var back := Perform(format, o.file, o.store, Op.Refund(Some(tok)), w.refund);
      Ends(format, toks, sys, who, s, id, tok, if back.reply == Done then Refunded else Spent, back.file, back.store, !released,
           Run(s, Outset(id, r, FateOf(format, sys, spend)) +
                  ([Dispatch(id, reached), Conclude(id, w.upstream)] +
                   [ReleaseBudget(id, released), RefundToken(id, FateOf(format, Runs.Step(format, sys, spend).0, refund))])))
  {
    hide Examine, Perform, Runs.NoCollisions, Runs.Models, Redeem, FateOf, Run, Act, Runs.Step, Runs.IdOf, Outset, NeverDispatched;
    var tok := Examine(r).tok;
    var spend, refund := Runs.Do(who, Op.Spend(Some(tok)), w.spend), Runs.Do(who, Op.Refund(Some(tok)), w.refund);
    var fate, next := FateOf(format, sys, spend), Runs.Step(format, sys, spend).0;
    var delivery := [Dispatch(id, reached), Conclude(id, w.upstream)];
    var giveBack := [ReleaseBudget(id, released), RefundToken(id, FateOf(format, next, refund))];
    SpendStep(format, toks, sys, s.spent, who, Op.Spend(Some(tok)), w.spend);
    OutsetRuns(s, id, r, fate);
    var s3 := Run(s, Outset(id, r, fate));
    DeliveryRuns(s3, id, w.upstream, reached);
    SpendStep(format, toks, next, s3.spent, who, Op.Refund(Some(tok)), w.refund);
    RefundRuns(Run(s3, delivery), id, released, FateOf(format, next, refund));
    RunConcat(s3, delivery, giveBack);
    RunConcat(s, Outset(id, r, fate), delivery + giveBack);
    var o := Perform(format, sys.file, sys.stores[who], Op.Spend(Some(tok)), w.spend);
    var back := Perform(format, o.file, o.store, Op.Refund(Some(tok)), w.refund);
    assert sys.stores[who := o.store][who := back.store] == sys.stores[who := back.store];
  }

  lemma AbandonRuns(s: State, id: nat, released: bool)
    requires In(s, id, SpendFailed)
    ensures Run(s, [Abandon(id, released)]) ==
            State(s.spent, s.requests[id := s.requests[id].(phase := Answered(Invalid))], if released then s.charged - {id} else s.charged)
  {
    assert [Abandon(id, released)][1..] == [];
  }

  // ---- from a gateway that has just started

  /** The two guarantees from the start of a gateway, whatever had been spent before. */
  lemma FromTheStart(spent: set<Runs.TokenId>, run: seq<Action>, i: nat, j: nat)
    requires HonestRun(State(spent, map[], map[]), run)
    requires var after := Run(State(spent, map[], map[]), run).requests; i in after && j in after && after[i].reached
    ensures var after := Run(State(spent, map[], map[]), run);
      && (after.requests[j].reached && Identity(after.requests[i]) == Identity(after.requests[j]) ==> i == j)
      && i in after.charged && Identity(after.requests[i]) in after.spent
  {
    JustStarted(spent);
    ReachedIsCharged(State(spent, map[], map[]), run, i);
    var after := Run(State(spent, map[], map[]), run).requests;
    if after[j].reached && Identity(after[i]) == Identity(after[j]) {
      OneTokenOnePurchase(State(spent, map[], map[]), run, i, j);
    }
  }

  // ---- the premise about the transport is needed

  /** One request carried through to the provider. */
  function Purchase(id: nat, r: Request): seq<Action> {
    [Arrive(id, r), ReserveBudget(id, true), SpendToken(id, Answers), Dispatch(id, true)]
  }

  /** A dial error that is reported although the provider was reached, and the refund that follows. */
  function LyingRefund(id: nat): seq<Action> {
    [Conclude(id, Failure([NetOp("dial")])), ReleaseBudget(id, true), RefundToken(id, Answers)]
  }

  lemma PurchaseReaches(s: State, id: nat, r: Request)
    requires Examine(r).Go? && ValidToken(Some(Examine(r).tok)) && id !in s.requests && Runs.IdOf(Examine(r).tok) !in s.spent
    ensures Run(s, Purchase(id, r)) ==
            State(s.spent + {Runs.IdOf(Examine(r).tok)}, s.requests[id := Presented(r).(phase := Sent, reached := true)],
                  s.charged[id := Examine(r).charge])
  {
    var tok, run, none := Examine(r).tok, Purchase(id, r), [];
    var s1 := s.(requests := s.requests[id := Presented(r)]);
    var s2 := State(s.spent, s.requests[id := Presented(r).(phase := Reserved)], s.charged[id := Examine(r).charge]);
    var s3 := State(s.spent + {Runs.IdOf(tok)}, s.requests[id := Presented(r).(phase := Paid)], s.charged[id := Examine(r).charge]);
    assert Act(s, run[0]) == s1;
    assert Redeem(s.spent, Op.Spend(Some(tok)), Answers) == (s.spent + {Runs.IdOf(tok)}, Done);
    hide EstimateCostMicros, Examine, Runs.IdOf, Redeem;
    assert Act(s1, run[1]) == s2;
    assert Act(s2, run[2]) == s3;
    assert run[1..] == [run[1], run[2], run[3]] && run[1..][1..] == [run[2], run[3]] && run[1..][1..][1..] == [run[3]];
    assert [run[3]][1..] == none;
    var s4 := Act(s3, run[3]);
    assert Run(s3, [run[3]]) == Run(s4, none) == s4;
    assert Run(s2, [run[2], run[3]]) == Run(s3, [run[3]]);
    assert Run(s1, run[1..]) == Run(s2, [run[2], run[3]]);
  }

  lemma LyingRefundRefunds(s: State, id: nat)
    requires In(s, id, Sent) && ValidToken(Some(s.requests[id].tok))
    ensures Run(s, LyingRefund(id)) ==
            State(s.spent - {Identity(s.requests[id])}, s.requests[id := s.requests[id].(phase := Answered(Refunded))], s.charged - {id})
  {
    var p, run, none := s.requests[id], LyingRefund(id), [];
    assert FirstOp([NetOp("dial")]) == Some("dial");
    var s1 := s.(requests := s.requests[id := p.(phase := Unreached)]);
    var s2 := State(s.spent, s.requests[id := p.(phase := Refunding)], s.charged - {id});
    assert Act(s, run[0]) == s1;
    assert Act(s1, run[1]) == s2;
    var s3 := Act(s2, run[2]);
    assert run[1..] == [run[1], run[2]] && run[1..][1..] == [run[2]] && [run[2]][1..] == none;
    assert Run(s2, [run[2]]) == Run(s3, none) == s3;
    assert Run(s1, run[1..]) == Run(s2, [run[2]]);
  }

  /** If a dial error could follow a delivery, one token would buy two answers. */
  lemma LyingTransportSellsTwice(r: Request)
    requires Examine(r).Go? && ValidToken(Some(Examine(r).tok))
    ensures var after := Run(State({}, map[], map[]), Purchase(0, r) + (LyingRefund(0) + Purchase(1, r))).requests;
            && 0 in after && 1 in after && after[0].reached && after[1].reached
            && Identity(after[0]) == Identity(after[1])
  {
    var start := State({}, map[], map[]);
    PurchaseReaches(start, 0, r);
    var s1 := Run(start, Purchase(0, r));
    LyingRefundRefunds(s1, 0);
    var s2 := Run(s1, LyingRefund(0));
    PurchaseReaches(s2, 1, r);
    RunConcat(start, Purchase(0, r), LyingRefund(0) + Purchase(1, r));
    RunConcat(s1, LyingRefund(0), Purchase(1, r));
    hide Run, Examine;
  }
}
