/** What the gateway admits, what each admitted request is answered, and what it pays. */
module GatewayAnswers {
  import opened Prelude
  import JournalFormat
  import opened RedemptionStores
  import Runs = RedemptionRuns
  import Answers = RedemptionAnswers
  import opened Cost
  import B = Budget
  import opened Gateway

  /** The request was presented with this token, read, of an accepted key and verified, and this is what its pick costs. */
  ghost predicate Earned(r: Request, tok: Token, charge: B.BudgetRequest) {
    && r.header == Read(tok, true, true) && r.pick.Some?
    && charge.inputBytes == r.pick.value.size && charge.maxOutputTokens == r.pick.value.maxOutputTokens
    && IsPrice(r.pick.value.size, r.pick.value.maxOutputTokens, r.pick.value.rates, charge.costMicros)
  }

  /** What is admitted, and at which price: exactly the requests that earn it; the others are told why in one of two words. */
  lemma AdmittedIff(r: Request)
    ensures forall tok, charge :: Examine(r) == Go(tok, charge) <==> Earned(r, tok, charge)
    ensures Examine(r) == Stop(Invalid) <==> r.header.Missing? || r.header.Unreadable? || !r.header.keyAccepted || !r.header.verifies
    ensures Examine(r) == Stop(Rejected) <==> r.header.Read? && r.header.keyAccepted && r.header.verifies && !exists charge :: Earned(r, r.header.tok, charge)
  {
    if r.pick.Some? {
      var p := r.pick.value;
      forall cost ensures EstimateCostMicros(p.size, p.maxOutputTokens, p.rates) == Some(cost) <==>
                          IsPrice(p.size, p.maxOutputTokens, p.rates, cost) {
        EstimateIff(p.size, p.maxOutputTokens, p.rates, cost);
      }
    }
    hide EstimateCostMicros, IsPrice;
    if r.header.Read? && r.pick.Some? && Examine(r).Go? {
      assert Earned(r, r.header.tok, Examine(r).charge);
    }
  }

  /** A request that does not earn admission touches neither journal nor store nor budget. */
  lemma UnearnedTouchesNothing(format: JournalFormat.Format, limits: B.Limits, seconds: int, file: seq<byte>, store: Store,
                               record: seq<byte>, r: Request, w: Weather)
    requires 60 <= seconds <= 86_400
    ensures r.header.Missing? || r.header.Unreadable? || !r.header.keyAccepted || !r.header.verifies ==>
              Serve(format, limits, seconds, file, store, record, r, w) == Handled(Invalid, file, store, record)
    ensures r.header.Read? && r.header.keyAccepted && r.header.verifies && (!exists charge :: Earned(r, r.header.tok, charge)) ==>
              Serve(format, limits, seconds, file, store, record, r, w) == Handled(Rejected, file, store, record)
  {
    AdmittedIff(r);
    hide Examine, Earned, Perform, B.ChargeOf, B.RefundOf, B.WindowOf, NeverDispatched;
  }

  /** The budget after a reservation has been given back, or would have been. */
  ghost predicate GivenBack(record: seq<byte>, held: seq<byte>, after: seq<byte>, start: int64, release: B.Outcome) {
    if release.Fine? then B.UsageOf(after, start) == B.UsageOf(record, start) else after == held
  }

  lemma GiveBackGives(limits: B.Limits, record: seq<byte>, start: int64, req: B.BudgetRequest, io: B.Outcome, release: B.Outcome)
    requires B.ChargeOf(limits, record, start, req, io).Charged?
    ensures req.inputBytes >= 1 && req.maxOutputTokens >= 1
    ensures var held := B.ChargeOf(limits, record, start, req, io).record;
            GivenBack(record, held, GiveBack(held, B.HoldOf(start, req), release), start, release)
  {
    B.AcceptedShape(limits, record, start, req, io);
    B.RefundUndoesCharge(limits, record, start, req, io);
    var held := B.ChargeOf(limits, record, start, req, io).record;
    if !release.Fine? {
      NotReturned(limits, record, start, req, io, release);
    }
    hide B.ChargeOf, B.RefundOf, B.UsageOf;
  }

  lemma NotReturned(limits: B.Limits, record: seq<byte>, start: int64, req: B.BudgetRequest, io: B.Outcome, release: B.Outcome)
    requires B.ChargeOf(limits, record, start, req, io).Charged? && !release.Fine? && req.inputBytes >= 1 && req.maxOutputTokens >= 1
    ensures !B.RefundOf(B.ChargeOf(limits, record, start, req, io).record, B.HoldOf(start, req), release).Returned?
  {
    hide B.DecodeBudget, B.EncodeBudget;
    var c := B.InWindow(B.DecodeBudget(record).value, start);
    B.RecordRoundTrip(B.Counters(start, c.requests + 1, c.inputBytes + req.inputBytes, c.outputTokens + req.maxOutputTokens,
                                 c.costMicros + req.costMicros));
  }

  /**
   * What an admitted request is told over a whole journal, and what it leaves: refused without payment when the budget refuses;
   * invalid, with the budget given back, when its token was spent before or cannot be recorded; otherwise spent, with token
   * and budget charged, unless no connection was made and the refund was recorded.
   */
  lemma EarnedIsServed(format: JournalFormat.Format, toks: set<Runs.TokenId>, limits: B.Limits, seconds: int, sys: Runs.System,
                       spent: set<Runs.TokenId>, who: nat, record: seq<byte>, r: Request, tok: Token, charge: B.BudgetRequest, w: Weather)
    requires 60 <= seconds <= 86_400 && Earned(r, tok, charge)
    requires Runs.NoCollisions(format, toks) && Runs.Models(format, toks, sys, spent) && !Runs.Torn(format, sys) && Answers.Ready(sys, who)
    requires ValidToken(Some(tok)) && Runs.IdOf(tok) in toks
    ensures var h := Serve(format, limits, seconds, sys.file, sys.stores[who], record, r, w);
      var after, t := Runs.System(h.file, sys.stores[who := h.store]), Runs.IdOf(tok);
      var start := B.WindowOf(w.now, seconds);
      match B.ChargeOf(limits, record, start, charge, w.reserve)
      case Refused(_) => h == Handled(Rejected, sys.file, sys.stores[who], record)
      case Charged(held) =>
        if t in spent then h.outcome == Invalid && Answers.Settled(format, after, who, spent) && GivenBack(record, held, h.record, start, w.release)
        else if w.spend.Fails? then h.outcome == Invalid && GivenBack(record, held, h.record, start, w.release)
        else if w.upstream.Response? || !NoConnection(w.upstream.err) then
          h.outcome == Spent && Answers.Settled(format, after, who, spent + {t}) && h.record == held
        else if w.refund.Fails? then h.outcome == Spent && GivenBack(record, held, h.record, start, w.release)
        else h.outcome == Refunded && Answers.Settled(format, after, who, spent) && GivenBack(record, held, h.record, start, w.release)
  {
    AdmittedIff(r);
    assert Examine(r) == Go(tok, charge);
    var start := B.WindowOf(w.now, seconds);
    hide Examine, Earned, Perform, B.ChargeOf, B.RefundOf, B.WindowOf, NeverDispatched, NoConnection, Answers.Settled, Runs.Models,
      Runs.NoCollisions, Runs.Torn, GivenBack, Runs.IdOf, GiveBack;
    if B.ChargeOf(limits, record, start, charge, w.reserve).Charged? {
      GiveBackGives(limits, record, start, charge, w.reserve, w.release);
      SpendIsAnswered(format, toks, sys, spent, who, tok, w.spend);
      if w.upstream.Failure? {
        NeverDispatchedIff(w.upstream.err);
        if Runs.IdOf(tok) !in spent && w.spend.Complete? {
          RefundIsAnswered(format, toks, sys, spent, who, tok, w.refund);
        }
      }
    }
  }

  lemma SpendIsAnswered(format: JournalFormat.Format, toks: set<Runs.TokenId>, sys: Runs.System, spent: set<Runs.TokenId>, who: nat,
                        tok: Token, io: Io)
    requires Runs.NoCollisions(format, toks) && Runs.Models(format, toks, sys, spent) && !Runs.Torn(format, sys) && Answers.Ready(sys, who)
    requires ValidToken(Some(tok)) && Runs.IdOf(tok) in toks
    ensures var o := Perform(format, sys.file, sys.stores[who], Op.Spend(Some(tok)), io);
      var after, t := Runs.System(o.file, sys.stores[who := o.store]), Runs.IdOf(tok);
      if t in spent then o.reply == AlreadySpent && Answers.Settled(format, after, who, spent)
      else if io.Fails? then o.reply == RedemptionStores.Refused
      else o.reply == Done && Answers.Settled(format, after, who, spent + {t}) && Runs.Models(format, toks, after, spent + {t})
  {
    var e := Runs.Do(who, Op.Spend(Some(tok)), io);
    Answers.JournalAnswers(format, toks, sys, spent, e);
    Runs.StepModels(format, toks, sys, spent, e);
    assert Runs.IdOf(tok) in spent + {Runs.IdOf(tok)};
    hide Perform, Answers.Settled, Runs.Models, Runs.NoCollisions, Runs.Torn, Runs.IdOf;
  }

  /** After the token has been recorded as spent, by the very store that recorded it. */
  lemma RefundIsAnswered(format: JournalFormat.Format, toks: set<Runs.TokenId>, sys: Runs.System, spent: set<Runs.TokenId>, who: nat,
                         tok: Token, io: Io)
    requires Runs.NoCollisions(format, toks) && Runs.Models(format, toks, sys, spent) && !Runs.Torn(format, sys) && Answers.Ready(sys, who)
    requires ValidToken(Some(tok)) && Runs.IdOf(tok) in toks && Runs.IdOf(tok) !in spent
    ensures var paid := Perform(format, sys.file, sys.stores[who], Op.Spend(Some(tok)), Complete);
      var o := Perform(format, paid.file, paid.store, Op.Refund(Some(tok)), io);
      if io.Fails? then o.reply == RedemptionStores.Refused
      else o.reply == Done && Answers.Settled(format, Runs.System(o.file, sys.stores[who := o.store]), who, spent)
  {
    hide Perform, Answers.Settled, Runs.Models, Runs.NoCollisions, Runs.Torn, Runs.IdOf;
    SpendIsAnswered(format, toks, sys, spent, who, tok, Complete);
    var paid := Perform(format, sys.file, sys.stores[who], Op.Spend(Some(tok)), Complete);
    var next := Runs.System(paid.file, sys.stores[who := paid.store]);
    SettledIs(format, next, who, spent + {Runs.IdOf(tok)});
    RefundOfSpent(format, toks, next, spent, who, tok, io);
    var o := Perform(format, paid.file, paid.store, Op.Refund(Some(tok)), io);
    assert next.stores[who := o.store] == sys.stores[who := o.store];
  }

  lemma SettledIs(format: JournalFormat.Format, sys: Runs.System, who: nat, spent: set<Runs.TokenId>)
    requires Answers.Settled(format, sys, who, spent)
    ensures Answers.Ready(sys, who) && !Runs.Torn(format, sys)
  {
  }

  lemma RefundOfSpent(format: JournalFormat.Format, toks: set<Runs.TokenId>, sys: Runs.System, spent: set<Runs.TokenId>, who: nat,
                      tok: Token, io: Io)
    requires Runs.NoCollisions(format, toks) && Runs.Models(format, toks, sys, spent + {Runs.IdOf(tok)})
    requires !Runs.Torn(format, sys) && Answers.Ready(sys, who)
    requires ValidToken(Some(tok)) && Runs.IdOf(tok) in toks && Runs.IdOf(tok) !in spent
    ensures var o := Perform(format, sys.file, sys.stores[who], Op.Refund(Some(tok)), io);
      if io.Fails? then o.reply == RedemptionStores.Refused
      else o.reply == Done && Answers.Settled(format, Runs.System(o.file, sys.stores[who := o.store]), who, spent)
  {
    var t, e := Runs.IdOf(tok), Runs.Do(who, Op.Refund(Some(tok)), io);
    Answers.JournalAnswers(format, toks, sys, spent + {t}, e);
    hide Perform, Answers.Settled, Runs.Models, Runs.NoCollisions, Runs.Torn;
    assert t in spent + {t} && (spent + {t}) - {t} == spent;
  }

  // ---- over runs

  /** The request is past its examination, or was: it may hold budget or token, or has been answered about them. */
  predicate Underway(p: Presentation) {
    p.reached || (p.phase != Answered(Invalid) && p.phase != Answered(Rejected))
  }

  ghost predicate AllEarned(s: State) {
    && (forall id :: id in s.requests ==>
          var p := s.requests[id];
          && p.request.header.Read? && p.tok == p.request.header.tok
          && (Underway(p) ==> Earned(p.request, p.tok, p.charge)))
    && (forall id :: id in s.charged ==>
          id in s.requests && s.charged[id] == s.requests[id].charge &&
          Earned(s.requests[id].request, s.requests[id].tok, s.requests[id].charge))
  }

  lemma ActKeepsAllEarned(s: State, a: Action)
    requires AllEarned(s)
    ensures AllEarned(Act(s, a))
  {
    hide Examine, NeverDispatched, Redeem, Earned, Presented;
    var t := Act(s, a);
    if a.Crash? {
      assert forall id :: id in t.requests ==> Underway(t.requests[id]) ==> Underway(s.requests[id]);
      hide Underway;
    } else if t != s {
      if a.Arrive? {
        PresentedEarns(a.request);
      }
      OneMoves(s, t, a.id, t.requests[a.id]);
    }
  }

  /** The request was presented with its own token, and where it is underway it has earned it. */
  ghost predicate Fair(p: Presentation) {
    p.request.header.Read? && p.tok == p.request.header.tok && (Underway(p) ==> Earned(p.request, p.tok, p.charge))
  }

  lemma OneMoves(s: State, t: State, id: nat, p: Presentation)
    requires AllEarned(s) && t.requests == s.requests[id := p] && Fair(p)
    requires forall j :: j in t.charged && j != id ==> j in s.charged && t.charged[j] == s.charged[j]
    requires id in t.charged ==> t.charged[id] == p.charge && Earned(p.request, p.tok, p.charge)
    ensures AllEarned(t)
  {
    hide Earned, Underway;
  }

  lemma PresentedEarns(r: Request)
    requires r.header.Read?
    ensures Fair(Presented(r))
  {
    AdmittedIff(r);
    hide EstimateCostMicros, Earned;
  }

  lemma {:induction false} RunKeepsAllEarned(s: State, run: seq<Action>)
    requires AllEarned(s)
    ensures AllEarned(Run(s, run))
    decreases |run|
  {
    hide AllEarned, Act;
    if run != [] {
      ActKeepsAllEarned(s, run[0]);
      RunKeepsAllEarned(Act(s, run[0]), run[1..]);
    }
  }

  /** Each request of a run is one that arrived, unchanged since. */
  lemma {:induction false} RequestsArrived(s: State, run: seq<Action>, id: nat)
    requires id in Run(s, run).requests
    ensures (id in s.requests && Run(s, run).requests[id].request == s.requests[id].request) ||
            exists k :: 0 <= k < |run| && run[k] == Arrive(id, Run(s, run).requests[id].request)
    decreases |run|
  {
    hide Examine, NeverDispatched, Redeem;
    if run != [] {
      var next := Act(s, run[0]);
      RequestsArrived(next, run[1..], id);
      var r := Run(s, run).requests[id].request;
      if k :| 0 <= k < |run[1..]| && run[1..][k] == Arrive(id, r) {
        assert run[k + 1] == Arrive(id, r);
      } else if run[0].Arrive? && run[0].id == id && id !in s.requests {
        assert run[0] == Arrive(id, r);
      } else {
        Untouched(s, run[0], id);
      }
    }
  }

  lemma Untouched(s: State, a: Action, id: nat)
    requires id in Act(s, a).requests && !(a.Arrive? && a.id == id && id !in s.requests)
    ensures id in s.requests && Act(s, a).requests[id].request == s.requests[id].request
  {
    hide Examine, NeverDispatched, Redeem;
  }

  /**
   * In every run of a gateway, whatever its surroundings do: a request that is underway, has reached the provider or holds budget
   * is one that arrived with a token that was read, of an accepted key and verified; and what it holds of the budget is its own
   * size, its own output ceiling and what they cost.
   */
  lemma PaidWasEarned(spent: set<Runs.TokenId>, run: seq<Action>, id: nat)
    requires id in Run(State(spent, map[], map[]), run).requests
    ensures var after := Run(State(spent, map[], map[]), run);
      var p := after.requests[id];
      && (exists k :: 0 <= k < |run| && run[k] == Arrive(id, p.request))
      && (Underway(p) || id in after.charged ==> Earned(p.request, p.tok, p.charge))
      && (id in after.charged ==> after.charged[id] == p.charge)
  {
    var start := State(spent, map[], map[]);
    RunKeepsAllEarned(start, run);
    RequestsArrived(start, run, id);
    hide Earned, Run;
  }
}
