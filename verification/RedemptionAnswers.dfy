/** That the journal answers: which operation is granted, refused or poisons its store, event by event and over whole runs. */
module RedemptionAnswers {
  import opened Prelude
  import opened JournalFormat
  import opened RedemptionStores
  import opened RedemptionRuns

  predicate Ready(sys: System, who: nat) {
    who in sys.stores && sys.stores[who].Live?
  }

  /** The store has read the whole file, and the file means these spent tokens. */
  ghost predicate Settled(format: Format, sys: System, who: nat, spent: set<TokenId>) {
    && Ready(sys, who) && sys.stores[who].offset == |sys.file|
    && !Torn(format, sys) && Holds(format, format.ReplayFile(sys.file).value, spent)
  }

  /** A record is written exactly when the ideal store changes. */
  lemma RecordsChanges(format: Format, toks: set<TokenId>, seen: Seen, spent: set<TokenId>, op: Op)
    requires NoCollisions(format, toks) && spent <= toks && Holds(format, seen, spent) && Within(op, toks)
    ensures Answer(Intent(format, op).value, seen).0 <==> Ideal(spent, op).0 != spent
  {
    match op
    case Retire(keyId) =>
      RetireIsIdeal(format, toks, seen, spent, keyId);
      if t :| t in OfKey(spent, keyId) {
        assert t in spent && t !in spent - OfKey(spent, keyId);
      }
    case Spend(tok) =>
      SpendIsIdeal(format, toks, seen, spent, IdOf(tok.value));
      assert IdOf(tok.value) in spent + {IdOf(tok.value)};
    case Refund(tok) =>
      RefundIsIdeal(format, toks, seen, spent, IdOf(tok.value));
      assert IdOf(tok.value) !in spent - {IdOf(tok.value)};
  }

  lemma StepSettles(format: Format, sys: System, e: Event)
    requires Inv(format, sys) && !Torn(format, sys) && e.Do? && Ready(sys, e.who) && ValidOp(e.op)
    ensures var o := Settle(format, sys.file, format.ReplayFile(sys.file).value, Intent(format, e.op).value, e.io);
            Step(format, sys, e) == (System(o.file, sys.stores[e.who := o.store]), o.reply)
  {
    PerformDependsOnFileOnly(format, sys, e);
    hide Settle, Perform, Intent, Inv;
  }

  lemma SettleAnswers(format: Format, file: seq<byte>, seen: Seen, r: Record, io: Io)
    requires Writable(r) && format.ReplayFile(file) == Some(seen)
    ensures var (o, write) := (Settle(format, file, seen, r, io), Answer(r, seen).0);
      if !write then o == Outcome(file, Live(|file|, seen), Answer(r, seen).1)
      else if io.Complete? then
        && o.reply == Answer(r, seen).1 && o.store == Live(|o.file|, Update(r, seen)) && o.file != file
        && format.ReplayFile(o.file) == Some(Update(r, seen))
      else o.reply == Refused && o.store == Poisoned && file <= o.file && |o.file| <= |file| + io.written
  {
    format.AppendIsUpdate(file, r);
    hide Format.ReplayFile, Format.Encode, Update, Answer;
  }

  /**
   * On a whole journal an operation is refused in three cases only, and otherwise answered as the ideal store answers it:
   * the store is not usable or the operation is malformed, which leaves everything as it was; or the operation has to be
   * recorded and the disk fails, which poisons this store alone.
   */
  lemma JournalAnswers(format: Format, toks: set<TokenId>, sys: System, spent: set<TokenId>, e: Event)
    requires NoCollisions(format, toks) && Models(format, toks, sys, spent) && !Torn(format, sys)
    requires e.Do? && (ValidOp(e.op) ==> Within(e.op, toks))
    ensures var (after, reply) := Step(format, sys, e);
      if !Ready(sys, e.who) || !ValidOp(e.op) then reply == Refused && after == sys
      else
        var (ideal, answer) := Ideal(spent, e.op);
        if e.io.Complete? || ideal == spent then
          && reply == answer && Settled(format, after, e.who, ideal)
          && after.stores == sys.stores[e.who := after.stores[e.who]]
          && (after.file == sys.file <==> ideal == spent)
        else
          && reply == Refused && after.stores == sys.stores[e.who := Poisoned]
          && sys.file <= after.file && |after.file| <= |sys.file| + e.io.written
  {
    if Ready(sys, e.who) && ValidOp(e.op) {
      var seen, r := format.ReplayFile(sys.file).value, Intent(format, e.op).value;
      JournalIsIdeal(format, toks, seen, spent, e.op);
      RecordsChanges(format, toks, seen, spent, e.op);
      StepSettles(format, sys, e);
      SettleAnswers(format, sys.file, seen, r, e.io);
      hide Format.ReplayFile, Holds, Update, Ideal, Inv, Step, Settle, Answer, Intent, Within;
    } else if e.who in sys.stores {
      assert sys.stores[e.who := sys.stores[e.who]] == sys.stores;
    }
  }

  /** A process opens a whole journal and has then read all of it. */
  lemma OpenAnswers(format: Format, toks: set<TokenId>, sys: System, spent: set<TokenId>, who: nat)
    requires NoCollisions(format, toks) && Models(format, toks, sys, spent) && !Torn(format, sys) && who !in sys.stores
    ensures var (after, reply) := Step(format, sys, Open(who));
            reply == Done && Settled(format, after, who, spent) && after.file == sys.file
  {
    hide Format.ReplayFile, Holds, Inv;
  }

  /** A store that finds its journal shorter than what it has read refuses, and stays out of use. */
  lemma TruncatedIsRefused(format: Format, sys: System, e: Event)
    requires e.Do? && ValidOp(e.op) && Ready(sys, e.who) && |sys.file| < sys.stores[e.who].offset
    ensures Step(format, sys, e) == (sys.(stores := sys.stores[e.who := Poisoned]), Refused)
  {
  }

  // ---- after any run

  ghost function FinalSpent(format: Format, sys: System, spent: set<TokenId>, events: seq<Event>): set<TokenId>
    decreases |events|
  {
    if events == [] then spent
    else FinalSpent(format, Step(format, sys, events[0]).0, Next(format, sys, spent, events[0]), events[1..])
  }

  lemma {:induction false} RunModels(format: Format, toks: set<TokenId>, sys: System, spent: set<TokenId>, events: seq<Event>)
    requires NoCollisions(format, toks) && RunWithin(events, toks) && Models(format, toks, sys, spent)
    ensures Models(format, toks, Final(format, sys, events), FinalSpent(format, sys, spent, events))
    decreases |events|
  {
    hide Models, Step, Next;
    if events != [] {
      StepModels(format, toks, sys, spent, events[0]);
      RunModels(format, toks, Step(format, sys, events[0]).0, Next(format, sys, spent, events[0]), events[1..]);
    }
  }

  /** However a run went, as long as nothing is torn the next operation of a usable store whose append works is answered ideally. */
  lemma AlwaysAnswers(format: Format, toks: set<TokenId>, sys: System, spent: set<TokenId>, events: seq<Event>, e: Event)
    requires NoCollisions(format, toks) && RunWithin(events + [e], toks) && Models(format, toks, sys, spent)
    requires var last := Final(format, sys, events);
             !Torn(format, last) && e.Do? && e.io.Complete? && Ready(last, e.who) && ValidOp(e.op)
    ensures Step(format, Final(format, sys, events), e).1 == Ideal(FinalSpent(format, sys, spent, events), e.op).1
  {
    assert forall x :: x in events ==> x in events + [e];
    assert e in events + [e];
    hide Models, Final, FinalSpent, Settled;
    RunModels(format, toks, sys, spent, events);
    JournalAnswers(format, toks, Final(format, sys, events), FinalSpent(format, sys, spent, events), e);
    hide Step, Ideal;
  }

  /** What refuses once refuses until it is opened again: a store that turned down a well-formed operation is out of use. */
  lemma RefusalPoisons(format: Format, sys: System, e: Event)
    requires e.Do? && ValidOp(e.op) && Step(format, sys, e).1 == Refused
    ensures !Ready(Step(format, sys, e).0, e.who)
  {
    hide Format.Refresh, Format.Encode, Update;
  }

  lemma {:induction false} StaysUnready(format: Format, sys: System, events: seq<Event>, who: nat, j: nat)
    requires !Ready(sys, who) && j < |events| && events[j].Do? && events[j].who == who
    requires forall k :: 0 <= k < j ==> events[k] != Open(who)
    ensures Run(format, sys, events)[j] == Refused
    decreases j
  {
    hide Format.Refresh, Format.Encode, Update, Settle, Intent, Format.ReplayFile;
    if j > 0 {
      StaysUnready(format, Step(format, sys, events[0]).0, events[1..], who, j - 1);
    }
  }

  lemma {:induction false} RefusedUntilReopened(format: Format, sys: System, events: seq<Event>, i: nat, j: nat)
    requires i < j < |events| && events[i].Do? && events[j].Do? && events[i].who == events[j].who && ValidOp(events[i].op)
    requires Run(format, sys, events)[i] == Refused && forall k :: i < k < j ==> events[k] != Open(events[i].who)
    ensures Run(format, sys, events)[j] == Refused
    decreases i
  {
    var next := Step(format, sys, events[0]).0;
    if i == 0 {
      RefusalPoisons(format, sys, events[0]);
      hide Step;
      StaysUnready(format, next, events[1..], events[i].who, j - 1);
    } else {
      hide Step;
      RefusedUntilReopened(format, next, events[1..], i - 1, j - 1);
    }
  }

  // ---- runs in which nothing goes wrong

  /** Stores are opened before use and not twice, operations are well formed, and every append works. */
  predicate Orderly(open: set<nat>, events: seq<Event>)
    decreases |events|
  {
    events == [] ||
    match events[0]
    case Open(who) => who !in open && Orderly(open + {who}, events[1..])
    case Close(who) => Orderly(open - {who}, events[1..])
    case Do(who, op, io) => who in open && ValidOp(op) && io.Complete? && Orderly(open, events[1..])
  }

  /** The answers of one in-memory store that is given all the operations. */
  ghost function InMemory(keys: set<seq<byte>>, events: seq<Event>): seq<Reply>
    decreases |events|
  {
    if events == [] then []
    else if !events[0].Do? then [Done] + InMemory(keys, events[1..])
    else
      var (after, reply) := SpentSetStep(keys, events[0].op);
      [reply] + InMemory(after, events[1..])
  }

  ghost predicate AllReady(sys: System, open: set<nat>) {
    sys.stores.Keys == open && forall who :: who in open ==> Ready(sys, who)
  }

  lemma OrderlyStep(format: Format, toks: set<TokenId>, sys: System, spent: set<TokenId>, open: set<nat>, events: seq<Event>)
    requires NoCollisions(format, toks) && RunWithin(events, toks) && Models(format, toks, sys, spent) && !Torn(format, sys)
    requires events != [] && AllReady(sys, open) && Orderly(open, events)
    ensures var e := events[0];
      var (after, reply) := Step(format, sys, e);
      var still := StillOpen(open, e);
      && AllReady(after, still) && Orderly(still, events[1..]) && !Torn(format, after)
      && Models(format, toks, after, if e.Do? then Ideal(spent, e.op).0 else spent)
      && reply == if e.Do? then Ideal(spent, e.op).1 else Done
  {
    var e := events[0];
    assert e in events && (e.Do? ==> Within(e.op, toks));
    hide Holds, Models, Ideal, Inv, Step, Torn, NoCollisions, Within, RunWithin;
    match e
    case Open(who) =>
      OrderlyOpen(format, toks, sys, spent, who);
      StoresReady(sys, Step(format, sys, e).0, open, e);
    case Close(who) =>
      OrderlyClose(format, toks, sys, spent, who);
      StoresReady(sys, Step(format, sys, e).0, open, e);
    case Do(_, _, _) =>
      OrderlyDo(format, toks, sys, spent, e);
      StoresReady(sys, Step(format, sys, e).0, open, e);
  }

  function StillOpen(open: set<nat>, e: Event): set<nat> {
    if e.Open? then open + {e.who} else if e.Close? then open - {e.who} else open
  }

  lemma StoresReady(sys: System, after: System, open: set<nat>, e: Event)
    requires AllReady(sys, open) && (e.Do? ==> e.who in open)
    requires if e.Close? then after.stores == sys.stores - {e.who}
             else Ready(after, e.who) && after.stores == sys.stores[e.who := after.stores[e.who]]
    ensures AllReady(after, StillOpen(open, e))
  {
  }

  lemma OrderlyOpen(format: Format, toks: set<TokenId>, sys: System, spent: set<TokenId>, who: nat)
    requires NoCollisions(format, toks) && Models(format, toks, sys, spent) && !Torn(format, sys) && who !in sys.stores
    ensures var (after, reply) := Step(format, sys, Open(who));
      Models(format, toks, after, spent) && !Torn(format, after) && reply == Done && Ready(after, who) &&
      after.stores == sys.stores[who := after.stores[who]]
  {
    StepModels(format, toks, sys, spent, Open(who));
    hide Format.ReplayFile, Holds, Inv;
  }

  lemma OrderlyClose(format: Format, toks: set<TokenId>, sys: System, spent: set<TokenId>, who: nat)
    requires NoCollisions(format, toks) && Models(format, toks, sys, spent) && !Torn(format, sys)
    ensures Step(format, sys, Close(who)) == (sys.(stores := sys.stores - {who}), Done)
    ensures Models(format, toks, sys.(stores := sys.stores - {who}), spent) && !Torn(format, sys.(stores := sys.stores - {who}))
  {
    StepModels(format, toks, sys, spent, Close(who));
    hide Format.ReplayFile, Holds, Inv;
  }

  lemma OrderlyDo(format: Format, toks: set<TokenId>, sys: System, spent: set<TokenId>, e: Event)
    requires NoCollisions(format, toks) && Models(format, toks, sys, spent) && !Torn(format, sys)
    requires e.Do? && ValidOp(e.op) && Within(e.op, toks) && Ready(sys, e.who) && e.io.Complete?
    ensures var (after, reply) := Step(format, sys, e);
      && Models(format, toks, after, Ideal(spent, e.op).0) && !Torn(format, after) && Ready(after, e.who)
      && after.stores == sys.stores[e.who := after.stores[e.who]] && reply == Ideal(spent, e.op).1
  {
    JournalAnswers(format, toks, sys, spent, e);
    StepModels(format, toks, sys, spent, e);
    NeverRefuses(spent, e.op);
    hide Format.ReplayFile, Holds, Models, Ideal, Step, Inv;
  }

  lemma NeverRefuses(spent: set<TokenId>, op: Op)
    requires ValidOp(op)
    ensures Ideal(spent, op).1 != Refused
  {
  }

  /** Processes that come and go over one working journal are together exactly one in-memory store, answer by answer. */
  lemma {:induction false} OrderlyRunsAreInMemory(format: Format, toks: set<TokenId>, ids: set<KeyId>, sys: System,
                                                  spent: set<TokenId>, open: set<nat>, events: seq<Event>)
    requires NoCollisions(format, toks) && RunWithin(events, toks) && Models(format, toks, sys, spent) && !Torn(format, sys)
    requires Separable(ids) && RunOver(events, toks, ids) && AllReady(sys, open) && Orderly(open, events)
    ensures Run(format, sys, events) == InMemory(Keys(spent), events)
    decreases |events|
  {
    if events != [] {
      var e := events[0];
      OrderlyStep(format, toks, sys, spent, open, events);
      if e.Do? {
        assert spent <= toks;
        SpentSetIsIdeal(ids, spent, e.op);
      }
      hide Step, Models, NoCollisions, Ideal, SpentSetStep, Keys;
      OrderlyRunsAreInMemory(format, toks, ids, Step(format, sys, e).0, if e.Do? then Ideal(spent, e.op).0 else spent, StillOpen(open, e),
        events[1..]);
    }
  }

  /** From a fresh journal: the first process to open it, and all that follow. */
  lemma FreshRunsAreInMemory(format: Format, toks: set<TokenId>, ids: set<KeyId>, events: seq<Event>)
    requires NoCollisions(format, toks) && RunWithin(events, toks) && Separable(ids) && RunOver(events, toks, ids)
    requires Orderly({}, events)
    ensures Run(format, System(HEADER, map[]), events) == InMemory({}, events)
  {
    FreshJournal(format, toks);
    assert HEADER[..|HEADER|] == HEADER && HEADER[|HEADER|..] == [];
    OrderlyRunsAreInMemory(format, toks, ids, System(HEADER, map[]), {}, {}, events);
    assert Keys({}) == {};
  }
}
