/**
 * Whole runs of any number of processes over one journal: what every store knows, agreement with the
 * in-memory store, and one-shot spending.
 */
module RedemptionRuns {
  import opened Prelude
  import opened JournalFormat
  import opened RedemptionStores

  datatype TokenId = TokenId(keyId: KeyId, nonce: seq<byte>)

  // Opening and closing include crashes: a process that dies in the middle of an append is an operation whose
  // Io fails, followed by Close.
  datatype Event = Do(who: nat, op: Op, io: Io) | Open(who: nat) | Close(who: nat)

  datatype System = System(file: seq<byte>, stores: map<nat, Store>)

  // ---- tokens by identity

  predicate ValidId(t: TokenId) {
    1 <= |t.keyId| <= MAX_TOKEN_BYTES && 1 <= |t.nonce| <= MAX_TOKEN_BYTES
  }

  function Print(format: Format, t: TokenId): Fingerprint
    requires ValidId(t)
  {
    format.sha256(IdentityBytes(t.keyId, t.nonce))
  }

  /** SHA-256 does not collide on the identities of these tokens. */
  ghost predicate NoCollisions(format: Format, toks: set<TokenId>) {
    && (forall t :: t in toks ==> ValidId(t))
    && (forall a, b :: a in toks && b in toks && Print(format, a) == Print(format, b) ==>
          IdentityBytes(a.keyId, a.nonce) == IdentityBytes(b.keyId, b.nonce))
  }

  lemma PrintInjective(format: Format, toks: set<TokenId>, a: TokenId, b: TokenId)
    requires NoCollisions(format, toks) && a in toks && b in toks && Print(format, a) == Print(format, b)
    ensures a == b
  {
    LengthPrefixInjective(a.keyId, a.nonce, b.keyId, b.nonce);
  }

  function IdOf(tok: Token): TokenId {
    TokenId(tok.keyId, tok.nonce)
  }

  predicate ValidOp(op: Op) {
    match op
    case Retire(keyId) => 1 <= |keyId| <= MAX_TOKEN_BYTES
    case _ => ValidToken(op.tok)
  }

  ghost function OfKey(spent: set<TokenId>, keyId: KeyId): set<TokenId> {
    set t | t in spent && t.keyId == keyId
  }

  /** The redemption store everybody has in mind: a set of token identities. */
  ghost function Ideal(spent: set<TokenId>, op: Op): (set<TokenId>, Reply)
    requires ValidOp(op)
  {
    match op
    case Retire(keyId) => (spent - OfKey(spent, keyId), Retired(|OfKey(spent, keyId)|))
    case Refund(tok) => (spent - {IdOf(tok.value)}, Done)
    case Spend(tok) =>
      if IdOf(tok.value) in spent then (spent, AlreadySpent) else (spent + {IdOf(tok.value)}, Done)
  }

  /** The operation mentions only tokens of this set. */
  predicate Within(op: Op, toks: set<TokenId>) {
    ValidOp(op) && (op.Retire? || IdOf(op.tok.value) in toks)
  }

  /** The journal's map holds exactly the spent tokens. */
  ghost predicate Holds(format: Format, seen: Seen, spent: set<TokenId>) {
    && (forall t :: t in spent ==> ValidId(t) && Print(format, t) in seen && seen[Print(format, t)] == t.keyId)
    && (forall f :: f in seen ==> exists t :: t in spent && ValidId(t) && Print(format, t) == f)
  }

  /** The journal decides every operation as the ideal store does, and its record is the ideal update. */
  lemma JournalIsIdeal(format: Format, toks: set<TokenId>, seen: Seen, spent: set<TokenId>, op: Op)
    requires NoCollisions(format, toks) && spent <= toks && Holds(format, seen, spent) && Within(op, toks)
    ensures var r, (after, reply) := Intent(format, op).value, Ideal(spent, op);
            && Answer(r, seen).1 == reply && after <= toks
            && Holds(format, if Answer(r, seen).0 then Update(r, seen) else seen, after)
  {
    match op
    case Retire(keyId) => RetireIsIdeal(format, toks, seen, spent, keyId);
    case Spend(tok) => SpendIsIdeal(format, toks, seen, spent, IdOf(tok.value));
    case Refund(tok) => RefundIsIdeal(format, toks, seen, spent, IdOf(tok.value));
  }

  lemma SpendIsIdeal(format: Format, toks: set<TokenId>, seen: Seen, spent: set<TokenId>, t: TokenId)
    requires NoCollisions(format, toks) && spent <= toks && t in toks && Holds(format, seen, spent)
    ensures Print(format, t) in seen <==> t in spent
    ensures Holds(format, seen[Print(format, t) := t.keyId], spent + {t})
  {
    forall a | a in spent && Print(format, a) == Print(format, t) ensures a == t {
      PrintInjective(format, toks, a, t);
    }
    hide Print;
  }

  lemma RefundIsIdeal(format: Format, toks: set<TokenId>, seen: Seen, spent: set<TokenId>, t: TokenId)
    requires NoCollisions(format, toks) && spent <= toks && t in toks && Holds(format, seen, spent)
    ensures Print(format, t) in seen <==> t in spent
    ensures Holds(format, seen - {Print(format, t)}, spent - {t})
    ensures t !in spent ==> spent - {t} == spent
  {
    forall a | a in spent && Print(format, a) == Print(format, t) ensures a == t {
      PrintInjective(format, toks, a, t);
    }
    hide Print;
  }

  lemma RetireIsIdeal(format: Format, toks: set<TokenId>, seen: Seen, spent: set<TokenId>, keyId: KeyId)
    requires NoCollisions(format, toks) && spent <= toks && Holds(format, seen, spent)
    ensures |Under(seen, keyId)| == |OfKey(spent, keyId)|
    ensures Under(seen, keyId) == {} <==> OfKey(spent, keyId) == {}
    ensures Holds(format, Update(Record(RETIRE, keyId, ZERO), seen), spent - OfKey(spent, keyId))
    ensures OfKey(spent, keyId) == {} ==> spent - OfKey(spent, keyId) == spent
  {
    var fp := (t: TokenId) => if ValidId(t) then Print(format, t) else ZERO;
    var xs := OfKey(spent, keyId);
    forall x, x' | x in xs && x' in xs && fp(x) == fp(x') ensures x == x' {
      PrintInjective(format, toks, x, x');
    }
    hide Print;
    forall f | f in Under(seen, keyId) ensures exists t :: t in xs && fp(t) == f {
      var t :| t in spent && ValidId(t) && Print(format, t) == f;
      assert t in xs && fp(t) == f;
    }
    BijectionKeepsSize(xs, Under(seen, keyId), fp);
    if xs == {} {
      assert spent - xs == spent;
    }
    var after := Update(Record(RETIRE, keyId, ZERO), seen);
    forall f | f in after ensures exists t :: t in spent - xs && ValidId(t) && Print(format, t) == f {
      var t :| t in spent && ValidId(t) && Print(format, t) == f;
      assert t in spent - xs;
    }
  }

  // ---- the in-memory store

  ghost function Keys(spent: set<TokenId>): set<seq<byte>> {
    set t | t in spent :: SpentKey(t.keyId, t.nonce)
  }

  /** No key id of the set is another one followed by a bar and more: exactly what the textual keys can tell apart. */
  predicate Separable(ids: set<KeyId>) {
    forall a, b :: a in ids && b in ids && a != b ==> !StartsWithKey(a, b)
  }

  predicate OpOver(op: Op, ids: set<KeyId>) {
    match op
    case Retire(keyId) => keyId in ids
    case _ => op.tok.Some? ==> op.tok.value.keyId in ids
  }

  predicate Over(spent: set<TokenId>, op: Op, ids: set<KeyId>) {
    ValidOp(op) && OpOver(op, ids) && forall t :: t in spent ==> t.keyId in ids
  }

  /** Two different key ids have some key in common exactly when one is the other followed by a bar and more. */
  lemma KeysCollideIff(a: KeyId, b: KeyId)
    requires a != b
    ensures (exists m, n :: SpentKey(a, m) == SpentKey(b, n)) <==> StartsWithKey(a, b) || StartsWithKey(b, a)
  {
    if m, n :| SpentKey(a, m) == SpentKey(b, n) {
      KeyInCommon(a, m, b, n);
    }
    if StartsWithKey(a, b) {
      Collide(a, b, []);
    }
    if StartsWithKey(b, a) {
      Collide(b, a, []);
    }
  }

  lemma KeyInCommon(a: KeyId, m: seq<byte>, b: KeyId, n: seq<byte>)
    requires SpentKey(a, m) == SpentKey(b, n)
    ensures a == b ==> m == n
    ensures a == b || StartsWithKey(a, b) || StartsWithKey(b, a)
  {
    var k, l := SpentKey(a, m), SpentKey(b, n);
    assert k[..|a|] == a && k[|a|] == BAR && k[|a| + 1..] == m;
    assert l[..|b|] == b && l[|b|] == BAR && l[|b| + 1..] == n;
    if |a| > |b| {
      assert a[..|b|] == k[..|b|] == b && a[|b|] == k[|b|];
    } else if |b| > |a| {
      assert b[..|a|] == l[..|a|] == a && b[|a|] == l[|a|];
    }
  }

  lemma Collide(a: KeyId, b: KeyId, m: seq<byte>)
    requires StartsWithKey(a, b)
    ensures SpentKey(a, m) == SpentKey(b, a[|b| + 1..] + [BAR] + m)
  {
    assert a == b + [BAR] + a[|b| + 1..];
  }

  lemma KeyDetermines(ids: set<KeyId>, keyId: KeyId, t: TokenId)
    requires Separable(ids) && t.keyId in ids && keyId in ids
    ensures StartsWithKey(SpentKey(t.keyId, t.nonce), keyId) <==> t.keyId == keyId
  {
    var k, n := SpentKey(t.keyId, t.nonce), |t.keyId|;
    assert k[..n] == t.keyId && k[n] == BAR;
    if StartsWithKey(k, keyId) {
      assert k == SpentKey(keyId, k[|keyId| + 1..]);
      KeyInCommon(t.keyId, t.nonce, keyId, k[|keyId| + 1..]);
    }
  }

  lemma KeysInjective(ids: set<KeyId>, a: TokenId, b: TokenId)
    requires Separable(ids) && a.keyId in ids && b.keyId in ids && SpentKey(a.keyId, a.nonce) == SpentKey(b.keyId, b.nonce)
    ensures a == b
  {
    KeyInCommon(a.keyId, a.nonce, b.keyId, b.nonce);
  }

  ghost predicate ActsIdeally(spent: set<TokenId>, op: Op) {
    ValidOp(op) && SpentSetStep(Keys(spent), op) == (Keys(Ideal(spent, op).0), Ideal(spent, op).1)
  }

  /** Over separable key ids the textual keys of SpentSet behave as token identities, retirement counts included. */
  lemma SpentSetIsIdeal(ids: set<KeyId>, spent: set<TokenId>, op: Op)
    requires Separable(ids) && Over(spent, op, ids)
    ensures ActsIdeally(spent, op)
  {
    forall a: TokenId, b: TokenId | a.keyId in ids && b.keyId in ids && SpentKey(a.keyId, a.nonce) == SpentKey(b.keyId, b.nonce)
      ensures a == b {
      KeysInjective(ids, a, b);
    }
    if op.Retire? {
      RetireByText(ids, spent, op.keyId);
    } else {
      var t, after := IdOf(op.tok.value), Ideal(spent, op).0;
      assert SpentKey(t.keyId, t.nonce) in Keys(spent) <==> t in spent;
      assert Keys(after) == if op.Refund? then Keys(spent) - {SpentKey(t.keyId, t.nonce)}
                                          else Keys(spent) + {SpentKey(t.keyId, t.nonce)};
      assert op.Spend? && t in spent ==> Keys(after) == Keys(spent);
    }
  }

  /** The in-memory store is right about every state and operation over some key ids exactly when those are separable. */
  lemma SpentSetExactIff(ids: set<KeyId>)
    requires forall a :: a in ids ==> 1 <= |a| <= MAX_TOKEN_BYTES
    ensures Separable(ids) <==> forall spent, op :: Over(spent, op, ids) ==> ActsIdeally(spent, op)
  {
    if Separable(ids) {
      forall spent, op | Over(spent, op, ids) ensures ActsIdeally(spent, op) {
        SpentSetIsIdeal(ids, spent, op);
      }
    } else {
      var a, b :| a in ids && b in ids && a != b && StartsWithKey(a, b);
      var spent, op := Confusion(a, b);
      assert Over(spent, op, ids) && !ActsIdeally(spent, op);
    }
  }

  /** Spending a token of one key id blocks a token of the other. */
  lemma Confusion(a: KeyId, b: KeyId) returns (spent: set<TokenId>, op: Op)
    requires 1 <= |a| <= MAX_TOKEN_BYTES && 1 <= |b| <= MAX_TOKEN_BYTES && a != b && StartsWithKey(a, b)
    ensures Over(spent, op, {a, b}) && !ActsIdeally(spent, op)
    ensures op.Spend? && SpentSetStep(Keys(spent), op).1 == AlreadySpent && Ideal(spent, op).1 == Done
  {
    var nonce := a[|b| + 1..] + [BAR] + [0];
    spent, op := {TokenId(a, [0])}, Op.Spend(Some(Token(b, nonce, [])));
    Collide(a, b, [0]);
    assert SpentKey(a, [0]) in Keys(spent);
  }

  lemma RetireByText(ids: set<KeyId>, spent: set<TokenId>, keyId: KeyId)
    requires Separable(ids) && keyId in ids && forall t :: t in spent ==> t.keyId in ids
    ensures var gone := set k | k in Keys(spent) && StartsWithKey(k, keyId);
            |gone| == |OfKey(spent, keyId)| && Keys(spent) - gone == Keys(spent - OfKey(spent, keyId))
  {
    var gone := set k | k in Keys(spent) && StartsWithKey(k, keyId);
    var text := (t: TokenId) => SpentKey(t.keyId, t.nonce);
    var xs := OfKey(spent, keyId);
    forall t | t in spent ensures StartsWithKey(text(t), keyId) <==> t in xs {
      KeyDetermines(ids, keyId, t);
    }
    forall x, x' | x in spent && x' in spent && text(x) == text(x') ensures x == x' {
      KeysInjective(ids, x, x');
    }
    forall k | k in gone ensures exists t :: t in xs && text(t) == k {
      var t :| t in spent && text(t) == k;
      assert t in xs;
    }
    BijectionKeepsSize(xs, gone, text);
    forall k ensures k in Keys(spent) - gone <==> k in Keys(spent - xs) {
      if k in Keys(spent) - gone {
        var t :| t in spent && text(t) == k;
        assert t in spent - xs;
      }
      if k in Keys(spent - xs) {
        var t :| t in spent - xs && text(t) == k;
        assert t in spent && k !in gone;
      }
    }
  }

  // ---- runs

  ghost function Step(format: Format, sys: System, e: Event): (System, Reply) {
    match e
    case Open(who) =>
      if who in sys.stores || format.ReplayFile(sys.file).None? then (sys, Refused)
      else (sys.(stores := sys.stores[who := Live(|sys.file|, format.ReplayFile(sys.file).value)]), Done)
    case Close(who) => (sys.(stores := sys.stores - {who}), Done)
    case Do(who, op, io) =>
      if who !in sys.stores then (sys, Refused)
      else
        var o := Perform(format, sys.file, sys.stores[who], op, io);
        (System(o.file, sys.stores[who := o.store]), o.reply)
  }

  /** Every usable store holds the replay of the part of the file it has read. */
  ghost predicate Inv(format: Format, sys: System) {
    forall who :: who in sys.stores && sys.stores[who].Live? ==>
      var s := sys.stores[who]; s.offset <= |sys.file| && format.ReplayFile(sys.file[..s.offset]) == Some(s.seen)
  }

  ghost predicate Torn(format: Format, sys: System) {
    format.ReplayFile(sys.file).None?
  }

  /** The invariant ties the file, while it is whole, to an ideal set of spent tokens. */
  ghost predicate Models(format: Format, toks: set<TokenId>, sys: System, spent: set<TokenId>) {
    && Inv(format, sys) && spent <= toks
    && (!Torn(format, sys) ==> Holds(format, format.ReplayFile(sys.file).value, spent))
  }

  /** An operation took effect when it was answered, or when its whole record reached the file all the same. */
  ghost predicate TookEffect(format: Format, sys: System, e: Event) {
    var (after, reply) := Step(format, sys, e);
    e.Do? && (reply != Refused || (after.file != sys.file && !Torn(format, after)))
  }

  ghost function Next(format: Format, sys: System, spent: set<TokenId>, e: Event): set<TokenId> {
    if TookEffect(format, sys, e) && ValidOp(e.op) then Ideal(spent, e.op).0 else spent
  }

  /** What a live store's locked operation does, in terms of the file alone: the store's own history is irrelevant. */
  lemma PerformDependsOnFileOnly(format: Format, sys: System, e: Event)
    requires Inv(format, sys) && e.Do? && e.who in sys.stores && sys.stores[e.who].Live? && ValidOp(e.op)
    ensures Perform(format, sys.file, sys.stores[e.who], e.op, e.io) ==
            match format.ReplayFile(sys.file)
            case None => Outcome(sys.file, Poisoned, Refused)
            case Some(seen) => Settle(format, sys.file, seen, Intent(format, e.op).value, e.io)
  {
    var s := sys.stores[e.who];
    format.RefreshIsReplay(sys.file, s.offset, s.seen);
  }

  /** The heart of the protocol: one event of one process keeps the invariant and answers as the ideal store would. */
  lemma StepModels(format: Format, toks: set<TokenId>, sys: System, spent: set<TokenId>, e: Event)
    requires NoCollisions(format, toks) && Models(format, toks, sys, spent)
    requires e.Do? && ValidOp(e.op) ==> Within(e.op, toks)
    ensures Models(format, toks, Step(format, sys, e).0, Next(format, sys, spent, e))
    ensures e.Do? && Step(format, sys, e).1 != Refused ==> ValidOp(e.op) && Step(format, sys, e).1 == Ideal(spent, e.op).1
  {
    var after := Step(format, sys, e).0;
    if e.Do? && ValidOp(e.op) && e.who in sys.stores && sys.stores[e.who].Live? {
      PerformDependsOnFileOnly(format, sys, e);
      if !Torn(format, sys) {
        var seen, r := format.ReplayFile(sys.file).value, Intent(format, e.op).value;
        JournalIsIdeal(format, toks, seen, spent, e.op);
        SettleFile(format, sys.file, seen, r, e.io);
        FileGrows(format, sys, after);
      }
    } else if e.Open? {
      assert sys.file[..|sys.file|] == sys.file;
    }
  }

  /** Extending the file leaves every other store's knowledge true. */
  lemma FileGrows(format: Format, sys: System, after: System)
    requires Inv(format, sys) && sys.file <= after.file
    requires forall who :: who in after.stores && after.stores[who].Live? ==>
      || (who in sys.stores && after.stores[who] == sys.stores[who])
      || (after.stores[who].offset == |after.file| && format.ReplayFile(after.file) == Some(after.stores[who].seen))
    ensures Inv(format, after)
  {
    forall who | who in after.stores && after.stores[who].Live?
      ensures var s := after.stores[who]; s.offset <= |after.file| && format.ReplayFile(after.file[..s.offset]) == Some(s.seen) {
      var s := after.stores[who];
      if who in sys.stores && s == sys.stores[who] {
        assert after.file[..s.offset] == sys.file[..s.offset];
      } else {
        assert after.file[..s.offset] == after.file;
      }
    }
  }

  /** The file after a settled operation: unchanged, one whole record longer, or torn. */
  lemma SettleFile(format: Format, file: seq<byte>, seen: Seen, r: Record, io: Io)
    requires Writable(r) && format.ReplayFile(file) == Some(seen)
    ensures var (o, write) := (Settle(format, file, seen, r, io), Answer(r, seen).0);
            && file <= o.file
            && (o.store.Live? ==> o.store == Live(|o.file|, if write then Update(r, seen) else seen))
            && (o.reply != Refused ==> format.ReplayFile(o.file) == Some(if write then Update(r, seen) else seen))
            && (o.reply == Refused ==>
                  o.file == file || format.ReplayFile(o.file) == None
                  || (write && format.ReplayFile(o.file) == Some(Update(r, seen))))
  {
    hide Format.ReplayFile, Update;
    format.AppendIsUpdate(file, r);
    var e := format.Encode(r);
    assert e[..|e|] == e;
    if io.Fails? && 0 < io.written < |e| {
      format.TornFileRefused(file, r, io.written);
    }
    assert file + e[..0] == file;
  }

  ghost function Run(format: Format, sys: System, events: seq<Event>): seq<Reply>
    ensures |Run(format, sys, events)| == |events|
    decreases |events|
  {
    if events == [] then []
    else
      var (next, reply) := Step(format, sys, events[0]);
      [reply] + Run(format, next, events[1..])
  }

  ghost function Final(format: Format, sys: System, events: seq<Event>): System
    decreases |events|
  {
    if events == [] then sys else Final(format, Step(format, sys, events[0]).0, events[1..])
  }

  /** The operations that took effect in a run, with their answers. */
  ghost function History(format: Format, sys: System, events: seq<Event>): seq<(Op, Reply)>
    decreases |events|
  {
    if events == [] then []
    else
      var (next, reply) := Step(format, sys, events[0]);
      (if TookEffect(format, sys, events[0]) then [(events[0].op, reply)] else []) + History(format, next, events[1..])
  }

  /** Every answer in a history is the one an in-memory SpentSet gives when it performs the same operations in order. */
  ghost predicate AsSpentSet(keys: set<seq<byte>>, history: seq<(Op, Reply)>)
    decreases |history|
  {
    history == [] ||
    (var (after, reply) := SpentSetStep(keys, history[0].0);
     (history[0].1 == Refused || history[0].1 == reply) && AsSpentSet(after, history[1..]))
  }

  ghost predicate RunWithin(events: seq<Event>, toks: set<TokenId>) {
    forall e :: e in events && e.Do? && ValidOp(e.op) ==> Within(e.op, toks)
  }

  /** All tokens and operations of the run are of these key ids. */
  ghost predicate RunOver(events: seq<Event>, toks: set<TokenId>, ids: set<KeyId>) {
    (forall t :: t in toks ==> t.keyId in ids) && forall e :: e in events && e.Do? ==> OpOver(e.op, ids)
  }

  /** Any interleaving of any number of processes is linearised by the journal into one run of SpentSet. */
  lemma {:induction false} RunsRefineSpentSet(format: Format, toks: set<TokenId>, ids: set<KeyId>, sys: System,
                                              spent: set<TokenId>, events: seq<Event>)
    requires NoCollisions(format, toks) && RunWithin(events, toks) && Models(format, toks, sys, spent)
    requires Separable(ids) && RunOver(events, toks, ids)
    ensures AsSpentSet(Keys(spent), History(format, sys, events))
    decreases |events|
  {
    if events != [] {
      var e, rest, next := events[0], events[1..], Step(format, sys, events[0]).0;
      StepModels(format, toks, sys, spent, e);
      var after := Next(format, sys, spent, e);
      RunsRefineSpentSet(format, toks, ids, next, after, rest);
      if TookEffect(format, sys, e) {
        SpentSetIsIdeal(ids, spent, e.op);
        var h := History(format, sys, events);
        assert h[1..] == History(format, next, rest);
      } else {
        assert [] + History(format, next, rest) == History(format, next, rest);
      }
    }
  }

  /** What every reachable state keeps: each usable store equals the replay of its prefix of the file. */
  lemma {:induction false} RunKeepsInv(format: Format, toks: set<TokenId>, sys: System, spent: set<TokenId>, events: seq<Event>)
    requires NoCollisions(format, toks) && RunWithin(events, toks) && Models(format, toks, sys, spent)
    ensures Inv(format, Final(format, sys, events))
    decreases |events|
  {
    if events != [] {
      StepModels(format, toks, sys, spent, events[0]);
      RunKeepsInv(format, toks, Step(format, sys, events[0]).0, Next(format, sys, spent, events[0]), events[1..]);
    }
  }

  predicate Releases(e: Event, t: TokenId) {
    e.Do? && ((e.op.Refund? && e.op.tok.Some? && IdOf(e.op.tok.value) == t) || (e.op.Retire? && e.op.keyId == t.keyId))
  }

  predicate Spends(e: Event, t: TokenId) {
    e.Do? && e.op.Spend? && e.op.tok.Some? && IdOf(e.op.tok.value) == t
  }

  /** A spent token stays spent, for every process, until something releases it. */
  lemma {:induction false} StaysSpent(format: Format, toks: set<TokenId>, sys: System, spent: set<TokenId>,
                                      events: seq<Event>, t: TokenId, j: nat)
    requires NoCollisions(format, toks) && RunWithin(events, toks) && Models(format, toks, sys, spent)
    requires t in spent && j < |events| && Spends(events[j], t)
    requires forall k :: 0 <= k < j ==> !Releases(events[k], t)
    ensures Run(format, sys, events)[j] != Done
    decreases j
  {
    StepModels(format, toks, sys, spent, events[0]);
    if j > 0 {
      StaysSpent(format, toks, Step(format, sys, events[0]).0, Next(format, sys, spent, events[0]), events[1..], t, j - 1);
    }
  }

  /** No double spend: between two successful spends of one token there is a refund of it or a retirement of its key. */
  lemma {:induction false} NoDoubleSpend(format: Format, toks: set<TokenId>, sys: System, spent: set<TokenId>,
                                         events: seq<Event>, t: TokenId, i: nat, j: nat)
    requires NoCollisions(format, toks) && RunWithin(events, toks) && Models(format, toks, sys, spent)
    requires i < j < |events| && Spends(events[i], t) && Spends(events[j], t)
    requires Run(format, sys, events)[i] == Done && Run(format, sys, events)[j] == Done
    ensures exists k :: i < k < j && Releases(events[k], t)
    decreases i
  {
    StepModels(format, toks, sys, spent, events[0]);
    var next, after := Step(format, sys, events[0]).0, Next(format, sys, spent, events[0]);
    if i > 0 {
      NoDoubleSpend(format, toks, next, after, events[1..], t, i - 1, j - 1);
      var k :| i - 1 < k < j - 1 && Releases(events[1..][k], t);
      assert Releases(events[k + 1], t);
    } else if forall k :: 0 < k < j ==> !Releases(events[k], t) {
      StaysSpent(format, toks, next, after, events[1..], t, j - 1);
    }
  }

  /** Once a record is torn nothing is ever appended again and every operation is refused, in every process. */
  lemma {:induction false} TornIsForever(format: Format, sys: System, events: seq<Event>)
    requires Inv(format, sys) && Torn(format, sys)
    ensures Final(format, sys, events).file == sys.file
    ensures forall j :: 0 <= j < |events| && !events[j].Close? ==> Run(format, sys, events)[j] == Refused
    decreases |events|
  {
    if events != [] {
      var e, next := events[0], Step(format, sys, events[0]).0;
      if e.Do? && ValidOp(e.op) && e.who in sys.stores && sys.stores[e.who].Live? {
        PerformDependsOnFileOnly(format, sys, e);
      }
      TornIsForever(format, next, events[1..]);
    }
  }

  /** What a failed append leaves behind, if it leaves anything. */
  lemma FailedAppend(format: Format, sys: System, e: Event)
    requires Inv(format, sys) && !Torn(format, sys) && e.Do? && e.who in sys.stores && sys.stores[e.who].Live? && ValidOp(e.op)
    requires e.io.Fails? && Step(format, sys, e).0.file != sys.file
    ensures var r := Intent(format, e.op).value;
            var n := |Step(format, sys, e).0.file| - |sys.file|;
            0 < n <= |format.Encode(r)| && Step(format, sys, e).0.file == sys.file + format.Encode(r)[..n]
  {
    PerformDependsOnFileOnly(format, sys, e);
    hide format.ReplayFile, format.Encode, format.Refresh, Inv;
    var r := Intent(format, e.op).value;
    var record := format.Encode(r);
    assert record[..0] == [];
    assert record[..|record|] == record;
  }

  /** An append cut short tears the journal. */
  lemma CutAppendTears(format: Format, sys: System, e: Event)
    requires Inv(format, sys) && !Torn(format, sys) && e.Do? && e.who in sys.stores && sys.stores[e.who].Live? && ValidOp(e.op)
    requires e.io.Fails? && Step(format, sys, e).0.file != sys.file
    requires |Step(format, sys, e).0.file| < |sys.file| + |format.Encode(Intent(format, e.op).value)|
    ensures Torn(format, Step(format, sys, e).0)
  {
    hide format.ReplayFile, format.Encode, format.Refresh, Step, Inv;
    FailedAppend(format, sys, e);
    format.TornFileRefused(sys.file, Intent(format, e.op).value, |Step(format, sys, e).0.file| - |sys.file|);
  }

  // ---- from a fresh journal

  /** A fresh journal, header only, models the empty store. */
  lemma FreshJournal(format: Format, toks: set<TokenId>)
    ensures Models(format, toks, System(HEADER, map[]), {})
  {
    assert HEADER[..|HEADER|] == HEADER && HEADER[|HEADER|..] == [];
  }

  /** From a fresh journal any number of processes are together one in-memory store that starts empty. */
  lemma FreshRunsRefineSpentSet(format: Format, toks: set<TokenId>, ids: set<KeyId>, events: seq<Event>)
    requires NoCollisions(format, toks) && RunWithin(events, toks) && Separable(ids) && RunOver(events, toks, ids)
    ensures AsSpentSet({}, History(format, System(HEADER, map[]), events))
  {
    FreshJournal(format, toks);
    RunsRefineSpentSet(format, toks, ids, System(HEADER, map[]), {}, events);
    assert Keys({}) == {};
  }

  /** From a fresh journal no token is ever spent twice without a release in between. */
  lemma FreshRunsNeverDoubleSpend(format: Format, toks: set<TokenId>, events: seq<Event>, t: TokenId, i: nat, j: nat)
    requires NoCollisions(format, toks) && RunWithin(events, toks)
    requires i < j < |events| && Spends(events[i], t) && Spends(events[j], t)
    requires var replies := Run(format, System(HEADER, map[]), events); replies[i] == Done && replies[j] == Done
    ensures exists k :: i < k < j && Releases(events[k], t)
  {
    FreshJournal(format, toks);
    NoDoubleSpend(format, toks, System(HEADER, map[]), {}, events, t, i, j);
  }
}
