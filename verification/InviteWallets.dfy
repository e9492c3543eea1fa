/** The bearer's side of invites: a durable record of reserved vouchers and stocked tokens. */
module InviteWallets {
  import opened Prelude
  import opened Invites

  // reserved holds one flag a slot; the encoded tokens are opaque here.
  datatype Record = Record(bookId: seq<byte>, book: Book, reserved: seq<bool>, tokens: seq<string>, spent: nat)

  // A transaction commits, or reports failure without or with lasting effect.
  datatype TxIo = Commits | FailsBefore | FailsAfter

  datatype Current = Current(window: Window, first: nat, last: nat)

  predicate Consistent(r: Record) {
    |r.reserved| == r.book.voucherCount
  }

  /** The first epoch from index i on that contains an instant. */
  function FirstContaining(windows: seq<Window>, now: int, i: nat): (r: Option<nat>)
    requires i <= |windows|
    ensures r.Some? ==> i <= r.value < |windows| && windows[r.value].Contains(now)
    ensures r.None? ==> forall j :: i <= j < |windows| ==> !windows[j].Contains(now)
    decreases |windows| - i
  {
    if i == |windows| then None else if windows[i].Contains(now) then Some(i) else FirstContaining(windows, now, i + 1)
  }

  /** The slots a book may use now. */
  function CurrentEpoch(b: Book, now: int): Option<Current> {
    if b.schema == FIXED then
      if b.header.window.Contains(now) && b.voucherCount >= 0 then Some(Current(b.header.window, 0, b.voucherCount)) else None
    else
      match FirstContaining(b.epochs, now, 0)
      case None => None
      case Some(i) =>
        if b.vouchersPerEpoch < 0 then None
        else Some(Current(b.epochs[i], Times(i, b.vouchersPerEpoch), Times(i, b.vouchersPerEpoch) + b.vouchersPerEpoch))
  }

  function Times(i: nat, n: nat): nat {
    TimesMonotone(0, i, n);
    i * n
  }

  method InviteBookCurrentEpoch(b: Book, key: Id, now: int) returns (r: Option<Current>)
    requires ValidBook(b, key)
    ensures r == CurrentEpoch(b, now)
  {
    if b.schema == FIXED {
      if b.header.window.notBefore <= now && now < b.header.window.notAfter {
        return Some(Current(b.header.window, 0, b.voucherCount));
      }
      return None;
    }
    var i := 0;
    while i < |b.epochs|
      invariant 0 <= i <= |b.epochs|
      invariant FirstContaining(b.epochs, now, i) == FirstContaining(b.epochs, now, 0)
    {
      if b.epochs[i].notBefore <= now && now < b.epochs[i].notAfter {
        var first := Times(i, b.vouchersPerEpoch);
        return Some(Current(b.epochs[i], first, first + b.vouchersPerEpoch));
      }
      i := i + 1;
    }
    return None;
  }

  /** These slots are the ones counted to the epoch of this window. */
  ghost predicate OwnEpoch(b: Book, c: Current) {
    b.vouchersPerEpoch >= 1 &&
    forall slot: nat :: c.first <= slot < c.last ==>
      slot / b.vouchersPerEpoch < |b.epochs| && b.epochs[slot / b.vouchersPerEpoch] == c.window
  }

  /** A valid book's current slots exist, and belong to the epoch of that number. */
  lemma SlotsExist(b: Book, key: Id, now: int)
    requires ValidBook(b, key) && CurrentEpoch(b, now).Some?
    ensures var c := CurrentEpoch(b, now).value; c.first < c.last <= b.voucherCount && c.window.Contains(now)
    ensures b.schema == DAILY ==> OwnEpoch(b, CurrentEpoch(b, now).value)
  {
    if b.schema == DAILY {
      var i := FirstContaining(b.epochs, now, 0).value;
      hide Partition, GoodHeader, FirstContaining;
      WholeQuotient(b.voucherCount, b.vouchersPerEpoch);
      NextMultiple(i, b.vouchersPerEpoch);
      TimesMonotone(i + 1, |b.epochs|, b.vouchersPerEpoch);
      forall slot: nat | Times(i, b.vouchersPerEpoch) <= slot < Times(i, b.vouchersPerEpoch) + b.vouchersPerEpoch
        ensures slot / b.vouchersPerEpoch == i
      {
        QuotientIs(slot, b.vouchersPerEpoch, i);
      }
    }
  }

  lemma QuotientIs(n: nat, d: int, q: nat)
    requires d >= 1 && q * d <= n < q * d + d
    ensures n / d == q
  {
    SameRemainder(n, d, q, n - q * d);
    var off := n / d - q;
    assert off * d == 0 by {
      assert n == n / d * d + n % d;
      assert off * d == n / d * d - q * d;
    }
    if off >= 1 {
      AtLeastOne(off, d);
    } else if off <= -1 {
      AtLeastOne(-off, d);
    }
  }

  /** The slots from first to last, their epoch, and that it is the epoch of this instant. */
  ghost predicate SlotsOf(b: Book, now: int, window: Window, first: int, last: int) {
    window.Contains(now) &&
    if b.schema == FIXED then window == b.header.window && first == 0 && last == b.voucherCount
    else exists e :: 0 <= e < |b.epochs| && b.epochs[e] == window && first == e * b.vouchersPerEpoch && last == (e + 1) * b.vouchersPerEpoch
  }

  /** A valid book has current slots exactly during its window, and they are all the slots of the epoch that contains the instant. */
  lemma CurrentEpochIff(b: Book, key: Id, now: int)
    requires ValidBook(b, key)
    ensures CurrentEpoch(b, now).Some? <==> b.header.window.notBefore <= now < b.header.window.notAfter
    ensures CurrentEpoch(b, now).Some? ==>
      var c := CurrentEpoch(b, now).value; SlotsOf(b, now, c.window, c.first, c.last)
  {
    if b.schema == DAILY {
      PartitionCovers(b.epochs, b.header.window.notBefore, b.header.window.notAfter, now);
      if CurrentEpoch(b, now).Some? {
        var e := FirstContaining(b.epochs, now, 0).value;
        NextMultiple(e, b.vouchersPerEpoch);
      }
    }
    hide Partition, GoodHeader, FirstContaining;
  }

  /** What accepting a book promises: it is this mint's, its seed is whole, and each of its slots has its time in the window. */
  lemma AcceptedBookMeans(b: Book, key: Id, slot: nat)
    requires ValidBook(b, key) && slot < b.voucherCount
    ensures b.header.mintKeyId == key && 1 <= b.voucherCount <= 100_000 && |b.seed| == 32
    ensures exists now ::
      b.header.window.notBefore <= now < b.header.window.notAfter && CurrentEpoch(b, now).Some? &&
      CurrentEpoch(b, now).value.first <= slot < CurrentEpoch(b, now).value.last
  {
    if b.schema == FIXED {
      assert CurrentEpoch(b, b.header.window.notBefore).Some?;
    } else {
      var per := b.vouchersPerEpoch;
      WholeQuotient(b.voucherCount, per);
      var e := slot / per;
      SlotInItsEpoch(slot, |b.epochs|, per);
      var now := b.epochs[e].notBefore;
      PartitionForward(b.epochs, b.header.window.notBefore, b.header.window.notAfter);
      PartitionCovers(b.epochs, b.header.window.notBefore, b.header.window.notAfter, now);
      assert b.epochs[e].Contains(now);
      hide Partition, GoodHeader, FirstContaining;
      assert FirstContaining(b.epochs, now, 0) == Some(e);
      assert CurrentEpoch(b, now) == Some(Current(b.epochs[e], e * per, e * per + per));
    }
  }

  lemma SlotInItsEpoch(slot: nat, epochs: nat, per: int)
    requires per >= 1 && slot < epochs * per
    ensures 0 <= slot / per < epochs && slot / per * per <= slot < slot / per * per + per
  {
    var q := slot / per;
    assert slot == q * per + slot % per;
    if q >= epochs {
      TimesMonotone(epochs, q, per);
    }
  }

  function FirstFree(reserved: seq<bool>, from: nat, last: nat): (r: Option<nat>)
    requires from <= last <= |reserved|
    ensures r.Some? ==> from <= r.value < last && !reserved[r.value] && forall j :: from <= j < r.value ==> reserved[j]
    ensures r.None? ==> forall j :: from <= j < last ==> reserved[j]
    decreases last - from
  {
    if from == last then None else if !reserved[from] then Some(from) else FirstFree(reserved, from + 1, last)
  }

  datatype Reply = Slot(slot: nat) | NotActivated | WindowClosed | EpochExhausted | Inconsistent | Failed

  /** Reserving marks the first free slot of the current epoch, durably, before its voucher may be used. */
  function Reserve(r: Record, key: Id, now: int, io: TxIo): (Record, Reply)
    requires ValidBook(r.book, key)
  {
    if !Consistent(r) then (r, Inconsistent)
    else
      match CurrentEpoch(r.book, now)
      case None => (r, WindowClosed)
      case Some(c) =>
        SlotsExist(r.book, key, now);
        match FirstFree(r.reserved, c.first, c.last)
        case None => (r, EpochExhausted)
        case Some(slot) =>
          var marked := r.(reserved := r.reserved[slot := true]);
          (if io.FailsBefore? then r else marked, if io.Commits? then Slot(slot) else Failed)
  }

  /**
   * What reserving answers: with the current epoch's first free slot as soon as there is one and the transaction commits, and
   * otherwise that the window is closed, the epoch used up, or the store failing; only that slot is ever marked.
   */
  lemma ReserveIff(r: Record, key: Id, now: int, io: TxIo)
    requires ValidBook(r.book, key) && Consistent(r)
    ensures var (after, reply) := Reserve(r, key, now, io);
      if !(r.book.header.window.notBefore <= now < r.book.header.window.notAfter) then reply == WindowClosed && after == r
      else
        exists window, first, last :: SlotsOf(r.book, now, window, first, last) && 0 <= first < last <= |r.reserved| &&
          if forall j :: first <= j < last ==> r.reserved[j] then reply == EpochExhausted && after == r
          else
            exists slot: nat :: FreeSlot(r.reserved, first, last, slot) &&
              reply == (if io.Commits? then Slot(slot) else Failed) &&
              after == if io.FailsBefore? then r else r.(reserved := r.reserved[slot := true])
  {
    hide ValidBook, CurrentEpoch, SlotsOf;
    CurrentEpochIff(r.book, key, now);
    if CurrentEpoch(r.book, now).Some? {
      SlotsExist(r.book, key, now);
      var c := CurrentEpoch(r.book, now).value;
      var free := FirstFree(r.reserved, c.first, c.last);
      assert SlotsOf(r.book, now, c.window, c.first, c.last);
      if free.Some? {
        assert FreeSlot(r.reserved, c.first, c.last, free.value);
      }
    }
  }

  /** The first slot of the range that is not reserved. */
  predicate FreeSlot(reserved: seq<bool>, first: int, last: int, slot: nat)
    requires 0 <= first <= last <= |reserved|
  {
    first <= slot < last && !reserved[slot] && forall j :: first <= j < slot ==> reserved[j]
  }

  class InviteWallet {
    const expectedKey: Id
    const bookId: Book -> seq<byte>
    var record: Option<Record>

    constructor (expectedKey: Id, bookId: Book -> seq<byte>)
      ensures this.expectedKey == expectedKey && this.bookId == bookId && record == None
    {
      this.expectedKey, this.bookId, record := expectedKey, bookId, None;
    }

    predicate Valid()
      reads this
    {
      record.Some? ==> ValidBook(record.value.book, expectedKey)
    }

    /** Imports one book for good: the same book again changes nothing, another one is refused. */
    method Activate(book: Book, io: TxIo) returns (ok: bool)
      requires Valid()
      modifies this`record
      ensures Valid()
      ensures !ValidBook(book, expectedKey) ==> !ok && record == old(record)
      ensures old(record).Some? ==>
        && record == old(record)
        && (ok <==> ValidBook(book, expectedKey) && Consistent(record.value) && record.value.bookId == bookId(book) && io.Commits?)
      ensures old(record).None? && ValidBook(book, expectedKey) ==>
        && (ok <==> io.Commits?)
        && record == if io.FailsBefore? then None
                     else Some(Record(bookId(book), book, seq(book.voucherCount, _ => false), [], 0))
    {
      if !ValidBook(book, expectedKey) { return false; }
      if record.Some? {
        return Consistent(record.value) && record.value.bookId == bookId(book) && io.Commits?;
      }
      if io.FailsBefore? { return false; }
      record := Some(Record(bookId(book), book, seq(book.voucherCount, _ => false), [], 0));
      return io.Commits?;
    }

    method ReserveVoucher(now: int, io: TxIo) returns (r: Reply)
      requires Valid()
      modifies this`record
      ensures Valid()
      ensures old(record).None? ==> r == NotActivated && record == None
      ensures old(record).Some? ==> record.Some? && (record.value, r) == Reserve(old(record).value, expectedKey, now, io)
    {
      if record.None? { return NotActivated; }
      if !Consistent(record.value) { return Inconsistent; }
      var book, reserved := record.value.book, record.value.reserved;
      var current := InviteBookCurrentEpoch(book, expectedKey, now);
      if current.None? { return WindowClosed; }
      SlotsExist(book, expectedKey, now);
      var slot, last := current.value.first, current.value.last;
      while slot < last && reserved[slot]
        invariant current.value.first <= slot <= last
        invariant FirstFree(reserved, slot, last) == FirstFree(reserved, current.value.first, last)
      {
        slot := slot + 1;
      }
      if slot == last { return EpochExhausted; }
      if io.FailsBefore? { return Failed; }
      record := Some(record.value.(reserved := reserved[slot := true]));
      return if io.Commits? then Slot(slot) else Failed;
    }

    /** The newest stocked token leaves the record before it is handed out. */
    method TakeStocked(io: TxIo) returns (tok: Option<string>)
      requires Valid()
      modifies this`record
      ensures Valid()
      ensures old(record).None? || !Consistent(old(record).value) || old(record).value.tokens == [] ==> tok == None && record == old(record)
      ensures old(record).Some? && Consistent(old(record).value) && old(record).value.tokens != [] ==>
        var r := old(record).value;
        var n := |r.tokens| - 1;
        && tok == (if io.Commits? then Some(r.tokens[n]) else None)
        && record == Some(if io.FailsBefore? then r else r.(tokens := r.tokens[..n], spent := r.spent + 1))
    {
      if record.None? || !Consistent(record.value) || record.value.tokens == [] { return None; }
      var r := record.value;
      var n := |r.tokens| - 1;
      if io.FailsBefore? { return None; }
      record := Some(r.(tokens := r.tokens[..n], spent := r.spent + 1));
      return if io.Commits? then Some(r.tokens[n]) else None;
    }

    method Put(tok: string, io: TxIo)
      requires Valid()
      modifies this`record
      ensures Valid()
      ensures record == if old(record).None? || !Consistent(old(record).value) || io.FailsBefore? then old(record)
                        else
                          var r := old(record).value;
                          Some(r.(tokens := r.tokens + [tok], spent := if r.spent > 0 then r.spent - 1 else 0))
    {
      if record.None? || !Consistent(record.value) || io.FailsBefore? { return; }
      var r := record.value;
      record := Some(r.(tokens := r.tokens + [tok], spent := if r.spent > 0 then r.spent - 1 else 0));
    }
  }

  // ---- whole lives of one wallet

  // hand holds the reserved vouchers of running processes, sent what has gone to the mint; when is each reservation's time.
  datatype Life = Life(record: Record, hand: set<nat>, sent: seq<nat>, when: map<nat, int>)

  datatype Step =
    | ReserveOne(now: int, io: TxIo)
    | SendOne(slot: nat)
    | OtherUpdate(tokens: seq<string>, spent: nat)  // taking, putting and stocking tokens rewrite only these
    | Crash

  function Live(s: Life, key: Id, a: Step): (r: Life)
    requires ValidBook(s.record.book, key)
    ensures r.record.book == s.record.book
  {
    match a
    case ReserveOne(now, io) =>
      var (record, reply) := Reserve(s.record, key, now, io);
      if reply.Slot? then Life(record, s.hand + {reply.slot}, s.sent, s.when[reply.slot := now]) else s.(record := record)
    case SendOne(slot) => if slot in s.hand then s.(hand := s.hand - {slot}, sent := s.sent + [slot]) else s
    case OtherUpdate(tokens, spent) => s.(record := s.record.(tokens := tokens, spent := spent))
    case Crash => s.(hand := {})
  }

  function LiveAll(s: Life, key: Id, run: seq<Step>): (r: Life)
    requires ValidBook(s.record.book, key)
    ensures r.record.book == s.record.book
    decreases |run|
  {
    if run == [] then s else LiveAll(Live(s, key, run[0]), key, run[1..])
  }

  predicate Marked(s: Life, slot: nat) {
    slot < |s.record.reserved| && s.record.reserved[slot]
  }

  /** The slot was reserved in its own epoch. */
  predicate InItsEpoch(s: Life, slot: nat) {
    slot in s.when &&
    (var c := CurrentEpoch(s.record.book, s.when[slot]); c.Some? && c.value.first <= slot < c.value.last)
  }

  ghost predicate Inv(s: Life) {
    && (forall slot :: slot in s.hand ==> Marked(s, slot) && slot !in s.sent && InItsEpoch(s, slot))
    && (forall slot :: slot in s.sent ==> Marked(s, slot) && InItsEpoch(s, slot))
    && (forall i, j :: 0 <= i < j < |s.sent| ==> s.sent[i] != s.sent[j])
  }

  lemma LiveKeepsInv(s: Life, key: Id, a: Step)
    requires ValidBook(s.record.book, key) && Inv(s)
    ensures Inv(Live(s, key, a))
  {
    hide ValidBook, CurrentEpoch;
    if a.ReserveOne? {
      ReserveMarks(s.record, key, a.now, a.io);
      hide Reserve;
    }
  }

  /** A reservation only ever adds one mark, on a slot that had none and is of the current epoch. */
  lemma ReserveMarks(r: Record, key: Id, now: int, io: TxIo)
    requires ValidBook(r.book, key)
    ensures var (after, reply) := Reserve(r, key, now, io);
      && after.book == r.book && |after.reserved| == |r.reserved|
      && (forall j :: 0 <= j < |r.reserved| && r.reserved[j] ==> after.reserved[j])
      && (reply.Slot? ==>
            && reply.slot < |r.reserved| && !r.reserved[reply.slot] && after.reserved[reply.slot]
            && CurrentEpoch(r.book, now).Some?
            && CurrentEpoch(r.book, now).value.first <= reply.slot < CurrentEpoch(r.book, now).value.last)
  {
    hide ValidBook, CurrentEpoch;
    if CurrentEpoch(r.book, now).Some? {
      SlotsExist(r.book, key, now);
    }
  }

  lemma {:induction false} LiveAllKeepsInv(s: Life, key: Id, run: seq<Step>)
    requires ValidBook(s.record.book, key) && Inv(s)
    ensures Inv(LiveAll(s, key, run))
    decreases |run|
  {
    hide Inv, Live, ValidBook;
    if run != [] {
      LiveKeepsInv(s, key, run[0]);
      LiveAllKeepsInv(Live(s, key, run[0]), key, run[1..]);
    }
  }

  /** No slot's voucher is ever sent twice, over any run with any crashes. */
  lemma NoSlotSentTwice(s: Life, key: Id, run: seq<Step>, i: nat, j: nat)
    requires ValidBook(s.record.book, key) && Inv(s)
    requires i < j < |LiveAll(s, key, run).sent|
    ensures LiveAll(s, key, run).sent[i] != LiveAll(s, key, run).sent[j]
  {
    hide ValidBook;
    LiveAllKeepsInv(s, key, run);
  }

  function Between(first: nat, last: nat): (r: set<nat>)
    requires first <= last
    ensures |r| == last - first && forall n :: n in r <==> first <= n < last
    decreases last - first
  {
    if first == last then {} else Between(first, last - 1) + {last - 1}
  }

  lemma {:induction false} DistinctFit(slots: set<nat>, first: nat, last: nat)
    requires first <= last && forall n :: n in slots ==> first <= n < last
    ensures |slots| <= last - first
  {
    SubsetSize(slots, Between(first, last));
  }

  /** The slots sent that were reserved during the epoch an instant is in. */
  ghost function SentIn(s: Life, c: Current): set<nat> {
    set slot | slot in s.sent && slot in s.when && CurrentEpoch(s.record.book, s.when[slot]) == Some(c)
  }

  /** No book yields more than an epoch's allowance in any epoch, over any run with any crashes. */
  lemma AllowanceHolds(s: Life, key: Id, run: seq<Step>, now: int)
    requires ValidBook(s.record.book, key) && Inv(s) && CurrentEpoch(s.record.book, now).Some?
    ensures var book, c := s.record.book, CurrentEpoch(s.record.book, now).value;
            |SentIn(LiveAll(s, key, run), c)| <= if book.schema == FIXED then book.voucherCount else book.vouchersPerEpoch
  {
    SlotsExist(s.record.book, key, now);
    LiveAllKeepsInv(s, key, run);
    var c := CurrentEpoch(s.record.book, now).value;
    assert c.last - c.first == if s.record.book.schema == FIXED then s.record.book.voucherCount else s.record.book.vouchersPerEpoch;
    hide ValidBook, CurrentEpoch, LiveAll;
    DistinctFit(SentIn(LiveAll(s, key, run), c), c.first, c.last);
  }

  // ---- and that the allowance can be used

  /** Reservations one after the other, on a working store. */
  function ReserveEach(r: Record, key: Id, nows: seq<int>): (replies: seq<Reply>)
    requires ValidBook(r.book, key)
    ensures |replies| == |nows|
    decreases |nows|
  {
    if nows == [] then []
    else
      ReserveMarks(r, key, nows[0], Commits);
      var (after, reply) := Reserve(r, key, nows[0], Commits);
      [reply] + ReserveEach(after, key, nows[1..])
  }

  /** Some of the first slots of the range are used, and no others. */
  predicate UsedUpTo(reserved: seq<bool>, first: nat, used: nat, last: nat) {
    first + used <= last <= |reserved| &&
    forall j :: first <= j < last ==> (reserved[j] <==> j < first + used)
  }

  /** Within one epoch the wallet hands out that epoch's slots, all of them, in order, and then says that they are used up. */
  lemma {:induction false} WholeAllowance(r: Record, key: Id, nows: seq<int>, c: Current, used: nat, i: nat)
    requires ValidBook(r.book, key) && Consistent(r) && UsedUpTo(r.reserved, c.first, used, c.last) && i < |nows|
    requires forall k :: 0 <= k < |nows| ==> CurrentEpoch(r.book, nows[k]) == Some(c)
    ensures ReserveEach(r, key, nows)[i] == if used + i < c.last - c.first then Slot(c.first + used + i) else EpochExhausted
    decreases |nows|
  {
    hide ValidBook, CurrentEpoch;
    var (after, reply) := Reserve(r, key, nows[0], Commits);
    FirstIsNext(r, key, nows[0], c, used);
    ReserveMarks(r, key, nows[0], Commits);
    hide Reserve;
    if i > 0 {
      WholeAllowance(after, key, nows[1..], c, if used < c.last - c.first then used + 1 else used, i - 1);
    }
  }

  lemma FirstIsNext(r: Record, key: Id, now: int, c: Current, used: nat)
    requires ValidBook(r.book, key) && Consistent(r) && UsedUpTo(r.reserved, c.first, used, c.last) && CurrentEpoch(r.book, now) == Some(c)
    ensures var (after, reply) := Reserve(r, key, now, Commits);
      && Consistent(after)
      && (if used < c.last - c.first then reply == Slot(c.first + used) && UsedUpTo(after.reserved, c.first, used + 1, c.last)
          else reply == EpochExhausted && after == r)
  {
    SlotsExist(r.book, key, now);
    hide ValidBook, CurrentEpoch;
    var free := FirstFree(r.reserved, c.first, c.last);
    if used < c.last - c.first {
      assert !r.reserved[c.first + used];
      assert free == Some(c.first + used);
    }
  }
}
