/** All the wallets of one invite program and the mint's receipt store together, through any crashes. */
module InviteRuns {
  import opened Prelude
  import opened Receipts
  import opened Invites
  import opened InviteGenerator
  import opened InviteAuthorizers
  import W = InviteWallets
  import opened InviteAgreement

  type Pair = (seq<byte>, seq<byte>)

  // A generated program: what it was generated from, and the hash of the receipt store it is used with.
  datatype Program = Program(crypto: Crypto, cfg: Config, seeds: seq<seq<byte>>, sha: Hash) {
    ghost predicate Good() {
      && crypto.Sound() && Generated(crypto, cfg, seeds).Some?
      && forall s :: 0 <= s < cfg.seats ==> |seeds[s]| == SEED_BYTES
    }

    function Manifest(): Manifest
      requires Generated(crypto, cfg, seeds).Some?
    {
      Generated(crypto, cfg, seeds).value
    }

    function Voucher(s: nat, slot: nat): seq<byte>
      requires Generated(crypto, cfg, seeds).Some? && s < cfg.seats
    {
      crypto.voucher(seeds[s], Manifest().header, slot)
    }

    function Rail(): seq<byte>
      requires Generated(crypto, cfg, seeds).Some?
    {
      ClaimRail(Manifest().header.programId, Manifest().header.mintKeyId)
    }

    function BookOf(s: nat): Book
      requires Generated(crypto, cfg, seeds).Some? && s < cfg.seats
    {
      ManifestBook(Manifest(), seeds[s])
    }

    function Admitted(): Admission
      requires Generated(crypto, cfg, seeds).Some?
    {
      if AllCanonical(crypto, Columns(Manifest())) then AddEpochs(crypto, Columns(Manifest())) else map[]
    }

    /** Whether this voucher has already left its mark in the receipt store. */
    ghost predicate Claimable(used: set<seq<byte>>, s: nat, slot: nat)
      requires Generated(crypto, cfg, seeds).Some? && s < cfg.seats
    {
      ReceiptKey(sha, Rail(), Voucher(s, slot)).Some? && ReceiptKey(sha, Rail(), Voucher(s, slot)).value !in used
    }
  }

  // presented names the sent vouchers whose request has reached the mint: seat and place in the order of sending.
  datatype World = World(lives: seq<W.Life>, used: set<seq<byte>>, presented: set<(nat, nat)>)

  datatype Action =
    | Wallet(s: nat, step: W.Step)
    | Present(s: nat, k: nat, now: int, cancelled: bool, io: ClaimIo)  // the one request made with the k-th voucher sent
    | Elsewhere(rail: seq<byte>, receipt: seq<byte>, io: ClaimIo)      // another payment rail uses the same store

  ghost predicate Wallets(p: Program, w: World) {
    && p.Good() && |w.lives| == p.cfg.seats
    && forall s :: 0 <= s < |w.lives| ==> w.lives[s].record.book == p.BookOf(s) && ValidBook(p.BookOf(s), p.cfg.mintKeyId)
  }

  /** The mint's answer to one request. */
  function Answer(p: Program, w: World, s: nat, k: nat, now: int, cancelled: bool, io: ClaimIo): (set<seq<byte>>, Verdict)
    requires Generated(p.crypto, p.cfg, p.seeds).Some? && s < p.cfg.seats && s < |w.lives| && k < |w.lives[s].sent|
  {
    Authorization(p.crypto, p.Manifest().header, p.Admitted(), p.sha, w.used,
                  p.crypto.text(p.Voucher(s, w.lives[s].sent[k])), now, cancelled, io)
  }

  ghost function Act(p: Program, w: World, a: Action): (after: World)
    requires Wallets(p, w)
    ensures Wallets(p, after)
  {
    match a
    case Wallet(s, step) =>
      if s >= |w.lives| then w else w.(lives := w.lives[s := W.Live(w.lives[s], p.cfg.mintKeyId, step)])
    case Present(s, k, now, cancelled, io) =>
      if s >= |w.lives| || k >= |w.lives[s].sent| || (s, k) in w.presented then w
      else w.(used := Answer(p, w, s, k, now, cancelled, io).0, presented := w.presented + {(s, k)})
    case Elsewhere(rail, receipt, io) =>
      if rail == p.Rail() then w else w.(used := Claim(p.sha, w.used, rail, receipt, io).0)
  }

  /** The hash does not collide on any receipt of the run, of this program or of other rails. */
  ghost predicate InPlay(p: Program, pairs: set<Pair>)
    requires p.Good()
  {
    NoCollisions(p.sha, pairs) &&
    forall s, slot: nat :: 0 <= s < p.cfg.seats && slot < p.cfg.vouchersPerInvite ==> (p.Rail(), p.Voucher(s, slot)) in pairs
  }

  ghost predicate ActionInPlay(a: Action, pairs: set<Pair>) {
    a.Elsewhere? ==> (a.rail, a.receipt) in pairs
  }

  /** The request of this slot has not reached the mint. */
  ghost predicate Unpresented(w: World, s: nat, slot: nat)
    requires s < |w.lives|
  {
    forall k :: (s, k) in w.presented && k < |w.lives[s].sent| ==> w.lives[s].sent[k] != slot
  }

  ghost predicate Inv(p: Program, w: World)
    requires Wallets(p, w)
  {
    && (forall s :: 0 <= s < |w.lives| ==> W.Inv(w.lives[s]))
    && (forall s, k :: (s, k) in w.presented ==> s < |w.lives| && k < |w.lives[s].sent|)
    && (forall s, slot: nat :: 0 <= s < |w.lives| && slot < p.cfg.vouchersPerInvite && Unpresented(w, s, slot) ==>
          p.Claimable(w.used, s, slot))
  }

  // ---- one claim leaves all other vouchers alone

  lemma OtherVouchersStay(p: Program, pairs: set<Pair>, used: set<seq<byte>>, rail: seq<byte>, receipt: seq<byte>, io: ClaimIo,
                          t: nat, j: nat)
    requires p.Good() && InPlay(p, pairs) && t < p.cfg.seats && j < p.cfg.vouchersPerInvite && p.Claimable(used, t, j)
    requires (rail, receipt) in pairs && (rail != p.Rail() || receipt != p.Voucher(t, j))
    ensures p.Claimable(Claim(p.sha, used, rail, receipt, io).0, t, j)
  {
    hide ReceiptKey, Generated, Program.Rail, Program.Voucher;
    if ReceiptKey(p.sha, rail, receipt) == ReceiptKey(p.sha, p.Rail(), p.Voucher(t, j)) {
      KeyDetermines(p.sha, pairs, rail, receipt, p.Rail(), p.Voucher(t, j));
    }
  }

  /** A request changes the store only by a claim of its own voucher. */
  lemma AnswerClaimsOwn(p: Program, w: World, s: nat, k: nat, now: int, cancelled: bool, io: ClaimIo)
    requires p.Good() && s < p.cfg.seats && s < |w.lives| && k < |w.lives[s].sent|
    ensures var used := Answer(p, w, s, k, now, cancelled, io).0;
            used == w.used || used == Claim(p.sha, w.used, p.Rail(), p.Voucher(s, w.lives[s].sent[k]), io).0
  {
    VoucherText(p.crypto, p.Voucher(s, w.lives[s].sent[k]));
    hide Generated, ReceiptKey, DecodeVoucher, Program.Admitted, Claim;
  }

  lemma SlotsAreSlots(p: Program, w: World, s: nat, slot: nat)
    requires Wallets(p, w) && s < |w.lives| && W.InItsEpoch(w.lives[s], slot)
    ensures slot < p.cfg.vouchersPerInvite
  {
    W.SlotsExist(p.BookOf(s), p.cfg.mintKeyId, w.lives[s].when[slot]);
    hide ValidBook, W.CurrentEpoch;
    ManifestIsOutline(p.crypto, p.cfg, p.seeds);
    OutlineVouchers(p.crypto, p.cfg, p.seeds);
    hide Generated;
  }

  lemma SentIsSlot(p: Program, w: World, s: nat, k: nat)
    requires Wallets(p, w) && s < |w.lives| && W.Inv(w.lives[s]) && k < |w.lives[s].sent|
    ensures w.lives[s].sent[k] < p.cfg.vouchersPerInvite && W.InItsEpoch(w.lives[s], w.lives[s].sent[k])
  {
    hide Generated, W.CurrentEpoch, ValidBook;
    assert w.lives[s].sent[k] in w.lives[s].sent;
    SlotsAreSlots(p, w, s, w.lives[s].sent[k]);
  }

  lemma OutlineVouchers(crypto: Crypto, cfg: Config, seeds: seq<seq<byte>>)
    requires Generated(crypto, cfg, seeds).Some?
    ensures Generated(crypto, cfg, seeds).value.vouchersPerInvite == cfg.vouchersPerInvite
  {
    ManifestIsOutline(crypto, cfg, seeds);
    hide Generated, ValidManifest, EpochsFrom;
  }

  // ---- every step

  lemma PresentKeepsInv(p: Program, pairs: set<Pair>, w: World, a: Action)
    requires a.Present? && Wallets(p, w) && InPlay(p, pairs) && Inv(p, w)
    ensures Inv(p, Act(p, w, a))
  {
    hide Answer, Generated, W.Inv, Program.Claimable, Program.Rail, Program.Voucher, Program.BookOf, ValidBook, InPlay;
    var after := Act(p, w, a);
    if after != w {
      SentIsSlot(p, w, a.s, a.k);
      AnswerClaimsOwn(p, w, a.s, a.k, a.now, a.cancelled, a.io);
      forall t, j: nat | 0 <= t < |w.lives| && j < p.cfg.vouchersPerInvite && Unpresented(after, t, j)
        ensures p.Claimable(after.used, t, j)
      {
        PresentedDiffers(p, pairs, w, after, a, t, j);
      }
    }
  }

  lemma PresentedDiffers(p: Program, pairs: set<Pair>, w: World, after: World, a: Action, t: nat, j: nat)
    requires a.Present? && Wallets(p, w) && InPlay(p, pairs) && Inv(p, w) && after == Act(p, w, a) && after != w
    requires var own := w.lives[a.s].sent[a.k];
             own < p.cfg.vouchersPerInvite &&
             (after.used == w.used || after.used == Claim(p.sha, w.used, p.Rail(), p.Voucher(a.s, own), a.io).0)
    requires t < |w.lives| && j < p.cfg.vouchersPerInvite && Unpresented(after, t, j)
    ensures p.Claimable(after.used, t, j)
  {
    hide Answer, Generated, W.Inv, ReceiptKey;
    var own := w.lives[a.s].sent[a.k];
    assert (a.s, a.k) in after.presented;
    assert t != a.s || j != own;
    assert Unpresented(w, t, j);
    GeneratedVouchersDiffer(p.crypto, p.cfg, p.seeds, a.s, own, t, j);
    if after.used != w.used {
      OtherVouchersStay(p, pairs, w.used, p.Rail(), p.Voucher(a.s, own), a.io, t, j);
    }
  }

  lemma ElsewhereKeepsInv(p: Program, pairs: set<Pair>, w: World, a: Action)
    requires a.Elsewhere? && Wallets(p, w) && InPlay(p, pairs) && ActionInPlay(a, pairs) && Inv(p, w)
    ensures Inv(p, Act(p, w, a))
  {
    hide Generated, W.Inv, Claim, Program.Claimable, Program.Rail;
    var after := Act(p, w, a);
    if after != w {
      forall t, j: nat | 0 <= t < |w.lives| && j < p.cfg.vouchersPerInvite && Unpresented(after, t, j)
        ensures p.Claimable(after.used, t, j)
      {
        assert Unpresented(w, t, j);
        OtherVouchersStay(p, pairs, w.used, a.rail, a.receipt, a.io, t, j);
      }
    }
  }

  /** What has been sent stays sent, in order. */
  lemma SentGrows(life: W.Life, key: Id, step: W.Step)
    requires ValidBook(life.record.book, key)
    ensures life.sent <= W.Live(life, key, step).sent
  {
    hide ValidBook, W.Reserve;
  }

  lemma WalletKeepsInv(p: Program, w: World, a: Action)
    requires a.Wallet? && Wallets(p, w) && Inv(p, w)
    ensures Inv(p, Act(p, w, a))
  {
    hide Generated, Program.Claimable, ValidBook;
    if a.s < |w.lives| {
      var after := Act(p, w, a);
      SentGrows(w.lives[a.s], p.cfg.mintKeyId, a.step);
      W.LiveKeepsInv(w.lives[a.s], p.cfg.mintKeyId, a.step);
      hide W.Inv, W.Live;
      forall t, j: nat | 0 <= t < |w.lives| && j < p.cfg.vouchersPerInvite && Unpresented(after, t, j) ensures Unpresented(w, t, j) {
        assert forall k :: (t, k) in w.presented ==> after.lives[t].sent[k] == w.lives[t].sent[k];
      }
    }
  }

  lemma ActKeepsInv(p: Program, pairs: set<Pair>, w: World, a: Action)
    requires Wallets(p, w) && InPlay(p, pairs) && ActionInPlay(a, pairs) && Inv(p, w)
    ensures Inv(p, Act(p, w, a))
  {
    hide Inv, InPlay;
    match a
    case Wallet(_, _) => WalletKeepsInv(p, w, a);
    case Present(_, _, _, _, _) => PresentKeepsInv(p, pairs, w, a);
    case Elsewhere(_, _, _) => ElsewhereKeepsInv(p, pairs, w, a);
  }

  // ---- whole runs

  ghost function Run(p: Program, w: World, run: seq<Action>): (after: World)
    requires Wallets(p, w)
    ensures Wallets(p, after)
    decreases |run|
  {
    if run == [] then w else Run(p, Act(p, w, run[0]), run[1..])
  }

  lemma {:induction false} RunKeepsInv(p: Program, pairs: set<Pair>, w: World, run: seq<Action>)
    requires Wallets(p, w) && InPlay(p, pairs) && Inv(p, w) && forall a :: a in run ==> ActionInPlay(a, pairs)
    ensures Inv(p, Run(p, w, run))
    decreases |run|
  {
    hide Inv, Act, InPlay, Wallets;
    if run != [] {
      ActKeepsInv(p, pairs, w, run[0]);
      RunKeepsInv(p, pairs, Act(p, w, run[0]), run[1..]);
    }
  }

  /** Every seat has activated its book, nothing is reserved, and none of the program's vouchers has been claimed. */
  ghost predicate Started(p: Program, w: World) {
    && Wallets(p, w) && w.presented == {}
    && (forall s :: 0 <= s < |w.lives| ==> w.lives[s].hand == {} && w.lives[s].sent == [])
    && (forall s, slot: nat :: 0 <= s < |w.lives| && slot < p.cfg.vouchersPerInvite ==> p.Claimable(w.used, s, slot))
  }

  lemma StartedInv(p: Program, w: World)
    requires Started(p, w)
    ensures Wallets(p, w) && Inv(p, w)
  {
    hide Generated, Program.Claimable, W.CurrentEpoch, ValidBook, Program.BookOf;
  }

  /** A program whose books have just been activated, with a receipt store that holds nothing yet, has started. */
  lemma FreshProgramStarts(p: Program, w: World)
    requires p.Good() && |w.lives| == p.cfg.seats && w.used == {} && w.presented == {}
    requires forall s :: 0 <= s < |w.lives| ==>
               w.lives[s].record.book == p.BookOf(s) && w.lives[s].hand == {} && w.lives[s].sent == []
    ensures Started(p, w)
  {
    hide Generated;
    forall s | 0 <= s < |w.lives| ensures ValidBook(p.BookOf(s), p.cfg.mintKeyId) {
      ManifestBookAccepted(p.crypto, p.cfg, p.seeds, s);
    }
    hide ValidBook;
    ManifestIsOutline(p.crypto, p.cfg, p.seeds);
    RailsOf(p.crypto, p.Manifest(), p.cfg.mintKeyId);
  }

  lemma RailsOf(crypto: Crypto, m: Manifest, key: Id)
    requires ValidManifest(crypto, m, key, true)
    ensures 1 <= |ClaimRail(m.header.programId, m.header.mintKeyId)| <= 255
  {
    hide ValidDaily, GoodList, GoodHeader;
  }

  /** The mint is asked about a slot in the slot's own epoch. */
  ghost predicate InOwnEpoch(p: Program, s: nat, slot: nat, now: int)
    requires p.Good() && s < p.cfg.seats
  {
    var c := W.CurrentEpoch(p.BookOf(s), now);
    c.Some? && c.value.first <= slot < c.value.last
  }

  lemma UnpresentedIsAuthorized(p: Program, w: World, s: nat, k: nat, now: int)
    requires Wallets(p, w) && Inv(p, w) && s < |w.lives| && k < |w.lives[s].sent| && (s, k) !in w.presented
    requires InOwnEpoch(p, s, w.lives[s].sent[k], now)
    ensures Answer(p, w, s, k, now, false, Fine).1 == Authorized
  {
    hide Generated, Decide, ReceiptKey, W.CurrentEpoch, AddEpochs, ValidBook;
    var slot := w.lives[s].sent[k];
    SentIsSlot(p, w, s, k);
    assert Unpresented(w, s, slot);
    assert p.Claimable(w.used, s, slot);
    ReservedIsAdmitted(p.crypto, p.cfg, p.seeds, s, now, slot);
  }

  /**
   * Over every run of all the wallets of a program, with crashes, lost answers and other rails on the same store: the request
   * made with any voucher that was sent, when it reaches the mint in the voucher's own epoch and the store commits, is
   * authorised. No wallet, whatever the others did, finds its voucher used.
   */
  lemma SentVouchersAreAuthorized(p: Program, pairs: set<Pair>, start: World, run: seq<Action>, s: nat, k: nat, now: int)
    requires Started(p, start) && InPlay(p, pairs) && forall a :: a in run ==> ActionInPlay(a, pairs)
    requires var w := Run(p, start, run);
             s < |w.lives| && k < |w.lives[s].sent| && (s, k) !in w.presented && InOwnEpoch(p, s, w.lives[s].sent[k], now)
    ensures Answer(p, Run(p, start, run), s, k, now, false, Fine).1 == Authorized
  {
    hide Inv, Answer, Act, InPlay, Started, Generated, W.CurrentEpoch, ValidBook, Program.Claimable, Wallets;
    StartedInv(p, start);
    RunKeepsInv(p, pairs, start, run);
    UnpresentedIsAuthorized(p, Run(p, start, run), s, k, now);
  }

  /** In particular at the very instant it was reserved. */
  lemma ReservedIsAuthorizedThen(p: Program, pairs: set<Pair>, start: World, run: seq<Action>, s: nat, k: nat)
    requires Started(p, start) && InPlay(p, pairs) && forall a :: a in run ==> ActionInPlay(a, pairs)
    requires var w := Run(p, start, run); s < |w.lives| && k < |w.lives[s].sent| && (s, k) !in w.presented
    ensures var w := Run(p, start, run);
      w.lives[s].sent[k] in w.lives[s].when &&
      Answer(p, w, s, k, w.lives[s].when[w.lives[s].sent[k]], false, Fine).1 == Authorized
  {
    hide Run, Answer, Act, InPlay, Started, Generated, W.CurrentEpoch, ValidBook, Program.Claimable;
    StartedInv(p, start);
    RunKeepsInv(p, pairs, start, run);
    var w := Run(p, start, run);
    var slot := w.lives[s].sent[k];
    assert slot in w.lives[s].sent && W.InItsEpoch(w.lives[s], slot);
    UnpresentedIsAuthorized(p, w, s, k, w.lives[s].when[slot]);
  }

  /** The request of a seat: the slot its wallet may use now is reserved and its voucher sent. */
  function Asking(s: nat, now: int, slot: nat): seq<Action> {
    [Wallet(s, W.ReserveOne(now, W.Commits)), Wallet(s, W.SendOne(slot))]
  }

  /**
   * It does work from the first request on: in a program that has just been activated, any seat that asks at any instant of the
   * program's window reserves a slot, sends its voucher, and is authorised.
   */
  lemma FirstRequestIsAuthorized(p: Program, start: World, s: nat, now: int)
    requires Started(p, start) && s < |start.lives| && W.Consistent(start.lives[s].record) && true !in start.lives[s].record.reserved
    requires p.BookOf(s).header.window.notBefore <= now < p.BookOf(s).header.window.notAfter
    ensures exists slot: nat ::
      var w := Run(p, start, Asking(s, now, slot));
      s < |w.lives| && w.lives[s].sent == [slot] && Answer(p, w, s, 0, now, false, Fine).1 == Authorized
  {
    hide Generated, W.CurrentEpoch, ValidBook, Program.Claimable, W.Reserve, Answer, Program.BookOf;
    var life, key := start.lives[s], p.cfg.mintKeyId;
    W.CurrentEpochIff(p.BookOf(s), key, now);
    W.SlotsExist(p.BookOf(s), key, now);
    var c := W.CurrentEpoch(p.BookOf(s), now).value;
    W.FirstIsNext(life.record, key, now, c, 0);
    var slot := c.first;
    var a, b := Wallet(s, W.ReserveOne(now, W.Commits)), Wallet(s, W.SendOne(slot));
    var w1 := Act(p, start, a);
    var w2 := Act(p, w1, b);
    assert [a, b][1..] == [b] && [b][1..] == [];
    assert Run(p, w1, [b]) == w2;
    assert w2 == Run(p, start, Asking(s, now, slot));
    assert w2.lives[s].sent == [slot];
    StartedInv(p, start);
    WalletKeepsInv(p, start, a);
    WalletKeepsInv(p, w1, b);
    UnpresentedIsAuthorized(p, w2, s, 0, now);
  }
}
