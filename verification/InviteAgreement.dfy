/** Generator, wallet and mint together: which generated books work, and that they then agree on every slot and instant. */
module InviteAgreement {
  import opened Prelude
  import opened Text
  import opened Receipts
  import opened Invites
  import opened InviteGenerator
  import opened InviteAuthorizers
  import opened InviteWallets

  /**
   * The wallet of a mint accepts a generated book exactly when it is of that mint, its seed has 32 bytes, and the program has no
   * epochs: a book with epochs is written with the fixed-window schema number, which the wallet does not allow to carry epoch
   * fields.
   */
  lemma BookAcceptedIff(crypto: Crypto, cfg: Config, seeds: seq<seq<byte>>, s: nat, key: Id)
    requires Generated(crypto, cfg, seeds).Some? && s < cfg.seats
    ensures ValidBook(WrittenBook(Generated(crypto, cfg, seeds).value, seeds[s]), key) <==>
            cfg.vouchersPerEpoch == 0 && |seeds[s]| == 32 && key == cfg.mintKeyId
  {
    var m := Generated(crypto, cfg, seeds).value;
    ManifestIsOutline(crypto, cfg, seeds);
    hide Partition, Crypto.Canonical, ProgramPattern, RailsFit, GoodList, EpochsDisjoint, Generated, ValidGeneration;
    EpochlessOrNot(crypto, cfg, m);
  }

  lemma ManifestIsOutline(crypto: Crypto, cfg: Config, seeds: seq<seq<byte>>)
    requires Generated(crypto, cfg, seeds).Some?
    ensures (IsDaily(cfg) ==> DailySettings(cfg)) && SameProgram(Generated(crypto, cfg, seeds).value, Outline(cfg))
    ensures ValidManifest(crypto, Generated(crypto, cfg, seeds).value, cfg.mintKeyId, true)
  {
    hide Outline, DailySettings, ValidGeneration, ValidManifest, Seats, SortLists;
    OutlineFits(crypto, cfg);
    var p := Seats(crypto, Outline(cfg), seeds[..cfg.seats]).value;
    SortedProgram(p.m);
  }

  lemma SortedProgram(m: Manifest)
    ensures SameProgram(SortLists(m), m)
  {
  }

  lemma EpochlessOrNot(crypto: Crypto, cfg: Config, m: Manifest)
    requires (IsDaily(cfg) ==> DailySettings(cfg)) && SameProgram(m, Outline(cfg)) && ValidManifest(crypto, m, cfg.mintKeyId, true)
    ensures m.vouchersPerEpoch == cfg.vouchersPerEpoch
    ensures m.schema == if cfg.vouchersPerEpoch == 0 then FIXED else DAILY
  {
    hide ValidManifest, EpochsFrom;
  }

  // One seat, a two-minute program, one voucher a minute.
  function SmallDaily(): Config {
    Config([97], [107], Window(MINUTE, 3 * MINUTE), 1, 2, 1, MINUTE)
  }

  lemma SmallDailySettings()
    ensures IsDaily(SmallDaily()) && DailySettings(SmallDaily())
    ensures Outline(SmallDaily()) ==
            Manifest(DAILY, Header([97], [107], Window(MINUTE, 3 * MINUTE)), 1, 2, [], 1,
                     [Epoch(Window(MINUTE, 2 * MINUTE), []), Epoch(Window(2 * MINUTE, 3 * MINUTE), [])])
  {
    assert EpochsFrom(3 * MINUTE, 3 * MINUTE, MINUTE) == [];
    assert EpochsFrom(2 * MINUTE, 3 * MINUTE, MINUTE) == [Epoch(Window(2 * MINUTE, 3 * MINUTE), [])];
  }

  lemma {:induction false} SmallPartition(epochs: seq<Epoch>)
    requires |epochs| == 2 && epochs[0].window == Window(MINUTE, 2 * MINUTE) && epochs[1].window == Window(2 * MINUTE, 3 * MINUTE)
    ensures Partition(WindowsOf(epochs), MINUTE, 3 * MINUTE)
  {
    var windows := [epochs[0].window, epochs[1].window];
    assert WindowsOf(epochs) == windows;
    assert windows[1..] == [epochs[1].window];
    assert Partition(windows[1..], 2 * MINUTE, 3 * MINUTE);
  }

  lemma SmallDailyManifest(crypto: Crypto, m: Manifest, a: string, b: string)
    requires m == Manifest(DAILY, Header([97], [107], Window(MINUTE, 3 * MINUTE)), 1, 2, [], 1,
                           [Epoch(Window(MINUTE, 2 * MINUTE), [a]), Epoch(Window(2 * MINUTE, 3 * MINUTE), [b])])
    requires crypto.Canonical(a, 32) && crypto.Canonical(b, 32) && a != b
    ensures ValidManifest(crypto, m, [107], true)
  {
    hide Crypto.Canonical, Partition, WindowsOf;
    SmallPartition(m.epochs);
    assert GoodHeader(m.header, [107]) && RailsFit(m.header);
    assert GoodList(crypto, m.epochs[0].fingerprints, 1) && GoodList(crypto, m.epochs[1].fingerprints, 1);
    assert ValidDaily(crypto, m, true);
  }

  lemma SmallDailyGeneration(crypto: Crypto)
    ensures ValidGeneration(crypto, SmallDaily())
  {
    SmallDailySettings();
    hide DailySettings, Outline, Partition, WindowsOf;
    var m := Outline(SmallDaily());
    SmallPartition(m.epochs);
    assert GoodHeader(m.header, [107]) && RailsFit(m.header);
    assert ValidDaily(crypto, m, false);
  }

  lemma {:induction false} SmallDailySlots(crypto: Crypto, seed: seq<byte>, m: Manifest, p: seq<byte>, q: seq<byte>)
    requires m == Manifest(DAILY, Header([97], [107], Window(MINUTE, 3 * MINUTE)), 1, 2, [], 1,
                           [Epoch(Window(MINUTE, 2 * MINUTE), []), Epoch(Window(2 * MINUTE, 3 * MINUTE), [])])
    requires crypto.Fingerprint(m.header, seed, 0) == Some(p) && crypto.Fingerprint(m.header, seed, 1) == Some(q) && p != q
    ensures Fits(m) && Seats(crypto, m, [seed]) ==
            Some(Progress(m.(epochs := [Epoch(Window(MINUTE, 2 * MINUTE), [crypto.text(p)]),
                                        Epoch(Window(2 * MINUTE, 3 * MINUTE), [crypto.text(q)])]), {p, q}))
  {
    hide Crypto.Fingerprint;
    var start, m1 := Progress(m, {}), Append(m, 0, crypto.text(p));
    var m2 := Append(m1, 1, crypto.text(q));
    var none: seq<string> := [];
    assert none + [crypto.text(p)] == [crypto.text(p)] && none + [crypto.text(q)] == [crypto.text(q)];
    assert m1.epochs == [Epoch(Window(MINUTE, 2 * MINUTE), [crypto.text(p)]), m.epochs[1]];
    assert m2.epochs == [m1.epochs[0], Epoch(Window(2 * MINUTE, 3 * MINUTE), [crypto.text(q)])];
    assert Place(m, 0) == 0 && Place(m1, 1) == 1;
    hide Append, Place;
    assert Slots(crypto, start, seed, 0) == Some(start);
    var nobody: set<seq<byte>> := {};
    assert nobody + {p} == {p} && {p} + {q} == {p, q};
    assert Slots(crypto, start, seed, 1) == Some(Progress(m1, {p}));
    assert Slots(crypto, start, seed, 2) == Some(Progress(m2, {p, q}));
    assert [seed][..0] == [];
    assert Seats(crypto, m, []) == Some(start);
  }

  /** It is no accident of refusal: a daily program that does generate, and whose only book the wallet turns away. */
  lemma DailyBookRefused(crypto: Crypto, seed: seq<byte>)
    requires crypto.Sound() && |seed| == SEED_BYTES
    requires crypto.Fingerprint(Outline(SmallDaily()).header, seed, 0) != crypto.Fingerprint(Outline(SmallDaily()).header, seed, 1)
    ensures Generated(crypto, SmallDaily(), [seed]).Some?
    ensures !ValidBook(WrittenBook(Generated(crypto, SmallDaily(), [seed]).value, seed), SmallDaily().mintKeyId)
  {
    SmallDailySettings();
    SmallDailyGeneration(crypto);
    var m := Outline(SmallDaily());
    RailAccepts(crypto, m.header, crypto.voucher(seed, m.header, 0));
    RailAccepts(crypto, m.header, crypto.voucher(seed, m.header, 1));
    var p, q := crypto.Fingerprint(m.header, seed, 0).value, crypto.Fingerprint(m.header, seed, 1).value;
    SmallDailySlots(crypto, seed, m, p, q);
    Fingerprints(crypto, p, q);
    SmallSort(m, [crypto.text(p)], [crypto.text(q)]);
    hide Outline, DailySettings, ValidGeneration, Seats, Crypto.Canonical, ValidManifest, SortLists;
    var done := Seats(crypto, m, [seed]).value.m;
    SmallDailyManifest(crypto, done, crypto.text(p), crypto.text(q));
    assert [seed][..1] == [seed];
    assert Generated(crypto, SmallDaily(), [seed]) == Some(done);
    BookAcceptedIff(crypto, SmallDaily(), [seed], 0, SmallDaily().mintKeyId);
  }

  lemma Fingerprints(crypto: Crypto, p: seq<byte>, q: seq<byte>)
    requires crypto.Sound() && |p| == |q| == 32 && p != q
    ensures crypto.Canonical(crypto.text(p), 32) && crypto.Canonical(crypto.text(q), 32) && crypto.text(p) != crypto.text(q)
  {
    assert crypto.untext(crypto.text(p)) == Some(p) && crypto.untext(crypto.text(q)) == Some(q);
  }

  /** Lists of one text are sorted already. */
  lemma SmallSort(m: Manifest, a: seq<string>, b: seq<string>)
    requires m.schema == DAILY && |m.epochs| == 2 && |a| == |b| == 1
    ensures var filled := m.(epochs := [Epoch(m.epochs[0].window, a), Epoch(m.epochs[1].window, b)]);
            SortLists(filled) == filled
  {
    SortSorted(a);
    SortSorted(b);
    var filled := m.(epochs := [Epoch(m.epochs[0].window, a), Epoch(m.epochs[1].window, b)]);
    assert SortEpochs(filled.epochs) == filled.epochs;
  }

  /** The book as the manifest describes it; for a program without epochs it is the one that is written. */
  function ManifestBook(m: Manifest, seed: seq<byte>): Book {
    WrittenBook(m, seed).(schema := m.schema)
  }

  lemma ManifestBookAccepted(crypto: Crypto, cfg: Config, seeds: seq<seq<byte>>, s: nat)
    requires Generated(crypto, cfg, seeds).Some? && s < cfg.seats && |seeds[s]| == SEED_BYTES
    ensures var m := Generated(crypto, cfg, seeds).value;
            && ValidBook(ManifestBook(m, seeds[s]), cfg.mintKeyId)
            && (cfg.vouchersPerEpoch == 0 ==> ManifestBook(m, seeds[s]) == WrittenBook(m, seeds[s]))
  {
    var m := Generated(crypto, cfg, seeds).value;
    ManifestIsOutline(crypto, cfg, seeds);
    EpochlessOrNot(crypto, cfg, m);
    hide Partition, Crypto.Canonical, ProgramPattern, RailsFit, GoodList, EpochsDisjoint, Generated, ValidGeneration;
  }

  /** The window of the list a current slot was placed in is the current window. */
  lemma SameWindow(m: Manifest, seed: seq<byte>, key: Id, now: int, slot: nat)
    requires Fits(m) && ValidBook(ManifestBook(m, seed), key) && CurrentEpoch(ManifestBook(m, seed), now).Some?
    requires var c := CurrentEpoch(ManifestBook(m, seed), now).value; c.first <= slot < c.last
    ensures slot < m.vouchersPerInvite
    ensures Columns(m)[Place(m, slot)].window.Contains(now)
  {
    var book := ManifestBook(m, seed);
    SlotsExist(book, key, now);
    var c := CurrentEpoch(book, now).value;
    assert slot < m.vouchersPerInvite;
    if m.schema == DAILY {
      assert OwnEpoch(book, c);
      assert Place(m, slot) == slot / m.vouchersPerEpoch;
      assert Columns(m)[Place(m, slot)].window == book.epochs[slot / book.vouchersPerEpoch];
    } else {
      FixedWindow(m, seed, key, now);
    }
  }

  lemma FixedWindow(m: Manifest, seed: seq<byte>, key: Id, now: int)
    requires ValidBook(ManifestBook(m, seed), key) && m.schema != DAILY && CurrentEpoch(ManifestBook(m, seed), now).Some?
    ensures m.header.window.Contains(now)
  {
    hide Partition, GoodHeader;
  }

  /**
   * Agreement: a slot a wallet may reserve at an instant derives a voucher that the mint admits at that instant, so that
   * only the receipt store is left to ask. It holds for every book a wallet accepts of any generated program.
   */
  lemma ReservedIsAdmitted(crypto: Crypto, cfg: Config, seeds: seq<seq<byte>>, s: nat, now: int, slot: nat)
    requires crypto.Sound() && Generated(crypto, cfg, seeds).Some? && s < cfg.seats && |seeds[s]| == SEED_BYTES
    requires var m := Generated(crypto, cfg, seeds).value;
             CurrentEpoch(ManifestBook(m, seeds[s]), now).Some? &&
             var c := CurrentEpoch(ManifestBook(m, seeds[s]), now).value; c.first <= slot < c.last
    ensures var m := Generated(crypto, cfg, seeds).value;
            AllCanonical(crypto, Columns(m)) &&
            Decide(crypto, m.header, AddEpochs(crypto, Columns(m)), crypto.text(crypto.voucher(seeds[s], m.header, slot)), now)
              == ToClaim(crypto.voucher(seeds[s], m.header, slot))
  {
    var m := Generated(crypto, cfg, seeds).value;
    ManifestBookAccepted(crypto, cfg, seeds, s);
    hide Generated, ValidBook, CurrentEpoch;
    ManifestIsOutline(crypto, cfg, seeds);
    ColumnsGood(crypto, m, cfg.mintKeyId);
    SameWindow(m, seeds[s], cfg.mintKeyId, now, slot);
    var voucher := crypto.voucher(seeds[s], m.header, slot);
    RailAccepts(crypto, m.header, voucher);
    var fp := crypto.Fingerprint(m.header, seeds[s], slot).value;
    var e := Place(m, slot);
    ManifestHoldsSlots(crypto, cfg, seeds, e, crypto.text(fp));
    assert FromSeat(crypto, m, seeds[..cfg.seats][s], m.vouchersPerInvite, e, crypto.text(fp)) by {
      assert TextAt(crypto, m.header, seeds[s], slot) == Some(crypto.text(fp));
    }
    EpochsAdded(crypto, Columns(m), fp);
    hide ValidManifest, Outline, Place, RailsFit, ReceiptKey, AddEpochs;
    VoucherText(crypto, voucher);
  }
}
