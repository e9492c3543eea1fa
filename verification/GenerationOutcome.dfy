/** When the offline generator succeeds: sensible settings, enough seeds, and no voucher twice. */
module GenerationOutcome {
  import opened Prelude
  import opened Text
  import opened Library
  import opened Receipts
  import opened Invites
  import opened InviteGenerator

  // ---- what filling in keeps

  /** Every list holds texts of fingerprints seen, none of them twice, and no text is in two lists. */
  ghost predicate Clean(crypto: Crypto, m: Manifest, seen: set<seq<byte>>) {
    && (forall e :: 0 <= e < Lists(m) ==> NoneTwice(ListOf(m, e)))
    && (forall e, f, x :: 0 <= e < Lists(m) && 0 <= f < Lists(m) && e != f && x in ListOf(m, e) ==> x !in ListOf(m, f))
    && (forall e, x :: 0 <= e < Lists(m) && x in ListOf(m, e) ==> OfSeen(crypto, seen, x))
    && (forall fp :: fp in seen ==> |fp| == 32)
  }

  ghost predicate OfSeen(crypto: Crypto, seen: set<seq<byte>>, x: string) {
    exists fp :: fp in seen && x == crypto.text(fp)
  }

  lemma AppendKeepsClean(crypto: Crypto, m: Manifest, seen: set<seq<byte>>, e: nat, fp: seq<byte>)
    requires crypto.Sound() && Clean(crypto, m, seen) && e < Lists(m) && fp !in seen && |fp| == 32
    ensures Clean(crypto, Append(m, e, crypto.text(fp)), seen + {fp})
  {
    var r, x := Append(m, e, crypto.text(fp)), crypto.text(fp);
    NewText(crypto, seen, fp);
    assert forall f :: 0 <= f < Lists(m) ==> x !in ListOf(m, f);
    assert OfSeen(crypto, seen + {fp}, x);
    forall y | OfSeen(crypto, seen, y) ensures OfSeen(crypto, seen + {fp}, y) {
      var g :| g in seen && y == crypto.text(g);
      assert g in seen + {fp};
    }
    hide Append, OfSeen, Crypto.Sound, ListOf;
    AppendOnce(ListOf(m, e), x);
    hide NoneTwice;
  }

  lemma AppendOnce(xs: seq<string>, x: string)
    requires NoneTwice(xs) && x !in xs
    ensures NoneTwice(xs + [x])
  {
  }

  lemma NewText(crypto: Crypto, seen: set<seq<byte>>, fp: seq<byte>)
    requires crypto.Sound() && fp !in seen
    ensures !OfSeen(crypto, seen, crypto.text(fp))
  {
    assert crypto.untext(crypto.text(fp)) == Some(fp);
    assert forall g :: g in seen ==> crypto.untext(crypto.text(g)) == Some(g);
  }

  /** How many of the first k slots belong to list e. */
  function Share(m: Manifest, k: nat, e: nat): nat
    requires Fits(m) && k <= m.vouchersPerInvite
  {
    if k == 0 then 0 else Share(m, k - 1, e) + if Place(m, k - 1) == e then 1 else 0
  }

  /** The seat's vouchers have fingerprints, new ones and all different. */
  ghost predicate NewAndDifferent(crypto: Crypto, h: Header, seed: seq<byte>, k: nat, seen: set<seq<byte>>) {
    && (forall i: nat :: i < k ==> crypto.Fingerprint(h, seed, i).Some? && |crypto.Fingerprint(h, seed, i).value| == 32)
    && (forall i: nat :: i < k ==> crypto.Fingerprint(h, seed, i).value !in seen)
    && (forall i: nat, j: nat :: i < j < k ==> crypto.Fingerprint(h, seed, i) != crypto.Fingerprint(h, seed, j))
  }

  ghost predicate SeenAre(crypto: Crypto, h: Header, seed: seq<byte>, k: nat, before: set<seq<byte>>, seen: set<seq<byte>>) {
    forall fp :: fp in seen <==> fp in before || exists i: nat :: i < k && crypto.Fingerprint(h, seed, i) == Some(fp)
  }

  lemma {:induction false} SeatFills(crypto: Crypto, p: Progress, seed: seq<byte>, k: nat)
    requires crypto.Sound() && Fits(p.m) && k <= p.m.vouchersPerInvite && Clean(crypto, p.m, p.seen)
    requires NewAndDifferent(crypto, p.m.header, seed, k, p.seen)
    ensures Slots(crypto, p, seed, k).Some?
    ensures var q := Slots(crypto, p, seed, k).value;
      && Clean(crypto, q.m, q.seen) && SeenAre(crypto, p.m.header, seed, k, p.seen, q.seen)
      && forall e :: 0 <= e < Lists(p.m) ==> |ListOf(q.m, e)| == |ListOf(p.m, e)| + Share(p.m, k, e)
  {
    hide Crypto.Fingerprint, Crypto.Sound, Clean;
    if k > 0 {
      SeatFills(crypto, p, seed, k - 1);
      var q, fp := Slots(crypto, p, seed, k - 1).value, crypto.Fingerprint(p.m.header, seed, k - 1).value;
      assert fp !in q.seen;
      assert Place(q.m, k - 1) == Place(p.m, k - 1);
      AppendKeepsClean(crypto, q.m, q.seen, Place(q.m, k - 1), fp);
      hide Place, Append;
    }
  }

  // ---- all the seats

  /** All vouchers of the program have fingerprints, and all are different. */
  ghost predicate AllDifferent(crypto: Crypto, h: Header, seeds: seq<seq<byte>>, n: nat) {
    && (forall s, i: nat :: 0 <= s < |seeds| && i < n ==> crypto.Fingerprint(h, seeds[s], i).Some? && |crypto.Fingerprint(h, seeds[s], i).value| == 32)
    && (forall s, i: nat, t, j: nat :: 0 <= s < |seeds| && 0 <= t < |seeds| && i < n && j < n && (s != t || i != j) ==>
          crypto.Fingerprint(h, seeds[s], i) != crypto.Fingerprint(h, seeds[t], j))
  }

  ghost predicate SeenAll(crypto: Crypto, h: Header, seeds: seq<seq<byte>>, n: nat, seen: set<seq<byte>>) {
    forall fp :: fp in seen ==> exists s, i: nat :: 0 <= s < |seeds| && i < n && crypto.Fingerprint(h, seeds[s], i) == Some(fp)
  }

  lemma LastSeatIsNew(crypto: Crypto, h: Header, seeds: seq<seq<byte>>, n: nat, seen: set<seq<byte>>)
    requires seeds != [] && AllDifferent(crypto, h, seeds, n) && SeenAll(crypto, h, seeds[..|seeds| - 1], n, seen)
    ensures AllDifferent(crypto, h, seeds[..|seeds| - 1], n) && NewAndDifferent(crypto, h, seeds[|seeds| - 1], n, seen)
  {
    hide Crypto.Fingerprint;
    var init, last := seeds[..|seeds| - 1], |seeds| - 1;
    assert forall s :: 0 <= s < last ==> init[s] == seeds[s];
    forall i: nat | i < n ensures crypto.Fingerprint(h, seeds[last], i).value !in seen {
      var fp := crypto.Fingerprint(h, seeds[last], i).value;
      assert forall s, j: nat :: 0 <= s < |init| && j < n ==> crypto.Fingerprint(h, init[s], j) != Some(fp);
    }
  }

  lemma SeenMore(crypto: Crypto, h: Header, seeds: seq<seq<byte>>, n: nat, before: set<seq<byte>>, seen: set<seq<byte>>)
    requires seeds != [] && SeenAll(crypto, h, seeds[..|seeds| - 1], n, before) && SeenAre(crypto, h, seeds[|seeds| - 1], n, before, seen)
    ensures SeenAll(crypto, h, seeds, n, seen)
  {
    hide Crypto.Fingerprint;
    var init, last := seeds[..|seeds| - 1], |seeds| - 1;
    forall fp | fp in seen ensures exists s, i: nat :: 0 <= s < |seeds| && i < n && crypto.Fingerprint(h, seeds[s], i) == Some(fp) {
      if fp in before {
        var s, i: nat :| 0 <= s < |init| && i < n && crypto.Fingerprint(h, init[s], i) == Some(fp);
        assert seeds[s] == init[s];
      } else {
        var i: nat :| i < n && crypto.Fingerprint(h, seeds[last], i) == Some(fp);
      }
    }
  }

  lemma {:induction false} SeatsFill(crypto: Crypto, m: Manifest, seeds: seq<seq<byte>>)
    requires crypto.Sound() && Fits(m) && m.vouchersPerInvite >= 0 && Clean(crypto, m, {})
    requires forall e :: 0 <= e < Lists(m) ==> ListOf(m, e) == []
    requires AllDifferent(crypto, m.header, seeds, m.vouchersPerInvite)
    ensures Seats(crypto, m, seeds).Some?
    ensures var p := Seats(crypto, m, seeds).value;
      && Clean(crypto, p.m, p.seen) && SeenAll(crypto, m.header, seeds, m.vouchersPerInvite, p.seen)
      && forall e :: 0 <= e < Lists(m) ==> |ListOf(p.m, e)| == |seeds| * Share(m, m.vouchersPerInvite, e)
    decreases |seeds|
  {
    hide Crypto.Fingerprint, Crypto.Sound, Clean, Slots, AllDifferent, SeenAll, SeenAre, NewAndDifferent;
    if seeds == [] {
      NothingSeen(crypto, m.header, m.vouchersPerInvite);
    } else {
      var init, last, n := seeds[..|seeds| - 1], |seeds| - 1, m.vouchersPerInvite;
      AllButLast(crypto, m.header, seeds, n);
      SeatsFill(crypto, m, init);
      var p := Seats(crypto, m, init).value;
      LastSeatIsNew(crypto, m.header, seeds, n, p.seen);
      SeatFills(crypto, p, seeds[last], n);
      SeenMore(crypto, m.header, seeds, n, p.seen, Slots(crypto, p, seeds[last], n).value.seen);
      forall e | 0 <= e < Lists(m) ensures |seeds| * Share(m, n, e) == last * Share(m, n, e) + Share(p.m, n, e) {
        SameShare(p.m, m, n, e);
        NextMultiple(last, Share(m, n, e));
      }
      hide Share, ListOf, Fits;
    }
  }

  lemma NothingSeen(crypto: Crypto, h: Header, n: nat)
    ensures SeenAll(crypto, h, [], n, {})
  {
  }

  lemma AllButLast(crypto: Crypto, h: Header, seeds: seq<seq<byte>>, n: nat)
    requires seeds != [] && AllDifferent(crypto, h, seeds, n)
    ensures AllDifferent(crypto, h, seeds[..|seeds| - 1], n)
  {
    hide Crypto.Fingerprint;
    assert forall s :: 0 <= s < |seeds| - 1 ==> seeds[..|seeds| - 1][s] == seeds[s];
  }

  lemma {:induction false} SameShare(a: Manifest, b: Manifest, k: nat, e: nat)
    requires Fits(a) && Fits(b) && SameProgram(a, b) && k <= a.vouchersPerInvite
    ensures Share(a, k, e) == Share(b, k, e)
  {
    if k > 0 {
      SameShare(a, b, k - 1, e);
      assert Place(a, k - 1) == Place(b, k - 1);
    }
  }

  /** Each epoch gets its allowance of every seat's slots; a program without epochs has one list for all of them. */
  lemma {:induction false} ShareIs(m: Manifest, k: nat, e: nat)
    requires Fits(m) && k <= m.vouchersPerInvite && e < Lists(m)
    ensures m.schema != DAILY ==> Share(m, k, e) == k
    ensures m.schema == DAILY ==>
      var first := e * m.vouchersPerEpoch;
      Share(m, k, e) == if k <= first then 0 else if k <= first + m.vouchersPerEpoch then k - first else m.vouchersPerEpoch
  {
    if m.schema == DAILY {
      TimesMonotone(0, e, m.vouchersPerEpoch);
    }
    if k > 0 {
      ShareIs(m, k - 1, e);
      if m.schema == DAILY {
        var f := Place(m, k - 1);
        NextMultiple(e, m.vouchersPerEpoch);
        NextMultiple(f, m.vouchersPerEpoch);
        if f < e {
          TimesMonotone(f + 1, e, m.vouchersPerEpoch);
        } else if f > e {
          TimesMonotone(e + 1, f, m.vouchersPerEpoch);
        }
        hide Place;
      }
    }
  }

  lemma FullShare(m: Manifest, e: nat)
    requires Fits(m) && m.vouchersPerInvite >= 0 && e < Lists(m)
    ensures Share(m, m.vouchersPerInvite, e) == if m.schema == DAILY then m.vouchersPerEpoch else m.vouchersPerInvite
  {
    ShareIs(m, m.vouchersPerInvite, e);
    if m.schema == DAILY {
      NextMultiple(e, m.vouchersPerEpoch);
      TimesMonotone(e + 1, |m.epochs|, m.vouchersPerEpoch);
      TimesMonotone(0, e, m.vouchersPerEpoch);
    }
    hide Share;
  }

  // ---- the manifest that is published

  lemma ListsAreGood(crypto: Crypto, m: Manifest, seen: set<seq<byte>>, e: nat)
    requires crypto.Sound() && Clean(crypto, m, seen) && e < Lists(m)
    ensures Lists(SortLists(m)) == Lists(m) && GoodList(crypto, ListOf(SortLists(m), e), |ListOf(m, e)|)
  {
    var xs := ListOf(m, e);
    SortCorrect(xs);
    SortStrictly(xs);
    forall i | 0 <= i < |Sort(xs)| ensures crypto.Canonical(Sort(xs)[i], 32) {
      assert Sort(xs)[i] in multiset(Sort(xs)) && Sort(xs)[i] in xs;
      assert OfSeen(crypto, seen, Sort(xs)[i]);
      var fp :| fp in seen && Sort(xs)[i] == crypto.text(fp);
      assert crypto.untext(crypto.text(fp)) == Some(fp);
    }
    hide Sort, Crypto.Canonical, Crypto.Sound;
  }

  lemma ListsAreDisjoint(crypto: Crypto, m: Manifest, seen: set<seq<byte>>)
    requires Clean(crypto, m, seen) && m.schema == DAILY
    ensures EpochsDisjoint(SortLists(m).epochs)
  {
    var r := SortLists(m);
    forall e, f, x | 0 <= e < f < |r.epochs| && x in r.epochs[e].fingerprints ensures x !in r.epochs[f].fingerprints {
      SortKeepsLists(m, e, x);
      SortKeepsLists(m, f, x);
      assert ListOf(r, e) == r.epochs[e].fingerprints && ListOf(r, f) == r.epochs[f].fingerprints;
    }
  }

  lemma OutlineClean(crypto: Crypto, m: Manifest)
    requires forall e :: 0 <= e < Lists(m) ==> ListOf(m, e) == []
    ensures Clean(crypto, m, {})
  {
  }

  /** What has been filled in completely is what a mint and a wallet accept. */
  lemma FilledIsValid(crypto: Crypto, outline: Manifest, m: Manifest, key: Id, seen: set<seq<byte>>)
    requires crypto.Sound() && ValidManifest(crypto, outline, key, false) && SameProgram(m, outline) && Clean(crypto, m, seen)
    requires m.schema == FIXED ==> m.vouchersPerEpoch == 0 && m.epochs == []
    requires m.schema == DAILY ==> m.fingerprints == []
    requires forall e :: 0 <= e < Lists(m) ==>
      |ListOf(m, e)| == m.seats * (if m.schema == DAILY then m.vouchersPerEpoch else m.vouchersPerInvite)
    ensures ValidManifest(crypto, SortLists(m), key, true)
  {
    hide Partition, GoodHeader, RailsFit, Clean, GoodList, EpochsDisjoint, Crypto.Sound;
    var r := SortLists(m);
    forall e | 0 <= e < Lists(m)
      ensures Lists(r) == Lists(m) && GoodList(crypto, ListOf(r, e), |ListOf(m, e)|)
    {
      ListsAreGood(crypto, m, seen, e);
    }
    if m.schema == DAILY {
      ListsAreDisjoint(crypto, m, seen);
      WindowsSame(r, outline);
      assert forall e :: 0 <= e < |r.epochs| ==> ListOf(r, e) == r.epochs[e].fingerprints;
    } else {
      assert ListOf(r, 0) == r.fingerprints;
    }
  }

  lemma FingerprintsExist(crypto: Crypto, h: Header, seeds: seq<seq<byte>>, n: nat)
    requires crypto.Sound() && RailsFit(h)
    ensures forall s, i: nat :: 0 <= s < |seeds| && i < n ==>
              crypto.Fingerprint(h, seeds[s], i).Some? && |crypto.Fingerprint(h, seeds[s], i).value| == 32
  {
  }

  lemma Header0(crypto: Crypto, cfg: Config)
    requires ValidGeneration(crypto, cfg)
    ensures IsDaily(cfg) ==> DailySettings(cfg)
    ensures Outline(cfg).header == Header(cfg.programId, cfg.mintKeyId, cfg.window) && RailsFit(Outline(cfg).header)
  {
    hide EpochsFrom, Partition, WindowsOf, DailySettings, GoodHeader;
  }

  lemma FillsAndSorts(crypto: Crypto, cfg: Config, seeds: seq<seq<byte>>)
    requires crypto.Sound() && ValidGeneration(crypto, cfg) && 0 <= cfg.seats <= |seeds|
    requires cfg.vouchersPerInvite >= 0
    requires AllDifferent(crypto, Header(cfg.programId, cfg.mintKeyId, cfg.window), seeds[..cfg.seats], cfg.vouchersPerInvite)
    ensures Generated(crypto, cfg, seeds).Some?
  {
    OutlineFits(crypto, cfg);
    Header0(crypto, cfg);
    EmptyOutline(crypto, cfg);
    OutlineShape(crypto, cfg);
    hide Crypto.Fingerprint, Crypto.Sound, ValidGeneration, Outline, Seats, ValidManifest, SortLists, DailySettings, AllDifferent;
    FilledProgram(crypto, Outline(cfg), seeds[..cfg.seats], cfg.mintKeyId);
  }

  lemma OutlineShape(crypto: Crypto, cfg: Config)
    requires ValidGeneration(crypto, cfg)
    ensures IsDaily(cfg) ==> DailySettings(cfg)
    ensures var m := Outline(cfg);
      && ValidManifest(crypto, m, cfg.mintKeyId, false) && m.vouchersPerInvite == cfg.vouchersPerInvite && m.seats == cfg.seats
      && (m.schema != DAILY ==> m.vouchersPerEpoch == 0 && m.epochs == []) && (m.schema == DAILY ==> m.fingerprints == [])
  {
    hide ValidManifest, EpochsFrom, DailySettings;
  }

  lemma FilledProgram(crypto: Crypto, outline: Manifest, seeds: seq<seq<byte>>, key: Id)
    requires crypto.Sound() && ValidManifest(crypto, outline, key, false) && Fits(outline) && outline.vouchersPerInvite >= 0
    requires |seeds| == outline.seats && forall e :: 0 <= e < Lists(outline) ==> ListOf(outline, e) == []
    requires outline.schema != DAILY ==> outline.vouchersPerEpoch == 0 && outline.epochs == []
    requires outline.schema == DAILY ==> outline.fingerprints == []
    requires AllDifferent(crypto, outline.header, seeds, outline.vouchersPerInvite)
    ensures Seats(crypto, outline, seeds).Some?
    ensures ValidManifest(crypto, SortLists(Seats(crypto, outline, seeds).value.m), key, true)
  {
    hide Crypto.Fingerprint, Crypto.Sound, Seats, ValidManifest, SortLists, Clean, AllDifferent, Share, SeenAll;
    OutlineClean(crypto, outline);
    SeatsFill(crypto, outline, seeds);
    var p := Seats(crypto, outline, seeds).value;
    FilledLists(crypto, outline, seeds);
    forall e | 0 <= e < Lists(p.m)
      ensures |ListOf(p.m, e)| == p.m.seats * (if p.m.schema == DAILY then p.m.vouchersPerEpoch else p.m.vouchersPerInvite)
    {
      FullShare(outline, e);
    }
    FilledIsValid(crypto, outline, p.m, key, p.seen);
  }

  lemma EmptyOutline(crypto: Crypto, cfg: Config)
    requires ValidGeneration(crypto, cfg)
    ensures IsDaily(cfg) ==> DailySettings(cfg)
    ensures forall e :: 0 <= e < Lists(Outline(cfg)) ==> ListOf(Outline(cfg), e) == []
  {
    OutlineFits(crypto, cfg);
    hide ValidGeneration, EpochsFrom;
  }

  /** Lists are filled; nothing else of a daily manifest is. */
  lemma {:induction false} FilledLists(crypto: Crypto, m: Manifest, seeds: seq<seq<byte>>)
    requires Fits(m) && m.vouchersPerInvite >= 0 && Seats(crypto, m, seeds).Some?
    ensures m.schema == DAILY ==> Seats(crypto, m, seeds).value.m.fingerprints == m.fingerprints
    ensures m.schema != DAILY ==> Seats(crypto, m, seeds).value.m.epochs == m.epochs
    decreases |seeds|
  {
    hide Slots;
    if seeds != [] {
      var init := seeds[..|seeds| - 1];
      FilledLists(crypto, m, init);
      FilledSlots(crypto, Seats(crypto, m, init).value, seeds[|seeds| - 1], m.vouchersPerInvite);
    }
  }

  lemma {:induction false} FilledSlots(crypto: Crypto, p: Progress, seed: seq<byte>, k: nat)
    requires Fits(p.m) && k <= p.m.vouchersPerInvite && Slots(crypto, p, seed, k).Some?
    ensures p.m.schema == DAILY ==> Slots(crypto, p, seed, k).value.m.fingerprints == p.m.fingerprints
    ensures p.m.schema != DAILY ==> Slots(crypto, p, seed, k).value.m.epochs == p.m.epochs
  {
    hide Crypto.Fingerprint;
    if k > 0 {
      FilledSlots(crypto, p, seed, k - 1);
    }
  }

  /**
   * When the generator succeeds: for accepted settings and a seed for every seat, exactly when no voucher of the program repeats
   * another; nothing it builds is then turned down by its own last check.
   */
  lemma GenerationSucceedsIff(crypto: Crypto, cfg: Config, seeds: seq<seq<byte>>)
    requires crypto.Sound()
    ensures var h := Header(cfg.programId, cfg.mintKeyId, cfg.window);
      Generated(crypto, cfg, seeds).Some? <==>
        && ValidGeneration(crypto, cfg) && cfg.seats <= |seeds|
        && forall s, i: nat, t, j: nat ::
             0 <= s < cfg.seats && 0 <= t < cfg.seats && i < cfg.vouchersPerInvite && j < cfg.vouchersPerInvite && (s != t || i != j) ==>
               crypto.Fingerprint(h, seeds[s], i) != crypto.Fingerprint(h, seeds[t], j)
  {
    if ValidGeneration(crypto, cfg) && cfg.seats <= |seeds| {
      OutlineFits(crypto, cfg);
      Header0(crypto, cfg);
      var own, outline := seeds[..cfg.seats], Outline(cfg);
      FingerprintsExist(crypto, outline.header, own, cfg.vouchersPerInvite);
      assert forall s :: 0 <= s < cfg.seats ==> own[s] == seeds[s];
      hide Crypto.Fingerprint, Crypto.Sound, ValidGeneration, Outline, Seats, ValidManifest, SortLists, DailySettings, RailsFit;
      if Seats(crypto, outline, own).Some? {
        AllDistinct(crypto, outline, own);
      }
      if AllDifferent(crypto, outline.header, own, cfg.vouchersPerInvite) {
        FillsAndSorts(crypto, cfg, seeds);
      }
    }
  }

  // ---- which settings are accepted

  /** The window is cut into one epoch of this length for each allowance, without a remainder. */
  predicate CutsExactly(cfg: Config) {
    && cfg.vouchersPerEpoch >= 1 && cfg.vouchersPerInvite % cfg.vouchersPerEpoch == 0
    && cfg.epochDuration >= 60 * SECOND && cfg.epochDuration % SECOND == 0
    && cfg.window.notBefore + (cfg.vouchersPerInvite / cfg.vouchersPerEpoch) * cfg.epochDuration == cfg.window.notAfter
    && cfg.window.notAfter - cfg.window.notBefore < 0x8000_0000_0000_0000
  }

  lemma {:induction false} EpochsCut(start: int, n: nat, duration: int)
    requires duration >= MINUTE && duration % SECOND == 0 && start % SECOND == 0
    ensures var epochs := EpochsFrom(start, start + n * duration, duration);
            |epochs| == n && Partition(WindowsOf(epochs), start, start + n * duration)
    decreases n
  {
    if n > 0 {
      var end := start + n * duration;
      NextMultiple(n - 1, duration);
      TimesMonotone(0, n - 1, duration);
      WholeSeconds(start, duration);
      EpochsCut(start + duration, n - 1, duration);
      assert start + duration + (n - 1) * duration == end;
      var epochs, rest := EpochsFrom(start, end, duration), EpochsFrom(start + duration, end, duration);
      hide WholeSecond, EpochsFrom;
      assert epochs == [Epoch(Window(start, start + duration), [])] + rest && epochs[1..] == rest by {
        FirstEpoch(start, end, duration);
      }
      assert WindowsOf(epochs)[1..] == WindowsOf(rest);
    }
  }

  lemma FirstEpoch(start: int, end: int, duration: int)
    requires duration >= MINUTE && start < end && WholeSecond(start) == start && WholeSecond(start + duration) == start + duration
    ensures EpochsFrom(start, end, duration) == [Epoch(Window(start, start + duration), [])] + EpochsFrom(start + duration, end, duration)
  {
  }

  /** A product that does not fit 64 bits cannot pass for the saturated difference, because it is even. */
  lemma NoWrapPasses(d: int)
    requires d >= 0x8000_0000_0000_0000 && d % SECOND == 0
    ensures WrapDuration(d) != TWO_64 / 2 - 1
  {
    var k := (d + TWO_64 / 2) / TWO_64;
    assert d == k * TWO_64 + WrapDuration(d);
  }

  predicate CutInto(cfg: Config, epochs: seq<Epoch>) {
    && WholeEpochs(cfg.vouchersPerInvite, cfg.vouchersPerEpoch, |epochs|)
    && Partition(WindowsOf(epochs), cfg.window.notBefore, cfg.window.notAfter)
  }

  /** The settings of a daily program are accepted exactly when they cut its window, wrapped and saturated arithmetic included. */
  lemma DailyIff(cfg: Config)
    requires cfg.window.notBefore % SECOND == 0 && cfg.window.notBefore < cfg.window.notAfter && cfg.vouchersPerInvite >= 1
    ensures CutsExactly(cfg) <==> (DailySettings(cfg) && CutInto(cfg, EpochsFrom(cfg.window.notBefore, cfg.window.notAfter, cfg.epochDuration)))
  {
    hide EpochsFrom, Partition, WindowsOf;
    if CutsExactly(cfg) {
      CutsAreAccepted(cfg);
    } else if DailySettings(cfg) && CutInto(cfg, EpochsFrom(cfg.window.notBefore, cfg.window.notAfter, cfg.epochDuration)) {
      AcceptedCuts(cfg);
    }
  }

  lemma SmallDifference(a: int, b: int)
    requires 0 <= a - b < 0x8000_0000_0000_0000
    ensures WrapDuration(a - b) == a - b == Sub(a, b)
  {
  }

  lemma CutsAreAccepted(cfg: Config)
    requires cfg.window.notBefore % SECOND == 0 && cfg.window.notBefore < cfg.window.notAfter && cfg.vouchersPerInvite >= 1 && CutsExactly(cfg)
    ensures DailySettings(cfg) && CutInto(cfg, EpochsFrom(cfg.window.notBefore, cfg.window.notAfter, cfg.epochDuration))
  {
    hide EpochsFrom, Partition, WindowsOf, WrapDuration, Sub;
    EpochsCut(cfg.window.notBefore, cfg.vouchersPerInvite / cfg.vouchersPerEpoch, cfg.epochDuration);
    SmallDifference(cfg.window.notAfter, cfg.window.notBefore);
  }

  lemma AcceptedCuts(cfg: Config)
    requires cfg.window.notBefore % SECOND == 0 && cfg.vouchersPerInvite >= 1
    requires DailySettings(cfg) && CutInto(cfg, EpochsFrom(cfg.window.notBefore, cfg.window.notAfter, cfg.epochDuration))
    ensures CutsExactly(cfg)
  {
    hide EpochsFrom, Partition, WindowsOf, WrapDuration;
    var start, end, duration := cfg.window.notBefore, cfg.window.notAfter, cfg.epochDuration;
    CutAddsUp(start, end, duration);
    WholeProduct(|EpochsFrom(start, end, duration)|, duration);
    if end - start >= 0x8000_0000_0000_0000 {
      NoWrapPasses(end - start);
    }
  }

  lemma WholeProduct(n: int, duration: int)
    requires duration % SECOND == 0
    ensures n * duration % SECOND == 0
  {
    var q := duration / SECOND;
    assert n * duration == (n * q) * SECOND;
    MultipleDivides(n * q, SECOND);
  }

  lemma CutAddsUp(start: int, end: int, duration: int)
    requires duration >= MINUTE && duration % SECOND == 0 && start % SECOND == 0
    requires Partition(WindowsOf(EpochsFrom(start, end, duration)), start, end)
    ensures start + |EpochsFrom(start, end, duration)| * duration == end
  {
    var epochs := EpochsFrom(start, end, duration);
    var windows := WindowsOf(epochs);
    EpochTimes(start, end, duration);
    PartitionForward(windows, start, end);
    hide EpochsFrom;
    if epochs == [] {
      EmptyPartition(windows, start, end);
    } else {
      assert windows[|epochs| - 1] == epochs[|epochs| - 1].window == NthWindow(start, duration, |epochs| - 1);
    }
  }

  /**
   * Which settings the generator accepts: a proper name and key that leave room for the rails, a window of whole seconds that ends
   * after it begins, between one and 100000 vouchers in all, and either no epochs or epochs that cut the window exactly.
   */
  lemma SettingsIff(crypto: Crypto, cfg: Config)
    ensures ValidGeneration(crypto, cfg) <==>
      && ProgramPattern(cfg.programId) && 1 <= |cfg.mintKeyId| && |cfg.programId| + |cfg.mintKeyId| <= 233
      && cfg.window.notBefore != 0 && cfg.window.notAfter != 0 && cfg.window.notBefore < cfg.window.notAfter
      && cfg.window.notBefore % SECOND == 0 && cfg.window.notAfter % SECOND == 0
      && cfg.seats >= 1 && cfg.vouchersPerInvite >= 1 && cfg.seats * cfg.vouchersPerInvite <= 100_000
      && ((cfg.vouchersPerEpoch == 0 && cfg.epochDuration == 0) || CutsExactly(cfg))
  {
    var vouchersFit := cfg.seats >= 1 && cfg.vouchersPerInvite >= 1 && cfg.seats * cfg.vouchersPerInvite <= 100_000;
    VouchersFit(cfg.seats, cfg.vouchersPerInvite);
    RailsFitIff(Header(cfg.programId, cfg.mintKeyId, cfg.window));
    if cfg.window.notBefore % SECOND == 0 && cfg.window.notAfter % SECOND == 0 {
      if cfg.window.notBefore < cfg.window.notAfter && cfg.vouchersPerInvite >= 1 {
        DailyIff(cfg);
      }
      if IsDaily(cfg) ==> DailySettings(cfg) {
        OutlineIs(cfg);
      }
    }
    hide EpochsFrom, Partition, WindowsOf, ProgramPattern, RailsFit, DailySettings, Outline, Alphanumeric;
  }

  lemma VouchersFit(seats: int, vouchers: int)
    ensures (1 <= seats <= 100_000 && 1 <= vouchers <= 100_000 && seats <= 100_000 / vouchers) <==>
            (seats >= 1 && vouchers >= 1 && seats * vouchers <= 100_000)
  {
    if seats >= 1 && vouchers >= 1 {
      AtMostQuotient(100_000, seats, vouchers);
      AtMostProduct(seats, vouchers);
    }
  }

  lemma AtMostProduct(a: nat, b: nat)
    requires a >= 1 && b >= 1
    ensures a <= a * b && b <= a * b
  {
    TimesMonotone(1, b, a);
    TimesMonotone(1, a, b);
    assert a * b == b * a;
  }

  lemma AtMostQuotient(n: nat, a: nat, d: nat)
    requires d >= 1
    ensures a <= n / d <==> a * d <= n
  {
    var q := n / d;
    DivisionBounds(n, d);
    if a <= q {
      TimesMonotone(a, q, d);
    } else {
      TimesMonotone(q + 1, a, d);
      NextMultiple(q, d);
    }
  }

  lemma DivisionBounds(n: nat, d: nat)
    requires d >= 1
    ensures n / d * d <= n < n / d * d + d
  {
  }

  lemma RailsFitIff(h: Header)
    ensures RailsFit(h) <==> |h.programId| + |h.mintKeyId| <= 233
  {
  }

  lemma OutlineIs(cfg: Config)
    requires cfg.window.notBefore % SECOND == 0 && cfg.window.notAfter % SECOND == 0 && (IsDaily(cfg) ==> DailySettings(cfg))
    ensures Outline(cfg) == Manifest(if IsDaily(cfg) then DAILY else FIXED, Header(cfg.programId, cfg.mintKeyId, cfg.window), cfg.seats,
      cfg.vouchersPerInvite, [], if IsDaily(cfg) then cfg.vouchersPerEpoch else 0,
      if IsDaily(cfg) then EpochsFrom(cfg.window.notBefore, cfg.window.notAfter, cfg.epochDuration) else [])
  {
    hide EpochsFrom, DailySettings;
  }
}
