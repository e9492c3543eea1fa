/** The offline generator: which fingerprint goes to which epoch, and the books it writes. */
module InviteGenerator {
  import opened Prelude
  import opened Text
  import opened Receipts
  import opened Invites

  /** The lists of a manifest: one per epoch, or one for the whole program. */
  function Lists(m: Manifest): nat {
    if m.schema == DAILY then |m.epochs| else 1
  }

  function ListOf(m: Manifest, e: nat): seq<string>
    requires e < Lists(m)
  {
    if m.schema == DAILY then m.epochs[e].fingerprints else m.fingerprints
  }

  /** Every slot has a list. */
  predicate Fits(m: Manifest) {
    m.schema == DAILY ==> m.vouchersPerEpoch >= 1 && |m.epochs| * m.vouchersPerEpoch == m.vouchersPerInvite
  }

  function Place(m: Manifest, slot: nat): (e: nat)
    requires Fits(m) && slot < m.vouchersPerInvite
    ensures e < Lists(m)
    ensures m.schema == DAILY ==> e * m.vouchersPerEpoch <= slot < (e + 1) * m.vouchersPerEpoch
  {
    if m.schema == DAILY then
      SlotInEpoch(slot, |m.epochs|, m.vouchersPerEpoch);
      slot / m.vouchersPerEpoch
    else 0
  }

  lemma SlotInEpoch(slot: nat, epochs: nat, perEpoch: int)
    requires perEpoch >= 1 && slot < epochs * perEpoch
    ensures 0 <= slot / perEpoch < epochs
    ensures slot / perEpoch * perEpoch <= slot < (slot / perEpoch + 1) * perEpoch
  {
    var q := slot / perEpoch;
    assert slot == q * perEpoch + slot % perEpoch;
    NextMultiple(q, perEpoch);
    if q >= epochs {
      TimesMonotone(epochs, q, perEpoch);
    }
  }

  function Append(m: Manifest, e: nat, text: string): (r: Manifest)
    requires e < Lists(m)
    ensures Lists(r) == Lists(m) && r.header == m.header && r.vouchersPerInvite == m.vouchersPerInvite && (Fits(m) ==> Fits(r))
    ensures r.schema == m.schema && r.vouchersPerEpoch == m.vouchersPerEpoch && |r.epochs| == |m.epochs| && r.seats == m.seats
    ensures forall f :: 0 <= f < |m.epochs| ==> r.epochs[f].window == m.epochs[f].window
    ensures forall f :: 0 <= f < Lists(m) ==> ListOf(r, f) == if f == e then ListOf(m, f) + [text] else ListOf(m, f)
  {
    if m.schema == DAILY then
      m.(epochs := m.epochs[e := Epoch(m.epochs[e].window, m.epochs[e].fingerprints + [text])])
    else m.(fingerprints := m.fingerprints + [text])
  }

  datatype Progress = Progress(m: Manifest, seen: set<seq<byte>>)

  predicate SameProgram(a: Manifest, b: Manifest) {
    && a.schema == b.schema && a.header == b.header && a.seats == b.seats && a.vouchersPerInvite == b.vouchersPerInvite
    && a.vouchersPerEpoch == b.vouchersPerEpoch && |a.epochs| == |b.epochs|
    && forall e :: 0 <= e < |a.epochs| ==> a.epochs[e].window == b.epochs[e].window
  }

  /** One seat's first k slots; None when a voucher cannot be fingerprinted or repeats. */
  function Slots(crypto: Crypto, p: Progress, seed: seq<byte>, k: nat): (r: Option<Progress>)
    requires Fits(p.m) && k <= p.m.vouchersPerInvite
    ensures r.Some? ==> Fits(r.value.m) && SameProgram(r.value.m, p.m)
  {
    if k == 0 then Some(p)
    else
      match Slots(crypto, p, seed, k - 1)
      case None => None
      case Some(q) =>
        match crypto.Fingerprint(p.m.header, seed, k - 1)
        case None => None
        case Some(fp) =>
          if fp in q.seen then None else Some(Progress(Append(q.m, Place(q.m, k - 1), crypto.text(fp)), q.seen + {fp}))
  }

  function Seats(crypto: Crypto, m: Manifest, seeds: seq<seq<byte>>): (r: Option<Progress>)
    requires Fits(m) && m.vouchersPerInvite >= 0
    ensures r.Some? ==> Fits(r.value.m) && SameProgram(r.value.m, m)
  {
    if seeds == [] then Some(Progress(m, {}))
    else
      match Seats(crypto, m, seeds[..|seeds| - 1])
      case None => None
      case Some(p) => Slots(crypto, p, seeds[|seeds| - 1], m.vouchersPerInvite)
  }

  function SortEpochs(epochs: seq<Epoch>): (r: seq<Epoch>)
    ensures |r| == |epochs|
    ensures forall e :: 0 <= e < |r| ==> r[e] == Epoch(epochs[e].window, Sort(epochs[e].fingerprints))
  {
    if epochs == [] then []
    else SortEpochs(epochs[..|epochs| - 1]) +
         [Epoch(epochs[|epochs| - 1].window, Sort(epochs[|epochs| - 1].fingerprints))]
  }

  function SortLists(m: Manifest): Manifest {
    if m.schema == DAILY then m.(epochs := SortEpochs(m.epochs)) else m.(fingerprints := Sort(m.fingerprints))
  }

  /** The book as the generator writes it: always of the fixed-window schema. */
  function WrittenBook(m: Manifest, seed: seq<byte>): Book {
    Book(FIXED, m.header, m.vouchersPerInvite, seed, m.vouchersPerEpoch, WindowsOf(m.epochs))
  }

  function WrittenBooks(m: Manifest, seeds: seq<seq<byte>>): (r: seq<Book>)
    ensures |r| == |seeds| && forall i :: 0 <= i < |r| ==> r[i] == WrittenBook(m, seeds[i])
  {
    if seeds == [] then [] else WrittenBooks(m, seeds[..|seeds| - 1]) + [WrittenBook(m, seeds[|seeds| - 1])]
  }

  lemma OutlineFits(crypto: Crypto, cfg: Config)
    requires ValidGeneration(crypto, cfg)
    ensures IsDaily(cfg) ==> DailySettings(cfg)
    ensures Fits(Outline(cfg)) && Outline(cfg).vouchersPerInvite == cfg.vouchersPerInvite >= 1 && Outline(cfg).seats == cfg.seats >= 1
    ensures (Outline(cfg).schema == DAILY <==> IsDaily(cfg)) && Outline(cfg).vouchersPerEpoch == cfg.vouchersPerEpoch
    ensures forall e :: 0 <= e < |Outline(cfg).epochs| ==> Outline(cfg).epochs[e].fingerprints == []
    ensures Outline(cfg).fingerprints == []
  {
    if IsDaily(cfg) {
      DailyFacts(crypto, cfg);
      EmptyEpochs(cfg.window.notBefore, cfg.window.notAfter, cfg.epochDuration);
    }
    hide EpochsFrom, WindowsOf, Partition, WrapDuration, Sub, Quotient;
  }

  lemma {:induction false} EmptyEpochs(start: int, end: int, duration: int)
    requires duration >= MINUTE
    ensures forall e :: 0 <= e < |EpochsFrom(start, end, duration)| ==> EpochsFrom(start, end, duration)[e].fingerprints == []
    decreases end - start
  {
    if start < end {
      EmptyEpochs(start + duration, end, duration);
    }
  }

  /** The manifest of a run whose random source gives these seeds, checked once more before it is published. */
  function Generated(crypto: Crypto, cfg: Config, seeds: seq<seq<byte>>): (r: Option<Manifest>)
    ensures r.Some? ==> ValidGeneration(crypto, cfg) && 0 <= cfg.seats <= |seeds| && ValidManifest(crypto, r.value, cfg.mintKeyId, true)
  {
    if !ValidGeneration(crypto, cfg) then None
    else
      OutlineFits(crypto, cfg);
      if |seeds| < cfg.seats then None
      else
        match Seats(crypto, Outline(cfg), seeds[..cfg.seats])
        case None => None
        case Some(p) =>
          var m := SortLists(p.m);
          if ValidManifest(crypto, m, cfg.mintKeyId, true) then Some(m) else None
  }

  method GenerateInviteBooks(crypto: Crypto, cfg: Config, seeds: seq<seq<byte>>) returns (r: Option<(Manifest, seq<Book>)>)
    ensures r == match Generated(crypto, cfg, seeds)
                 case None => None
                 case Some(m) => Some((m, WrittenBooks(m, seeds[..cfg.seats])))
  {
    hide Crypto.Fingerprint, ValidManifest, Outline, DailySettings, ValidGeneration, Seats, WrittenBooks, SortLists;
    if !ValidGeneration(crypto, cfg) { return None; }
    OutlineFits(crypto, cfg);
    if |seeds| < cfg.seats { return None; }
    var filled, books := FillSeats(crypto, Outline(cfg), seeds[..cfg.seats]);
    if filled.None? { return None; }
    var sorted := SortLists(filled.value.m);
    if !ValidManifest(crypto, sorted, cfg.mintKeyId, true) { return None; }
    SortingKeepsBooks(filled.value.m, Outline(cfg), seeds[..cfg.seats]);
    return Some((sorted, books));
  }

  lemma SortingKeepsBooks(filled: Manifest, outline: Manifest, seeds: seq<seq<byte>>)
    requires SameProgram(filled, outline)
    ensures WrittenBooks(SortLists(filled), seeds) == WrittenBooks(outline, seeds)
  {
    WindowsSame(SortLists(filled), outline);
    BooksSame(SortLists(filled), outline, seeds);
  }

  /** The loop over seats, with a book for each. */
  method FillSeats(crypto: Crypto, m: Manifest, seeds: seq<seq<byte>>) returns (r: Option<Progress>, books: seq<Book>)
    requires Fits(m) && m.vouchersPerInvite >= 0
    ensures r == Seats(crypto, m, seeds)
    ensures r.Some? ==> books == WrittenBooks(m, seeds)
  {
    hide Slots;
    var p, seat := Progress(m, {}), 0;
    books := [];
    while seat < |seeds|
      invariant 0 <= seat <= |seeds|
      invariant Fits(p.m) && SameProgram(p.m, m)
      invariant Seats(crypto, m, seeds[..seat]) == Some(p)
      invariant books == WrittenBooks(m, seeds[..seat])
    {
      assert seeds[..seat + 1][..seat] == seeds[..seat];
      var filled := FillSeat(crypto, p, seeds[seat]);
      if filled.None? {
        StuckSeats(crypto, m, seeds, seat + 1);
        return None, books;
      }
      p := filled.value;
      WindowsSame(p.m, m);
      books := books + [WrittenBook(p.m, seeds[seat])];
      seat := seat + 1;
    }
    assert seeds[..seat] == seeds;
    return Some(p), books;
  }

  /** The loop over one seat's slots. */
  method FillSeat(crypto: Crypto, p: Progress, seed: seq<byte>) returns (r: Option<Progress>)
    requires Fits(p.m) && p.m.vouchersPerInvite >= 0
    ensures r == Slots(crypto, p, seed, p.m.vouchersPerInvite)
  {
    hide Crypto.Fingerprint;
    var manifest, seen, slot := p.m, p.seen, 0;
    while slot < p.m.vouchersPerInvite
      invariant 0 <= slot <= p.m.vouchersPerInvite
      invariant Fits(manifest) && SameProgram(manifest, p.m)
      invariant Slots(crypto, p, seed, slot) == Some(Progress(manifest, seen))
    {
      var fingerprint := crypto.Fingerprint(manifest.header, seed, slot);
      if fingerprint.None? || fingerprint.value in seen {
        StuckSlots(crypto, p, seed, slot + 1, p.m.vouchersPerInvite);
        return None;
      }
      seen := seen + {fingerprint.value};
      manifest := Append(manifest, Place(manifest, slot), crypto.text(fingerprint.value));
      slot := slot + 1;
    }
    return Some(Progress(manifest, seen));
  }

  lemma {:induction false} StuckSlots(crypto: Crypto, p: Progress, seed: seq<byte>, k: nat, n: nat)
    requires Fits(p.m) && k <= n <= p.m.vouchersPerInvite && Slots(crypto, p, seed, k).None?
    ensures Slots(crypto, p, seed, n).None?
  {
    if k < n {
      StuckSlots(crypto, p, seed, k, n - 1);
    }
  }

  lemma {:induction false} StuckSeats(crypto: Crypto, m: Manifest, seeds: seq<seq<byte>>, n: nat)
    requires Fits(m) && m.vouchersPerInvite >= 0 && n <= |seeds| && Seats(crypto, m, seeds[..n]).None?
    ensures Seats(crypto, m, seeds).None?
    decreases |seeds|
  {
    if n < |seeds| {
      var init := seeds[..|seeds| - 1];
      assert init[..n] == seeds[..n];
      StuckSeats(crypto, m, init, n);
    } else {
      assert seeds[..n] == seeds;
    }
  }

  lemma WindowsSame(a: Manifest, b: Manifest)
    requires |a.epochs| == |b.epochs| && forall e :: 0 <= e < |a.epochs| ==> a.epochs[e].window == b.epochs[e].window
    ensures WindowsOf(a.epochs) == WindowsOf(b.epochs)
  {
  }

  lemma {:induction false} BooksSame(a: Manifest, b: Manifest, seeds: seq<seq<byte>>)
    requires a.header == b.header && a.vouchersPerInvite == b.vouchersPerInvite && a.vouchersPerEpoch == b.vouchersPerEpoch
    requires WindowsOf(a.epochs) == WindowsOf(b.epochs)
    ensures WrittenBooks(a, seeds) == WrittenBooks(b, seeds)
  {
  }

  // ---- what ends up where

  function TextAt(crypto: Crypto, h: Header, seed: seq<byte>, slot: nat): Option<string> {
    match crypto.Fingerprint(h, seed, slot)
    case None => None
    case Some(fp) => Some(crypto.text(fp))
  }

  /** A text is the fingerprint of one of a seat's first k slots, one whose place is list e. */
  ghost predicate FromSeat(crypto: Crypto, m: Manifest, seed: seq<byte>, k: nat, e: nat, text: string)
    requires Fits(m) && k <= m.vouchersPerInvite
  {
    exists slot: nat :: slot < k && Place(m, slot) == e && TextAt(crypto, m.header, seed, slot) == Some(text)
  }

  ghost predicate FromSeats(crypto: Crypto, m: Manifest, seeds: seq<seq<byte>>, e: nat, text: string)
    requires Fits(m) && m.vouchersPerInvite >= 0
  {
    exists s :: 0 <= s < |seeds| && FromSeat(crypto, m, seeds[s], m.vouchersPerInvite, e, text)
  }

  lemma {:induction false} SlotsPlace(crypto: Crypto, p: Progress, seed: seq<byte>, k: nat, e: nat, text: string)
    requires Fits(p.m) && k <= p.m.vouchersPerInvite && Slots(crypto, p, seed, k).Some? && e < Lists(p.m)
    ensures text in ListOf(Slots(crypto, p, seed, k).value.m, e) <==>
            text in ListOf(p.m, e) || FromSeat(crypto, p.m, seed, k, e, text)
  {
    hide Crypto.Fingerprint;
    if k > 0 {
      SlotsPlace(crypto, p, seed, k - 1, e, text);
      var q := Slots(crypto, p, seed, k - 1).value;
      assert Place(q.m, k - 1) == Place(p.m, k - 1);
      if FromSeat(crypto, p.m, seed, k, e, text) && !FromSeat(crypto, p.m, seed, k - 1, e, text) {
        var slot: nat :| slot < k && Place(p.m, slot) == e && TextAt(crypto, p.m.header, seed, slot) == Some(text);
        assert slot == k - 1;
      }
      if FromSeat(crypto, p.m, seed, k - 1, e, text) {
        var slot: nat :| slot < k - 1 && Place(p.m, slot) == e && TextAt(crypto, p.m.header, seed, slot) == Some(text);
        assert FromSeat(crypto, p.m, seed, k, e, text);
      }
      if e == Place(p.m, k - 1) && TextAt(crypto, p.m.header, seed, k - 1) == Some(text) {
        assert FromSeat(crypto, p.m, seed, k, e, text);
      }
    }
  }

  lemma {:induction false} SeatsPlace(crypto: Crypto, m: Manifest, seeds: seq<seq<byte>>, e: nat, text: string)
    requires Fits(m) && m.vouchersPerInvite >= 0 && Seats(crypto, m, seeds).Some? && e < Lists(m)
    requires ListOf(m, e) == []
    ensures text in ListOf(Seats(crypto, m, seeds).value.m, e) <==> FromSeats(crypto, m, seeds, e, text)
    decreases |seeds|
  {
    hide Slots, FromSeat;
    if seeds != [] {
      var init, last := seeds[..|seeds| - 1], |seeds| - 1;
      SeatsPlace(crypto, m, init, e, text);
      var p := Seats(crypto, m, init).value;
      SlotsPlace(crypto, p, seeds[last], m.vouchersPerInvite, e, text);
      SameSeat(crypto, p.m, m, seeds[last], e, text);
      if FromSeats(crypto, m, init, e, text) {
        var s :| 0 <= s < |init| && FromSeat(crypto, m, init[s], m.vouchersPerInvite, e, text);
        assert seeds[s] == init[s];
      }
      if FromSeats(crypto, m, seeds, e, text) {
        var s :| 0 <= s < |seeds| && FromSeat(crypto, m, seeds[s], m.vouchersPerInvite, e, text);
        assert s < last ==> init[s] == seeds[s];
      }
    }
  }

  lemma SameSeat(crypto: Crypto, a: Manifest, b: Manifest, seed: seq<byte>, e: nat, text: string)
    requires Fits(a) && Fits(b) && SameProgram(a, b) && a.vouchersPerInvite >= 0
    ensures FromSeat(crypto, a, seed, a.vouchersPerInvite, e, text) <==> FromSeat(crypto, b, seed, b.vouchersPerInvite, e, text)
  {
    hide Crypto.Fingerprint;
    assert forall slot: nat :: slot < a.vouchersPerInvite ==> Place(a, slot) == Place(b, slot);
  }

  lemma SortKeepsLists(m: Manifest, e: nat, text: string)
    requires e < Lists(m)
    ensures Lists(SortLists(m)) == Lists(m)
    ensures text in ListOf(SortLists(m), e) <==> text in ListOf(m, e)
  {
    var xs := ListOf(m, e);
    SortCorrect(xs);
    assert text in multiset(xs) <==> text in multiset(Sort(xs));
  }

  /** Every list of a generated manifest holds exactly the fingerprints of its own slots, of all the seats together. */
  lemma ManifestHoldsSlots(crypto: Crypto, cfg: Config, seeds: seq<seq<byte>>, e: nat, text: string)
    requires Generated(crypto, cfg, seeds).Some?
    requires e < Lists(Generated(crypto, cfg, seeds).value)
    ensures var m := Generated(crypto, cfg, seeds).value;
            && (IsDaily(cfg) ==> DailySettings(cfg)) && Fits(m) && SameProgram(m, Outline(cfg)) && m.vouchersPerInvite >= 0
            && (text in ListOf(m, e) <==> FromSeats(crypto, m, seeds[..cfg.seats], e, text))
  {
    OutlineFits(crypto, cfg);
    hide Crypto.Fingerprint, ValidManifest, ValidGeneration, Outline, DailySettings, Seats, FromSeat;
    var outline, own := Outline(cfg), seeds[..cfg.seats];
    var p := Seats(crypto, outline, own).value;
    SeatsPlace(crypto, outline, own, e, text);
    SortKeepsLists(p.m, e, text);
    var m := Generated(crypto, cfg, seeds).value;
    assert m == SortLists(p.m);
    forall s | 0 <= s < |own|
      ensures FromSeat(crypto, m, own[s], m.vouchersPerInvite, e, text) <==> FromSeat(crypto, outline, own[s], m.vouchersPerInvite, e, text)
    {
      SameSeat(crypto, m, outline, own[s], e, text);
    }
  }

  // ---- no voucher twice

  /** What the duplicate check of the generator is for, within one seat and against what was seen before it. */
  ghost predicate SeatDistinct(crypto: Crypto, h: Header, seed: seq<byte>, k: nat, before: set<seq<byte>>, seen: set<seq<byte>>) {
    && before <= seen
    && (forall i: nat :: i < k ==> crypto.Fingerprint(h, seed, i).Some?)
    && (forall i: nat :: i < k ==> crypto.Fingerprint(h, seed, i).value in seen && crypto.Fingerprint(h, seed, i).value !in before)
    && (forall i: nat, j: nat :: i < j < k ==> crypto.Fingerprint(h, seed, i) != crypto.Fingerprint(h, seed, j))
  }

  lemma {:induction false} SlotsDistinct(crypto: Crypto, p: Progress, seed: seq<byte>, k: nat)
    requires Fits(p.m) && k <= p.m.vouchersPerInvite && Slots(crypto, p, seed, k).Some?
    ensures SeatDistinct(crypto, p.m.header, seed, k, p.seen, Slots(crypto, p, seed, k).value.seen)
  {
    hide Crypto.Fingerprint;
    if k > 0 {
      SlotsDistinct(crypto, p, seed, k - 1);
    }
  }

  ghost predicate SeatsDistinct(crypto: Crypto, h: Header, seeds: seq<seq<byte>>, n: nat, seen: set<seq<byte>>) {
    && (forall s, i: nat :: 0 <= s < |seeds| && i < n ==> crypto.Fingerprint(h, seeds[s], i).Some?)
    && (forall s, i: nat :: 0 <= s < |seeds| && i < n ==> crypto.Fingerprint(h, seeds[s], i).value in seen)
    && (forall s, i: nat, t, j: nat :: 0 <= s < |seeds| && 0 <= t < |seeds| && i < n && j < n && (s != t || i != j) ==>
          crypto.Fingerprint(h, seeds[s], i) != crypto.Fingerprint(h, seeds[t], j))
  }

  lemma {:induction false} AllDistinct(crypto: Crypto, m: Manifest, seeds: seq<seq<byte>>)
    requires Fits(m) && m.vouchersPerInvite >= 0 && Seats(crypto, m, seeds).Some?
    ensures SeatsDistinct(crypto, m.header, seeds, m.vouchersPerInvite, Seats(crypto, m, seeds).value.seen)
    decreases |seeds|
  {
    hide Crypto.Fingerprint, Slots;
    if seeds != [] {
      var init, last, n := seeds[..|seeds| - 1], |seeds| - 1, m.vouchersPerInvite;
      AllDistinct(crypto, m, init);
      var p := Seats(crypto, m, init).value;
      SlotsDistinct(crypto, p, seeds[last], n);
      hide Seats;
      assert forall s :: 0 <= s < last ==> seeds[s] == init[s];
    }
  }

  /** All the vouchers of a generated program are different, over all seats and slots. */
  lemma GeneratedVouchersDiffer(crypto: Crypto, cfg: Config, seeds: seq<seq<byte>>, s: nat, i: nat, t: nat, j: nat)
    requires Generated(crypto, cfg, seeds).Some? && s < cfg.seats && t < cfg.seats
    requires i < cfg.vouchersPerInvite && j < cfg.vouchersPerInvite && (s != t || i != j)
    ensures var h := Generated(crypto, cfg, seeds).value.header;
            && crypto.Fingerprint(h, seeds[s], i) != crypto.Fingerprint(h, seeds[t], j)
            && crypto.voucher(seeds[s], h, i) != crypto.voucher(seeds[t], h, j)
  {
    OutlineFits(crypto, cfg);
    var own := seeds[..cfg.seats];
    AllDistinct(crypto, Outline(cfg), own);
    var p := Seats(crypto, Outline(cfg), own).value;
    var h := Outline(cfg).header;
    assert own[s] == seeds[s] && own[t] == seeds[t];
    assert crypto.Fingerprint(h, own[s], i) != crypto.Fingerprint(h, own[t], j) by {
      hide Crypto.Fingerprint, Seats, Outline, ValidManifest, ValidGeneration;
    }
    hide Seats, ValidManifest, ValidGeneration, Outline;
    assert SortLists(p.m).header == p.m.header;
  }
}
