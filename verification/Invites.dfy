/** Invite programs: manifests, books, their validation, and the offline generator. */
module Invites {
  import opened Prelude
  import opened Text
  import opened Library
  import opened Receipts

  const FIXED: int := 1  // one window for the whole program
  const DAILY: int := 2  // epochs
  const MAX_VOUCHERS: int := 100_000
  const SEED_BYTES: nat := 32
  const VOUCHER_BYTES: nat := 32
  const MINUTE: int := 60 * SECOND

  type Id = seq<byte>

  // "invite-membership-v1:", "invite-claim-v1:" and ":"
  const MEMBERSHIP: Id := [105, 110, 118, 105, 116, 101, 45, 109, 101, 109, 98, 101, 114, 115, 104, 105, 112, 45, 118, 49, 58]
  const CLAIM: Id := [105, 110, 118, 105, 116, 101, 45, 99, 108, 97, 105, 109, 45, 118, 49, 58]
  const COLON: byte := 58

  function MembershipRail(programId: Id, mintKeyId: Id): Id {
    MEMBERSHIP + programId + [COLON] + mintKeyId
  }

  function ClaimRail(programId: Id, mintKeyId: Id): Id {
    CLAIM + programId + [COLON] + mintKeyId
  }

  // Half-open.
  datatype Window = Window(notBefore: int, notAfter: int) {
    predicate Contains(now: int) {
      notBefore <= now < notAfter
    }
  }

  datatype Epoch = Epoch(window: Window, fingerprints: seq<string>)

  // What a voucher is derived from besides the seed.
  datatype Header = Header(programId: Id, mintKeyId: Id, window: Window)

  datatype Manifest = Manifest(schema: int, header: Header, seats: int, vouchersPerInvite: int, fingerprints: seq<string>,
                               vouchersPerEpoch: int, epochs: seq<Epoch>)

  datatype Book = Book(schema: int, header: Header, voucherCount: int, seed: seq<byte>, vouchersPerEpoch: int, epochs: seq<Window>)

  datatype Config = Config(programId: Id, mintKeyId: Id, window: Window, seats: int, vouchersPerInvite: int,
                           vouchersPerEpoch: int, epochDuration: int)

  // HMAC-SHA-256 of a seed, SHA-256, and unpadded base64url, with the laws assumed of them.
  datatype Crypto = Crypto(voucher: (seq<byte>, Header, nat) -> seq<byte>, sha: Hash,
                           text: seq<byte> -> string, untext: string -> Option<seq<byte>>) {
    ghost predicate Sound() {
      && (forall seed, h, slot: nat :: |voucher(seed, h, slot)| == VOUCHER_BYTES)
      && (forall b :: |sha(b)| == 32)
      && (forall b :: untext(text(b)) == Some(b) && (b != [] ==> text(b) != "" && Tidy(text(b))))
    }

    /** Canonical base64url for this many bytes. */
    predicate Canonical(s: string, size: nat) {
      untext(s).Some? && |untext(s).value| == size && text(untext(s).value) == s
    }

    function Fingerprint(h: Header, seed: seq<byte>, slot: nat): Option<seq<byte>> {
      ReceiptKey(sha, MembershipRail(h.programId, h.mintKeyId), voucher(seed, h, slot))
    }
  }

  // ---- fields

  predicate Alphanumeric(b: byte) {
    48 <= b <= 57 || 65 <= b <= 90 || 97 <= b <= 122
  }

  predicate ProgramPattern(id: Id) {
    1 <= |id| <= 64 && Alphanumeric(id[0]) && forall i :: 0 <= i < |id| ==> Alphanumeric(id[i]) || id[i] in [45, 46, 95]
  }

  predicate GoodHeader(h: Header, expectedKey: Id) {
    && ProgramPattern(h.programId) && h.mintKeyId != [] && h.mintKeyId == expectedKey
    && h.window.notBefore < h.window.notAfter
  }

  predicate RailsFit(h: Header) {
    |MembershipRail(h.programId, h.mintKeyId)| <= 255 && |ClaimRail(h.programId, h.mintKeyId)| <= 255
  }

  lemma NoColon(id: Id)
    requires ProgramPattern(id)
    ensures COLON !in id
  {
  }

  /** Rails tell programs, keys and purposes apart, so that no receipt of one can pass for a receipt of another. */
  lemma RailsDiffer(program1: Id, key1: Id, program2: Id, key2: Id)
    requires ProgramPattern(program1) && ProgramPattern(program2)
    ensures MembershipRail(program1, key1) != ClaimRail(program2, key2)
    ensures MembershipRail(program1, key1) == MembershipRail(program2, key2) <==> program1 == program2 && key1 == key2
    ensures ClaimRail(program1, key1) == ClaimRail(program2, key2) <==> program1 == program2 && key1 == key2
  {
    NoColon(program1);
    NoColon(program2);
    hide ProgramPattern;
    assert MembershipRail(program1, key1)[7] == 109 && ClaimRail(program2, key2)[7] == 99;
    SamePrefix(MEMBERSHIP, program1, key1, program2, key2);
    SamePrefix(CLAIM, program1, key1, program2, key2);
  }

  lemma SamePrefix(prefix: Id, a: Id, x: Id, b: Id, y: Id)
    requires COLON !in a && COLON !in b
    ensures prefix + a + [COLON] + x == prefix + b + [COLON] + y <==> a == b && x == y
  {
    var s, t, n := prefix + a + [COLON] + x, prefix + b + [COLON] + y, |prefix|;
    assert s[n + |a|] == COLON && t[n + |b|] == COLON;
    assert forall i :: 0 <= i < |a| ==> s[n + i] == a[i] && a[i] in a;
    assert forall i :: 0 <= i < |b| ==> t[n + i] == b[i] && b[i] in b;
    assert s[n..n + |a|] == a && t[n..n + |b|] == b;
    assert s[n + |a| + 1..] == x && t[n + |b| + 1..] == y;
  }

  predicate WholeEpochs(vouchers: int, perEpoch: int, epochs: nat) {
    perEpoch >= 1 && vouchers % perEpoch == 0 && epochs == Quotient(vouchers, perEpoch)
  }

  /** The windows follow one another without gap or overlap from start to end. */
  predicate Partition(windows: seq<Window>, start: int, end: int)
    decreases |windows|
  {
    if windows == [] then start == end
    else
      && windows[0].notBefore == start && start < windows[0].notAfter <= end
      && Partition(windows[1..], windows[0].notAfter, end)
  }

  /** The loop both parsers run over their epochs. */
  method CheckPartition(windows: seq<Window>, start: int, end: int) returns (ok: bool)
    ensures ok == Partition(windows, start, end)
  {
    var previous, n := start, 0;
    while n < |windows|
      invariant 0 <= n <= |windows|
      invariant Partition(windows[n..], previous, end) == Partition(windows, start, end)
    {
      var w := windows[n];
      assert windows[n..][1..] == windows[n + 1..];
      if w.notBefore != previous || w.notAfter <= w.notBefore || w.notAfter > end { return false; }
      previous, n := w.notAfter, n + 1;
    }
    return previous == end;
  }

  /** Each instant of a partitioned window is in exactly one epoch, and no other instant is in any. */
  lemma {:induction false} PartitionCovers(windows: seq<Window>, start: int, end: int, now: int)
    requires Partition(windows, start, end)
    ensures (exists i :: 0 <= i < |windows| && windows[i].Contains(now)) <==> start <= now < end
    ensures forall i, j :: 0 <= i < |windows| && 0 <= j < |windows| && windows[i].Contains(now) && windows[j].Contains(now) ==> i == j
    decreases |windows|
  {
    if windows != [] {
      var rest := windows[1..];
      PartitionCovers(rest, windows[0].notAfter, end, now);
      PartitionForward(rest, windows[0].notAfter, end);
      assert forall i :: 0 < i < |windows| ==> windows[i] == rest[i - 1];
      if i :| 0 <= i < |rest| && rest[i].Contains(now) {
        assert windows[i + 1].Contains(now);
      }
    }
  }

  lemma {:induction false} PartitionForward(windows: seq<Window>, start: int, end: int)
    requires Partition(windows, start, end)
    ensures start <= end && (windows != [] ==> windows[|windows| - 1].notAfter == end)
    ensures forall i :: 0 <= i < |windows| ==> start <= windows[i].notBefore < windows[i].notAfter <= end
    decreases |windows|
  {
    if windows != [] {
      var rest := windows[1..];
      PartitionForward(rest, windows[0].notAfter, end);
      assert forall i :: 0 < i < |windows| ==> windows[i] == rest[i - 1];
    }
  }

  function WindowsOf(epochs: seq<Epoch>): (r: seq<Window>)
    ensures |r| == |epochs| && forall i :: 0 <= i < |r| ==> r[i] == epochs[i].window
  {
    if epochs == [] then [] else [epochs[0].window] + WindowsOf(epochs[1..])
  }

  /** Unique, sorted, and canonical. */
  predicate GoodList(crypto: Crypto, texts: seq<string>, want: int) {
    && |texts| == want
    && (forall i :: 0 < i < |texts| ==> Less(texts[i - 1], texts[i]))
    && (forall i :: 0 <= i < |texts| ==> crypto.Canonical(texts[i], 32))
  }

  /** No fingerprint stands in two epochs. */
  predicate EpochsDisjoint(epochs: seq<Epoch>) {
    forall e, f, x :: 0 <= e < f < |epochs| && x in epochs[e].fingerprints ==> x !in epochs[f].fingerprints
  }

  predicate ValidDaily(crypto: Crypto, m: Manifest, complete: bool) {
    && m.fingerprints == [] && WholeEpochs(m.vouchersPerInvite, m.vouchersPerEpoch, |m.epochs|)
    && Partition(WindowsOf(m.epochs), m.header.window.notBefore, m.header.window.notAfter)
    && (complete ==> (forall e :: 0 <= e < |m.epochs| ==> GoodList(crypto, m.epochs[e].fingerprints, m.seats * m.vouchersPerEpoch)) &&
                     EpochsDisjoint(m.epochs))
  }

  /** What a manifest must satisfy; complete once its fingerprints have been filled in. */
  predicate ValidManifest(crypto: Crypto, m: Manifest, expectedKey: Id, complete: bool) {
    && (m.schema == FIXED || m.schema == DAILY)
    && GoodHeader(m.header, expectedKey) && RailsFit(m.header)
    && 1 <= m.seats <= MAX_VOUCHERS && 1 <= m.vouchersPerInvite <= MAX_VOUCHERS && m.seats <= MAX_VOUCHERS / m.vouchersPerInvite
    && (m.schema == DAILY ==> ValidDaily(crypto, m, complete))
    && (m.schema == FIXED && complete ==>
          m.vouchersPerEpoch == 0 && m.epochs == [] && GoodList(crypto, m.fingerprints, m.seats * m.vouchersPerInvite))
  }

  /** What a wallet accepts as a book. */
  predicate ValidBook(b: Book, expectedKey: Id) {
    && (b.schema == FIXED || b.schema == DAILY)
    && GoodHeader(b.header, expectedKey)
    && 1 <= b.voucherCount <= MAX_VOUCHERS && |b.seed| == SEED_BYTES
    && (b.schema == FIXED ==> b.vouchersPerEpoch == 0 && b.epochs == [])
    && (b.schema == DAILY ==>
          WholeEpochs(b.voucherCount, b.vouchersPerEpoch, |b.epochs|) &&
          Partition(b.epochs, b.header.window.notBefore, b.header.window.notAfter))
  }

  // ---- generation

  /** Go's 64-bit duration product, and the saturating difference of two times. */
  function WrapDuration(n: int): int {
    (n + TWO_64 / 2) % TWO_64 - TWO_64 / 2
  }

  function Sub(a: int, b: int): int {
    if a - b >= TWO_64 / 2 then TWO_64 / 2 - 1 else if a - b < -(TWO_64 / 2) then -(TWO_64 / 2) else a - b
  }

  function WholeSecond(t: int): int {
    t - t % SECOND
  }

  function EpochsFrom(start: int, end: int, duration: int): seq<Epoch>
    requires duration >= MINUTE
    decreases end - start
  {
    if start >= end then []
    else [Epoch(Window(WholeSecond(start), WholeSecond(start + duration)), [])] + EpochsFrom(start + duration, end, duration)
  }

  function IsDaily(cfg: Config): bool {
    cfg.vouchersPerEpoch != 0 || cfg.epochDuration != 0
  }

  predicate DailySettings(cfg: Config) {
    && cfg.vouchersPerEpoch >= 1 && cfg.vouchersPerInvite % cfg.vouchersPerEpoch == 0
    && cfg.epochDuration >= MINUTE && cfg.epochDuration % SECOND == 0
    && Sub(cfg.window.notAfter, cfg.window.notBefore) ==
         WrapDuration(Quotient(cfg.vouchersPerInvite, cfg.vouchersPerEpoch) * cfg.epochDuration)
  }

  /** The manifest a configuration describes, its fingerprints still to come. */
  function Outline(cfg: Config): Manifest
    requires IsDaily(cfg) ==> DailySettings(cfg)
  {
    var w := Window(WholeSecond(cfg.window.notBefore), WholeSecond(cfg.window.notAfter));
    var h := Header(cfg.programId, cfg.mintKeyId, w);
    if IsDaily(cfg) then
      Manifest(DAILY, h, cfg.seats, cfg.vouchersPerInvite, [], cfg.vouchersPerEpoch,
               EpochsFrom(cfg.window.notBefore, cfg.window.notAfter, cfg.epochDuration))
    else Manifest(FIXED, h, cfg.seats, cfg.vouchersPerInvite, [], 0, [])
  }

  predicate ValidGeneration(crypto: Crypto, cfg: Config) {
    && (IsDaily(cfg) ==> DailySettings(cfg))
    && cfg.window.notBefore != 0 && cfg.window.notAfter != 0
    && cfg.window.notBefore % SECOND == 0 && cfg.window.notAfter % SECOND == 0
    && ValidManifest(crypto, Outline(cfg), cfg.mintKeyId, false)
  }

  lemma WholeSeconds(start: int, duration: int)
    requires start % SECOND == 0 && duration % SECOND == 0
    ensures WholeSecond(start) == start && WholeSecond(start + duration) == start + duration && (start + duration) % SECOND == 0
  {
  }

  function NthWindow(start: int, duration: int, i: int): Window {
    Window(start + i * duration, start + (i + 1) * duration)
  }

  lemma {:induction false} EpochTimes(start: int, end: int, duration: int)
    requires duration >= MINUTE && duration % SECOND == 0 && start % SECOND == 0
    ensures forall i :: 0 <= i < |EpochsFrom(start, end, duration)| ==>
              EpochsFrom(start, end, duration)[i].window == NthWindow(start, duration, i)
    decreases end - start
  {
    WholeSeconds(start, duration);
    if start < end {
      EpochTimes(start + duration, end, duration);
      hide WholeSecond;
      var epochs, rest := EpochsFrom(start, end, duration), EpochsFrom(start + duration, end, duration);
      assert epochs[0].window == Window(start, start + duration);
      forall i | 0 < i < |epochs| ensures epochs[i].window == NthWindow(start, duration, i) {
        assert epochs[i] == rest[i - 1];
        assert NthWindow(start + duration, duration, i - 1) == NthWindow(start, duration, i) by {
          NextMultiple(i - 1, duration);
          NextMultiple(i, duration);
        }
      }
    }
  }

  lemma DailyFacts(crypto: Crypto, cfg: Config)
    requires ValidGeneration(crypto, cfg) && IsDaily(cfg)
    ensures cfg.epochDuration >= MINUTE && cfg.epochDuration % SECOND == 0 && cfg.window.notBefore % SECOND == 0
    ensures Outline(cfg).epochs == EpochsFrom(cfg.window.notBefore, cfg.window.notAfter, cfg.epochDuration)
    ensures Partition(WindowsOf(Outline(cfg).epochs), cfg.window.notBefore, cfg.window.notAfter)
    ensures |Outline(cfg).epochs| * cfg.vouchersPerEpoch == cfg.vouchersPerInvite && cfg.vouchersPerEpoch >= 1
  {
    WholeQuotient(cfg.vouchersPerInvite, cfg.vouchersPerEpoch);
    hide Partition, WindowsOf, EpochsFrom, WrapDuration, Sub, Quotient;
  }

  lemma WholeQuotient(n: int, d: int)
    ensures n >= 0 && d >= 1 && n % d == 0 ==> Quotient(n, d) * d == n
  {
  }

  /** A configuration that is accepted cuts its window into equal epochs, one per allowance. */
  lemma GenerationPartitions(crypto: Crypto, cfg: Config, now: int)
    requires ValidGeneration(crypto, cfg) && IsDaily(cfg)
    ensures var epochs := Outline(cfg).epochs;
      && |epochs| * cfg.vouchersPerEpoch == cfg.vouchersPerInvite
      && (forall e :: 0 <= e < |epochs| ==> epochs[e].window == NthWindow(cfg.window.notBefore, cfg.epochDuration, e))
      && cfg.window.notBefore + |epochs| * cfg.epochDuration == cfg.window.notAfter
      && ((exists e :: 0 <= e < |epochs| && epochs[e].window.Contains(now)) <==> cfg.window.Contains(now))
  {
    DailyFacts(crypto, cfg);
    hide ValidGeneration, Outline, EpochsFrom, WindowsOf, Partition, DailySettings;
    var epochs, start, end, duration := Outline(cfg).epochs, cfg.window.notBefore, cfg.window.notAfter, cfg.epochDuration;
    var windows := WindowsOf(epochs);
    EpochTimes(start, end, duration);
    PartitionCovers(windows, start, end, now);
    PartitionForward(windows, start, end);
    if epochs == [] {
      EmptyPartition(windows, start, end);
    } else {
      assert windows[|epochs| - 1] == epochs[|epochs| - 1].window;
    }
    assert forall e :: 0 <= e < |epochs| ==> epochs[e].window == windows[e];
  }

  lemma EmptyPartition(windows: seq<Window>, start: int, end: int)
    requires windows == [] && Partition(windows, start, end)
    ensures start == end
  {
  }
}
