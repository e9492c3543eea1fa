/** The mint's side of invites: which vouchers a manifest admits and when, and issuing against them. */
module InviteAuthorizers {
  import opened Prelude
  import opened Text
  import opened Receipts
  import opened Invites
  import opened InviteGenerator

  type Admission = map<seq<byte>, Window>

  function AddPrints(crypto: Crypto, valid: Admission, texts: seq<string>, w: Window): Admission
    requires forall x :: x in texts ==> crypto.Canonical(x, 32)
  {
    if texts == [] then valid
    else
      var rest, last := texts[..|texts| - 1], texts[|texts| - 1];
      assert last in texts && crypto.Canonical(last, 32);
      AddPrints(crypto, valid, rest, w)[crypto.untext(last).value := w]
  }

  predicate AllCanonical(crypto: Crypto, epochs: seq<Epoch>) {
    forall e, x :: 0 <= e < |epochs| && x in epochs[e].fingerprints ==> crypto.Canonical(x, 32)
  }

  function AddEpochs(crypto: Crypto, epochs: seq<Epoch>): Admission
    requires AllCanonical(crypto, epochs)
  {
    if epochs == [] then map[]
    else
      var init, last := epochs[..|epochs| - 1], epochs[|epochs| - 1];
      assert last == epochs[|epochs| - 1] && forall x :: x in last.fingerprints ==> crypto.Canonical(x, 32);
      assert AllCanonical(crypto, init) by {
        assert forall e :: 0 <= e < |init| ==> init[e] == epochs[e];
      }
      AddPrints(crypto, AddEpochs(crypto, init), last.fingerprints, last.window)
  }

  /** The lists of a manifest with their windows. */
  function Columns(m: Manifest): (r: seq<Epoch>)
    ensures |r| == Lists(m) && forall e :: 0 <= e < Lists(m) ==> r[e].fingerprints == ListOf(m, e)
  {
    if m.schema == DAILY then m.epochs else [Epoch(m.header.window, m.fingerprints)]
  }

  lemma ColumnsGood(crypto: Crypto, m: Manifest, key: Id)
    requires ValidManifest(crypto, m, key, true)
    ensures AllCanonical(crypto, Columns(m)) && EpochsDisjoint(Columns(m)) && RailsFit(m.header) && Fits(m) && m.vouchersPerInvite >= 1
  {
    hide Partition, Crypto.Canonical, Alphanumeric;
    forall e, x | 0 <= e < Lists(m) && x in ListOf(m, e) ensures crypto.Canonical(x, 32) {
      var i :| 0 <= i < |ListOf(m, e)| && ListOf(m, e)[i] == x;
    }
    WholeQuotient(m.vouchersPerInvite, m.vouchersPerEpoch);
  }

  lemma {:induction false} PrintsAdded(crypto: Crypto, valid: Admission, texts: seq<string>, w: Window, fp: seq<byte>)
    requires crypto.Sound() && forall x :: x in texts ==> crypto.Canonical(x, 32)
    ensures var r := AddPrints(crypto, valid, texts, w);
      && (crypto.text(fp) in texts ==> fp in r && r[fp] == w)
      && (crypto.text(fp) !in texts ==> (fp in r <==> fp in valid) && (fp in valid ==> r[fp] == valid[fp]))
  {
    if texts != [] {
      var rest, last := texts[..|texts| - 1], texts[|texts| - 1];
      PrintsAdded(crypto, valid, rest, w, fp);
      assert last in texts && crypto.text(crypto.untext(last).value) == last;
      assert crypto.untext(crypto.text(fp)) == Some(fp);
    }
  }

  /** A fingerprint is admitted in the window of the list that holds it, and in no other. */
  lemma {:induction false} EpochsAdded(crypto: Crypto, epochs: seq<Epoch>, fp: seq<byte>)
    requires crypto.Sound() && AllCanonical(crypto, epochs) && EpochsDisjoint(epochs)
    ensures forall e :: 0 <= e < |epochs| && crypto.text(fp) in epochs[e].fingerprints ==>
              fp in AddEpochs(crypto, epochs) && AddEpochs(crypto, epochs)[fp] == epochs[e].window
    ensures fp in AddEpochs(crypto, epochs) ==> exists e :: 0 <= e < |epochs| && crypto.text(fp) in epochs[e].fingerprints
  {
    hide Crypto.Canonical;
    if epochs != [] {
      var init, last := epochs[..|epochs| - 1], epochs[|epochs| - 1];
      assert forall e :: 0 <= e < |init| ==> init[e] == epochs[e];
      EpochsAdded(crypto, init, fp);
      PrintsAdded(crypto, AddEpochs(crypto, init), last.fingerprints, last.window, fp);
      if crypto.text(fp) !in last.fingerprints && fp in AddEpochs(crypto, init) {
        var e :| 0 <= e < |init| && crypto.text(fp) in init[e].fingerprints;
        assert crypto.text(fp) in epochs[e].fingerprints;
      }
    }
  }

  // ---- deciding a receipt

  datatype Decision = Refuse | Closed | ToClaim(voucher: seq<byte>)

  function DecodeVoucher(crypto: Crypto, receipt: string): Option<seq<byte>> {
    if receipt == "" || TrimSpace(receipt) != receipt || !crypto.Canonical(receipt, VOUCHER_BYTES) then None
    else crypto.untext(receipt)
  }

  /** Everything that is settled before the receipt store is asked. */
  function Decide(crypto: Crypto, h: Header, valid: Admission, receipt: string, now: int): Decision {
    match DecodeVoucher(crypto, receipt)
    case None => Refuse
    case Some(voucher) =>
      match ReceiptKey(crypto.sha, MembershipRail(h.programId, h.mintKeyId), voucher)
      case None => Refuse
      case Some(fp) =>
        if fp !in valid then Refuse else if valid[fp].Contains(now) then ToClaim(voucher) else Closed
  }

  datatype Verdict = Authorized | Invalid | WindowClosed | NotClaimed(why: ClaimReply)

  /** What authorising a receipt leaves of the used receipts, and the verdict. */
  function Authorization(crypto: Crypto, h: Header, valid: Admission, sha: Hash, used: set<seq<byte>>, receipt: string, now: int,
                         cancelled: bool, io: ClaimIo): (set<seq<byte>>, Verdict)
  {
    if cancelled then (used, NotClaimed(Failed))
    else
      match Decide(crypto, h, valid, receipt, now)
      case Refuse => (used, Invalid)
      case Closed => (used, WindowClosed)
      case ToClaim(voucher) =>
        var (after, reply) := Claim(sha, used, ClaimRail(h.programId, h.mintKeyId), voucher, io);
        (after, if reply == Claimed then Authorized else NotClaimed(reply))
  }

  class InviteAuthorizer {
    const crypto: Crypto
    const header: Header
    const valid: Admission
    const receipts: FileReceiptStore

    constructor (crypto: Crypto, m: Manifest, receipts: FileReceiptStore)
      requires ValidManifest(crypto, m, m.header.mintKeyId, true)
      ensures this.crypto == crypto && this.header == m.header && this.receipts == receipts
      ensures AllCanonical(crypto, Columns(m)) && valid == AddEpochs(crypto, Columns(m))
    {
      ColumnsGood(crypto, m, m.header.mintKeyId);
      var admitted := Admit(crypto, Columns(m));
      this.crypto, this.header, this.receipts, this.valid := crypto, m.header, receipts, admitted;
    }

    static method Admit(crypto: Crypto, epochs: seq<Epoch>) returns (valid: Admission)
      requires AllCanonical(crypto, epochs)
      ensures valid == AddEpochs(crypto, epochs)
    {
      valid := map[];
      var n := 0;
      while n < |epochs|
        invariant 0 <= n <= |epochs| && AllCanonical(crypto, epochs[..n])
        invariant valid == AddEpochs(crypto, epochs[..n])
      {
        assert epochs[..n + 1][..n] == epochs[..n];
        assert forall e :: 0 <= e < n + 1 ==> epochs[..n + 1][e] == epochs[e];
        valid := AddList(crypto, valid, epochs[n].fingerprints, epochs[n].window);
        n := n + 1;
      }
      assert epochs[..n] == epochs;
    }

    static method AddList(crypto: Crypto, before: Admission, texts: seq<string>, w: Window) returns (valid: Admission)
      requires forall x :: x in texts ==> crypto.Canonical(x, 32)
      ensures valid == AddPrints(crypto, before, texts, w)
    {
      valid := before;
      var n := 0;
      while n < |texts|
        invariant 0 <= n <= |texts|
        invariant valid == AddPrints(crypto, before, texts[..n], w)
      {
        assert texts[..n + 1][..n] == texts[..n];
        assert texts[n] in texts && crypto.Canonical(texts[n], 32);
        valid := valid[crypto.untext(texts[n]).value := w];
        n := n + 1;
      }
      assert texts[..n] == texts;
    }

    /** Nothing but a voucher of this program, in its own window, reaches the receipt store. */
    method Authorize(receipt: string, now: int, cancelled: bool, io: ClaimIo) returns (r: Verdict)
      modifies receipts`bucket
      ensures (receipts.bucket.Keys, r) ==
              Authorization(crypto, header, valid, receipts.sha, old(receipts.bucket.Keys), receipt, now, cancelled, io)
    {
      if cancelled { return NotClaimed(Failed); }
      var voucher := DecodeVoucher(crypto, receipt);
      if voucher.None? { return Invalid; }
      var fingerprint := ReceiptKey(crypto.sha, MembershipRail(header.programId, header.mintKeyId), voucher.value);
      if fingerprint.None? || fingerprint.value !in valid { return Invalid; }
      var window := valid[fingerprint.value];
      if now < window.notBefore || now >= window.notAfter { return WindowClosed; }
      var reply := receipts.ClaimReceipt(ClaimRail(header.programId, header.mintKeyId), voucher.value, io);
      return if reply == Claimed then Authorized else NotClaimed(reply);
    }
  }

  lemma RailAccepts(crypto: Crypto, h: Header, voucher: seq<byte>)
    requires RailsFit(h) && |voucher| == VOUCHER_BYTES
    ensures ReceiptKey(crypto.sha, MembershipRail(h.programId, h.mintKeyId), voucher).Some?
  {
  }

  lemma VoucherText(crypto: Crypto, voucher: seq<byte>)
    requires crypto.Sound() && |voucher| == VOUCHER_BYTES
    ensures DecodeVoucher(crypto, crypto.text(voucher)) == Some(voucher)
  {
    TidyUntouched(crypto.text(voucher));
  }

  // ---- how many vouchers a manifest admits

  predicate NotAdmitted(crypto: Crypto, valid: Admission, x: string) {
    crypto.Canonical(x, 32) && crypto.untext(x).value !in valid
  }

  lemma {:induction false} PrintsCount(crypto: Crypto, valid: Admission, texts: seq<string>, w: Window)
    requires crypto.Sound() && (forall x :: x in texts ==> NotAdmitted(crypto, valid, x)) && NoneTwice(texts)
    requires forall x :: x in texts ==> crypto.Canonical(x, 32)
    ensures |AddPrints(crypto, valid, texts, w)| == |valid| + |texts|
  {
    if texts != [] {
      var rest, last := texts[..|texts| - 1], texts[|texts| - 1];
      assert last in texts && forall x :: x in rest ==> x in texts && x != last;
      PrintsCount(crypto, valid, rest, w);
      var fp := crypto.untext(last).value;
      PrintsAdded(crypto, valid, rest, w, fp);
      var before := AddPrints(crypto, valid, rest, w);
      assert fp !in before;
      assert before[fp := w].Keys == before.Keys + {fp} && |before[fp := w].Keys| == |before[fp := w]| && |before.Keys| == |before|;
    }
  }

  lemma StrictlyNoneTwice(texts: seq<string>)
    requires forall i :: 0 < i < |texts| ==> Less(texts[i - 1], texts[i])
    ensures NoneTwice(texts)
  {
    forall i, j | 0 <= i < j < |texts| ensures texts[i] != texts[j] {
      StrictlyLess(texts, i, j);
      LessTotal(texts[i], texts[j]);
    }
  }

  lemma {:induction false} StrictlyLess(texts: seq<string>, i: nat, j: nat)
    requires (forall k :: 0 < k < |texts| ==> Less(texts[k - 1], texts[k])) && i < j < |texts|
    ensures Less(texts[i], texts[j])
    decreases j
  {
    if i < j - 1 {
      StrictlyLess(texts, i, j - 1);
      LessTransitive(texts[i], texts[j - 1], texts[j]);
    }
  }

  lemma {:induction false} EpochsCount(crypto: Crypto, epochs: seq<Epoch>, want: int)
    requires crypto.Sound() && AllCanonical(crypto, epochs) && EpochsDisjoint(epochs)
    requires forall e :: 0 <= e < |epochs| ==> GoodList(crypto, epochs[e].fingerprints, want)
    ensures |AddEpochs(crypto, epochs)| == |epochs| * want
    decreases |epochs|
  {
    hide Crypto.Canonical;
    if epochs != [] {
      var init, last := epochs[..|epochs| - 1], epochs[|epochs| - 1];
      assert forall e :: 0 <= e < |init| ==> init[e] == epochs[e];
      EpochsCount(crypto, init, want);
      StrictlyNoneTwice(last.fingerprints);
      forall x | x in last.fingerprints ensures NotAdmitted(crypto, AddEpochs(crypto, init), x) {
        assert epochs[|epochs| - 1] == last;
        NotYetAdded(crypto, init, last, x);
      }
      PrintsCount(crypto, AddEpochs(crypto, init), last.fingerprints, last.window);
      NextMultiple(|init|, want);
    }
  }

  lemma NotYetAdded(crypto: Crypto, init: seq<Epoch>, last: Epoch, x: string)
    requires crypto.Sound() && AllCanonical(crypto, init + [last]) && EpochsDisjoint(init + [last]) && x in last.fingerprints
    ensures AllCanonical(crypto, init) && NotAdmitted(crypto, AddEpochs(crypto, init), x)
  {
    var all := init + [last];
    assert all[|init|] == last && forall e :: 0 <= e < |init| ==> all[e] == init[e];
    assert crypto.Canonical(x, 32);
    var fp := crypto.untext(x).value;
    assert crypto.text(fp) == x;
    EpochsAdded(crypto, init, fp);
    hide Crypto.Canonical;
  }

  /** An accepted manifest admits exactly as many different vouchers as its seats were given. */
  lemma AdmitsAllVouchers(crypto: Crypto, m: Manifest, key: Id)
    requires crypto.Sound() && ValidManifest(crypto, m, key, true)
    ensures AllCanonical(crypto, Columns(m)) && |AddEpochs(crypto, Columns(m))| == m.seats * m.vouchersPerInvite
    ensures m.header.mintKeyId == key && 1 <= m.seats * m.vouchersPerInvite <= 100_000
  {
    ColumnsGood(crypto, m, key);
    var want := ListsWanted(crypto, m, key);
    AtMostAll(m.seats, m.vouchersPerInvite);
    hide ValidManifest, AllCanonical, EpochsDisjoint, GoodList, Crypto.Sound;
    EpochsCount(crypto, Columns(m), want);
  }

  lemma ListsWanted(crypto: Crypto, m: Manifest, key: Id) returns (want: int)
    requires ValidManifest(crypto, m, key, true)
    ensures forall e :: 0 <= e < |Columns(m)| ==> GoodList(crypto, Columns(m)[e].fingerprints, want)
    ensures |Columns(m)| * want == m.seats * m.vouchersPerInvite
  {
    hide Partition, GoodHeader, RailsFit, EpochsDisjoint, GoodList;
    if m.schema == DAILY {
      want := m.seats * m.vouchersPerEpoch;
      WholeQuotient(m.vouchersPerInvite, m.vouchersPerEpoch);
      Regroup(|m.epochs|, m.seats, m.vouchersPerEpoch);
    } else {
      want := m.seats * m.vouchersPerInvite;
    }
  }

  lemma Regroup(a: int, b: int, c: int)
    ensures a * (b * c) == b * (a * c)
  {
  }

  lemma AtMostAll(seats: int, vouchers: int)
    requires 1 <= seats && 1 <= vouchers && seats <= 100_000 / vouchers
    ensures 1 <= seats * vouchers <= 100_000
  {
    TimesMonotone(seats, 100_000 / vouchers, vouchers);
    TimesMonotone(1, seats, vouchers);
  }

  // ---- which requests are authorised

  /** The fingerprint of these bytes stands in the e-th list of the manifest. */
  ghost predicate ListedIn(crypto: Crypto, m: Manifest, voucher: seq<byte>, e: int)
    requires RailsFit(m.header)
  {
    0 <= e < Lists(m) &&
    crypto.text(crypto.sha(Preimage(MembershipRail(m.header.programId, m.header.mintKeyId), voucher))) in ListOf(m, e)
  }

  function WindowAt(m: Manifest, e: int): Window
    requires 0 <= e < Lists(m)
  {
    if m.schema == DAILY then m.epochs[e].window else m.header.window
  }

  /**
   * The verdict on a voucher of the right size: invalid when no list holds it, closed when none of its windows is now, and
   * otherwise authorised exactly when nothing fails and it has not been claimed before. Only an authorised voucher, or one
   * whose claim was recorded although it failed, is used afterwards.
   */
  lemma VoucherVerdict(crypto: Crypto, m: Manifest, key: Id, sha: Hash, used: set<seq<byte>>, voucher: seq<byte>, now: int, io: ClaimIo)
    requires crypto.Sound() && ValidManifest(crypto, m, key, true) && |voucher| == 32
    ensures AllCanonical(crypto, Columns(m)) && RailsFit(m.header)
    ensures var (after, verdict) := Authorization(crypto, m.header, AddEpochs(crypto, Columns(m)), sha, used, crypto.text(voucher), now, false, io);
      var mark := sha(Preimage(ClaimRail(m.header.programId, m.header.mintKeyId), voucher));
      if forall e :: !ListedIn(crypto, m, voucher, e) then verdict == Invalid && after == used
      else if forall e :: ListedIn(crypto, m, voucher, e) ==> !(WindowAt(m, e).notBefore <= now < WindowAt(m, e).notAfter) then
        verdict == WindowClosed && after == used
      else
        && (verdict == Authorized <==> io.Fine? && mark !in used)
        && (verdict == NotClaimed(Used) <==> !io.Cancelled? && mark in used)
        && after == (if io.Fine? || io.FailsAfter? then used + {mark} else used)
  {
    hide ValidManifest, AddEpochs, MembershipRail, ClaimRail, WindowAt, Decide, ListedIn;
    ColumnsGood(crypto, m, key);
    DecisionIs(crypto, m, key, voucher, now);
    ClaimRailFits(m.header);
    hide RailsFit, AllCanonical;
  }

  lemma DecisionIs(crypto: Crypto, m: Manifest, key: Id, voucher: seq<byte>, now: int)
    requires crypto.Sound() && ValidManifest(crypto, m, key, true) && |voucher| == 32
    ensures AllCanonical(crypto, Columns(m)) && RailsFit(m.header)
    ensures Decide(crypto, m.header, AddEpochs(crypto, Columns(m)), crypto.text(voucher), now) ==
      if forall e :: !ListedIn(crypto, m, voucher, e) then Refuse
      else if forall e :: ListedIn(crypto, m, voucher, e) ==> !(WindowAt(m, e).notBefore <= now < WindowAt(m, e).notAfter) then Closed
      else ToClaim(voucher)
  {
    var fp := AdmittedIff(crypto, m, key, voucher);
    var valid := AddEpochs(crypto, Columns(m));
    hide ValidManifest, AddEpochs, AllCanonical, MembershipRail, Decide, Crypto.Sound, ListedIn, WindowAt, Columns;
    DecideFrom(crypto, m.header, valid, voucher, now);
    if e :| ListedIn(crypto, m, voucher, e) {
      assert valid[fp] == WindowAt(m, e);
    } else {
      assert fp !in valid;
    }
  }

  /** What is admitted is what some list holds, in the window of that list. */
  lemma AdmittedIff(crypto: Crypto, m: Manifest, key: Id, voucher: seq<byte>) returns (fp: seq<byte>)
    requires crypto.Sound() && ValidManifest(crypto, m, key, true) && |voucher| == 32
    ensures AllCanonical(crypto, Columns(m)) && RailsFit(m.header)
    ensures fp == crypto.sha(Preimage(MembershipRail(m.header.programId, m.header.mintKeyId), voucher))
    ensures fp in AddEpochs(crypto, Columns(m)) ==> exists e :: ListedIn(crypto, m, voucher, e)
    ensures forall e :: ListedIn(crypto, m, voucher, e) ==>
              fp in AddEpochs(crypto, Columns(m)) && AddEpochs(crypto, Columns(m))[fp] == WindowAt(m, e)
  {
    ColumnsGood(crypto, m, key);
    fp := crypto.sha(Preimage(MembershipRail(m.header.programId, m.header.mintKeyId), voucher));
    hide ValidManifest, AddEpochs, AllCanonical, MembershipRail;
    EpochsAdded(crypto, Columns(m), fp);
    assert forall e :: 0 <= e < Lists(m) ==> Columns(m)[e].window == WindowAt(m, e);
    if fp in AddEpochs(crypto, Columns(m)) {
      var e :| 0 <= e < |Columns(m)| && crypto.text(fp) in Columns(m)[e].fingerprints;
      assert ListedIn(crypto, m, voucher, e);
    }
    hide Crypto.Sound, EpochsDisjoint, WindowAt, RailsFit;
  }

  lemma DecideFrom(crypto: Crypto, h: Header, valid: Admission, voucher: seq<byte>, now: int)
    requires crypto.Sound() && RailsFit(h) && |voucher| == 32
    ensures var fp := crypto.sha(Preimage(MembershipRail(h.programId, h.mintKeyId), voucher));
      Decide(crypto, h, valid, crypto.text(voucher), now) ==
        if fp !in valid then Refuse else if valid[fp].notBefore <= now < valid[fp].notAfter then ToClaim(voucher) else Closed
  {
    VoucherText(crypto, voucher);
    ClaimRailFits(h);
    hide DecodeVoucher, MembershipRail, ClaimRail;
  }

  lemma ClaimRailFits(h: Header)
    requires RailsFit(h)
    ensures 1 <= |ClaimRail(h.programId, h.mintKeyId)| <= 255 && 1 <= |MembershipRail(h.programId, h.mintKeyId)| <= 255
  {
  }

  /** A receipt that is not exactly the text of 32 bytes is invalid; a cancelled request has no effect. */
  lemma OtherReceipts(crypto: Crypto, h: Header, valid: Admission, sha: Hash, used: set<seq<byte>>, receipt: string, now: int, io: ClaimIo)
    requires crypto.Sound()
    ensures (forall voucher :: |voucher| == 32 ==> receipt != crypto.text(voucher)) ==>
              Authorization(crypto, h, valid, sha, used, receipt, now, false, io) == (used, Invalid)
    ensures Authorization(crypto, h, valid, sha, used, receipt, now, true, io) == (used, NotClaimed(Failed))
  {
    if crypto.Canonical(receipt, VOUCHER_BYTES) {
      assert receipt == crypto.text(crypto.untext(receipt).value);
    }
    hide TrimSpace, Crypto.Sound;
  }

  // ---- issuing

  class Mint {
    const auth: InviteAuthorizer
    var issued: nat

    constructor (auth: InviteAuthorizer)
      ensures this.auth == auth && issued == 0
    {
      this.auth, issued := auth, 0;
    }

    /** Signed exactly when the message is well formed, the receipt is authorised and the key signs; counted exactly then. */
    method Issue(blindedValid: bool, signs: bool, receipt: string, now: int, cancelled: bool, io: ClaimIo) returns (signed: bool)
      modifies this`issued, auth.receipts`bucket
      ensures !blindedValid ==> !signed && auth.receipts.bucket == old(auth.receipts.bucket)
      ensures blindedValid ==>
        var (used, verdict) := Authorization(auth.crypto, auth.header, auth.valid, auth.receipts.sha,
                                             old(auth.receipts.bucket.Keys), receipt, now, cancelled, io);
        auth.receipts.bucket.Keys == used && (signed <==> verdict == Authorized && signs)
      ensures issued == old(issued) + (if signed then 1 else 0)
    {
      if !blindedValid { return false; }
      var verdict := auth.Authorize(receipt, now, cancelled, io);
      if verdict != Authorized || !signs { return false; }
      issued := issued + 1;
      return true;
    }
  }
}
