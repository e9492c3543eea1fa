/** Payment receipts: each is claimed at most once per rail, and rails never collide. */
module Receipts {
  import opened Prelude

  const MAX_ISSUE_BODY: nat := 16_384

  type Hash = seq<byte> -> seq<byte>

  function Preimage(rail: seq<byte>, receipt: seq<byte>): seq<byte>
    requires |rail| < TWO_32
  {
    PutU32(|rail|) + rail + receipt
  }

  predicate Valid(rail: seq<byte>, receipt: seq<byte>) {
    1 <= |rail| <= 255 && 1 <= |receipt| <= MAX_ISSUE_BODY
  }

  /** The stored fingerprint; None when the rail or the receipt is refused. */
  function ReceiptKey(sha: Hash, rail: seq<byte>, receipt: seq<byte>): Option<seq<byte>> {
    if Valid(rail, receipt) then Some(sha(Preimage(rail, receipt))) else None
  }

  /** The hash does not collide on the receipts in play. */
  ghost predicate NoCollisions(sha: Hash, pairs: set<(seq<byte>, seq<byte>)>) {
    forall p, q :: p in pairs && q in pairs && Valid(p.0, p.1) && Valid(q.0, q.1) ==>
      (sha(Preimage(p.0, p.1)) == sha(Preimage(q.0, q.1)) ==> Preimage(p.0, p.1) == Preimage(q.0, q.1))
  }

  /** Equal fingerprints mean the same receipt on the same rail: no rail and receipt can pose as another pair. */
  lemma KeyDetermines(sha: Hash, pairs: set<(seq<byte>, seq<byte>)>, rail1: seq<byte>, receipt1: seq<byte>,
                      rail2: seq<byte>, receipt2: seq<byte>)
    requires NoCollisions(sha, pairs) && (rail1, receipt1) in pairs && (rail2, receipt2) in pairs
    requires ReceiptKey(sha, rail1, receipt1).Some? && ReceiptKey(sha, rail1, receipt1) == ReceiptKey(sha, rail2, receipt2)
    ensures rail1 == rail2 && receipt1 == receipt2
  {
    var p, q := (rail1, receipt1), (rail2, receipt2);
    assert Preimage(p.0, p.1) == Preimage(q.0, q.1);
    LengthPrefixInjective(rail1, receipt1, rail2, receipt2);
  }

  datatype ClaimReply = Claimed | Used | Malformed | Failed

  // How the surroundings treat a claim: as intended, cancelled, or failing to commit (with or without lasting effect).
  datatype ClaimIo = Fine | Cancelled | FailsBefore | FailsAfter

  function Claim(sha: Hash, used: set<seq<byte>>, rail: seq<byte>, receipt: seq<byte>, io: ClaimIo): (set<seq<byte>>, ClaimReply) {
    match ReceiptKey(sha, rail, receipt)
    case None => (used, Malformed)
    case Some(key) =>
      if io.Cancelled? then (used, Failed)
      else if key in used then (used, Used)
      else if io.FailsBefore? then (used, Failed)
      else (used + {key}, if io.Fine? then Claimed else Failed)
  }

  class FileReceiptStore {
    const sha: Hash
    var bucket: map<seq<byte>, byte>

    constructor (sha: Hash)
      ensures this.sha == sha && bucket == map[]
    {
      this.sha, bucket := sha, map[];
    }

    method ClaimReceipt(rail: seq<byte>, receipt: seq<byte>, io: ClaimIo) returns (r: ClaimReply)
      modifies this`bucket
      ensures (bucket.Keys, r) == Claim(sha, old(bucket.Keys), rail, receipt, io)
    {
      var key := ReceiptKey(sha, rail, receipt);
      if key.None? { return Malformed; }
      if io.Cancelled? { return Failed; }
      if key.value in bucket { return Used; }
      if io.FailsBefore? { return Failed; }
      bucket := bucket[key.value := 1];
      assert bucket.Keys == old(bucket.Keys) + {key.value};
      return if io.FailsAfter? then Failed else Claimed;
    }
  }

  /** The process-local store for tests; nothing can fail in it but the context. */
  class MemoryReceiptStore {
    const sha: Hash
    var used: set<seq<byte>>

    constructor (sha: Hash)
      ensures this.sha == sha && used == {}
    {
      this.sha, used := sha, {};
    }

    method ClaimReceipt(rail: seq<byte>, receipt: seq<byte>, cancelled: bool) returns (r: ClaimReply)
      modifies this`used
      ensures (used, r) == Claim(sha, old(used), rail, receipt, if cancelled then Cancelled else Fine)
    {
      var key := ReceiptKey(sha, rail, receipt);
      if key.None? { return Malformed; }
      if cancelled { return Failed; }
      if key.value in used { return Used; }
      used := used + {key.value};
      return Claimed;
    }
  }

  // ---- runs

  datatype Attempt = Attempt(rail: seq<byte>, receipt: seq<byte>, io: ClaimIo)

  function Run(sha: Hash, used: set<seq<byte>>, run: seq<Attempt>): (r: (set<seq<byte>>, seq<ClaimReply>))
    ensures |r.1| == |run|
    decreases |run|
  {
    if run == [] then (used, [])
    else
      var (next, reply) := Claim(sha, used, run[0].rail, run[0].receipt, run[0].io);
      var (final, replies) := Run(sha, next, run[1..]);
      (final, [reply] + replies)
  }

  lemma {:induction false} UsedStaysUsed(sha: Hash, used: set<seq<byte>>, run: seq<Attempt>, i: nat)
    requires i < |run| && Run(sha, used, run).1[i] == Claimed
    ensures ReceiptKey(sha, run[i].rail, run[i].receipt).Some?
    ensures ReceiptKey(sha, run[i].rail, run[i].receipt).value !in used
    decreases |run|
  {
    hide ReceiptKey;
    if i > 0 {
      var next := Claim(sha, used, run[0].rail, run[0].receipt, run[0].io).0;
      UsedStaysUsed(sha, next, run[1..], i - 1);
    }
  }

  /** One receipt, one issuance: of all the claims of a receipt on a rail, at most one is ever granted, whatever fails in between. */
  lemma {:induction false} OneClaim(sha: Hash, used: set<seq<byte>>, run: seq<Attempt>, i: nat, j: nat)
    requires i < j < |run| && run[i].rail == run[j].rail && run[i].receipt == run[j].receipt
    ensures !(Run(sha, used, run).1[i] == Claimed && Run(sha, used, run).1[j] == Claimed)
    decreases i
  {
    hide ReceiptKey;
    var next := Claim(sha, used, run[0].rail, run[0].receipt, run[0].io).0;
    assert Run(sha, used, run).1[j] == Run(sha, next, run[1..]).1[j - 1];
    if i > 0 {
      OneClaim(sha, next, run[1..], i - 1, j - 1);
    } else if Run(sha, used, run).1[j] == Claimed {
      UsedStaysUsed(sha, next, run[1..], j - 1);
    }
  }

  /** A claim is turned away as used only if that very receipt was used on that very rail before. */
  lemma {:induction false} OnlyUsedIsRefused(sha: Hash, pairs: set<(seq<byte>, seq<byte>)>, run: seq<Attempt>, j: nat)
    requires j < |run| && NoCollisions(sha, pairs)
    requires forall i :: 0 <= i < |run| ==> (run[i].rail, run[i].receipt) in pairs
    requires Run(sha, {}, run).1[j] == Used
    ensures exists i :: 0 <= i < j && run[i].rail == run[j].rail && run[i].receipt == run[j].receipt
  {
    var key := ReceiptKey(sha, run[j].rail, run[j].receipt);
    UsedBecause(sha, {}, run, j);
    var i :| 0 <= i < j && ReceiptKey(sha, run[i].rail, run[i].receipt) == key;
    KeyDetermines(sha, pairs, run[i].rail, run[i].receipt, run[j].rail, run[j].receipt);
  }

  lemma {:induction false} UsedBecause(sha: Hash, used: set<seq<byte>>, run: seq<Attempt>, j: nat)
    requires j < |run| && Run(sha, used, run).1[j] == Used
    ensures ReceiptKey(sha, run[j].rail, run[j].receipt).Some?
    ensures ReceiptKey(sha, run[j].rail, run[j].receipt).value in used ||
            exists i :: 0 <= i < j && ReceiptKey(sha, run[i].rail, run[i].receipt) == ReceiptKey(sha, run[j].rail, run[j].receipt)
    decreases |run|
  {
    hide ReceiptKey;
    if j > 0 {
      var next := Claim(sha, used, run[0].rail, run[0].receipt, run[0].io).0;
      UsedBecause(sha, next, run[1..], j - 1);
      var key := ReceiptKey(sha, run[j].rail, run[j].receipt);
      if i :| 0 <= i < j - 1 && ReceiptKey(sha, run[1..][i].rail, run[1..][i].receipt) == key {
        assert ReceiptKey(sha, run[i + 1].rail, run[i + 1].receipt) == key;
      }
    }
  }

  /** The attempt leaves its receipt used, whatever it was told. */
  predicate Takes(io: ClaimIo) {
    io.Fine? || io.FailsAfter?
  }

  ghost predicate TakenBefore(sha: Hash, run: seq<Attempt>, j: int, key: seq<byte>) {
    exists i :: 0 <= i < j && i < |run| && ReceiptKey(sha, run[i].rail, run[i].receipt) == Some(key) && Takes(run[i].io)
  }

  lemma {:induction false} ReplyIs(sha: Hash, used: set<seq<byte>>, run: seq<Attempt>, j: nat, key: seq<byte>)
    requires j < |run| && ReceiptKey(sha, run[j].rail, run[j].receipt) == Some(key)
    ensures Run(sha, used, run).1[j] ==
      if run[j].io.Cancelled? then Failed else if key in used || TakenBefore(sha, run, j, key) then Used
      else if run[j].io.Fine? then Claimed else Failed
    decreases j
  {
    hide ReceiptKey;
    if j > 0 {
      var next, rest := Claim(sha, used, run[0].rail, run[0].receipt, run[0].io).0, run[1..];
      ReplyIs(sha, next, rest, j - 1, key);
      assert Run(sha, used, run).1[j] == Run(sha, next, rest).1[j - 1];
      hide Run;
      assert key in next <==> key in used || (ReceiptKey(sha, run[0].rail, run[0].receipt) == Some(key) && Takes(run[0].io));
      if TakenBefore(sha, rest, j - 1, key) {
        var i :| 0 <= i < j - 1 && ReceiptKey(sha, rest[i].rail, rest[i].receipt) == Some(key) && Takes(rest[i].io);
        assert run[i + 1] == rest[i];
      }
      if TakenBefore(sha, run, j, key) && key !in next {
        var i :| 0 <= i < j && ReceiptKey(sha, run[i].rail, run[i].receipt) == Some(key) && Takes(run[i].io);
        assert i > 0 && rest[i - 1] == run[i];
      }
    }
  }

  /**
   * Exactly when a claim is granted, over every run of an initially empty store: rail and receipt are of admissible size, nothing
   * disturbs it, and no earlier claim of this receipt on this rail took effect; a refusal as used has such a claim behind it.
   */
  lemma GrantedIff(sha: Hash, pairs: set<(seq<byte>, seq<byte>)>, run: seq<Attempt>, j: nat)
    requires j < |run| && NoCollisions(sha, pairs) && forall i :: 0 <= i < |run| ==> (run[i].rail, run[i].receipt) in pairs
    ensures var a, reply := run[j], Run(sha, {}, run).1[j];
      var fits := 1 <= |a.rail| <= 255 && 1 <= |a.receipt| <= 16_384;
      var taken := exists i :: 0 <= i < j && run[i].rail == a.rail && run[i].receipt == a.receipt && Takes(run[i].io);
      && (reply == Claimed <==> fits && a.io.Fine? && !taken)
      && (reply == Used <==> fits && !a.io.Cancelled? && taken)
      && (reply == Malformed <==> !fits)
  {
    var a := run[j];
    if Valid(a.rail, a.receipt) {
      var key := ReceiptKey(sha, a.rail, a.receipt).value;
      ReplyIs(sha, {}, run, j, key);
      forall i | 0 <= i < j && ReceiptKey(sha, run[i].rail, run[i].receipt) == Some(key)
        ensures run[i].rail == a.rail && run[i].receipt == a.receipt
      {
        KeyDetermines(sha, pairs, run[i].rail, run[i].receipt, a.rail, a.receipt);
      }
      hide Run;
    } else {
      MalformedIs(sha, {}, run, j);
    }
  }

  lemma {:induction false} MalformedIs(sha: Hash, used: set<seq<byte>>, run: seq<Attempt>, j: nat)
    requires j < |run| && ReceiptKey(sha, run[j].rail, run[j].receipt).None?
    ensures Run(sha, used, run).1[j] == Malformed
    decreases j
  {
    hide ReceiptKey;
    if j > 0 {
      MalformedIs(sha, Claim(sha, used, run[0].rail, run[0].receipt, run[0].io).0, run[1..], j - 1);
    }
  }
}
