/** The two redemption stores: one over an append-only journal file, one in memory. */
module RedemptionStores {
  import opened Prelude
  import opened JournalFormat

  datatype Token = Token(keyId: KeyId, nonce: seq<byte>, sig: seq<byte>)

  // A missing token stands for the source's nil pointer.
  datatype Op = Spend(tok: Option<Token>) | Refund(tok: Option<Token>) | Retire(keyId: KeyId)

  datatype Reply = Done | AlreadySpent | Retired(count: nat) | Refused

  /** What the disk does with one append: all of it durably, or an error after some bytes were written. */
  datatype Io = Complete | Fails(written: nat)

  datatype Store = Live(offset: nat, seen: Seen) | Poisoned | Closed

  datatype Outcome = Outcome(file: seq<byte>, store: Store, reply: Reply)

  function IdentityBytes(keyId: KeyId, nonce: seq<byte>): seq<byte>
    requires |keyId| <= MAX_TOKEN_BYTES
  {
    PutU32(|keyId|) + keyId + nonce
  }

  predicate ValidToken(tok: Option<Token>) {
    tok.Some? && 1 <= |tok.value.keyId| <= MAX_TOKEN_BYTES && 1 <= |tok.value.nonce| <= MAX_TOKEN_BYTES
  }

  /** The record an operation would append, or None when its arguments are refused. */
  function Intent(format: Format, op: Op): (r: Option<Record>)
    ensures r.Some? ==> Writable(r.value)
  {
    match op
    case Retire(keyId) =>
      if 1 <= |keyId| <= MAX_TOKEN_BYTES then Some(Record(RETIRE, keyId, ZERO)) else None
    case _ =>
      if !ValidToken(op.tok) then None
      else
        var t := op.tok.value;
        Some(Record(if op.Spend? then SPENT else REFUND, t.keyId, format.sha256(IdentityBytes(t.keyId, t.nonce))))
  }

  ghost function Under(seen: Seen, keyId: KeyId): set<Fingerprint> {
    set f | f in seen && seen[f] == keyId
  }

  /** Whether the operation changes anything, and what it answers once it is settled. */
  ghost function Answer(r: Record, seen: Seen): (bool, Reply) {
    if r.op == SPENT then (if r.fingerprint in seen then (false, AlreadySpent) else (true, Done))
    else if r.op == REFUND then (r.fingerprint in seen, Done)
    else (Under(seen, r.keyId) != {}, Retired(|Under(seen, r.keyId)|))
  }

  ghost function Settle(format: Format, file: seq<byte>, seen: Seen, r: Record, io: Io): Outcome
    requires Writable(r)
  {
    var (write, reply) := Answer(r, seen);
    var record := format.Encode(r);
    if !write then Outcome(file, Live(|file|, seen), reply)
    else
      match io
      case Complete => Outcome(file + record, Live(|file + record|, Update(r, seen)), reply)
      case Fails(n) => Outcome(file + record[..if n <= |record| then n else |record|], Poisoned, Refused)
  }

  /** One locked operation: refresh, decide, append. */
  ghost function Perform(format: Format, file: seq<byte>, store: Store, op: Op, io: Io): Outcome {
    match Intent(format, op)
    case None => Outcome(file, store, Refused)
    case Some(r) =>
      if !store.Live? then Outcome(file, store, Refused)
      else
        match format.Refresh(file, store.offset, store.seen)
        case None => Outcome(file, Poisoned, Refused)
        case Some(seen) => Settle(format, file, seen, r, io)
  }

  /** The journal file, shared by every process that opens it. */
  class Disk {
    var data: seq<byte>

    constructor (initial: seq<byte>)
      ensures data == initial
    {
      data := initial;
    }
  }

  class FileSpentSet {
    const file: Disk
    const format: Format
    var offset: nat
    var seen: Seen
    var poisoned: bool
    var closed: bool

    ghost function View(): Store
      reads this
    {
      if closed then Closed else if poisoned then Poisoned else Live(offset, seen)
    }

    /** Opens an existing journal: nothing is usable unless the whole file replays. */
    constructor (file: Disk, format: Format)
      ensures this.file == file && this.format == format
      ensures View() == match format.ReplayFile(file.data)
                        case None => Closed
                        case Some(m) => Live(|file.data|, m)
    {
      this.file, this.format := file, format;
      offset, seen, poisoned, closed := 0, map[], false, false;
      new;
      var ok := RefreshLocked();
      closed := !ok || file.data == [];
    }

    method Close()
      modifies this`closed
      ensures View() == Closed
    {
      closed := true;
    }

    method RefreshLocked() returns (ok: bool)
      modifies this`offset, this`seen
      ensures ok <==> format.Refresh(file.data, old(offset), old(seen)).Some?
      ensures ok ==> offset == |file.data| && seen == format.Refresh(file.data, old(offset), old(seen)).value
    {
      hide format.ReadFrame, Apply, format.Encode;
      var size := |file.data|;
      if size < offset { return false; }
      if size == offset { return true; }
      var position := offset;
      if position == 0 {
        if size < |HEADER| || file.data[..|HEADER|] != HEADER { return false; }
        position := |HEADER|;
      }
      ghost var goal := format.Refresh(file.data, offset, seen);
      while position < size
        invariant 0 < position <= size
        invariant format.Replay(file.data[position..], seen) == goal
        decreases size - position
      {
        format.ReplayUnfolds(file.data, position, seen);
        var payload := ReadRecord(position);
        if payload.None? { return false; }
        var applied := ApplyRecord(payload.value);
        if !applied { return false; }
        position := position + 4 + |payload.value| + 4;
      }
      assert file.data[position..] == [];
      offset := position;
      return true;
    }

    method ReadRecord(position: nat) returns (r: Option<seq<byte>>)
      requires position < |file.data|
      ensures r == format.ReadFrame(file.data[position..])
    {
      ghost var rest := file.data[position..];
      if position + 4 > |file.data| { return None; }
      assert file.data[position..position + 4] == rest[..4];
      var payloadSize := U32(file.data[position..position + 4]);
      if payloadSize < FIXED_BYTES || payloadSize > MAX_RECORD_BYTES { return None; }
      var end := position + 4 + payloadSize;
      if end + 4 > |file.data| { return None; }
      var payload := file.data[position + 4..end];
      assert payload == rest[4..4 + payloadSize] && file.data[end..end + 4] == rest[4 + payloadSize..8 + payloadSize];
      if file.data[end..end + 4] != format.crc32(payload) { return None; }
      return Some(payload);
    }

    method ApplyRecord(payload: seq<byte>) returns (ok: bool)
      requires |payload| >= FIXED_BYTES
      modifies this`seen
      ensures ok <==> Apply(payload, old(seen)).Some?
      ensures ok ==> seen == Apply(payload, old(seen)).value
    {
      var keyLen := U16(payload[1..3]);
      if keyLen == 0 || keyLen > MAX_TOKEN_BYTES || |payload| != FIXED_BYTES + keyLen { return false; }
      var keyId, fingerprint := payload[3..3 + keyLen], payload[3 + keyLen..];
      if payload[0] == SPENT {
        seen := seen[fingerprint := keyId];
      } else if payload[0] == REFUND {
        seen := seen - {fingerprint};
      } else if payload[0] == RETIRE {
        if fingerprint != ZERO { return false; }
        Forget(keyId);
      } else {
        return false;
      }
      return true;
    }

    method Forget(keyId: KeyId)
      modifies this`seen
      ensures seen == map f | f in old(seen) && old(seen)[f] != keyId :: old(seen)[f]
    {
      var todo := seen.Keys;
      while todo != {}
        invariant todo <= seen.Keys <= old(seen).Keys
        invariant forall f :: f in seen ==> seen[f] == old(seen)[f]
        invariant forall f :: f in old(seen) ==> (f in seen <==> f in todo || old(seen)[f] != keyId)
        decreases todo
      {
        var f :| f in todo;
        if seen[f] == keyId { seen := seen - {f}; }
        todo := todo - {f};
      }
    }

    method CountUnder(keyId: KeyId) returns (n: nat)
      ensures n == |Under(seen, keyId)|
    {
      n := 0;
      var todo := seen.Keys;
      ghost var counted: set<Fingerprint> := {};
      while todo != {}
        invariant todo <= seen.Keys
        invariant counted == set f | f in seen && f !in todo && seen[f] == keyId
        invariant n == |counted|
        decreases todo
      {
        var f :| f in todo;
        if seen[f] == keyId { n, counted := n + 1, counted + {f}; }
        todo := todo - {f};
      }
      assert counted == Under(seen, keyId);
    }

    method AppendRecordLocked(r: Record, io: Io) returns (ok: bool)
      requires Writable(r)
      modifies this`offset, file
      ensures ok <==> io == Complete
      ensures ok ==> file.data == old(file.data) + format.Encode(r) && offset == old(offset) + |format.Encode(r)|
      ensures !ok ==> var e := format.Encode(r); file.data == old(file.data) + e[..if io.written <= |e| then io.written else |e|]
    {
      var payload := [r.op] + PutU16(|r.keyId|) + r.keyId + r.fingerprint;
      var record := PutU32(|payload|) + payload + format.crc32(payload);
      assert record == format.Encode(r);
      match io {
        case Complete =>
          file.data := file.data + record;
          offset := offset + |record|;
          ok := true;
        case Fails(n) =>
          file.data := file.data + record[..if n <= |record| then n else |record|];
          ok := false;
      }
    }

    method Spend(tok: Option<Token>, io: Io) returns (reply: Reply)
      modifies this, file
      ensures Outcome(file.data, View(), reply) == Perform(format, old(file.data), old(View()), Op.Spend(tok), io)
    {
      if !ValidToken(tok) { return Refused; }
      var keyId, fingerprint := tok.value.keyId, format.sha256(IdentityBytes(tok.value.keyId, tok.value.nonce));
      if poisoned || closed { return Refused; }
      var ok := RefreshLocked();
      if !ok { poisoned := true; return Refused; }
      if fingerprint in seen { return AlreadySpent; }
      ok := AppendRecordLocked(Record(SPENT, keyId, fingerprint), io);
      if !ok { poisoned := true; return Refused; }
      seen := seen[fingerprint := keyId];
      return Done;
    }

    method Refund(tok: Option<Token>, io: Io) returns (reply: Reply)
      modifies this, file
      ensures Outcome(file.data, View(), reply) == Perform(format, old(file.data), old(View()), Op.Refund(tok), io)
    {
      if !ValidToken(tok) { return Refused; }
      var keyId, fingerprint := tok.value.keyId, format.sha256(IdentityBytes(tok.value.keyId, tok.value.nonce));
      if poisoned || closed { return Refused; }
      var ok := RefreshLocked();
      if !ok { poisoned := true; return Refused; }
      if fingerprint !in seen { return Done; }
      ok := AppendRecordLocked(Record(REFUND, keyId, fingerprint), io);
      if !ok { poisoned := true; return Refused; }
      seen := seen - {fingerprint};
      return Done;
    }

    method Retire(keyId: KeyId, io: Io) returns (reply: Reply)
      modifies this, file
      ensures Outcome(file.data, View(), reply) == Perform(format, old(file.data), old(View()), Op.Retire(keyId), io)
    {
      if |keyId| == 0 || |keyId| > MAX_TOKEN_BYTES { return Refused; }
      if poisoned || closed { return Refused; }
      var ok := RefreshLocked();
      if !ok { poisoned := true; return Refused; }
      var n := CountUnder(keyId);
      ghost var refreshed := seen;
      if n == 0 { return Retired(0); }
      ok := AppendRecordLocked(Record(RETIRE, keyId, ZERO), io);
      if !ok { poisoned := true; return Refused; }
      Forget(keyId);
      assert seen == Update(Record(RETIRE, keyId, ZERO), refreshed);
      return Retired(n);
    }
  }

  const BAR: byte := 124

  function SpentKey(keyId: KeyId, nonce: seq<byte>): seq<byte> {
    keyId + [BAR] + nonce
  }

  predicate StartsWithKey(k: seq<byte>, keyId: KeyId) {
    |k| > |keyId| && k[..|keyId|] == keyId && k[|keyId|] == BAR
  }

  ghost function SpentSetStep(keys: set<seq<byte>>, op: Op): (set<seq<byte>>, Reply) {
    match op
    case Retire(keyId) =>
      var gone := set k | k in keys && StartsWithKey(k, keyId);
      (keys - gone, Retired(|gone|))
    case _ =>
      if op.tok.None? then (keys, Refused)
      else
        var key := SpentKey(op.tok.value.keyId, op.tok.value.nonce);
        if op.Refund? then (keys - {key}, Done)
        else if key in keys then (keys, AlreadySpent)
        else (keys + {key}, Done)
  }

  /** The process-local store, keyed by text. The redemption times it also keeps are never read. */
  class SpentSet {
    var seen: set<seq<byte>>

    constructor ()
      ensures seen == {}
    {
      seen := {};
    }

    method Spend(tok: Option<Token>) returns (reply: Reply)
      modifies this
      ensures (seen, reply) == SpentSetStep(old(seen), Op.Spend(tok))
    {
      if tok.None? { return Refused; }
      var key := SpentKey(tok.value.keyId, tok.value.nonce);
      if key in seen { return AlreadySpent; }
      seen := seen + {key};
      return Done;
    }

    method Refund(tok: Option<Token>) returns (reply: Reply)
      modifies this
      ensures (seen, reply) == SpentSetStep(old(seen), Op.Refund(tok))
    {
      if tok.None? { return Refused; }
      seen := seen - {SpentKey(tok.value.keyId, tok.value.nonce)};
      return Done;
    }

    method Retire(keyId: KeyId) returns (reply: Reply)
      modifies this
      ensures (seen, reply) == SpentSetStep(old(seen), Op.Retire(keyId))
    {
      var n, todo := 0, seen;
      ghost var gone: set<seq<byte>> := {};
      while todo != {}
        invariant todo <= seen && seen == old(seen) - gone
        invariant gone == set k | k in old(seen) && k !in todo && StartsWithKey(k, keyId)
        invariant n == |gone|
        decreases todo
      {
        var k :| k in todo;
        if StartsWithKey(k, keyId) {
          seen, n, gone := seen - {k}, n + 1, gone + {k};
        }
        todo := todo - {k};
      }
      assert gone == set k | k in old(seen) && StartsWithKey(k, keyId);
      return Retired(n);
    }
  }
}
