/** The redemption journal as bytes: how a record is written, and what a file means when read back. */
module JournalFormat {
  import opened Prelude

  const MAX_TOKEN_BYTES: nat := 4096
  const FIXED_BYTES: nat := 35
  const MAX_RECORD_BYTES: nat := FIXED_BYTES + MAX_TOKEN_BYTES

  // "OSANWE-SPENT", a zero byte, version one, newline.
  const HEADER: seq<byte> := [79, 83, 65, 78, 87, 69, 45, 83, 80, 69, 78, 84, 0, 1, 10]

  const SPENT: byte := 83
  const REFUND: byte := 70
  const RETIRE: byte := 75

  type Fingerprint = f: seq<byte> | |f| == 32 witness seq(32, _ => 0)
  type KeyId = seq<byte>
  type Seen = map<Fingerprint, KeyId>

  const ZERO: Fingerprint := [
    0, 0, 0, 0, 0, 0, 0, 0, 0, 0, 0, 0, 0, 0, 0, 0, 0, 0, 0, 0, 0, 0, 0, 0, 0, 0, 0, 0, 0, 0, 0, 0]

  type Word = w: seq<byte> | |w| == 4 witness [0, 0, 0, 0]

  datatype Record = Record(op: byte, keyId: KeyId, fingerprint: Fingerprint)

  /** What every caller of the append routine establishes. */
  predicate Writable(r: Record) {
    && 1 <= |r.keyId| <= MAX_TOKEN_BYTES
    && (r.op == SPENT || r.op == REFUND || (r.op == RETIRE && r.fingerprint == ZERO))
  }

  function Payload(r: Record): (p: seq<byte>)
    requires |r.keyId| <= MAX_TOKEN_BYTES
    ensures |p| == FIXED_BYTES + |r.keyId|
  {
    [r.op] + PutU16(|r.keyId|) + r.keyId + r.fingerprint
  }

  /** The live update a record stands for. */
  function Update(r: Record, seen: Seen): Seen {
    if r.op == SPENT then seen[r.fingerprint := r.keyId]
    else if r.op == REFUND then seen - {r.fingerprint}
    else map f | f in seen && seen[f] != r.keyId :: seen[f]
  }

  function UpdateAll(records: seq<Record>, seen: Seen): Seen
    decreases |records|
  {
    if records == [] then seen else UpdateAll(records[1..], Update(records[0], seen))
  }

  function Apply(payload: seq<byte>, seen: Seen): Option<Seen>
    requires |payload| >= FIXED_BYTES
  {
    var keyLen := U16(payload[1..3]);
    if keyLen == 0 || keyLen > MAX_TOKEN_BYTES || |payload| != FIXED_BYTES + keyLen then None
    else
      var r := Record(payload[0], payload[3..3 + keyLen], payload[3 + keyLen..]);
      if Writable(r) then Some(Update(r, seen)) else None
  }

  /**
   * The two digests the journal uses. Nothing about CRC-32 matters here beyond its being a function of the
   * payload, and SHA-256 is assumed collision-free only on the token identities of a run (see RedemptionRuns).
   */
  datatype Format = Format(crc32: seq<byte> -> Word, sha256: seq<byte> -> Fingerprint) {

    function Encode(r: Record): (s: seq<byte>)
      requires |r.keyId| <= MAX_TOKEN_BYTES
      ensures |s| == 8 + FIXED_BYTES + |r.keyId|
    {
      PutU32(FIXED_BYTES + |r.keyId|) + Payload(r) + crc32(Payload(r))
    }

    /** The payload at the front of s, when a whole, well-checked record is there. */
    function ReadFrame(s: seq<byte>): (r: Option<seq<byte>>)
      ensures r.Some? ==> FIXED_BYTES <= |r.value| && |r.value| + 8 <= |s|
    {
      if |s| < 4 then None
      else
        var size := U32(s[..4]);
        if size < FIXED_BYTES || size > MAX_RECORD_BYTES || |s| < 8 + size then None
        else if s[4 + size..8 + size] != crc32(s[4..4 + size]) then None
        else Some(s[4..4 + size])
    }

    /** The meaning of a run of records read from a starting map; None is corruption. */
    function Replay(s: seq<byte>, seen: Seen): Option<Seen>
      decreases |s|
    {
      if s == [] then Some(seen)
      else
        match ReadFrame(s)
        case None => None
        case Some(payload) =>
          match Apply(payload, seen)
          case None => None
          case Some(next) => Replay(s[|payload| + 8..], next)
    }

    /** The meaning of a whole journal file, read from the start. */
    function ReplayFile(file: seq<byte>): Option<Seen> {
      if |file| < |HEADER| || file[..|HEADER|] != HEADER then None
      else Replay(file[|HEADER|..], map[])
    }

    /** What a refresh computes for a store that has read the file up to offset. */
    function Refresh(file: seq<byte>, offset: nat, seen: Seen): Option<Seen> {
      if |file| < offset then None
      else if |file| == offset then Some(seen)
      else if offset > 0 then Replay(file[offset..], seen)
      else if |file| < |HEADER| || file[..|HEADER|] != HEADER then None
      else Replay(file[|HEADER|..], seen)
    }

    /** One turn of the reading loop, in terms of positions in the file. */
    lemma ReplayUnfolds(file: seq<byte>, position: nat, seen: Seen)
      requires position < |file|
      ensures Replay(file[position..], seen) ==
              match ReadFrame(file[position..])
              case None => None
              case Some(payload) =>
                match Apply(payload, seen)
                case None => None
                case Some(next) => Replay(file[position + 4 + |payload| + 4..], next)
    {
      var rest := file[position..];
      if ReadFrame(rest).Some? {
        var n := |ReadFrame(rest).value|;
        assert rest[n + 8..] == file[position + 4 + n + 4..];
      }
    }

    /** A complete record is read the same way whatever follows it. */
    lemma FrameIgnoresSuffix(s: seq<byte>, t: seq<byte>)
      requires ReadFrame(s).Some?
      ensures ReadFrame(s + t) == ReadFrame(s)
    {
      var size := U32(s[..4]);
      assert (s + t)[..4] == s[..4];
      assert (s + t)[4..4 + size] == s[4..4 + size];
      assert (s + t)[4 + size..8 + size] == s[4 + size..8 + size];
    }

    /** Reading two runs of records in a row is reading their concatenation. */
    lemma {:induction false} ReplayConcat(a: seq<byte>, b: seq<byte>, seen: Seen)
      requires Replay(a, seen).Some?
      ensures Replay(a + b, seen) == Replay(b, Replay(a, seen).value)
      decreases |a|
    {
      hide ReadFrame, Apply;
      if a == [] {
        assert a + b == b;
      } else {
        var payload := ReadFrame(a).value;
        var n, next := |payload| + 8, Apply(payload, seen).value;
        assert Replay(a + b, seen) == Replay(a[n..] + b, next) by {
          FrameIgnoresSuffix(a, b);
          assert (a + b)[n..] == a[n..] + b;
        }
        ReplayConcat(a[n..], b, next);
      }
    }

    /** A refresh from any earlier record boundary agrees with a replay from the start, failures included. */
    lemma RefreshIsReplay(file: seq<byte>, offset: nat, seen: Seen)
      requires offset <= |file| && ReplayFile(file[..offset]) == Some(seen)
      ensures Refresh(file, offset, seen) == ReplayFile(file)
    {
      var h := |HEADER|;
      var before, after := file[h..offset], file[offset..];
      assert file[..offset][..h] == file[..h] && file[..offset][h..] == before;
      assert file[h..] == before + after;
      ReplayConcat(before, after, map[]);
      if offset == |file| {
        assert after == [];
      }
    }

    lemma EncodedFrame(r: Record)
      requires |r.keyId| <= MAX_TOKEN_BYTES
      ensures ReadFrame(Encode(r)) == Some(Payload(r))
    {
      var s, size := Encode(r), FIXED_BYTES + |r.keyId|;
      U32RoundTrip(size);
      assert s[..4] == PutU32(size) && s[4..4 + size] == Payload(r) && s[4 + size..8 + size] == crc32(Payload(r));
    }

    /** Every record the store appends decodes to the update its caller makes in memory. */
    lemma EncodeDecodes(r: Record, seen: Seen)
      requires Writable(r)
      ensures Replay(Encode(r), seen) == Some(Update(r, seen))
    {
      EncodedFrame(r);
      var p, n := Payload(r), |r.keyId|;
      assert p[1..3] == PutU16(n) && p[3..3 + n] == r.keyId && p[3 + n..] == r.fingerprint;
      assert U16(PutU16(n)) == n;
      assert Encode(r)[|p| + 8..] == [];
      assert Apply(p, seen) == Some(Update(r, seen));
    }

    /** Appending a record to a good file is exactly its update. */
    lemma AppendIsUpdate(file: seq<byte>, r: Record)
      requires Writable(r) && ReplayFile(file).Some?
      ensures ReplayFile(file + Encode(r)) == Some(Update(r, ReplayFile(file).value))
    {
      var h, whole := |HEADER|, file + Encode(r);
      assert whole[..h] == file[..h] && whole[h..] == file[h..] + Encode(r);
      ReplayConcat(file[h..], Encode(r), map[]);
      EncodeDecodes(r, ReplayFile(file).value);
    }

    /** A proper, non-empty prefix of a record is refused, whatever was read before it. */
    lemma TornRecordRefused(r: Record, n: nat, seen: Seen)
      requires |r.keyId| <= MAX_TOKEN_BYTES && 0 < n < |Encode(r)|
      ensures Replay(Encode(r)[..n], seen) == None
    {
      var torn, size := Encode(r)[..n], FIXED_BYTES + |r.keyId|;
      if n >= 4 {
        assert torn[..4] == Encode(r)[..4] == PutU32(size);
        U32RoundTrip(size);
      }
    }

    /** A file that ends in part of a record is refused as a whole. */
    lemma TornFileRefused(file: seq<byte>, r: Record, n: nat)
      requires ReplayFile(file).Some? && |r.keyId| <= MAX_TOKEN_BYTES && 0 < n < |Encode(r)|
      ensures ReplayFile(file + Encode(r)[..n]) == None
    {
      var h, torn := |HEADER|, Encode(r)[..n];
      assert (file + torn)[..h] == file[..h] && (file + torn)[h..] == file[h..] + torn;
      ReplayConcat(file[h..], torn, map[]);
      TornRecordRefused(r, n, ReplayFile(file).value);
    }

    // ---- a journal is its records

    function EncodeAll(records: seq<Record>): seq<byte>
      requires forall r :: r in records ==> Writable(r)
    {
      if records == [] then []
      else
        assert Writable(records[0]);
        Encode(records[0]) + EncodeAll(records[1..])
    }

    lemma {:induction false} RecordsReplay(records: seq<Record>, seen: Seen)
      requires forall r :: r in records ==> Writable(r)
      ensures Replay(EncodeAll(records), seen) == Some(UpdateAll(records, seen))
      decreases |records|
    {
      hide ReadFrame, Apply, Encode, Update;
      if records != [] {
        assert Writable(records[0]);
        EncodeDecodes(records[0], seen);
        ReplayConcat(Encode(records[0]), EncodeAll(records[1..]), seen);
        RecordsReplay(records[1..], Update(records[0], seen));
      }
    }

    /** What one turn of reading accepts is exactly one record as it is written. */
    lemma OnlyRecordsAreRead(s: seq<byte>, seen: Seen) returns (r: Record)
      requires ReadFrame(s).Some? && Apply(ReadFrame(s).value, seen).Some?
      ensures Writable(r) && Apply(ReadFrame(s).value, seen) == Some(Update(r, seen))
      ensures |Encode(r)| == |ReadFrame(s).value| + 8 <= |s| && Encode(r) == s[..|ReadFrame(s).value| + 8]
    {
      var p := ReadFrame(s).value;
      r := OnlyPayloadsApply(p, seen);
      FrameIsEncoded(s);
    }

    lemma OnlyPayloadsApply(p: seq<byte>, seen: Seen) returns (r: Record)
      requires |p| >= FIXED_BYTES && Apply(p, seen).Some?
      ensures Writable(r) && Apply(p, seen) == Some(Update(r, seen)) && Payload(r) == p
    {
      var n := U16(p[1..3]);
      r := Record(p[0], p[3..3 + n], p[3 + n..]);
      PairDecodes(p[1..3]);
      hide Update;
      assert p == [p[0]] + p[1..3] + p[3..3 + n] + p[3 + n..];
    }

    lemma FrameIsEncoded(s: seq<byte>)
      requires ReadFrame(s).Some?
      ensures var p := ReadFrame(s).value; s[..|p| + 8] == PutU32(|p|) + p + crc32(p)
    {
      var p := ReadFrame(s).value;
      HalfDecodes(s[..4]);
      assert s[..|p| + 8] == s[..4] + s[4..4 + |p|] + s[4 + |p|..8 + |p|];
    }

    lemma {:induction false} ReplayedRecords(s: seq<byte>, seen: Seen) returns (records: seq<Record>)
      requires Replay(s, seen).Some?
      ensures forall r :: r in records ==> Writable(r)
      ensures s == EncodeAll(records) && Replay(s, seen) == Some(UpdateAll(records, seen))
      decreases |s|
    {
      records := [];
      if s != [] {
        var n := |ReadFrame(s).value| + 8;
        var r := OnlyRecordsAreRead(s, seen);
        hide Writable, ReadFrame, Apply, Encode, Update;
        var rest := ReplayedRecords(s[n..], Update(r, seen));
        records := [r] + rest;
        assert records[1..] == rest;
        assert s == s[..n] + s[n..];
      }
    }

    /**
     * A journal means something exactly when it is the header followed by whole records as they are written, each with its right
     * length, a known operation and a matching checksum; and it then means their updates, one after the other.
     */
    lemma JournalIsItsRecords(file: seq<byte>, seen: Seen)
      ensures ReplayFile(file) == Some(seen) <==> exists records :: IsJournal(file, records) && seen == UpdateAll(records, map[])
    {
      var h := |HEADER|;
      hide Writable, Replay, Encode, Update;
      if ReplayFile(file) == Some(seen) {
        var records := ReplayedRecords(file[h..], map[]);
        assert file == file[..h] + file[h..];
        assert IsJournal(file, records);
      }
      if records :| IsJournal(file, records) && seen == UpdateAll(records, map[]) {
        RecordsReplay(records, map[]);
        assert file[..h] == HEADER && file[h..] == EncodeAll(records);
      }
    }

    ghost predicate IsJournal(file: seq<byte>, records: seq<Record>) {
      (forall r :: r in records ==> Writable(r)) && file == HEADER + EncodeAll(records)
    }
  }
}
