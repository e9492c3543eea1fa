/** One vote per epoch: the durable signing record, the lock around it, and the code that uses them. */
module SigningGuard {
  import opened Prelude
  import opened Library
  import opened Consensuses

  // What reading the state file finds: nothing, something it refuses, or the last vote.
  datatype StateFile = Absent | Corrupt | Saved(authority: string, epoch: int, bodyId: string)

  // How an atomic replacement of the state file ends: not installed, installed but reported as failed, installed.
  datatype WriteIo = NotInstalled | InstalledButFailed | Installed

  /** Whether a vote is allowed against the durable record, and if so whether the record must advance. */
  function Decide(state: StateFile, authority: string, epoch: int, bodyId: string): Option<bool> {
    match state
    case Absent => Some(true)
    case Corrupt => None
    case Saved(who, last, lastBody) =>
      if who != authority || last > epoch || (last == epoch && lastBody != bodyId) then None else Some(last < epoch)
  }

  class SigningDisk {
    var state: StateFile
    var locked: bool

    constructor (state: StateFile)
      ensures this.state == state && !locked
    {
      this.state, locked := state, false;
    }
  }

  class ConsensusSigningGuard {
    const disk: SigningDisk
    const authority: string
    const epoch: int
    const bodyId: string
    var advance: bool
    var closed: bool

    constructor (disk: SigningDisk, authority: string, epoch: int, bodyId: string)
      ensures this.disk == disk && this.authority == authority && this.epoch == epoch && this.bodyId == bodyId
      ensures advance && !closed
    {
      this.disk, this.authority, this.epoch, this.bodyId := disk, authority, epoch, bodyId;
      advance, closed := true, false;
    }

    /** Takes the lock and reads the record; on any refusal the lock is given back. */
    method Check() returns (ok: bool)
      requires !closed && advance
      modifies this, disk`locked
      ensures ok <==> !old(disk.locked) && Decide(disk.state, authority, epoch, bodyId).Some?
      ensures ok ==> disk.locked && !closed && advance == Decide(disk.state, authority, epoch, bodyId).value
      ensures !ok ==> disk.locked == old(disk.locked) && closed
    {
      if disk.locked { closed := true; return false; }
      disk.locked := true;
      match disk.state
      case Absent => return true;
      case Corrupt => Close(); return false;
      case Saved(who, last, lastBody) =>
        if who != authority || last > epoch || (last == epoch && lastBody != bodyId) { Close(); return false; }
        if last == epoch { advance := false; }
        return true;
    }

    method Commit(io: WriteIo) returns (ok: bool)
      modifies this`advance, disk`state
      ensures closed ==> !ok && disk.state == old(disk.state)
      ensures !closed && !old(advance) ==> ok && disk.state == old(disk.state)
      ensures !closed && old(advance) ==> (ok <==> io.Installed?)
      ensures !closed && old(advance) ==>
        disk.state == if io.NotInstalled? then old(disk.state) else Saved(authority, epoch, bodyId)
    {
      if closed { return false; }
      if !advance { return true; }
      if io.NotInstalled? { return false; }
      disk.state := Saved(authority, epoch, bodyId);
      if io.InstalledButFailed? { return false; }
      advance := false;
      return true;
    }

    method Close()
      modifies this`closed, disk`locked
      ensures closed && disk.locked == (if old(closed) then old(disk.locked) else false)
    {
      if closed { return; }
      closed := true;
      disk.locked := false;
    }
  }

  /** What signing under the guard gives out, and the record it leaves. */
  ghost function SigningOf(lib: Library, id: Option<Identity>, c: Consensus, digest: string -> string, state: StateFile,
                           locked: bool, io: WriteIo): (Option<string>, StateFile)
  {
    if id.None? || c.validAfter == 0 || c.raw.None? || c.raw.value == "" || locked then (None, state)
    else
      var who, bodyId := lib.EncodeKey(id.value.pub), digest(c.raw.value);
      match Decide(state, who, c.validAfter, bodyId)
      case None => (None, state)
      case Some(advance) =>
        if !Signable(lib, id, c) then (None, state)
        else
          var text := Encoding(lib, SignWith(lib, c, id).value);
          if !advance || io.Installed? then (text, if advance then Saved(who, c.validAfter, bodyId) else state)
          else (None, if io.NotInstalled? then state else Saved(who, c.validAfter, bodyId))
  }

  /** The document takes this authority's signature and can then be written. */
  ghost predicate Signable(lib: Library, id: Option<Identity>, c: Consensus) {
    SignWith(lib, c, id).Some? && Encoding(lib, SignWith(lib, c, id).value).Some?
  }

  /** A signed document is handed out only when the durable record shows this very vote, and it carries this authority's signature. */
  lemma HandedOutIsRecorded(lib: Library, id: Option<Identity>, c: Consensus, digest: string -> string, state: StateFile,
                            locked: bool, io: WriteIo)
    requires SigningOf(lib, id, c, digest, state, locked, io).0.Some?
    ensures id.Some? && c.raw.Some? && !locked
    ensures Decide(state, lib.EncodeKey(id.value.pub), c.validAfter, digest(c.raw.value)).Some?
    ensures SigningOf(lib, id, c, digest, state, locked, io).1 == Saved(lib.EncodeKey(id.value.pub), c.validAfter, digest(c.raw.value))
    ensures Signable(lib, id, c) && lib.EncodeKey(id.value.pub) in SignWith(lib, c, id).value.signatures
    ensures SigningOf(lib, id, c, digest, state, locked, io).0 == Encoding(lib, SignWith(lib, c, id).value)
  {
    hide Encoding, Validate, Body, Library.EncodeKey;
  }

  /** A vote the record allows is handed out whenever its record is installed or was there already. */
  lemma AllowedIsHandedOut(lib: Library, id: Identity, c: Consensus, digest: string -> string, state: StateFile, io: WriteIo)
    requires c.validAfter != 0 && c.raw.Some? && c.raw.value != "" && Signable(lib, Some(id), c)
    requires Decide(state, lib.EncodeKey(id.pub), c.validAfter, digest(c.raw.value)).Some?
    requires io.Installed? || state == Saved(lib.EncodeKey(id.pub), c.validAfter, digest(c.raw.value))
    ensures SigningOf(lib, Some(id), c, digest, state, false, io).0.Some?
  {
    hide Encoding, SignWith, Library.EncodeKey;
  }

  /**
   * When a vote is cast. On a free disk a signable candidate is handed out, and is then on record, exactly when nothing is
   * recorded yet, or this authority's last vote is of an earlier epoch, or is this very vote. Only a vote that is already
   * recorded needs no working disk. Everything else is refused, and a refusal of the record leaves the record alone.
   */
  lemma VotesExactlyWhen(lib: Library, id: Identity, c: Consensus, digest: string -> string, state: StateFile, locked: bool, io: WriteIo)
    requires c.validAfter != 0 && c.raw.Some? && c.raw.value != "" && Signable(lib, Some(id), c)
    ensures var (r, after) := SigningOf(lib, Some(id), c, digest, state, locked, io);
      var vote := Saved(lib.EncodeKey(id.pub), c.validAfter, digest(c.raw.value));
      var mayVote := state.Absent? || (state.Saved? && state.authority == lib.EncodeKey(id.pub) &&
                                       (state.epoch < c.validAfter ||
                                        (state.epoch == c.validAfter && state.bodyId == digest(c.raw.value))));
      && (r.Some? <==> !locked && mayVote && (io.Installed? || state == vote))
      && (r.Some? ==> r == Encoding(lib, SignWith(lib, c, Some(id)).value))
      && after == (if !locked && mayVote && !io.NotInstalled? then vote else state)
  {
    hide Encoding, SignWith, Library.EncodeKey;
  }

  /** The lock is always given back, and the outcome and the record are exactly those of SigningOf. */
  method SignConsensusWithState(lib: Library, disk: SigningDisk, id: Option<Identity>, c: ConsensusDocument,
                                digest: string -> string, io: WriteIo) returns (r: Option<string>)
    modifies disk, c`raw, c`signatures
    ensures disk.locked == old(disk.locked)
    ensures (r, disk.state) == SigningOf(lib, id, old(c.View()), digest, old(disk.state), old(disk.locked), io)
    ensures r.Some? ==> c.raw == old(c.raw) && c.View() == SignWith(lib, old(c.View()), id).value
  {
    hide Encoding, Validate, Body, Library.EncodeKey;
    if id.None? || c.validAfter == 0 || c.raw.None? || c.raw.value == "" { return None; }
    var guard := new ConsensusSigningGuard(disk, lib.EncodeKey(id.value.pub), c.validAfter, digest(c.raw.value));
    var ok := guard.Check();
    if !ok { return None; }
    ok := c.Sign(lib, id);
    if !ok { guard.Close(); return None; }
    r := c.Encode(lib);
    if r.None? { guard.Close(); return None; }
    ok := guard.Commit(io);
    guard.Close();
    if !ok { return None; }
  }
}
