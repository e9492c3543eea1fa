/** Opening a journal: the lock file pins one device and inode, and nothing opens successfully under another. */
module JournalIdentity {
  import opened Prelude
  import opened JournalFormat

  datatype Identity = Identity(device: uint64, inode: uint64)

  // "OSANWE-SPENT-LOCK", a zero byte, version one, newline.
  const LOCK_HEADER: seq<byte> := [79, 83, 65, 78, 87, 69, 45, 83, 80, 69, 78, 84, 45, 76, 79, 67, 75, 0, 1, 10]
  const IDENTITY_SIZE: nat := 40

  function EncodeIdentity(format: Format, id: Identity): (s: seq<byte>)
    ensures |s| == IDENTITY_SIZE
  {
    var fields := LOCK_HEADER + PutU64(id.device) + PutU64(id.inode);
    fields + format.crc32(fields)
  }

  function DecodeIdentity(format: Format, s: seq<byte>): Option<Identity> {
    if |s| != IDENTITY_SIZE || s[..20] != LOCK_HEADER || s[36..] != format.crc32(s[..36]) then None
    else Some(Identity(U64(s[20..28]), U64(s[28..36])))
  }

  /** The pinned identity reads back as the one that was written. */
  lemma IdentityRoundTrip(format: Format, id: Identity)
    ensures DecodeIdentity(format, EncodeIdentity(format, id)) == Some(id)
  {
    var s := EncodeIdentity(format, id);
    assert s[..20] == LOCK_HEADER && s[20..28] == PutU64(id.device) && s[28..36] == PutU64(id.inode);
    assert s[..36] == LOCK_HEADER + PutU64(id.device) + PutU64(id.inode);
    U64RoundTrip(id.device);
    U64RoundTrip(id.inode);
  }

  // Where the one process inside the lock has got to. Validated carries the identity of its open descriptor.
  datatype Stage = Idle | Locked | Opened(id: Identity) | Validated(id: Identity) | Pinned(id: Identity)

  // lock is the content of the companion file, path the file the journal's name leads to.
  datatype World = World(lock: Option<seq<byte>>, path: Option<Identity>, stage: Stage, log: seq<Happening>)

  datatype Happening = Created(id: Identity) | Success(id: Identity)

  datatype Action =
    | MakeLockFile                       // the companion is created, empty, if absent
    | Acquire                            // flock
    | OpenJournal(created: Identity, empty: bool)
    | Refresh(whole: bool)               // header written if new, then the whole file replayed
    | Pin(written: nat)                  // bytes of the identity record that reach the disk
    | Verify                             // both path names still lead to the open descriptors
    | Crash                              // the process dies; the kernel drops its lock
    | Replace(other: Option<Identity>)   // an outsider removes or replaces the journal, at any moment

  function Act(format: Format, w: World, a: Action): World {
    var failed := w.(stage := Idle);
    match a
    case Replace(other) => w.(path := other)
    case Crash => failed
    case MakeLockFile => if w.lock.None? then w.(lock := Some([])) else w
    case Acquire => if w.stage.Idle? && w.lock.Some? then w.(stage := Locked) else w
    case OpenJournal(created, empty) =>
      if !w.stage.Locked? then w
      else if w.path.Some? then (if empty then failed else w.(stage := Opened(w.path.value)))
      else if w.lock != Some([]) then failed
      else w.(path := Some(created), stage := Opened(created), log := w.log + [Created(created)])
    case Refresh(whole) =>
      if !w.stage.Opened? then w else if whole then w.(stage := Validated(w.stage.id)) else failed
    case Pin(written) =>
      if !w.stage.Validated? || w.lock.None? then w
      else if w.lock == Some([]) then
        var record := EncodeIdentity(format, w.stage.id);
        if written >= |record| then w.(lock := Some(record), stage := Pinned(w.stage.id))
        else failed.(lock := Some(record[..written]))
      else if DecodeIdentity(format, w.lock.value) == Some(w.stage.id) then w.(stage := Pinned(w.stage.id))
      else failed
    case Verify =>
      if !w.stage.Pinned? then w
      else if w.path == Some(w.stage.id) && w.lock.Some? && DecodeIdentity(format, w.lock.value) == Some(w.stage.id) then
        failed.(log := w.log + [Success(w.stage.id)])
      else failed
  }

  ghost predicate Inv(format: Format, w: World) {
    && (w.lock.None? ==> w.stage.Idle?)
    && (w.stage.Pinned? ==> w.lock.Some? && DecodeIdentity(format, w.lock.value) == Some(w.stage.id))
    && (forall i :: 0 <= i < |w.log| && w.log[i].Success? ==>
          w.lock.Some? && DecodeIdentity(format, w.lock.value) == Some(w.log[i].id))
  }

  lemma ActKeepsInv(format: Format, w: World, a: Action)
    requires Inv(format, w)
    ensures Inv(format, Act(format, w, a)) && w.log <= Act(format, w, a).log
    ensures w.lock.Some? && w.lock != Some([]) ==> Act(format, w, a).lock == w.lock
    ensures w.lock.Some? && w.lock != Some([]) ==> Act(format, w, a).log == w.log || Act(format, w, a).log[|w.log|].Success?
  {
    if w.stage.Validated? {
      IdentityRoundTrip(format, w.stage.id);
    }
  }

  function Run(format: Format, w: World, actions: seq<Action>): World
    decreases |actions|
  {
    if actions == [] then w else Run(format, Act(format, w, actions[0]), actions[1..])
  }

  /** One journal for ever: all successful opens agree, and none is followed by the creation of a fresh file. */
  ghost predicate OneJournal(log: seq<Happening>) {
    forall i, j :: 0 <= i < j < |log| && log[i].Success? ==> log[j].Success? && log[j].id == log[i].id
  }

  lemma {:induction false} RunsPinOneJournal(format: Format, w: World, actions: seq<Action>)
    requires Inv(format, w) && OneJournal(w.log)
    ensures OneJournal(Run(format, w, actions).log)
    decreases |actions|
  {
    if actions != [] {
      var next := Act(format, w, actions[0]);
      ActKeepsInv(format, w, actions[0]);
      RunsPinOneJournal(format, next, actions[1..]);
    }
  }

  /** In particular from nothing at all, through any crashes and outside replacements. */
  lemma OpensAgree(format: Format, path: Option<Identity>, actions: seq<Action>)
    ensures OneJournal(Run(format, World(None, path, Idle, []), actions).log)
  {
    RunsPinOneJournal(format, World(None, path, Idle, []), actions);
  }

  /** The steps of one open that nothing interrupts; the journal it finds may be empty. */
  function Opening(created: Identity, empty: bool): seq<Action> {
    [MakeLockFile, Acquire, OpenJournal(created, empty), Refresh(true), Pin(IDENTITY_SIZE), Verify]
  }

  lemma RunSix(format: Format, w: World, created: Identity, empty: bool)
    ensures var w3 := Act(format, Act(format, Act(format, w, MakeLockFile), Acquire), OpenJournal(created, empty));
            Run(format, w, Opening(created, empty)) == Act(format, Act(format, Act(format, w3, Refresh(true)), Pin(IDENTITY_SIZE)), Verify)
  {
    hide Act;
    var run := Opening(created, empty);
    var none: seq<Action> := [];
    assert run[1..] == [run[1], run[2], run[3], run[4], run[5]] && run[1..][1..] == [run[2], run[3], run[4], run[5]];
    assert [run[2], run[3], run[4], run[5]][1..] == [run[3], run[4], run[5]] && [run[3], run[4], run[5]][1..] == [run[4], run[5]];
    assert [run[4], run[5]][1..] == [run[5]] && [run[5]][1..] == none;
    var w1 := Act(format, w, run[0]);
    var w2 := Act(format, w1, run[1]);
    var w3 := Act(format, w2, run[2]);
    var w4 := Act(format, w3, run[3]);
    var w5 := Act(format, w4, run[4]);
    assert Run(format, w5, [run[5]]) == Act(format, w5, run[5]);
    assert Run(format, w4, [run[4], run[5]]) == Run(format, w5, [run[5]]);
    assert Run(format, w3, [run[3], run[4], run[5]]) == Run(format, w4, [run[4], run[5]]);
    assert Run(format, w2, [run[2], run[3], run[4], run[5]]) == Run(format, w3, [run[3], run[4], run[5]]);
    assert Run(format, w1, run[1..]) == Run(format, w2, run[1..][1..]);
  }

  /**
   * Which opens succeed when nothing interrupts them: the first ever, with whatever whole journal it finds or makes, and from
   * then on those that find the pinned journal; a missing, empty or exchanged one is refused, and so is a half-written pin.
   */
  lemma UndisturbedOpen(format: Format, w: World, created: Identity, empty: bool)
    requires w.stage.Idle?
    ensures var after := Run(format, w, Opening(created, empty));
      var id := if w.path.Some? then w.path.value else created;
      var found := w.path.Some? && !empty;
      var unpinned := w.lock == None || w.lock == Some([]);
      && after.stage.Idle?
      && after.log == w.log + (if unpinned && w.path.None? then [Created(created), Success(created)]
                               else if found && (unpinned || w.lock == Some(EncodeIdentity(format, id))) then [Success(id)]
                               else [])
  {
    RunSix(format, w, created, empty);
    if w.path.Some? {
      IdentityRoundTrip(format, w.path.value);
      if w.lock.Some? {
        DecodesOnlyItself(format, w.lock.value, w.path.value);
      }
    }
    IdentityRoundTrip(format, created);
    hide Run, DecodeIdentity, EncodeIdentity;
    assert w.log + [Created(created)] + [Success(created)] == w.log + [Created(created), Success(created)];
    assert w.log + [] == w.log;
  }

  lemma DecodesOnlyItself(format: Format, s: seq<byte>, id: Identity)
    ensures DecodeIdentity(format, s) == Some(id) <==> s == EncodeIdentity(format, id)
  {
    IdentityRoundTrip(format, id);
    if DecodeIdentity(format, s) == Some(id) {
      WordDecodes(s[20..28]);
      WordDecodes(s[28..36]);
      assert s[..36] == s[..20] + s[20..28] + s[28..36];
      assert s == s[..36] + s[36..];
    }
  }
}
