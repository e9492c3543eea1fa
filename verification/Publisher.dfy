/** The publishing authority: which stored descriptors enter a window, its own rebuild, and when a submission can first appear. */
module Publisher {
  import opened Prelude
  import opened Library
  import D = Descriptors
  import opened Consensuses
  import opened Workflow
  import opened SigningGuard
  import ConsensusLaws
  import CoSigning

  // ---- selecting stored descriptors for a window

  datatype Window = Window(validAfter: int, validUntil: int)

  predicate Listable(lib: Library, file: string, w: Window) {
    D.Parse(lib, file).Some? && D.ValidThroughout(D.Parse(lib, file).value, w.validAfter, w.validUntil)
  }

  /** The file holds a descriptor that is dated for the window and outlasts it. */
  ghost predicate Usable(lib: Library, file: string, w: Window) {
    && w.validAfter != 0 && w.validUntil != 0 && w.validAfter < w.validUntil
    && D.Parse(lib, file).Some?
    && (var d := D.Parse(lib, file).value; d.published - 300 * SECOND <= w.validAfter && w.validUntil <= d.expires)
  }

  lemma ListableIff(lib: Library, file: string, w: Window)
    ensures Listable(lib, file, w) <==> Usable(lib, file, w)
  {
    hide D.Parse;
  }

  predicate Lists(relays: seq<D.Descriptor>, identity: string) {
    exists d :: d in relays && d.identity == identity
  }

  /** What reading the files in name order has selected. */
  function Load(lib: Library, files: seq<string>, w: Window): seq<D.Descriptor> {
    if files == [] then []
    else
      var out, last := Load(lib, files[..|files| - 1], w), files[|files| - 1];
      if Listable(lib, last, w) && !Lists(out, D.Parse(lib, last).value.identity) then out + [D.Parse(lib, last).value] else out
  }

  method LoadDescriptors(lib: Library, files: seq<string>, w: Window) returns (out: seq<D.Descriptor>)
    ensures out == Load(lib, files, w)
  {
    out := [];
    var seen: set<string>, n := {}, 0;
    while n < |files|
      invariant 0 <= n <= |files|
      invariant forall d :: d in out ==> d.identity in seen
      invariant forall identity :: identity in seen ==> Lists(out, identity)
      invariant out == Load(lib, files[..n], w)
    {
      assert files[..n + 1][..n] == files[..n];
      var d := D.ParseDescriptor(lib, files[n]);
      if d.Some? && D.ValidThroughout(d.value, w.validAfter, w.validUntil) && d.value.identity !in seen {
        ListsMore(out, d.value);
        out, seen := out + [d.value], seen + {d.value.identity};
      }
      n := n + 1;
    }
    assert files[..n] == files;
  }

  lemma ListsMore(out: seq<D.Descriptor>, d: D.Descriptor)
    ensures forall identity :: Lists(out + [d], identity) <==> Lists(out, identity) || identity == d.identity
  {
    var more := out + [d];
    assert more[|out|] == d;
    forall identity ensures Lists(more, identity) <==> Lists(out, identity) || identity == d.identity {
      if e :| e in out && e.identity == identity {
        assert e in more;
      }
    }
  }

  /** The file is usable in the window and no earlier usable file has its identity. */
  ghost predicate FirstOfItsIdentity(lib: Library, files: seq<string>, w: Window, i: int) {
    0 <= i < |files| && Usable(lib, files[i], w) &&
    forall j :: 0 <= j < i && Usable(lib, files[j], w) ==>
      D.Parse(lib, files[j]).value.identity != D.Parse(lib, files[i]).value.identity
  }

  lemma {:induction false} SomeFirst(lib: Library, files: seq<string>, w: Window, i: nat) returns (first: nat)
    requires i < |files| && Usable(lib, files[i], w)
    ensures first <= i && FirstOfItsIdentity(lib, files, w, first)
    ensures D.Parse(lib, files[first]).value.identity == D.Parse(lib, files[i]).value.identity
  {
    hide D.Parse;
    first := i;
    if j :| 0 <= j < i && Usable(lib, files[j], w) &&
            D.Parse(lib, files[j]).value.identity == D.Parse(lib, files[i]).value.identity {
      first := SomeFirst(lib, files, w, j);
    }
  }

  /** The selection is exactly the first usable file of every identity. */
  lemma {:induction false} LoadSelects(lib: Library, files: seq<string>, w: Window)
    ensures DistinctIdentities(Load(lib, files, w))
    ensures forall d :: d in Load(lib, files, w) <==>
              exists i :: FirstOfItsIdentity(lib, files, w, i) && D.Parse(lib, files[i]).value == d
  {
    hide D.Parse, D.ValidThroughout;
    if files != [] {
      var init, last := files[..|files| - 1], |files| - 1;
      LoadSelects(lib, init, w);
      forall i | 0 <= i < last ensures FirstOfItsIdentity(lib, files, w, i) <==> FirstOfItsIdentity(lib, init, w, i) {
      }
      assert files == init + [files[last]];
      LastFile(lib, init, files[last], w);
      ListableIff(lib, files[last], w);
      var out, r := Load(lib, init, w), Load(lib, files, w);
      forall d ensures d in r <==> exists i :: FirstOfItsIdentity(lib, files, w, i) && D.Parse(lib, files[i]).value == d {
        if d in out {
          var i :| FirstOfItsIdentity(lib, init, w, i) && D.Parse(lib, init[i]).value == d;
          assert FirstOfItsIdentity(lib, files, w, i) && D.Parse(lib, files[i]).value == d;
        }
        if i :| FirstOfItsIdentity(lib, files, w, i) && D.Parse(lib, files[i]).value == d {
          assert i < last ==> FirstOfItsIdentity(lib, init, w, i) && D.Parse(lib, init[i]).value == d;
        }
      }
    }
  }

  lemma LastFile(lib: Library, init: seq<string>, file: string, w: Window)
    requires forall d :: d in Load(lib, init, w) <==> exists i :: FirstOfItsIdentity(lib, init, w, i) && D.Parse(lib, init[i]).value == d
    ensures FirstOfItsIdentity(lib, init + [file], w, |init|) <==>
      Usable(lib, file, w) && !Lists(Load(lib, init, w), D.Parse(lib, file).value.identity)
  {
    hide D.Parse, Load, D.ValidThroughout;
    var files, out := init + [file], Load(lib, init, w);
    if Usable(lib, file, w) {
      var identity := D.Parse(lib, file).value.identity;
      if j :| 0 <= j < |init| && Usable(lib, files[j], w) && D.Parse(lib, files[j]).value.identity == identity {
        var i := SomeFirst(lib, init, w, j);
        assert D.Parse(lib, init[i]).value in out;
      }
      if d :| d in out && d.identity == identity {
        var i :| FirstOfItsIdentity(lib, init, w, i) && D.Parse(lib, init[i]).value == d;
        assert files[i] == init[i];
      }
    }
  }

  /** The selection after probing: the relays the prober still lists, in order. */
  function Healthy(relays: seq<D.Descriptor>, listed: D.Descriptor -> bool): (r: seq<D.Descriptor>)
    ensures forall d :: d in r <==> d in relays && listed(d)
  {
    if relays == [] then []
    else
      var last := relays[|relays| - 1];
      Healthy(relays[..|relays| - 1], listed) + if listed(last) then [last] else []
  }

  method DropUnhealthy(relays: seq<D.Descriptor>, listed: D.Descriptor -> bool) returns (out: seq<D.Descriptor>)
    ensures out == Healthy(relays, listed)
  {
    out := [];
    var n := 0;
    while n < |relays|
      invariant 0 <= n <= |relays|
      invariant out == Healthy(relays[..n], listed)
    {
      assert relays[..n + 1][..n] == relays[..n];
      if listed(relays[n]) { out := out + [relays[n]]; }
      n := n + 1;
    }
    assert relays[..n] == relays;
  }

  lemma {:induction false} HealthyDistinct(relays: seq<D.Descriptor>, listed: D.Descriptor -> bool)
    requires DistinctIdentities(relays)
    ensures DistinctIdentities(Healthy(relays, listed))
  {
    if relays != [] {
      var init, last := relays[..|relays| - 1], relays[|relays| - 1];
      HealthyDistinct(init, listed);
      forall d | d in Healthy(init, listed) ensures d.identity != last.identity {
        var i :| 0 <= i < |init| && init[i] == d;
        assert relays[i] == d;
      }
    }
  }

  /** Whatever is stored and however probing goes, an authority can always build its window from what it selects. */
  lemma SelectionIsBuildable(lib: Library, files: seq<string>, listed: D.Descriptor -> bool, now: int, epoch: int, lifetime: int)
    requires NewEpochConsensus(lib, [], now, epoch, lifetime).Some?
    ensures var w := NewEpochConsensus(lib, [], now, epoch, lifetime).value;
            var relays := Healthy(Load(lib, files, Window(w.validAfter, w.validUntil)), listed);
            && NewEpochConsensus(lib, relays, now, epoch, lifetime).Some?
            && NewEpochConsensus(lib, relays, now, epoch, lifetime).value.validAfter == w.validAfter
            && forall d :: d in relays ==> D.FromParser(lib, d)
  {
    var c := NewEpochConsensus(lib, [], now, epoch, lifetime).value;
    var w := Window(c.validAfter, c.validUntil);
    hide D.Parse, D.ValidThroughout, D.Validate, D.Encoded, Load, Healthy, Body;
    LoadSelects(lib, files, w);
    HealthyDistinct(Load(lib, files, w), listed);
    forall d | d in Load(lib, files, w)
      ensures D.FromParser(lib, d) && D.Encoded(d) != "" && D.Validate(lib, d) && D.ValidThroughout(d, w.validAfter, w.validUntil)
    {
      var i :| FirstOfItsIdentity(lib, files, w, i) && D.Parse(lib, files[i]).value == d;
      assert D.Parse(lib, files[i]) == Some(d);
      D.Reparse(lib, d);
    }
  }

  // ---- the running publisher

  // What is being served; a validAfter of zero means that nothing is yet.
  datatype Served = Served(current: string, signedBody: string, validAfter: int)

  /** An epoch older than the one served, or another body for it. */
  predicate Conflicts(served: Served, c: Consensus) {
    served.validAfter != 0 && c.raw.Some? &&
    (c.validAfter < served.validAfter || (c.validAfter == served.validAfter && c.raw.value != served.signedBody))
  }

  class PublishingAuthority {
    const id: Option<Identity>
    const epoch: int
    const lifetime: int
    const disk: SigningDisk
    var current: string
    var signedBody: string
    var validAfter: int

    constructor (id: Option<Identity>, epoch: int, lifetime: int, disk: SigningDisk)
      ensures this.id == id && this.epoch == epoch && this.lifetime == lifetime && this.disk == disk
      ensures View() == Served("", "", 0)
    {
      this.id, this.epoch, this.lifetime, this.disk := id, epoch, lifetime, disk;
      current, signedBody, validAfter := "", "", 0;
    }

    function View(): Served
      reads this
    {
      Served(current, signedBody, validAfter)
    }

    /** The body this authority builds from its own store at an instant. */
    function OwnCandidate(lib: Library, files: seq<string>, listed: D.Descriptor -> bool, now: int): Option<Consensus> {
      match NewEpochConsensus(lib, [], now, epoch, lifetime)
      case None => None
      case Some(w) =>
        NewEpochConsensus(lib, Healthy(Load(lib, files, Window(w.validAfter, w.validUntil)), listed), now, epoch, lifetime)
    }

    /** The outcome of a rebuild: what is served after it, the signing record, and whether it succeeded. */
    ghost function Rebuilt(lib: Library, files: seq<string>, listed: D.Descriptor -> bool, now: int, digest: string -> string,
                           io: WriteIo, served: Served, state: StateFile, locked: bool): (Served, StateFile, bool)
    {
      match OwnCandidate(lib, files, listed, now)
      case None => (served, state, false)
      case Some(c) =>
        if Conflicts(served, c) then (served, state, false)
        else
          var (text, after) := SigningOf(lib, id, c, digest, state, locked, io);
          if text.None? then (served, after, false) else (Served(text.value, c.raw.value, c.validAfter), after, true)
    }

    method Rebuild(lib: Library, files: seq<string>, listed: D.Descriptor -> bool, now: int, digest: string -> string, io: WriteIo)
      returns (ok: bool)
      modifies this`current, this`signedBody, this`validAfter, disk
      ensures disk.locked == old(disk.locked)
      ensures (View(), disk.state, ok) ==
              Rebuilt(lib, files, listed, now, digest, io, old(View()), old(disk.state), old(disk.locked))
    {
      hide SigningOf, Body, Validate, Library.EncodeKey, Load, Healthy, SignWith;
      var window := NewEpochConsensus(lib, [], now, epoch, lifetime);
      if window.None? { return false; }
      var stored := LoadDescriptors(lib, files, Window(window.value.validAfter, window.value.validUntil));
      var relays := DropUnhealthy(stored, listed);
      var built := NewEpochConsensus(lib, relays, now, epoch, lifetime);
      if built.None? { return false; }
      var c := built.value;
      if validAfter != 0 {
        if c.validAfter < validAfter || (c.validAfter == validAfter && c.raw.value != signedBody) { return false; }
      }
      var doc := new ConsensusDocument(c);
      var encoded := SignConsensusWithState(lib, disk, id, doc, digest, io);
      if encoded.None? { return false; }
      current, signedBody, validAfter := encoded.value, c.raw.value, c.validAfter;
      return true;
    }

    /**
     * A rebuild succeeds exactly when its window can be built, nothing served conflicts with it and the guard hands the
     * signature out; it then serves its own selection, never an older epoch and never a second body for one epoch, with
     * the vote on disk. Otherwise what is served stays.
     */
    lemma RebuildServesOwnSelection(lib: Library, files: seq<string>, listed: D.Descriptor -> bool, now: int,
                                    digest: string -> string, io: WriteIo, served: Served, state: StateFile, locked: bool)
      ensures var window := NewEpochConsensus(lib, [], now, epoch, lifetime);
        var c := OwnCandidate(lib, files, listed, now);
        var (after, disk', ok) := Rebuilt(lib, files, listed, now, digest, io, served, state, locked);
        && (ok <==> window.Some? && c.Some? && !Conflicts(served, c.value) &&
                    SigningOf(lib, id, c.value, digest, state, locked, io).0.Some?)
        && (window.Some? ==> c.Some? && c.value.validAfter == window.value.validAfter)
        && (ok ==> c.value.raw == Some(after.signedBody) && c.value.validAfter == after.validAfter)
        && (ok && served.validAfter != 0 ==> served.validAfter <= after.validAfter)
        && (ok && served.validAfter == after.validAfter && served.validAfter != 0 ==> served.signedBody == after.signedBody)
        && (ok ==> id.Some? && disk' == Saved(lib.EncodeKey(id.value.pub), after.validAfter, digest(after.signedBody)))
        && (!ok ==> after == served)
    {
      hide SigningOf, Body, Validate, Library.EncodeKey, Load, Healthy, NewEpochConsensus, Signable, Encoding, SignWith, Decide;
      var window := NewEpochConsensus(lib, [], now, epoch, lifetime);
      if window.Some? {
        SelectionIsBuildable(lib, files, listed, now, epoch, lifetime);
        var c := OwnCandidate(lib, files, listed, now).value;
        if SigningOf(lib, id, c, digest, state, locked, io).0.Some? {
          HandedOutIsRecorded(lib, id, c, digest, state, locked, io);
        }
      }
    }
  }

  // ---- when a rebuild succeeds

  /** What an authority signs at an instant of the window that begins at start: its healthy selection for that window. */
  function Selection(lib: Library, files: seq<string>, listed: D.Descriptor -> bool, start: int, lifetime: int): Consensus {
    Consensus(start, start + lifetime, Healthy(Load(lib, files, Window(start, start + lifetime)), listed), map[], None)
  }

  /** The selection under its authority's signature. */
  ghost function SignedSelection(lib: Library, c: Consensus, id: Identity): Consensus {
    c.(raw := Some(Body(lib, c)), signatures := map[lib.EncodeKey(id.pub) := lib.encode64(id.sign(Body(lib, c)))])
  }

  lemma SelectionIsSigned(lib: Library, files: seq<string>, listed: D.Descriptor -> bool, now: int, epoch: int, lifetime: int,
                          start: int, id: Identity)
    requires lib.Sound() && lib.KeyPair(id) && epoch > 0 && start % epoch == 0 && start <= now < start + epoch
    requires NewEpochConsensus(lib, [], now, epoch, lifetime).Some?
    ensures var c := Selection(lib, files, listed, start, lifetime);
      var signed := SignedSelection(lib, c, id);
      && NewEpochConsensus(lib, [], now, epoch, lifetime).value.validAfter == start
      && NewEpochConsensus(lib, [], now, epoch, lifetime).value.validUntil == start + lifetime
      && NewEpochConsensus(lib, c.relays, now, epoch, lifetime) == Some(c.(raw := Some(Body(lib, c)))) && Body(lib, c) != ""
      && SignWith(lib, c.(raw := Some(Body(lib, c))), Some(id)) == Some(signed)
      && Encoding(lib, signed) == if |EncodedText(lib, signed)| <= 8_388_608 then Some(EncodedText(lib, signed)) else None
  {
    hide Body, Validate, Load, Healthy, D.FromParser, D.Parse, Library.EncodeKey, Library.Sound, Library.KeyPair, Encodable, EncodedText,
      CoSigning.Selectable;
    assert ConsensusLaws.AllFromParser(lib, []);
    CoSigning.CandidateIff(lib, [], now, epoch, lifetime, start);
    SelectionIsBuildable(lib, files, listed, now, epoch, lifetime);
    var c := Selection(lib, files, listed, start, lifetime);
    CoSigning.CandidateIff(lib, c.relays, now, epoch, lifetime, start);
    var built := NewEpochConsensus(lib, c.relays, now, epoch, lifetime).value;
    hide NewEpochConsensus;
    CoSigning.SameText(lib, built, c);
    CoSigning.SignTakes(lib, built, id);
    var signed := SignedSelection(lib, c, id);
    assert lib.EncodeKey([id][0].pub) in signed.signatures;
    CoSigning.SignedIsEncodable(lib, c, [id], signed.signatures);
    NonEmptyBody(lib, c);
  }

  lemma NonEmptyBody(lib: Library, c: Consensus)
    ensures Body(lib, c) != ""
  {
  }

  /**
   * When a rebuild serves something: the settings make sense, the document stays within 8 MiB, the lock is free, nothing of a
   * later epoch and no other body of this epoch is being served or is on record, the record is this authority's, and the disk
   * works or the vote is recorded already. Nothing else can hold it up.
   */
  lemma RebuildSucceedsIff(p: PublishingAuthority, lib: Library, files: seq<string>, listed: D.Descriptor -> bool, now: int,
                           digest: string -> string, io: WriteIo, served: Served, state: StateFile, locked: bool, start: int, id: Identity)
    requires lib.Sound() && p.id == Some(id) && lib.KeyPair(id)
    requires p.epoch > 0 && start % p.epoch == 0 && start <= now < start + p.epoch
    ensures var c := Selection(lib, files, listed, start, p.lifetime);
      var body := Body(lib, c);
      var vote := Saved(lib.EncodeKey(id.pub), start, digest(body));
      p.Rebuilt(lib, files, listed, now, digest, io, served, state, locked).2 <==>
        && p.epoch >= SECOND && p.epoch % SECOND == 0 && p.lifetime > p.epoch && p.lifetime % SECOND == 0
        && start != 0 && start + p.lifetime != 0
        && |EncodedText(lib, SignedSelection(lib, c, id))| <= 8_388_608
        && (served.validAfter == 0 || served.validAfter < start || (served.validAfter == start && served.signedBody == body))
        && !locked
        && (state.Absent? || (state.Saved? && state.authority == lib.EncodeKey(id.pub) &&
                              (state.epoch < start || (state.epoch == start && state.bodyId == digest(body)))))
        && (io.Installed? || state == vote)
  {
    hide Body, Validate, Load, Healthy, Library.EncodeKey, Library.Sound, Library.KeyPair, EncodedText, NewEpochConsensus, SigningOf,
      SignWith, Encoding, CoSigning.Selectable, D.FromParser;
    assert ConsensusLaws.AllFromParser(lib, []);
    CoSigning.CandidateIff(lib, [], now, p.epoch, p.lifetime, start);
    NothingSelectable(lib, start, start + p.lifetime);
    if NewEpochConsensus(lib, [], now, p.epoch, p.lifetime).Some? {
      SelectionIsSigned(lib, files, listed, now, p.epoch, p.lifetime, start, id);
      var c := Selection(lib, files, listed, start, p.lifetime);
      var candidate := c.(raw := Some(Body(lib, c)));
      assert p.OwnCandidate(lib, files, listed, now) == Some(candidate);
      assert p.Rebuilt(lib, files, listed, now, digest, io, served, state, locked).2 <==>
        !Conflicts(served, candidate) && SigningOf(lib, Some(id), candidate, digest, state, locked, io).0.Some?;
      assert !Conflicts(served, candidate) <==>
        served.validAfter == 0 || served.validAfter < start || (served.validAfter == start && served.signedBody == Body(lib, c));
      if Encoding(lib, SignedSelection(lib, c, id)).Some? {
        VotesExactlyWhen(lib, id, candidate, digest, state, locked, io);
      } else {
        NotWritten(lib, id, candidate, digest, state, locked, io);
      }
    }
  }

  lemma NothingSelectable(lib: Library, validAfter: int, validUntil: int)
    ensures CoSigning.Selectable(lib, [], validAfter, validUntil)
  {
  }

  lemma NotWritten(lib: Library, id: Identity, c: Consensus, digest: string -> string, state: StateFile, locked: bool, io: WriteIo)
    requires SignWith(lib, c, Some(id)).Some? && Encoding(lib, SignWith(lib, c, Some(id)).value).None?
    ensures SigningOf(lib, Some(id), c, digest, state, locked, io).0.None?
  {
    hide Encoding, SignWith, Library.EncodeKey;
  }

  // ---- the first window that can list a submitted descriptor

  function WindowStart(now: int, epoch: int, k: nat): int
    requires epoch > 0
  {
    EpochStart(now, epoch) + k * epoch
  }

  /** The descriptor is usable for the whole of the k-th window from the current one. */
  predicate Holds(d: D.Descriptor, now: int, epoch: int, lifetime: int, k: nat)
    requires epoch > 0
  {
    D.ValidThroughout(d, WindowStart(now, epoch, k), WindowStart(now, epoch, k) + lifetime)
  }

  /** The first window that does not begin too early for the descriptor's date. */
  function FirstDated(d: D.Descriptor, now: int, epoch: int): (k: nat)
    requires epoch > 0
    ensures WindowStart(now, epoch, k) >= d.published - D.CLOCK_SKEW
    ensures forall j: nat :: j < k ==> WindowStart(now, epoch, j) < d.published - D.CLOCK_SKEW
  {
    var ahead := d.published - D.CLOCK_SKEW - EpochStart(now, epoch);
    if ahead <= 0 then 0
    else
      RoundUp(d, now, epoch, ahead);
      (ahead + epoch - 1) / epoch
  }

  lemma RoundUp(d: D.Descriptor, now: int, epoch: int, ahead: int)
    requires epoch > 0 && ahead > 0 && ahead == d.published - D.CLOCK_SKEW - EpochStart(now, epoch)
    ensures var k := (ahead + epoch - 1) / epoch;
            && k >= 0 && WindowStart(now, epoch, k) >= d.published - D.CLOCK_SKEW
            && forall j: nat :: j < k ==> WindowStart(now, epoch, j) < d.published - D.CLOCK_SKEW
  {
    var k := (ahead + epoch - 1) / epoch;
    CeilingBounds(ahead, epoch);
    hide EpochStart;
    forall j: nat | j < k ensures WindowStart(now, epoch, j) < d.published - D.CLOCK_SKEW {
      TimesMonotone(j, k - 1, epoch);
    }
  }

  lemma CeilingBounds(n: int, d: int)
    requires n > 0 && d > 0
    ensures var k := (n + d - 1) / d; k >= 0 && k * d >= n && (k - 1) * d < n
  {
    var k := (n + d - 1) / d;
    assert n + d - 1 == k * d + (n + d - 1) % d;
    NextMultiple(k - 1, d);
  }

  /** Two tries answer for the whole future, except for descriptors dated so far ahead that both tries come too early. */
  predicate TwoTriesSuffice(d: D.Descriptor, now: int, epoch: int, lifetime: int)
    requires epoch > 0
  {
    var first := FirstDated(d, now, epoch);
    first <= 1 || WindowStart(now, epoch, first) + lifetime > d.expires
  }

  /**
   * An answer is always the earliest of all windows from the current one on that can hold the descriptor. A refusal is right,
   * that is no window ever can, exactly when two tries suffice.
   */
  method FirstListing(lib: Library, d: D.Descriptor, now: int, epoch: int, lifetime: int) returns (r: Option<int>)
    requires EpochSettings(epoch, lifetime) && now >= epoch
    ensures r.Some? ==> exists k: nat :: r.value == WindowStart(now, epoch, k) && Holds(d, now, epoch, lifetime, k) &&
                          forall j: nat :: j < k ==> !Holds(d, now, epoch, lifetime, j)
    ensures r.None? ==> ((forall k: nat :: !Holds(d, now, epoch, lifetime, k)) <==> TwoTriesSuffice(d, now, epoch, lifetime))
  {
    hide Body;
    var tries := [now, now + epoch];
    var n := 0;
    NextEpoch(now, epoch);
    while n < 2
      invariant 0 <= n <= 2
      invariant forall j: nat :: j < n ==> !Holds(d, now, epoch, lifetime, j)
    {
      var window := NewEpochConsensus(lib, [], tries[n], epoch, lifetime);
      assert EpochStart(tries[n], epoch) == WindowStart(now, epoch, n) > 0;
      if window.None? { return None; }
      if D.ValidThroughout(d, window.value.validAfter, window.value.validUntil) {
        return Some(window.value.validAfter);
      }
      n := n + 1;
    }
    RefusedForGood(d, now, epoch, lifetime);
    return None;
  }

  lemma RefusedForGood(d: D.Descriptor, now: int, epoch: int, lifetime: int)
    requires EpochSettings(epoch, lifetime) && now >= epoch
    requires !Holds(d, now, epoch, lifetime, 0) && !Holds(d, now, epoch, lifetime, 1)
    ensures (forall k: nat :: !Holds(d, now, epoch, lifetime, k)) <==> TwoTriesSuffice(d, now, epoch, lifetime)
  {
    var first := FirstDated(d, now, epoch);
    forall k: nat ensures Holds(d, now, epoch, lifetime, k) <==> k >= first && WindowStart(now, epoch, k) + lifetime <= d.expires {
      HoldsWhen(d, now, epoch, lifetime, k);
    }
    hide FirstDated, Holds, EpochStart;
    forall k: nat | k >= first ensures WindowStart(now, epoch, k) >= WindowStart(now, epoch, first) {
      TimesMonotone(first, k, epoch);
    }
    if first <= 1 {
      assert !Holds(d, now, epoch, lifetime, 1);
      forall k: nat ensures !Holds(d, now, epoch, lifetime, k) {
        if k >= 1 {
          TimesMonotone(1, k, epoch);
        }
      }
    } else if WindowStart(now, epoch, first) + lifetime <= d.expires {
      assert Holds(d, now, epoch, lifetime, first);
    }
  }

  /** A window holds a descriptor when it does not begin too early for its date and ends before it expires. */
  lemma HoldsWhen(d: D.Descriptor, now: int, epoch: int, lifetime: int, k: nat)
    requires EpochSettings(epoch, lifetime) && now >= epoch
    ensures Holds(d, now, epoch, lifetime, k) <==>
            k >= FirstDated(d, now, epoch) && WindowStart(now, epoch, k) + lifetime <= d.expires
  {
    var first := FirstDated(d, now, epoch);
    NextEpoch(now, epoch);
    TimesMonotone(0, k, epoch);
    hide FirstDated, EpochStart;
    if k >= first {
      TimesMonotone(first, k, epoch);
    }
  }

  /** A descriptor not dated ahead of the clock by more than the skew is always answered for exactly. */
  lemma NotDatedAheadSuffices(d: D.Descriptor, now: int, epoch: int, lifetime: int)
    requires epoch > 0 && now >= epoch && d.published - D.CLOCK_SKEW <= now
    ensures TwoTriesSuffice(d, now, epoch, lifetime)
  {
    NextEpoch(now, epoch);
    var second := WindowStart(now, epoch, 1);
    assert second > now;
  }

  lemma NextEpoch(now: int, epoch: int)
    requires epoch > 0 && now >= epoch
    ensures EpochStart(now + epoch, epoch) == WindowStart(now, epoch, 1) && EpochStart(now, epoch) >= epoch
    ensures EpochStart(now, epoch) <= now < EpochStart(now, epoch) + epoch
  {
    var q := now / epoch;
    assert now == q * epoch + now % epoch;
    assert now + epoch == (q + 1) * epoch + now % epoch;
    SameRemainder(now + epoch, epoch, q + 1, now % epoch);
    if q >= 1 {
      AtLeastOne(q, epoch);
    } else if q <= -1 {
      AtLeastOne(-q, epoch);
    }
  }

  /** It does happen: a descriptor dated ahead that fits the ninth window and neither of the first two. */
  lemma DatedAheadIsTurnedAway(d: D.Descriptor)
    requires d.published == 10 * SECOND + D.CLOCK_SKEW && d.expires == 100 * SECOND + D.CLOCK_SKEW
    ensures !TwoTriesSuffice(d, 2 * SECOND, SECOND, 2 * SECOND) && Holds(d, 2 * SECOND, SECOND, 2 * SECOND, 8)
    ensures !Holds(d, 2 * SECOND, SECOND, 2 * SECOND, 0) && !Holds(d, 2 * SECOND, SECOND, 2 * SECOND, 1)
  {
  }
}
