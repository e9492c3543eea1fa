/**
 * Any number of authorities, each running any number of signing processes that may crash between any two steps:
 * what clients can then be shown.
 */
module Agreement {
  import opened Prelude
  import opened Library
  import D = Descriptors
  import opened Consensuses
  import opened ConsensusLaws
  import opened Workflow
  import opened SigningGuard

  // The relays an authority chose from its own descriptors, for the epoch its clock is in. Building and co-signing both
  // sign the body of such a plan (Workflow.CoSignerSignsOwnBody).
  datatype Plan = Plan(relays: seq<D.Descriptor>, now: int, epoch: int, lifetime: int)

  // The one process inside the lock: it has made the lock, or has been allowed to vote.
  datatype Holder = Entered(plan: Plan, body: string) | Allowed(plan: Plan, body: string, advance: bool)

  datatype Vote = Vote(epoch: int, body: string)

  // state and lock are on disk; votes are the signatures that may have left the process.
  datatype Station = Station(name: string, state: StateFile, lock: bool, holder: Option<Holder>, votes: set<Vote>)

  datatype Action =
    | Enter(plan: Plan, body: string)  // mkdir succeeds, or the process gives up
    | Read                             // the record is read and judged
    | Commit(io: WriteIo)              // the record is replaced and, if that is reported done, the signature is released
    | Leave                            // the lock is removed on the way out
    | Crash                            // the process dies, its lock stays
    | RemoveStaleLock                  // by the operator, once no process is inside

  function StartOf(plan: Plan): int {
    if plan.epoch > 0 then EpochStart(plan.now, plan.epoch) else 0
  }

  ghost predicate Proposed(lib: Library, plan: Plan, body: string) {
    Selected(lib, plan.relays, plan.now, plan.epoch, plan.lifetime, body)
  }

  ghost function Act(lib: Library, digest: string -> string, s: Station, a: Action): Station {
    match a
    case Enter(plan, body) =>
      if s.lock || !Proposed(lib, plan, body) then s else s.(lock := true, holder := Some(Entered(plan, body)))
    case Read =>
      if s.holder.None? || !s.holder.value.Entered? then s
      else
        var h := s.holder.value;
        (match Decide(s.state, s.name, StartOf(h.plan), digest(h.body))
         case None => s.(lock := false, holder := None)
         case Some(advance) => s.(holder := Some(Allowed(h.plan, h.body, advance))))
    case Commit(io) =>
      if s.holder.None? || !s.holder.value.Allowed? then s
      else
        var h := s.holder.value;
        var vote := Vote(StartOf(h.plan), h.body);
        var saved := Saved(s.name, vote.epoch, digest(h.body));
        if !h.advance then s.(lock := false, holder := None, votes := s.votes + {vote})
        else if io.NotInstalled? then s.(lock := false, holder := None)
        else if io.InstalledButFailed? then s.(state := saved, lock := false, holder := None)
        else s.(state := saved, lock := false, holder := None, votes := s.votes + {vote})
    case Leave => if s.holder.Some? then s.(lock := false, holder := None) else s
    case Crash => s.(holder := None)
    case RemoveStaleLock => if s.holder.None? then s.(lock := false) else s
  }

  /** The durable record is at least as new as every vote, and fixes the body of the votes of its own epoch. */
  ghost predicate Recorded(digest: string -> string, s: Station, v: Vote) {
    s.state.Saved? && s.state.authority == s.name &&
    (v.epoch < s.state.epoch || (v.epoch == s.state.epoch && digest(v.body) == s.state.bodyId))
  }

  ghost predicate OneBodyPerEpoch(digest: string -> string, votes: set<Vote>) {
    forall v, w :: v in votes && w in votes && v.epoch == w.epoch ==> digest(v.body) == digest(w.body)
  }

  ghost predicate Inv(lib: Library, digest: string -> string, s: Station) {
    && (s.holder.Some? ==> s.lock)
    && OneBodyPerEpoch(digest, s.votes)
    && (forall v :: v in s.votes ==>
          Recorded(digest, s, v) && exists plan :: Proposed(lib, plan, v.body) && v.epoch == StartOf(plan))
    && (s.holder.Some? ==> Proposed(lib, s.holder.value.plan, s.holder.value.body))
    && (s.holder.Some? && s.holder.value.Allowed? ==>
          var h := s.holder.value;
          Decide(s.state, s.name, StartOf(h.plan), digest(h.body)) == Some(h.advance))
  }

  lemma NewVote(digest: string -> string, s: Station, after: Station, vote: Vote)
    requires OneBodyPerEpoch(digest, s.votes) && forall v :: v in s.votes ==> Recorded(digest, s, v)
    requires Decide(s.state, s.name, vote.epoch, digest(vote.body)).Some?
    requires after.name == s.name && after.state == Saved(s.name, vote.epoch, digest(vote.body))
    requires after.votes <= s.votes + {vote}
    ensures OneBodyPerEpoch(digest, after.votes) && forall v :: v in after.votes ==> Recorded(digest, after, v)
  {
  }

  lemma ActKeepsInv(lib: Library, digest: string -> string, s: Station, a: Action)
    requires Inv(lib, digest, s)
    ensures Inv(lib, digest, Act(lib, digest, s, a)) && Act(lib, digest, s, a).name == s.name
    ensures s.votes <= Act(lib, digest, s, a).votes
  {
    hide Selected;
    var after := Act(lib, digest, s, a);
    if a.Commit? && s.holder.Some? && s.holder.value.Allowed? {
      var h := s.holder.value;
      if after.state != s.state || !h.advance {
        NewVote(digest, s, after, Vote(StartOf(h.plan), h.body));
      }
      assert Proposed(lib, h.plan, h.body);
    }
  }

  // ---- the steps are those of the code

  /** The steps of one signing run: what cannot be signed or written is given up before the record is touched. */
  function SigningRun(plan: Plan, body: string, signable: bool, io: WriteIo): seq<Action> {
    [Enter(plan, body), Read, if signable then Commit(io) else Leave]
  }

  lemma BodyNotEmpty(lib: Library, c: Consensus)
    ensures Body(lib, c) != ""
  {
  }

  /** A signing run that nothing interrupts leaves the record, the lock and the released vote exactly as the verified code does. */
  lemma SigningAloneIsTheCode(lib: Library, digest: string -> string, s: Station, id: Identity, c: Consensus, plan: Plan, io: WriteIo)
    requires s.holder == None && s.name == lib.EncodeKey(id.pub)
    requires c.raw.Some? && c.validAfter == StartOf(plan) && Proposed(lib, plan, c.raw.value)
    ensures var (r, state) := SigningOf(lib, Some(id), c, digest, s.state, s.lock, io);
            var run := SigningRun(plan, c.raw.value, Signable(lib, Some(id), c), io);
            var after := Act(lib, digest, Act(lib, digest, Act(lib, digest, s, run[0]), run[1]), run[2]);
            after == s.(state := state, votes := if r.Some? then s.votes + {Vote(c.validAfter, c.raw.value)} else s.votes)
  {
    hide Encoding, SignWith, Library.EncodeKey, Body, Signable;
    PlanIsComplete(lib, plan, c.raw.value);
    hide Selected;
    SignableGives(lib, Some(id), c);
  }

  lemma SignableGives(lib: Library, id: Option<Identity>, c: Consensus)
    ensures Signable(lib, id, c) ==> SignWith(lib, c, id).Some? && Encoding(lib, SignWith(lib, c, id).value).Some?
  {
    hide Encoding, SignWith;
  }

  lemma PlanIsComplete(lib: Library, plan: Plan, body: string)
    requires Proposed(lib, plan, body)
    ensures StartOf(plan) != 0 && body != ""
  {
    hide Body, Validate;
    BodyNotEmpty(lib, NewEpochConsensus(lib, plan.relays, plan.now, plan.epoch, plan.lifetime).value);
  }

  // ---- all the authorities together

  type Net = map<string, Station>

  datatype NetAction = NetAction(who: string, what: Action)

  ghost function Run(lib: Library, digest: string -> string, net: Net, run: seq<NetAction>): (after: Net)
    ensures after.Keys == net.Keys
    decreases |run|
  {
    if run == [] then net
    else
      var n := run[0];
      Run(lib, digest, if n.who in net then net[n.who := Act(lib, digest, net[n.who], n.what)] else net, run[1..])
  }

  ghost predicate NetInv(lib: Library, digest: string -> string, net: Net) {
    forall who :: who in net ==> net[who].name == who && Inv(lib, digest, net[who])
  }

  lemma {:induction false} RunKeepsInv(lib: Library, digest: string -> string, net: Net, run: seq<NetAction>)
    requires NetInv(lib, digest, net)
    ensures NetInv(lib, digest, Run(lib, digest, net, run))
    decreases |run|
  {
    hide Inv, Act;
    if run != [] {
      var n := run[0];
      if n.who in net {
        ActKeepsInv(lib, digest, net[n.who], n.what);
      }
      var next := if n.who in net then net[n.who := Act(lib, digest, net[n.who], n.what)] else net;
      RunKeepsInv(lib, digest, next, run[1..]);
    }
  }

  /** No vote is ever equivocated on, by any guarded authority, in any run with any crashes. */
  lemma NoEquivocation(lib: Library, digest: string -> string, net: Net, run: seq<NetAction>, who: string, v: Vote, w: Vote)
    requires NetInv(lib, digest, net) && who in net
    requires var votes := Run(lib, digest, net, run)[who].votes; v in votes && w in votes && v.epoch == w.epoch
    ensures digest(v.body) == digest(w.body)
  {
    RunKeepsInv(lib, digest, net, run);
    assert Inv(lib, digest, Run(lib, digest, net, run)[who]);
  }

  lemma {:induction false} InclusionExclusion(a: set<string>, b: set<string>, all: set<string>)
    requires a <= all && b <= all
    ensures |a * b| >= |a| + |b| - |all|
  {
    assert |a + b| == |a| + |b| - |a * b|;
    SubsetSize(a + b, all);
  }

  /** Two quorums share an authority outside any small set. */
  lemma QuorumsMeet(a: set<string>, b: set<string>, all: set<string>, faulty: set<string>, threshold: int)
    requires a <= all && b <= all && |a| >= threshold && |b| >= threshold && 2 * threshold > |all| + |faulty|
    ensures exists who :: who in a && who in b && who !in faulty
  {
    InclusionExclusion(a, b, all);
    if a * b <= faulty {
      SubsetSize(a * b, faulty);
    } else {
      var who :| who in a * b && who !in faulty;
    }
  }

  /** No signature of a guarded authority on this document was made outside that authority's guard. */
  ghost predicate Unforged(lib: Library, net: Net, authorities: map<string, Key>, c: Consensus) {
    c.raw.Some? && forall who :: who in net && who in Vouching(lib, authorities, c.raw.value, c.signatures) ==>
      exists v :: v in net[who].votes && v.body == c.raw.value
  }

  /** The digest does not collide on the bodies in play. */
  ghost predicate NoCollision(digest: string -> string, a: string, b: string) {
    digest(a) == digest(b) ==> a == b
  }

  /** The epoch a guarded authority recorded for an accepted body is the valid-after the client reads in it. */
  lemma VoteEpoch(lib: Library, digest: string -> string, s: Station, v: Vote, text: string, now: int)
    requires lib.Sound() && Inv(lib, digest, s) && v in s.votes && ParseBody(lib, text, now).Some?
    requires ParseBody(lib, text, now).value.raw.value == v.body
    ensures ParseBody(lib, text, now).value.validAfter == v.epoch
    ensures exists plan :: Proposed(lib, plan, v.body) && v.epoch == StartOf(plan) &&
                           RelaySet(ParseBody(lib, text, now).value.relays) == RelaySet(plan.relays)
    ensures DistinctIdentities(ParseBody(lib, text, now).value.relays)
  {
    hide ParseBody, RelaySet, AllFromParser;
    var plan :| Proposed(lib, plan, v.body) && v.epoch == StartOf(plan);
    AcceptedListsSelection(lib, text, now, plan.relays, plan.now, plan.epoch, plan.lifetime);
  }

  lemma ParseIsParseBody(lib: Library, text: string, authorities: map<string, Key>, threshold: int, now: int)
    requires Parse(lib, text, authorities, threshold, now).Some?
    ensures ParseBody(lib, text, now) == Parse(lib, text, authorities, threshold, now)
    ensures var c := Parse(lib, text, authorities, threshold, now).value;
            && |Vouching(lib, authorities, c.raw.value, c.signatures)| >= threshold
            && Vouching(lib, authorities, c.raw.value, c.signatures) <= authorities.Keys
  {
    hide ParseBody, Library.VerifySignature;
  }

  /**
   * Agreement. When fewer than 2*threshold - N of the configured authorities run without the guard, no two clients ever
   * accept different bodies for the same epoch.
   */
  lemma ClientsAgree(lib: Library, digest: string -> string, net: Net, authorities: map<string, Key>, threshold: int,
                     text1: string, now1: int, text2: string, now2: int)
    requires lib.Sound() && NetInv(lib, digest, net)
    requires 2 * threshold > |authorities| + |authorities.Keys - net.Keys|
    requires Parse(lib, text1, authorities, threshold, now1).Some? && Parse(lib, text2, authorities, threshold, now2).Some?
    requires Unforged(lib, net, authorities, Parse(lib, text1, authorities, threshold, now1).value)
    requires Unforged(lib, net, authorities, Parse(lib, text2, authorities, threshold, now2).value)
    requires var c1, c2 := Parse(lib, text1, authorities, threshold, now1).value, Parse(lib, text2, authorities, threshold, now2).value;
             NoCollision(digest, c1.raw.value, c2.raw.value) && c1.validAfter == c2.validAfter
    ensures var c1, c2 := Parse(lib, text1, authorities, threshold, now1).value, Parse(lib, text2, authorities, threshold, now2).value;
            c1.raw == c2.raw
  {
    var c1, c2 := Parse(lib, text1, authorities, threshold, now1).value, Parse(lib, text2, authorities, threshold, now2).value;
    ParseIsParseBody(lib, text1, authorities, threshold, now1);
    ParseIsParseBody(lib, text2, authorities, threshold, now2);
    var a := Vouching(lib, authorities, c1.raw.value, c1.signatures);
    var b := Vouching(lib, authorities, c2.raw.value, c2.signatures);
    hide Parse, ParseBody, Vouching, Inv, Proposed, RelaySet;
    assert |authorities| == |authorities.Keys|;
    QuorumsMeet(a, b, authorities.Keys, authorities.Keys - net.Keys, threshold);
    var who :| who in a && who in b && who !in authorities.Keys - net.Keys;
    assert who in net;
    var v :| v in net[who].votes && v.body == c1.raw.value;
    var w :| w in net[who].votes && w.body == c2.raw.value;
    VoteEpoch(lib, digest, net[who], v, text1, now1);
    VoteEpoch(lib, digest, net[who], w, text2, now2);
    SameStation(lib, digest, net[who], v, w);
  }

  lemma SameStation(lib: Library, digest: string -> string, s: Station, v: Vote, w: Vote)
    requires Inv(lib, digest, s) && v in s.votes && w in s.votes && v.epoch == w.epoch
    ensures digest(v.body) == digest(w.body)
  {
    hide Proposed;
  }

  /**
   * Honest selection. With a threshold above the number of unguarded authorities, an accepted document lists exactly the
   * relays some guarded authority selected from its own descriptors for that epoch, each identity text once.
   */
  lemma SomeHonestSelection(lib: Library, digest: string -> string, net: Net, authorities: map<string, Key>, threshold: int,
                            text: string, now: int)
    requires lib.Sound() && NetInv(lib, digest, net)
    requires threshold > |authorities.Keys - net.Keys|
    requires Parse(lib, text, authorities, threshold, now).Some?
    requires Unforged(lib, net, authorities, Parse(lib, text, authorities, threshold, now).value)
    ensures var c := Parse(lib, text, authorities, threshold, now).value;
            && DistinctIdentities(c.relays)
            && exists who, plan :: who in net && Vote(StartOf(plan), c.raw.value) in net[who].votes &&
                 Proposed(lib, plan, c.raw.value) && c.validAfter == StartOf(plan) && RelaySet(c.relays) == RelaySet(plan.relays)
  {
    var c := Parse(lib, text, authorities, threshold, now).value;
    ParseIsParseBody(lib, text, authorities, threshold, now);
    var a := Vouching(lib, authorities, c.raw.value, c.signatures);
    hide Parse, ParseBody, Vouching, Inv, Proposed, RelaySet;
    if a <= authorities.Keys - net.Keys {
      SubsetSize(a, authorities.Keys - net.Keys);
    } else {
      var who :| who in a && who !in authorities.Keys - net.Keys;
      assert who in net;
      var v :| v in net[who].votes && v.body == c.raw.value;
      VoteEpoch(lib, digest, net[who], v, text, now);
      var plan :| Proposed(lib, plan, v.body) && v.epoch == StartOf(plan) && RelaySet(c.relays) == RelaySet(plan.relays);
      assert v == Vote(StartOf(plan), c.raw.value);
    }
  }

  /** A network in which nobody has voted yet, whatever is on the disks, satisfies the invariant. */
  lemma FreshNet(lib: Library, digest: string -> string, net: Net)
    requires forall who :: who in net ==> net[who].name == who && net[who].votes == {} && net[who].holder == None
    ensures NetInv(lib, digest, net)
  {
  }

  /** Agreement over every run of a network that starts without votes, whatever its disks hold. */
  lemma AgreementOverRuns(lib: Library, digest: string -> string, start: Net, run: seq<NetAction>, authorities: map<string, Key>,
                          threshold: int, text1: string, now1: int, text2: string, now2: int)
    requires lib.Sound() && forall who :: who in start ==> start[who].name == who && start[who].votes == {} && start[who].holder == None
    requires 2 * threshold > |authorities| + |authorities.Keys - start.Keys|
    requires Accepted(lib, Run(lib, digest, start, run), authorities, threshold, text1, now1)
    requires Accepted(lib, Run(lib, digest, start, run), authorities, threshold, text2, now2)
    requires var c1, c2 := Parse(lib, text1, authorities, threshold, now1).value, Parse(lib, text2, authorities, threshold, now2).value;
             NoCollision(digest, c1.raw.value, c2.raw.value) && c1.validAfter == c2.validAfter
    ensures Parse(lib, text1, authorities, threshold, now1).value.raw == Parse(lib, text2, authorities, threshold, now2).value.raw
  {
    FreshNet(lib, digest, start);
    RunKeepsInv(lib, digest, start, run);
    hide Parse, Unforged, NetInv, Run;
    ClientsAgree(lib, digest, Run(lib, digest, start, run), authorities, threshold, text1, now1, text2, now2);
  }

  /** A client accepts the document, and nobody's guard was bypassed to make it. */
  ghost predicate Accepted(lib: Library, net: Net, authorities: map<string, Key>, threshold: int, text: string, now: int) {
    Parse(lib, text, authorities, threshold, now).Some? &&
    Unforged(lib, net, authorities, Parse(lib, text, authorities, threshold, now).value)
  }

  // ---- who does get to vote

  ghost function Life(lib: Library, digest: string -> string, s: Station, run: seq<Action>): Station
    decreases |run|
  {
    if run == [] then s else Life(lib, digest, Act(lib, digest, s, run[0]), run[1..])
  }

  /** The vote an action puts on record; one whose replacement is reported as failed is recorded without being released. */
  ghost function Attempt(s: Station, a: Action): set<Vote> {
    if a.Commit? && s.holder.Some? && s.holder.value.Allowed? && !a.io.NotInstalled? then
      {Vote(StartOf(s.holder.value.plan), s.holder.value.body)}
    else {}
  }

  ghost function Attempts(lib: Library, digest: string -> string, s: Station, run: seq<Action>): set<Vote>
    decreases |run|
  {
    if run == [] then {} else Attempt(s, run[0]) + Attempts(lib, digest, Act(lib, digest, s, run[0]), run[1..])
  }

  ghost predicate NoLaterOrOther(digest: string -> string, tried: set<Vote>, epoch: int, bodyId: string) {
    forall v :: v in tried ==> v.epoch < epoch || (v.epoch == epoch && digest(v.body) == bodyId)
  }

  ghost predicate SomeOf(tried: set<Vote>, epoch: int) {
    exists v :: v in tried && v.epoch == epoch
  }

  /** The record is exactly the newest vote that was put on it. */
  ghost predicate Newest(digest: string -> string, s: Station, tried: set<Vote>) {
    match s.state
    case Absent => tried == {}
    case Corrupt => false
    case Saved(who, epoch, bodyId) => who == s.name && SomeOf(tried, epoch) && NoLaterOrOther(digest, tried, epoch, bodyId)
  }

  lemma ActKeepsNewest(lib: Library, digest: string -> string, s: Station, a: Action, tried: set<Vote>)
    requires Inv(lib, digest, s) && Newest(digest, s, tried)
    ensures Newest(digest, Act(lib, digest, s, a), tried + Attempt(s, a))
  {
    hide Proposed;
    var all := tried + Attempt(s, a);
    if Attempt(s, a) != {} {
      var vote := Vote(StartOf(s.holder.value.plan), s.holder.value.body);
      assert vote in all;
    } else {
      assert all == tried;
    }
  }

  lemma {:induction false} LifeKeeps(lib: Library, digest: string -> string, s: Station, run: seq<Action>, tried: set<Vote>)
    requires Inv(lib, digest, s) && Newest(digest, s, tried)
    ensures var t := Life(lib, digest, s, run);
      Inv(lib, digest, t) && t.name == s.name && Newest(digest, t, tried + Attempts(lib, digest, s, run))
    decreases |run|
  {
    hide Inv, Newest, Act, Attempt;
    if run == [] {
      assert tried + {} == tried;
    } else {
      var next := Act(lib, digest, s, run[0]);
      ActKeepsInv(lib, digest, s, run[0]);
      ActKeepsNewest(lib, digest, s, run[0], tried);
      LifeKeeps(lib, digest, next, run[1..], tried + Attempt(s, run[0]));
      assert (tried + Attempt(s, run[0])) + Attempts(lib, digest, next, run[1..]) == tried + Attempts(lib, digest, s, run);
    }
  }

  /** A station that has no record and has never voted. */
  predicate Blank(s: Station) {
    s.state == Absent && s.votes == {} && s.holder == None
  }

  /**
   * Who gets to vote. After any run of an authority that started blank, with any crashes, a proposal of its own, put through
   * while the lock is free, is voted for exactly when nothing of a later epoch and no other body of its epoch was ever put
   * on record, and the disk works or its epoch is on record already. The lock is then free again.
   */
  lemma VoteIsCastIff(lib: Library, digest: string -> string, start: Station, run: seq<Action>, plan: Plan, body: string, io: WriteIo)
    requires Blank(start) && Proposed(lib, plan, body) && !Life(lib, digest, start, run).lock
    ensures var s, tried := Life(lib, digest, start, run), Attempts(lib, digest, start, run);
      var after, vote := Life(lib, digest, s, SigningRun(plan, body, true, io)), Vote(StartOf(plan), body);
      var mayVote := NoLaterOrOther(digest, tried, vote.epoch, digest(body));
      && after.votes == (if mayVote && (io.Installed? || SomeOf(tried, vote.epoch)) then s.votes + {vote} else s.votes)
      && after.state == (if mayVote && !io.NotInstalled? then Saved(s.name, vote.epoch, digest(body)) else s.state)
      && !after.lock
  {
    var s, tried := Life(lib, digest, start, run), Attempts(lib, digest, start, run);
    assert Inv(lib, digest, start) && Newest(digest, start, {});
    LifeKeeps(lib, digest, start, run, {});
    assert {} + tried == tried;
    hide Life, Attempts, Proposed;
    SigningSteps(lib, digest, s, plan, body, io);
    if s.state.Saved? {
      NewestDecides(digest, s, tried, StartOf(plan), digest(body));
    }
  }

  lemma NewestDecides(digest: string -> string, s: Station, tried: set<Vote>, epoch: int, bodyId: string)
    requires s.state.Saved? && Newest(digest, s, tried)
    ensures NoLaterOrOther(digest, tried, epoch, bodyId) <==>
            s.state.epoch < epoch || (s.state.epoch == epoch && s.state.bodyId == bodyId)
    ensures s.state.epoch < epoch ==> !SomeOf(tried, epoch)
  {
  }

  lemma SigningSteps(lib: Library, digest: string -> string, s: Station, plan: Plan, body: string, io: WriteIo)
    requires Proposed(lib, plan, body) && !s.lock && s.holder == None
    ensures var run := SigningRun(plan, body, true, io);
      Life(lib, digest, s, run) ==
        match Decide(s.state, s.name, StartOf(plan), digest(body))
        case None => s
        case Some(advance) =>
          s.(state := if advance && !io.NotInstalled? then Saved(s.name, StartOf(plan), digest(body)) else s.state,
             votes := if !advance || io.Installed? then s.votes + {Vote(StartOf(plan), body)} else s.votes)
  {
    hide Proposed, Decide, StartOf;
    var run, none := SigningRun(plan, body, true, io), [];
    assert run[1..] == [run[1], run[2]] && run[1..][1..] == [run[2]] && [run[2]][1..] == none;
    var s1 := Act(lib, digest, s, run[0]);
    var s2 := Act(lib, digest, s1, run[1]);
    var s3 := Act(lib, digest, s2, run[2]);
    assert Life(lib, digest, s2, [run[2]]) == Life(lib, digest, s3, none) == s3;
    assert Life(lib, digest, s1, run[1..]) == s3;
  }

  /** Where no replacement is ever reported as failed after it took place, what was put on record is what was voted for. */
  lemma {:induction false} AttemptsAreVotes(lib: Library, digest: string -> string, s: Station, run: seq<Action>)
    requires Commit(InstalledButFailed) !in run
    ensures s.votes + Attempts(lib, digest, s, run) <= Life(lib, digest, s, run).votes
    decreases |run|
  {
    hide Proposed, Decide, StartOf;
    if run != [] {
      var next := Act(lib, digest, s, run[0]);
      assert run[0] in run && forall a :: a in run[1..] ==> a in run;
      assert s.votes + Attempt(s, run[0]) <= next.votes;
      hide Act, Attempt;
      AttemptsAreVotes(lib, digest, next, run[1..]);
    }
  }

  /** What was voted for is of an epoch on record, with the body on record for it. */
  lemma VotesAreRecorded(lib: Library, digest: string -> string, start: Station, run: seq<Action>)
    requires Blank(start)
    ensures var s, tried := Life(lib, digest, start, run), Attempts(lib, digest, start, run);
      forall epoch, bodyId :: NoLaterOrOther(digest, tried, epoch, bodyId) ==> NoLaterOrOther(digest, s.votes, epoch, bodyId)
  {
    var s, tried := Life(lib, digest, start, run), Attempts(lib, digest, start, run);
    assert Inv(lib, digest, start) && Newest(digest, start, {});
    LifeKeeps(lib, digest, start, run, {});
    assert {} + tried == tried;
    hide Life, Attempts, Proposed;
  }

  /**
   * In terms of votes alone: on a disk that reports what it does, a proposal newer than every vote cast, or equal to the last
   * one, always gets its vote, and no other proposal ever does.
   */
  lemma NewerOrLastIsVotedFor(lib: Library, digest: string -> string, start: Station, run: seq<Action>, plan: Plan, body: string)
    requires Blank(start) && Proposed(lib, plan, body) && !Life(lib, digest, start, run).lock && Commit(InstalledButFailed) !in run
    ensures var s := Life(lib, digest, start, run);
      var after := Life(lib, digest, s, SigningRun(plan, body, true, Installed));
      after.votes == if NoLaterOrOther(digest, s.votes, StartOf(plan), digest(body)) then s.votes + {Vote(StartOf(plan), body)} else s.votes
  {
    hide Proposed, NoLaterOrOther, Life, Attempts;
    VoteIsCastIff(lib, digest, start, run, plan, body, Installed);
    AttemptsAreVotes(lib, digest, start, run);
    VotesAreRecorded(lib, digest, start, run);
    FewerConstraints(digest, Attempts(lib, digest, start, run), Life(lib, digest, start, run).votes, StartOf(plan), digest(body));
  }

  lemma FewerConstraints(digest: string -> string, some: set<Vote>, all: set<Vote>, epoch: int, bodyId: string)
    requires some <= all
    ensures NoLaterOrOther(digest, all, epoch, bodyId) ==> NoLaterOrOther(digest, some, epoch, bodyId)
  {
  }

  /** The actions of one authority in a run of the network. */
  function Own(run: seq<NetAction>, who: string): seq<Action> {
    if run == [] then [] else (if run[0].who == who then [run[0].what] else []) + Own(run[1..], who)
  }

  /** In a network each authority lives its own life. */
  lemma {:induction false} LivesApart(lib: Library, digest: string -> string, net: Net, run: seq<NetAction>, who: string)
    requires who in net
    ensures Run(lib, digest, net, run)[who] == Life(lib, digest, net[who], Own(run, who))
    decreases |run|
  {
    hide Act;
    if run != [] {
      var n := run[0];
      var next := if n.who in net then net[n.who := Act(lib, digest, net[n.who], n.what)] else net;
      LivesApart(lib, digest, next, run[1..], who);
      var rest := Own(run[1..], who);
      assert ([n.what] + rest)[1..] == rest;
      assert [] + rest == rest;
    }
  }
}
