/** The bearer's side of a paid request, and bearer, wallet and gateway together. */
module Bearer {
  import opened Prelude
  import opened RedemptionStores
  import opened Wallets
  import opened Cost
  import Runs = RedemptionRuns
  import G = Gateway

  // ---- one request

  /** The outcomes that put the token back; a missing or unknown one does not. */
  predicate Reusable(header: string) {
    header == "refunded" || header == "rejected"
  }

  predicate Trusted(header: string) {
    Reusable(header) || header == "spent" || header == "invalid"
  }

  function HeaderOf(outcome: G.Outcome): string {
    match outcome
    case Spent => "spent"
    case Refunded => "refunded"
    case Rejected => "rejected"
    case Invalid => "invalid"
  }

  function Conclude(p: Purse, tok: Token, presented: bool, reusable: bool): Purse {
    if !presented || reusable then Put(p, tok) else p
  }

  class TokenTracker {
    const token: Token
    var presented: bool
    var reusable: bool

    constructor (token: Token)
      ensures this.token == token && !presented && !reusable
    {
      this.token, presented, reusable := token, false, false;
    }
  }

  class Server {
    const tokens: Wallet

    constructor (tokens: Wallet)
      ensures this.tokens == tokens
    {
      this.tokens := tokens;
    }

    /** Applies the gateway's outcome, and passes on only an outcome it knows. */
    method ModifyResponse(tracked: TokenTracker, header: string) returns (shown: string)
      modifies tracked`reusable
      ensures tracked.reusable == (old(tracked.reusable) || Reusable(header))
      ensures shown == if Trusted(header) then header else ""
    {
      shown := "";
      if header == "refunded" || header == "rejected" {
        tracked.reusable := true;
        shown := header;
      } else if header == "spent" || header == "invalid" {
        shown := header;
      }
    }

    /** wrote is whether any part of the request was handed to the transport; response is the gateway's answer, if any came. */
    method WithToken(reply: MintReply, wrote: bool, response: Option<string>) returns (taken: Option<Token>)
      modifies tokens
      ensures taken == Take(tokens.receipt, old(tokens.View()), reply).1
      ensures var (p, tok) := Take(tokens.receipt, old(tokens.View()), reply);
              tokens.View() == if tok.None? then p
                               else Conclude(p, tok.value, wrote, response.Some? && Reusable(response.value))
    {
      taken := tokens.TakeOne(reply);
      if taken.None? { return; }
      var tracked := new TokenTracker(taken.value);
      if wrote { tracked.presented := true; }
      if response.Some? {
        var shown := ModifyResponse(tracked, response.value);
      }
      if !tracked.presented || tracked.reusable {
        tokens.PutBack(taken.value);
      }
    }
  }

  /** The words of the gateway, and the two of them that prove a token unused: any other header, or none, leaves it with the gateway. */
  lemma WordsOfTheGateway(header: string)
    ensures HeaderOf(G.Spent) == "spent" && HeaderOf(G.Refunded) == "refunded" && HeaderOf(G.Rejected) == "rejected" && HeaderOf(G.Invalid) == "invalid"
    ensures Reusable(header) <==> header == HeaderOf(G.Refunded) || header == HeaderOf(G.Rejected)
    ensures Trusted(header) <==> exists outcome :: header == HeaderOf(outcome)
  {
    assert header == HeaderOf(G.Spent) || header == HeaderOf(G.Refunded) || header == HeaderOf(G.Rejected) || header == HeaderOf(G.Invalid)
           ==> exists outcome :: header == HeaderOf(outcome);
  }

  /** A token is on hand again after its request exactly when nothing was written or the answer was one of those two words. */
  lemma ComesBackIff(p: Purse, tok: Token, wrote: bool, response: Option<string>)
    ensures var after := Conclude(p, tok, wrote, response.Some? && Reusable(response.value));
      if !wrote || response == Some("refunded") || response == Some("rejected") then
        after.tokens == p.tokens + [tok] && after.spent == (if p.spent > 0 then p.spent - 1 else 0) && after.sent == p.sent
      else after == p
  {
  }

  // ---- everything at once

  // delivered is whether the gateway got the request; reusable is what the tracker records.
  datatype Flight = Flight(tok: Token, delivered: bool, reusable: bool)

  datatype World = World(purse: Purse, flights: map<nat, Flight>, gone: set<Runs.TokenId>, bought: set<Runs.TokenId>, gate: G.State)

  datatype Action =
    | TakeToken(id: nat, reply: MintReply)
    | Restock(reply: MintReply, cancelled: bool)
    | Deliver(id: nat, keyAccepted: bool, verifies: bool, pick: Option<G.Pick>)
    | Hear(id: nat)                   // the gateway's answer arrives
    | Finish(id: nat, presented: bool)
    | AtGateway(a: G.Action)

  datatype Setup = Setup(receipt: string, batch: int)

  function Buys(setup: Setup, p: Purse, reply: MintReply): set<Runs.TokenId> {
    match Buy(setup.receipt, p, reply).1
    case None => {}
    case Some(tok) => {Runs.IdOf(tok)}
  }

  /** The identities newly bought by an action. */
  function Bought(setup: Setup, w: World, a: Action): set<Runs.TokenId> {
    match a
    case TakeToken(id, reply) =>
      if id in w.flights || id in w.gate.requests || w.purse.tokens != [] then {} else Buys(setup, w.purse, reply)
    case Restock(reply, cancelled) => if |w.purse.tokens| >= setup.batch || cancelled then {} else Buys(setup, w.purse, reply)
    case _ => {}
  }

  ghost function Act(setup: Setup, w: World, a: Action): World {
    var w := w.(bought := w.bought + Bought(setup, w, a));
    match a
    case TakeToken(id, reply) =>
      if id in w.flights || id in w.gate.requests then w
      else
        var (p, tok) := Take(setup.receipt, w.purse, reply);
        w.(purse := p, flights := if tok.None? then w.flights else w.flights[id := Flight(tok.value, false, false)])
    case Restock(reply, cancelled) => w.(purse := Stock(setup.receipt, setup.batch, w.purse, reply, cancelled).0)
    case Deliver(id, keyAccepted, verifies, pick) =>
      if id !in w.flights || w.flights[id].delivered then w
      else
        var r := G.Request(G.Read(w.flights[id].tok, keyAccepted, verifies), pick);
        w.(gate := G.Act(w.gate, G.Arrive(id, r)), flights := w.flights[id := w.flights[id].(delivered := true)])
    case Hear(id) =>
      if id !in w.flights || id !in w.gate.requests || !w.gate.requests[id].phase.Answered? then w
      else
        var reusable := w.flights[id].reusable || Reusable(HeaderOf(w.gate.requests[id].phase.outcome));
        w.(flights := w.flights[id := w.flights[id].(reusable := reusable)])
    case Finish(id, presented) =>
      if id !in w.flights then w
      else
        var f := w.flights[id];
        w.(purse := Conclude(w.purse, f.tok, presented, f.reusable), flights := w.flights - {id},
           gone := if !presented || f.reusable then w.gone else w.gone + {Runs.IdOf(f.tok)})
    case AtGateway(b) => w.(gate := G.Act(w.gate, b))
  }

  // ---- what is assumed of the surroundings

  ghost predicate Unseen(s: G.State, t: Runs.TokenId) {
    t !in s.spent && forall id :: id in s.requests ==> G.Identity(s.requests[id]) != t
  }

  /**
   * New tokens are new; nobody else presents this wallet's tokens; a dial error means that the provider was not reached;
   * a request the gateway got was, by its end, seen as written by the bearer.
   */
  ghost predicate Fair(setup: Setup, w: World, a: Action) {
    && (forall t :: t in Bought(setup, w, a) ==> t !in w.bought && Unseen(w.gate, t))
    && (a.AtGateway? ==> G.HonestTransport(w.gate, a.a))
    && (a.AtGateway? && a.a.Arrive? ==>
          a.a.id !in w.flights && (a.a.request.header.Read? ==> Runs.IdOf(a.a.request.header.tok) !in w.bought))
    && (a.Finish? && a.id in w.flights && w.flights[a.id].delivered ==> a.presented)
  }

  // ---- the invariant

  predicate Harmless(phase: G.Phase) {
    phase == G.Answered(G.Rejected) || phase == G.Answered(G.Refunded)
  }

  /** No request but (perhaps) this one can still do anything with the token. */
  ghost predicate OnlyBy(s: G.State, t: Runs.TokenId, who: Option<nat>) {
    forall id :: id in s.requests && Some(id) != who && G.Identity(s.requests[id]) == t ==> Harmless(s.requests[id].phase)
  }

  ghost predicate Unspent(s: G.State, t: Runs.TokenId) {
    t !in s.spent && OnlyBy(s, t, None)
  }

  /** Once this request has come to a harmless end, or not yet touched the store, its token is not spent. */
  ghost predicate OwnRequest(s: G.State, t: Runs.TokenId, id: nat) {
    && OnlyBy(s, t, Some(id)) && id in s.requests && G.Identity(s.requests[id]) == t
    && (Harmless(s.requests[id].phase) || s.requests[id].phase.Examined? || s.requests[id].phase.Reserved? ==> t !in s.spent)
  }

  ghost predicate FlightOk(s: G.State, id: nat, f: Flight) {
    && (!f.delivered ==> Unspent(s, Runs.IdOf(f.tok)) && id !in s.requests && !f.reusable)
    && (f.delivered ==> OwnRequest(s, Runs.IdOf(f.tok), id))
    && (f.reusable ==> f.delivered && Harmless(s.requests[id].phase))
  }

  function IdAt(p: Purse, i: nat): Runs.TokenId
    requires i < |p.tokens|
  {
    Runs.IdOf(p.tokens[i])
  }

  function IdIn(w: World, id: nat): Runs.TokenId
    requires id in w.flights
  {
    Runs.IdOf(w.flights[id].tok)
  }

  /** Every token ever bought is in exactly one place: on hand, in flight, or gone. */
  ghost predicate Partitioned(w: World) {
    && (forall i, j :: 0 <= i < j < |w.purse.tokens| ==> IdAt(w.purse, i) != IdAt(w.purse, j))
    && (forall i, id :: 0 <= i < |w.purse.tokens| && id in w.flights ==> IdAt(w.purse, i) != IdIn(w, id))
    && (forall i, j :: i in w.flights && j in w.flights && i != j ==> IdIn(w, i) != IdIn(w, j))
    && (forall i :: 0 <= i < |w.purse.tokens| ==> IdAt(w.purse, i) !in w.gone && IdAt(w.purse, i) in w.bought)
    && (forall id :: id in w.flights ==> IdIn(w, id) !in w.gone && IdIn(w, id) in w.bought)
    && w.gone <= w.bought
    && (forall t :: t in w.bought && t !in w.gone ==>
          (exists i :: 0 <= i < |w.purse.tokens| && IdAt(w.purse, i) == t) || (exists id :: id in w.flights && IdIn(w, id) == t))
  }

  ghost predicate Inv(w: World) {
    && G.Inv(w.gate)
    && Partitioned(w)
    && w.purse.spent == |w.flights| + |w.gone|
    && (forall i :: 0 <= i < |w.purse.tokens| ==> Unspent(w.gate, IdAt(w.purse, i)))
    && (forall id :: id in w.flights ==> FlightOk(w.gate, id, w.flights[id]))
  }

  // ---- the gateway's steps leave other people's tokens alone

  predicate Brings(a: G.Action, t: Runs.TokenId) {
    a.Arrive? && a.request.header.Read? && Runs.IdOf(a.request.header.tok) == t
  }

  lemma OnlyByStays(s: G.State, a: G.Action, t: Runs.TokenId, who: Option<nat>)
    requires OnlyBy(s, t, who) && !Brings(a, t)
    ensures OnlyBy(G.Act(s, a), t, who)
  {
    hide G.Examine, G.NeverDispatched, G.Redeem;
  }

  lemma UnspentStays(s: G.State, a: G.Action, t: Runs.TokenId)
    requires Unspent(s, t) && !Brings(a, t)
    ensures Unspent(G.Act(s, a), t)
  {
    OnlyByStays(s, a, t, None);
  }

  lemma OwnRequestStays(s: G.State, a: G.Action, t: Runs.TokenId, id: nat)
    requires OwnRequest(s, t, id) && !Brings(a, t)
    ensures OwnRequest(G.Act(s, a), t, id)
    ensures Harmless(s.requests[id].phase) ==> Harmless(G.Act(s, a).requests[id].phase)
  {
    OnlyByStays(s, a, t, Some(id));
    if (a.SpendToken? || a.RefundToken?) && a.id in s.requests && a.id != id && G.Identity(s.requests[a.id]) == t {
      assert Harmless(s.requests[a.id].phase);
    }
    hide OnlyBy, G.Examine, G.NeverDispatched;
  }

  lemma FlightStays(s: G.State, a: G.Action, id: nat, f: Flight)
    requires FlightOk(s, id, f) && !Brings(a, Runs.IdOf(f.tok)) && (a.Arrive? ==> a.id != id)
    ensures FlightOk(G.Act(s, a), id, f)
  {
    hide Unspent, OwnRequest, Runs.IdOf;
    if f.delivered {
      OwnRequestStays(s, a, Runs.IdOf(f.tok), id);
      Known(s, Runs.IdOf(f.tok), id);
    } else {
      UnspentStays(s, a, Runs.IdOf(f.tok));
      NoNewRequest(s, a, id);
    }
  }

  lemma Known(s: G.State, t: Runs.TokenId, id: nat)
    requires OwnRequest(s, t, id)
    ensures id in s.requests
  {
  }

  lemma NoNewRequest(s: G.State, a: G.Action, id: nat)
    requires id !in s.requests && (a.Arrive? ==> a.id != id)
    ensures id !in G.Act(s, a).requests
  {
    hide G.Examine, G.NeverDispatched, G.Redeem;
  }

  lemma NothingBought(setup: Setup, w: World, a: Action)
    requires Bought(setup, w, a) == {}
    ensures w.bought + Bought(setup, w, a) == w.bought
  {
  }

  lemma GatewayMoves(setup: Setup, w: World, a: Action)
    requires a.AtGateway? && Fair(setup, w, a)
    ensures Act(setup, w, a) == w.(gate := G.Act(w.gate, a.a)) && G.HonestTransport(w.gate, a.a)
    ensures forall t :: t in w.bought ==> !Brings(a.a, t)
    ensures a.a.Arrive? ==> a.a.id !in w.flights
  {
    NothingBought(setup, w, a);
    hide G.Act, G.HonestTransport, Unseen;
  }

  lemma GatewayKeepsInv(setup: Setup, w: World, a: Action)
    requires a.AtGateway? && Inv(w) && Fair(setup, w, a)
    ensures Inv(Act(setup, w, a))
  {
    hide G.Inv, G.Act, G.HonestTransport, Unspent, FlightOk, Runs.IdOf, Brings, Act, Fair;
    GatewayMoves(setup, w, a);
    G.ActKeepsInv(w.gate, a.a);
    var gate := G.Act(w.gate, a.a);
    forall i | 0 <= i < |w.purse.tokens| ensures Unspent(gate, IdAt(w.purse, i)) {
      assert IdAt(w.purse, i) in w.bought;
      UnspentStays(w.gate, a.a, IdAt(w.purse, i));
    }
    forall id | id in w.flights ensures FlightOk(gate, id, w.flights[id]) {
      assert IdIn(w, id) in w.bought;
      FlightStays(w.gate, a.a, id, w.flights[id]);
    }
    PartitionUntouched(w, w.(gate := gate));
    hide Partitioned;
  }

  lemma PartitionUntouched(w: World, after: World)
    requires Partitioned(w) && after.purse.tokens == w.purse.tokens && after.gone == w.gone && after.bought == w.bought
    requires after.flights.Keys == w.flights.Keys && forall id :: id in w.flights ==> IdIn(after, id) == IdIn(w, id)
    ensures Partitioned(after)
  {
    hide Runs.IdOf;
    assert forall i :: 0 <= i < |w.purse.tokens| ==> IdAt(after.purse, i) == IdAt(w.purse, i);
  }

  // ---- the bearer's own steps

  lemma PartitionTake(w: World, after: World, id: nat, tok: Token)
    requires Partitioned(w) && w.purse.tokens != [] && tok == w.purse.tokens[|w.purse.tokens| - 1] && id !in w.flights
    requires after.purse.tokens == w.purse.tokens[..|w.purse.tokens| - 1] && after.gone == w.gone && after.bought == w.bought
    requires after.flights == w.flights[id := Flight(tok, false, false)]
    ensures Partitioned(after)
  {
    hide Runs.IdOf;
    var last := |w.purse.tokens| - 1;
    assert forall i :: 0 <= i < last ==> IdAt(after.purse, i) == IdAt(w.purse, i);
    assert IdIn(after, id) == IdAt(w.purse, last);
    assert forall j :: j in w.flights ==> IdIn(after, j) == IdIn(w, j);
    hide IdAt, IdIn;
  }

  lemma PartitionBuy(w: World, after: World, id: nat, tok: Token)
    requires Partitioned(w) && id !in w.flights && Runs.IdOf(tok) !in w.bought
    requires after.purse.tokens == w.purse.tokens && after.gone == w.gone && after.bought == w.bought + {Runs.IdOf(tok)}
    requires after.flights == w.flights[id := Flight(tok, false, false)]
    ensures Partitioned(after)
  {
    hide Runs.IdOf;
    assert forall i :: 0 <= i < |w.purse.tokens| ==> IdAt(after.purse, i) == IdAt(w.purse, i);
    assert IdIn(after, id) == Runs.IdOf(tok);
    assert forall j :: j in w.flights ==> IdIn(after, j) == IdIn(w, j);
    hide IdAt, IdIn;
  }

  lemma PartitionStock(w: World, after: World, tok: Token)
    requires Partitioned(w) && Runs.IdOf(tok) !in w.bought
    requires after.purse.tokens == w.purse.tokens + [tok] && after.gone == w.gone && after.bought == w.bought + {Runs.IdOf(tok)}
    requires after.flights == w.flights
    ensures Partitioned(after)
  {
    hide Runs.IdOf;
    var last := |w.purse.tokens|;
    assert forall i :: 0 <= i < last ==> IdAt(after.purse, i) == IdAt(w.purse, i);
    assert IdAt(after.purse, last) == Runs.IdOf(tok);
    assert forall j :: j in w.flights ==> IdIn(after, j) == IdIn(w, j);
    hide IdAt, IdIn;
  }

  lemma PartitionReturn(w: World, after: World, id: nat)
    requires Partitioned(w) && id in w.flights
    requires after.purse.tokens == w.purse.tokens + [w.flights[id].tok] && after.gone == w.gone && after.bought == w.bought
    requires after.flights == w.flights - {id}
    ensures Partitioned(after)
  {
    hide Runs.IdOf;
    var last := |w.purse.tokens|;
    assert forall i :: 0 <= i < last ==> IdAt(after.purse, i) == IdAt(w.purse, i);
    assert IdAt(after.purse, last) == IdIn(w, id);
    assert forall j :: j in after.flights ==> IdIn(after, j) == IdIn(w, j);
    hide IdAt, IdIn;
  }

  lemma PartitionLose(w: World, after: World, id: nat)
    requires Partitioned(w) && id in w.flights
    requires after.purse.tokens == w.purse.tokens && after.gone == w.gone + {IdIn(w, id)} && after.bought == w.bought
    requires after.flights == w.flights - {id}
    ensures Partitioned(after)
  {
    hide Runs.IdOf;
    assert forall i :: 0 <= i < |w.purse.tokens| ==> IdAt(after.purse, i) == IdAt(w.purse, i);
    assert forall j :: j in after.flights ==> IdIn(after, j) == IdIn(w, j);
    hide IdAt, IdIn;
  }

  lemma UnseenIsUnspent(s: G.State, t: Runs.TokenId)
    requires Unseen(s, t)
    ensures Unspent(s, t)
  {
  }

  /** A token leaves the wallet for a new flight, or is bought for it, or nothing happens. */
  lemma TakeMoves(setup: Setup, w: World, a: Action)
    requires a.TakeToken? && Fair(setup, w, a)
    ensures var after := Act(setup, w, a);
      || (after.purse.tokens == w.purse.tokens && after.purse.spent == w.purse.spent && after == w.(purse := after.purse))
      || (w.purse.tokens != [] && a.id !in w.flights && a.id !in w.gate.requests &&
          var tok := w.purse.tokens[|w.purse.tokens| - 1];
          after.purse.tokens == w.purse.tokens[..|w.purse.tokens| - 1] && after.purse.spent == w.purse.spent + 1 &&
          after == w.(purse := after.purse, flights := w.flights[a.id := Flight(tok, false, false)]))
      || (w.purse.tokens == [] && a.id !in w.flights && a.id !in w.gate.requests && a.reply.Issues? &&
          var t := Runs.IdOf(a.reply.tok);
          t !in w.bought && Unseen(w.gate, t) && after.purse.tokens == [] && after.purse.spent == w.purse.spent + 1 &&
          after == w.(purse := after.purse, flights := w.flights[a.id := Flight(a.reply.tok, false, false)], bought := w.bought + {t}))
  {
    hide Unseen, Runs.IdOf;
    if Bought(setup, w, a) == {} {
      NothingBought(setup, w, a);
    }
  }

  lemma TakeKeepsInv(setup: Setup, w: World, a: Action)
    requires a.TakeToken? && Inv(w) && Fair(setup, w, a)
    ensures Inv(Act(setup, w, a))
  {
    hide G.Inv, Unspent, Unseen, Runs.IdOf, Partitioned, Act, Fair;
    var after := Act(setup, w, a);
    TakeMoves(setup, w, a);
    if after.flights == w.flights {
      PartitionUntouched(w, after);
    } else if w.purse.tokens != [] {
      assert Unspent(w.gate, IdAt(w.purse, |w.purse.tokens| - 1));
      PartitionTake(w, after, a.id, w.purse.tokens[|w.purse.tokens| - 1]);
    } else {
      UnseenIsUnspent(w.gate, Runs.IdOf(a.reply.tok));
      PartitionBuy(w, after, a.id, a.reply.tok);
    }
    assert forall i :: 0 <= i < |after.purse.tokens| ==> IdAt(after.purse, i) == IdAt(w.purse, i);
  }

  lemma RestockMoves(setup: Setup, w: World, a: Action)
    requires a.Restock? && Fair(setup, w, a)
    ensures var after := Act(setup, w, a);
      && after.purse.spent == w.purse.spent
      && ((after.purse.tokens == w.purse.tokens && after == w.(purse := after.purse))
          || (a.reply.Issues? &&
              var t := Runs.IdOf(a.reply.tok);
              t !in w.bought && Unseen(w.gate, t) && after.purse.tokens == w.purse.tokens + [a.reply.tok] &&
              after == w.(purse := after.purse, bought := w.bought + {t})))
  {
    hide Unseen, Runs.IdOf;
    if Bought(setup, w, a) == {} {
      NothingBought(setup, w, a);
    }
  }

  lemma RestockKeepsInv(setup: Setup, w: World, a: Action)
    requires a.Restock? && Inv(w) && Fair(setup, w, a)
    ensures Inv(Act(setup, w, a))
  {
    hide G.Inv, Unspent, Unseen, FlightOk, Runs.IdOf, Partitioned, Act, Fair;
    var after := Act(setup, w, a);
    RestockMoves(setup, w, a);
    if after.purse.tokens == w.purse.tokens {
      PartitionUntouched(w, after);
    } else {
      UnseenIsUnspent(w.gate, Runs.IdOf(a.reply.tok));
      PartitionStock(w, after, a.reply.tok);
      assert IdAt(after.purse, |w.purse.tokens|) == Runs.IdOf(a.reply.tok);
    }
    assert forall i :: 0 <= i < |w.purse.tokens| ==> IdAt(after.purse, i) == IdAt(w.purse, i);
  }

  // ---- a request of one's own

  lemma ArriveOwn(s: G.State, id: nat, tok: Token, r: G.Request)
    requires Unspent(s, Runs.IdOf(tok)) && id !in s.requests && r.header.Read? && r.header.tok == tok
    ensures OwnRequest(G.Act(s, G.Arrive(id, r)), Runs.IdOf(tok), id)
  {
    hide EstimateCostMicros;
  }

  lemma DeliverMoves(setup: Setup, w: World, a: Action)
    requires a.Deliver?
    ensures Act(setup, w, a) ==
      if a.id !in w.flights || w.flights[a.id].delivered then w
      else
        var r := G.Request(G.Read(w.flights[a.id].tok, a.keyAccepted, a.verifies), a.pick);
        w.(gate := G.Act(w.gate, G.Arrive(a.id, r)), flights := w.flights[a.id := w.flights[a.id].(delivered := true)])
  {
    NothingBought(setup, w, a);
    hide G.Act;
  }

  lemma DeliverKeepsInv(setup: Setup, w: World, a: Action)
    requires a.Deliver? && Inv(w)
    ensures Inv(Act(setup, w, a))
  {
    hide G.Inv, G.Act, Unspent, OwnRequest, OnlyBy, Runs.IdOf, Act, Partitioned;
    DeliverMoves(setup, w, a);
    if a.id in w.flights && !w.flights[a.id].delivered {
      var f, after := w.flights[a.id], Act(setup, w, a);
      var r := G.Request(G.Read(f.tok, a.keyAccepted, a.verifies), a.pick);
      assert FlightOk(w.gate, a.id, f);
      ArriveOwn(w.gate, a.id, f.tok, r);
      G.ActKeepsInv(w.gate, G.Arrive(a.id, r));
      OthersUntouched(w, G.Arrive(a.id, r));
      PartitionUntouched(w, after);
      assert FlightOk(after.gate, a.id, after.flights[a.id]);
      SameFlights(w, after);
      hide FlightOk;
    }
  }

  lemma SameFlights(w: World, after: World)
    requires w.flights.Keys == after.flights.Keys
    ensures |w.flights| == |after.flights|
  {
    assert |w.flights.Keys| == |w.flights| && |after.flights.Keys| == |after.flights|;
  }

  /** A request with a flight's token does not concern the wallet's other tokens. */
  lemma OthersUntouched(w: World, b: G.Action)
    requires Inv(w) && b.Arrive? && b.id in w.flights && b.request.header.Read? && b.request.header.tok == w.flights[b.id].tok
    ensures forall i :: 0 <= i < |w.purse.tokens| ==> Unspent(G.Act(w.gate, b), IdAt(w.purse, i))
    ensures forall id :: id in w.flights && id != b.id ==> FlightOk(G.Act(w.gate, b), id, w.flights[id])
  {
    hide G.Inv, G.Act, Unspent, FlightOk, Runs.IdOf;
    forall i | 0 <= i < |w.purse.tokens| ensures Unspent(G.Act(w.gate, b), IdAt(w.purse, i)) {
      assert IdAt(w.purse, i) != IdIn(w, b.id);
      UnspentStays(w.gate, b, IdAt(w.purse, i));
    }
    forall id | id in w.flights && id != b.id ensures FlightOk(G.Act(w.gate, b), id, w.flights[id]) {
      assert IdIn(w, id) != IdIn(w, b.id);
      FlightStays(w.gate, b, id, w.flights[id]);
    }
  }

  lemma HearMoves(setup: Setup, w: World, a: Action)
    requires a.Hear?
    ensures var after := Act(setup, w, a);
      || after == w
      || (a.id in w.flights && a.id in w.gate.requests && w.gate.requests[a.id].phase.Answered? &&
          var f := w.flights[a.id];
          after == w.(flights := w.flights[a.id := f.(reusable := after.flights[a.id].reusable)]) &&
          (after.flights[a.id].reusable <==> f.reusable || Harmless(w.gate.requests[a.id].phase)))
  {
    NothingBought(setup, w, a);
  }

  lemma HearKeepsInv(setup: Setup, w: World, a: Action)
    requires a.Hear? && Inv(w)
    ensures Inv(Act(setup, w, a))
  {
    hide G.Inv, Unspent, OwnRequest, Runs.IdOf, Act, Partitioned, Harmless;
    HearMoves(setup, w, a);
    var after := Act(setup, w, a);
    if after != w {
      assert FlightOk(w.gate, a.id, w.flights[a.id]);
      assert FlightOk(w.gate, a.id, after.flights[a.id]);
      hide FlightOk;
      PartitionUntouched(w, after);
      SameFlights(w, after);
    }
  }

  lemma FinishMoves(setup: Setup, w: World, a: Action)
    requires a.Finish? && Fair(setup, w, a)
    ensures var after := Act(setup, w, a);
      if a.id !in w.flights then after == w
      else
        var f := w.flights[a.id];
        && (f.delivered && !f.reusable ==> a.presented)
        && after == (if !a.presented || f.reusable then w.(purse := Put(w.purse, f.tok), flights := w.flights - {a.id})
                     else w.(flights := w.flights - {a.id}, gone := w.gone + {IdIn(w, a.id)}))
        && (!a.presented ==> !f.delivered)
  {
    NothingBought(setup, w, a);
    hide Unseen, Runs.IdOf;
  }

  lemma FinishKeepsInv(setup: Setup, w: World, a: Action)
    requires a.Finish? && Inv(w) && Fair(setup, w, a)
    ensures Inv(Act(setup, w, a))
  {
    hide G.Inv, Unspent, Runs.IdOf, Act, Fair, Partitioned, FlightOk;
    FinishMoves(setup, w, a);
    var after := Act(setup, w, a);
    if a.id in w.flights {
      FewerFlights(w, a.id);
      if !a.presented || w.flights[a.id].reusable {
        ComesBackClean(w, a.id);
        PartitionReturn(w, after, a.id);
        assert forall i :: 0 <= i < |w.purse.tokens| ==> IdAt(after.purse, i) == IdAt(w.purse, i);
        assert IdAt(after.purse, |w.purse.tokens|) == IdIn(w, a.id);
      } else {
        PartitionLose(w, after, a.id);
        NotGoneYet(w, a.id);
        assert forall i :: 0 <= i < |w.purse.tokens| ==> IdAt(after.purse, i) == IdAt(w.purse, i);
      }
    }
  }

  lemma NotGoneYet(w: World, id: nat)
    requires Partitioned(w) && id in w.flights
    ensures IdIn(w, id) !in w.gone
  {
  }

  lemma FewerFlights(w: World, id: nat)
    requires id in w.flights
    ensures |w.flights - {id}| == |w.flights| - 1 && |w.flights| > 0
  {
    assert (w.flights - {id}).Keys == w.flights.Keys - {id};
  }

  /** What the tracker lets back into the wallet was not spent. */
  lemma ComesBackClean(w: World, id: nat)
    requires Inv(w) && id in w.flights && (!w.flights[id].delivered || w.flights[id].reusable)
    ensures Unspent(w.gate, IdIn(w, id))
  {
    hide G.Inv, Partitioned, Runs.IdOf;
    assert FlightOk(w.gate, id, w.flights[id]);
  }

  // ---- runs

  lemma ActKeepsInv(setup: Setup, w: World, a: Action)
    requires Inv(w) && Fair(setup, w, a)
    ensures Inv(Act(setup, w, a))
  {
    hide Inv, Fair, Act;
    match a
    case TakeToken(_, _) => TakeKeepsInv(setup, w, a);
    case Restock(_, _) => RestockKeepsInv(setup, w, a);
    case Deliver(_, _, _, _) => DeliverKeepsInv(setup, w, a);
    case Hear(_) => HearKeepsInv(setup, w, a);
    case Finish(_, _) => FinishKeepsInv(setup, w, a);
    case AtGateway(_) => GatewayKeepsInv(setup, w, a);
  }

  ghost function Run(setup: Setup, w: World, run: seq<Action>): World
    decreases |run|
  {
    if run == [] then w else Run(setup, Act(setup, w, run[0]), run[1..])
  }

  ghost predicate FairRun(setup: Setup, w: World, run: seq<Action>)
    decreases |run|
  {
    run == [] || (Fair(setup, w, run[0]) && FairRun(setup, Act(setup, w, run[0]), run[1..]))
  }

  lemma {:induction false} RunKeepsInv(setup: Setup, w: World, run: seq<Action>)
    requires Inv(w) && FairRun(setup, w, run)
    ensures Inv(Run(setup, w, run))
    decreases |run|
  {
    hide Inv, Fair, Act;
    if run != [] {
      ActKeepsInv(setup, w, run[0]);
      RunKeepsInv(setup, Act(setup, w, run[0]), run[1..]);
    }
  }

  /**
   * At every moment of every fair run: no token on hand is recorded as spent, every token ever bought is in exactly one of
   * wallet, flight and gone, and the wallet's own counter is the number of tokens that are not on hand.
   */
  lemma HonestWallet(setup: Setup, w: World, run: seq<Action>)
    requires Inv(w) && FairRun(setup, w, run)
    ensures var after := Run(setup, w, run);
            && (forall tok :: tok in after.purse.tokens ==> Runs.IdOf(tok) !in after.gate.spent)
            && Partitioned(after)
            && after.purse.spent == |after.flights| + |after.gone|
  {
    RunKeepsInv(setup, w, run);
    var after := Run(setup, w, run);
    hide Run, G.Inv, Partitioned, FlightOk;
    forall tok | tok in after.purse.tokens ensures Runs.IdOf(tok) !in after.gate.spent {
      var i :| 0 <= i < |after.purse.tokens| && after.purse.tokens[i] == tok;
      assert Unspent(after.gate, IdAt(after.purse, i));
    }
  }

  /** A new wallet, before a gateway in any state. */
  lemma NewWallet(gate: G.State)
    requires G.Inv(gate)
    ensures Inv(World(Purse([], 0, false, 0), map[], {}, {}, gate))
  {
    hide G.Inv;
  }

  /** From a new wallet and a gateway that has just started, whatever it had recorded as spent before. */
  lemma HonestFromTheStart(setup: Setup, spent: set<Runs.TokenId>, run: seq<Action>)
    requires FairRun(setup, World(Purse([], 0, false, 0), map[], {}, {}, G.State(spent, map[], map[])), run)
    ensures var after := Run(setup, World(Purse([], 0, false, 0), map[], {}, {}, G.State(spent, map[], map[])), run);
            && (forall tok :: tok in after.purse.tokens ==> Runs.IdOf(tok) !in after.gate.spent)
            && Partitioned(after)
            && after.purse.spent == |after.flights| + |after.gone|
  {
    hide G.Inv, Inv, Partitioned, Run, FairRun;
    G.JustStarted(spent);
    NewWallet(G.State(spent, map[], map[]));
    HonestWallet(setup, World(Purse([], 0, false, 0), map[], {}, {}, G.State(spent, map[], map[])), run);
  }

  /** A request that meets no gateway, and a refill: what they do to the purse is what the verified code does. */
  lemma StepsAreTheCode(setup: Setup, w: World, id: nat, reply: MintReply, wrote: bool, cancelled: bool)
    requires id !in w.flights && id !in w.gate.requests
    ensures Act(setup, w, Restock(reply, cancelled)).purse == Stock(setup.receipt, setup.batch, w.purse, reply, cancelled).0
    ensures var (p, tok) := Take(setup.receipt, w.purse, reply);
      var taken := Act(setup, w, TakeToken(id, reply));
      && (tok.None? ==> taken.purse == p && taken.flights == w.flights)
      && (tok.Some? ==> Act(setup, taken, Finish(id, wrote)).purse == Conclude(p, tok.value, wrote, false) &&
                        Act(setup, taken, Finish(id, wrote)).flights == w.flights)
  {
    hide Runs.IdOf, Take, Stock, Buys;
    var taken := Act(setup, w, TakeToken(id, reply));
    if Take(setup.receipt, w.purse, reply).1.Some? {
      assert taken.flights - {id} == w.flights;
    }
  }

  /** The answers that reach the bearer decide: heard and finished, a token is on hand again exactly when its request was never written or ended refunded or rejected. */
  lemma HeardAndFinished(setup: Setup, w: World, id: nat, presented: bool)
    requires id in w.flights && !w.flights[id].reusable && id in w.gate.requests && w.gate.requests[id].phase.Answered?
    ensures var after := Act(setup, Act(setup, w, Hear(id)), Finish(id, presented));
      var outcome := w.gate.requests[id].phase.outcome;
      && after.purse.tokens == w.purse.tokens + (if !presented || outcome == G.Refunded || outcome == G.Rejected then [w.flights[id].tok] else [])
      && after.gate == w.gate && id !in after.flights
  {
    NothingBought(setup, w, Hear(id));
    NothingBought(setup, Act(setup, w, Hear(id)), Finish(id, presented));
    hide Runs.IdOf;
    assert w.purse.tokens + [] == w.purse.tokens;
  }

  /** A token on hand is good: whenever it is next presented, in any fair run, the gateway's store grants it. */
  lemma TokensOnHandAreGood(setup: Setup, w: World, run: seq<Action>, tok: Token)
    requires Inv(w) && FairRun(setup, w, run) && tok in Run(setup, w, run).purse.tokens && ValidToken(Some(tok))
    ensures G.Redeem(Run(setup, w, run).gate.spent, Op.Spend(Some(tok)), G.Answers).1 == Done
  {
    hide Inv, FairRun, Run;
    HonestWallet(setup, w, run);
  }

  lemma StartsWhole(w: World, tok: Token)
    requires w == World(Purse([tok], 0, false, 0), map[], {}, {Runs.IdOf(tok)}, G.State({}, map[], map[]))
    ensures Inv(w)
  {
    assert IdAt(w.purse, 0) == Runs.IdOf(tok);
  }

  lemma FirstSteps(setup: Setup, w0: World, w1: World, w2: World, tok: Token, pick: G.Pick, r: G.Request)
    requires r == G.Request(G.Read(tok, true, true), Some(pick)) && G.Examine(r).Go?
    requires w0 == World(Purse([tok], 0, false, 0), map[], {}, {Runs.IdOf(tok)}, G.State({}, map[], map[]))
    requires w1 == World(Purse([], 1, false, 0), map[0 := Flight(tok, false, false)], {}, {Runs.IdOf(tok)}, G.State({}, map[], map[]))
    requires w2 == World(Purse([], 1, false, 0), map[0 := Flight(tok, true, false)], {}, {Runs.IdOf(tok)},
                         G.State({}, map[0 := G.Presented(r)], map[]))
    ensures Act(setup, w0, TakeToken(0, NoKey)) == w1
    ensures Act(setup, w1, Deliver(0, true, true, Some(pick))) == w2
  {
    hide EstimateCostMicros, Runs.IdOf;
    NothingBought(setup, w0, TakeToken(0, NoKey));
    NothingBought(setup, w1, Deliver(0, true, true, Some(pick)));
    assert [tok][..0] == [];
  }

  lemma LastSteps(setup: Setup, w2: World, w3: World, w4: World, tok: Token, r: G.Request)
    requires r.header == G.Read(tok, true, true) && G.Examine(r).Go?
    requires ValidToken(Some(tok)) && w2.gate == G.State({}, map[0 := G.Presented(r)], map[])
    requires w2.purse.tokens == [] && w2.flights == map[0 := Flight(tok, true, false)]
    requires w3 == w2.(gate := G.State({}, map[0 := G.Presented(r).(phase := G.Reserved)], map[0 := G.Presented(r).charge]))
    requires w4 == w2.(gate := G.State({Runs.IdOf(tok)}, map[0 := G.Presented(r).(phase := G.Paid)], map[0 := G.Presented(r).charge]))
    ensures Act(setup, w2, AtGateway(G.ReserveBudget(0, true))) == w3
    ensures Act(setup, w3, AtGateway(G.SpendToken(0, G.Answers))) == w4
    ensures Act(setup, w4, Finish(0, false)).purse.tokens == [tok] && Act(setup, w4, Finish(0, false)).gate == w4.gate
  {
    hide Runs.IdOf;
    NothingBought(setup, w2, AtGateway(G.ReserveBudget(0, true)));
    NothingBought(setup, w3, AtGateway(G.SpendToken(0, G.Answers)));
    NothingBought(setup, w4, Finish(0, false));
    assert G.Act(w2.gate, G.ReserveBudget(0, true)) == w3.gate;
    assert G.Act(w3.gate, G.SpendToken(0, G.Answers)) == w4.gate;
    assert [] + [tok] == [tok];
  }

  /**
   * The premise about writing is needed: if a request that reached the gateway could end as never written, the wallet would
   * take back a token that is recorded as spent.
   */
  lemma UnseenWriteBringsBackSpentToken(setup: Setup, tok: Token, pick: G.Pick)
    requires ValidToken(Some(tok)) && G.Examine(G.Request(G.Read(tok, true, true), Some(pick))).Go?
    ensures var start := World(Purse([tok], 0, false, 0), map[], {}, {Runs.IdOf(tok)}, G.State({}, map[], map[]));
            var end := Run(setup, start, [TakeToken(0, NoKey), Deliver(0, true, true, Some(pick)), AtGateway(G.ReserveBudget(0, true)),
                                          AtGateway(G.SpendToken(0, G.Answers)), Finish(0, false)]);
            && Inv(start)
            && end.purse.tokens == [tok] && Runs.IdOf(tok) in end.gate.spent
  {
    var r := G.Request(G.Read(tok, true, true), Some(pick));
    var id := Runs.IdOf(tok);
    var w0 := World(Purse([tok], 0, false, 0), map[], {}, {id}, G.State({}, map[], map[]));
    var run := [TakeToken(0, NoKey), Deliver(0, true, true, Some(pick)), AtGateway(G.ReserveBudget(0, true)),
                AtGateway(G.SpendToken(0, G.Answers)), Finish(0, false)];
    var gone: set<Runs.TokenId>, none: seq<Action> := {}, [];
    var w1 := World(Purse([], 1, false, 0), map[0 := Flight(tok, false, false)], gone, {id}, G.State({}, map[], map[]));
    var w2 := World(Purse([], 1, false, 0), map[0 := Flight(tok, true, false)], gone, {id},
                    G.State({}, map[0 := G.Presented(r)], map[]));
    var w3 := w2.(gate := G.State({}, map[0 := G.Presented(r).(phase := G.Reserved)], map[0 := G.Presented(r).charge]));
    var w4 := w2.(gate := G.State({id}, map[0 := G.Presented(r).(phase := G.Paid)], map[0 := G.Presented(r).charge]));
    StartsWhole(w0, tok);
    FirstSteps(setup, w0, w1, w2, tok, pick, r);
    LastSteps(setup, w2, w3, w4, tok, r);
    var w5 := Act(setup, w4, run[4]);
    hide Act, Inv, G.Examine;
    assert run[1..] == [run[1], run[2], run[3], run[4]] && run[1..][1..] == [run[2], run[3], run[4]];
    assert [run[2], run[3], run[4]][1..] == [run[3], run[4]] && [run[3], run[4]][1..] == [run[4]] && [run[4]][1..] == none;
    assert Run(setup, w4, [run[4]]) == Run(setup, w5, none) == w5;
    assert Run(setup, w3, [run[3], run[4]]) == w5;
    assert Run(setup, w2, [run[2], run[3], run[4]]) == w5;
    assert Run(setup, w1, run[1..]) == w5;
  }
}
