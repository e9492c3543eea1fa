/** The bearer's wallet: tokens on hand, the mint they are bought from, and the one-shot payment receipt. */
module Wallets {
  import opened Prelude
  import opened RedemptionStores

  // What one attempt to buy meets: no verified mint key, a refusal or failure of /issue, or a token.
  datatype MintReply = NoKey | Refuses | Issues(tok: Token)

  // The receipt is empty for an open mint. sent counts the requests that carried it to /issue.
  datatype Purse = Purse(tokens: seq<Token>, spent: nat, receiptPresented: bool, sent: nat)

  function Buy(receipt: string, p: Purse, reply: MintReply): (Purse, Option<Token>) {
    if reply.NoKey? || (receipt != "" && p.receiptPresented) then (p, None)
    else
      var asked := p.(receiptPresented := p.receiptPresented || receipt != "", sent := p.sent + 1);
      (asked, if reply.Issues? then Some(reply.tok) else None)
  }

  /** Taking a token: the newest on hand, or one bought on the spot. */
  function Take(receipt: string, p: Purse, reply: MintReply): (Purse, Option<Token>) {
    if p.tokens != [] then
      (p.(tokens := p.tokens[..|p.tokens| - 1], spent := p.spent + 1), Some(p.tokens[|p.tokens| - 1]))
    else
      var (after, tok) := Buy(receipt, p, reply);
      (if tok.Some? then after.(spent := after.spent + 1) else after, tok)
  }

  function Put(p: Purse, tok: Token): Purse {
    p.(tokens := p.tokens + [tok], spent := if p.spent > 0 then p.spent - 1 else 0)
  }

  /** One round of the background refill; false when refilling stops. */
  function Stock(receipt: string, batch: int, p: Purse, reply: MintReply, cancelled: bool): (Purse, bool) {
    if |p.tokens| >= batch || cancelled then (p, false)
    else
      var (after, tok) := Buy(receipt, p, reply);
      if tok.None? then (after, false) else (after.(tokens := after.tokens + [tok.value]), true)
  }

  function Fill(receipt: string, batch: int, p: Purse, replies: seq<MintReply>): Purse
    decreases |replies|
  {
    if replies == [] then p
    else
      var (after, more) := Stock(receipt, batch, p, replies[0], false);
      if more then Fill(receipt, batch, after, replies[1..]) else after
  }

  class Wallet {
    const receipt: string
    const batch: int
    const lowWater: int
    var receiptPresented: bool
    var tokens: seq<Token>
    var spent: nat
    var refill: bool  // the one-place refill channel
    var sent: nat

    constructor (receipt: string, batch: int)
      ensures this.receipt == receipt && this.batch == (if batch < 1 then 8 else batch) && lowWater == this.batch / 2
      ensures View() == Purse([], 0, false, 0) && !refill
    {
      var size := if batch < 1 then 8 else batch;
      this.receipt, this.batch, this.lowWater := receipt, size, size / 2;
      receiptPresented, tokens, spent, refill, sent := false, [], 0, false, 0;
    }

    function View(): Purse
      reads this
    {
      Purse(tokens, spent, receiptPresented, sent)
    }

    method BuyOne(reply: MintReply) returns (tok: Option<Token>)
      modifies this`receiptPresented, this`sent
      ensures (View(), tok) == Buy(receipt, old(View()), reply)
    {
      if reply.NoKey? { return None; }
      if receipt != "" {
        if receiptPresented { return None; }
        // Marked before the call: the response may be lost after the mint has claimed the receipt.
        receiptPresented := true;
      }
      sent := sent + 1;
      return if reply.Issues? then Some(reply.tok) else None;
    }

    method TakeOne(reply: MintReply) returns (tok: Option<Token>)
      modifies this
      ensures (View(), tok) == Take(receipt, old(View()), reply)
      ensures refill == (old(refill) || (tok.Some? && (old(tokens) == [] || |tokens| <= lowWater)))
    {
      var n := |tokens|;
      if n > 0 {
        tok := Some(tokens[n - 1]);
        tokens, spent := tokens[..n - 1], spent + 1;
        if |tokens| <= lowWater { refill := true; }
        return;
      }
      tok := BuyOne(reply);
      if tok.None? { return; }
      spent := spent + 1;
      refill := true;
    }

    method PutBack(tok: Token)
      modifies this`tokens, this`spent
      ensures View() == Put(old(View()), tok)
    {
      tokens := tokens + [tok];
      if spent > 0 { spent := spent - 1; }
    }

    /** Buys until stocked, until the mint stops answering, or for one batch; replies ends early where the context is cancelled. */
    method FillUp(replies: seq<MintReply>) returns (tried: nat)
      requires |replies| <= batch
      modifies this`tokens, this`receiptPresented, this`sent
      ensures View() == Fill(receipt, batch, old(View()), replies)
    {
      tried := 0;
      while tried < |replies|
        invariant 0 <= tried <= |replies|
        invariant spent == old(spent)
        invariant Fill(receipt, batch, View(), replies[tried..]) == Fill(receipt, batch, old(View()), replies)
      {
        ghost var before := View();
        assert replies[tried..][0] == replies[tried] && replies[tried..][1..] == replies[tried + 1..];
        if |tokens| >= batch { return; }
        var tok := BuyOne(replies[tried]);
        if tok.None? { return; }
        tokens := tokens + [tok.value];
        tried := tried + 1;
      }
    }
  }

  // ---- the receipt

  datatype WalletOp = TakeOp(reply: MintReply) | PutOp(tok: Token) | StockOp(reply: MintReply, cancelled: bool)

  function Do(receipt: string, batch: int, p: Purse, op: WalletOp): Purse {
    match op
    case TakeOp(reply) => Take(receipt, p, reply).0
    case PutOp(tok) => Put(p, tok)
    case StockOp(reply, cancelled) => Stock(receipt, batch, p, reply, cancelled).0
  }

  function DoAll(receipt: string, batch: int, p: Purse, ops: seq<WalletOp>): Purse
    decreases |ops|
  {
    if ops == [] then p else DoAll(receipt, batch, Do(receipt, batch, p, ops[0]), ops[1..])
  }

  /** A payment receipt reaches the mint at most once in the life of a wallet, however it is used. */
  lemma {:induction false} ReceiptIsOneShot(receipt: string, batch: int, p: Purse, ops: seq<WalletOp>)
    requires receipt != "" && p.sent == (if p.receiptPresented then 1 else 0)
    ensures DoAll(receipt, batch, p, ops).sent == (if DoAll(receipt, batch, p, ops).receiptPresented then 1 else 0)
    decreases |ops|
  {
    if ops != [] {
      ReceiptIsOneShot(receipt, batch, Do(receipt, batch, p, ops[0]), ops[1..]);
    }
  }

  /** A fill never overshoots the batch and takes nothing away; it is a run of single rounds. */
  lemma {:induction false} FillStaysInBatch(receipt: string, batch: int, p: Purse, replies: seq<MintReply>)
    ensures var after := Fill(receipt, batch, p, replies);
            && p.tokens <= after.tokens && |after.tokens| <= (if |p.tokens| > batch then |p.tokens| else batch)
            && after.spent == p.spent
    decreases |replies|
  {
    if replies != [] {
      FillStaysInBatch(receipt, batch, Stock(receipt, batch, p, replies[0], false).0, replies[1..]);
    }
  }

  /**
   * When a token is to be had: always while one is on hand, and then the newest; otherwise exactly when the mint answers with
   * one and the receipt, if the mint wants one, has not been shown before. Only what is handed out is counted.
   */
  lemma TokenIsHadIff(receipt: string, p: Purse, reply: MintReply)
    ensures var (after, tok) := Take(receipt, p, reply);
      && (tok.Some? <==> p.tokens != [] || (reply.Issues? && (receipt == "" || !p.receiptPresented)))
      && (p.tokens != [] ==> p.tokens == after.tokens + [tok.value] && after.sent == p.sent)
      && (p.tokens == [] && tok.Some? ==> tok == Some(reply.tok) && after.tokens == [])
      && after.spent == p.spent + (if tok.Some? then 1 else 0)
  {
  }

  predicate NeverAsks(op: WalletOp) {
    match op
    case TakeOp(reply) => reply.NoKey?
    case PutOp(_) => true
    case StockOp(reply, _) => reply.NoKey?
  }

  /** As long as no verified key was to be had the receipt is unused, so the first purchase that reaches a willing mint succeeds. */
  lemma {:induction false} ReceiptWaitsForAKey(receipt: string, batch: int, p: Purse, ops: seq<WalletOp>, tok: Token)
    requires !p.receiptPresented && forall op :: op in ops ==> NeverAsks(op)
    ensures var q := DoAll(receipt, batch, p, ops);
      && !q.receiptPresented && q.sent == p.sent
      && (q.tokens == [] ==> Take(receipt, q, Issues(tok)).1 == Some(tok))
    decreases |ops|
  {
    if ops != [] {
      assert NeverAsks(ops[0]);
      ReceiptWaitsForAKey(receipt, batch, Do(receipt, batch, p, ops[0]), ops[1..], tok);
    }
  }

  /** Once shown, a receipt buys nothing more, whatever the mint would say; an open mint never runs out. */
  lemma {:induction false} ShownReceiptBuysNothing(receipt: string, batch: int, p: Purse, ops: seq<WalletOp>, tok: Token)
    requires p.receiptPresented && receipt != ""
    ensures var q := DoAll(receipt, batch, p, ops);
      q.receiptPresented && q.sent == p.sent && (q.tokens == [] ==> Take(receipt, q, Issues(tok)).1 == None)
    decreases |ops|
  {
    if ops != [] {
      ShownReceiptBuysNothing(receipt, batch, Do(receipt, batch, p, ops[0]), ops[1..], tok);
    }
  }

  /** At an open mint that answers, a fill leaves exactly a batch, the tokens bought in the order they came. */
  lemma {:induction false} FillFills(batch: int, p: Purse, toks: seq<Token>, replies: seq<MintReply>)
    requires |replies| == |toks| && forall i :: 0 <= i < |toks| ==> replies[i] == Issues(toks[i])
    ensures var room := if batch > |p.tokens| then batch - |p.tokens| else 0;
      Fill("", batch, p, replies).tokens == p.tokens + toks[..if room <= |toks| then room else |toks|]
    decreases |toks|
  {
    if toks == [] || |p.tokens| >= batch {
      assert p.tokens + [] == p.tokens;
    } else {
      var next := Stock("", batch, p, replies[0], false).0;
      FillFills(batch, next, toks[1..], replies[1..]);
      var room := batch - |p.tokens|;
      var n := if room <= |toks| then room else |toks|;
      assert toks[..n] == [toks[0]] + toks[1..][..n - 1];
      assert next.tokens == p.tokens + [toks[0]];
    }
  }
}
