/** The browser's conversation history: an asynchronous write queue that behaves like a synchronous store. */
module Lifecycle {
  import opened Prelude

  type Id = string

  datatype Conversation = Conversation(id: Id, content: string)

  type Records = map<Id, Conversation>

  // A queued operation; a write remembers the generation it was requested in.
  datatype Operation = Put(record: Conversation, generation: nat) | Remove(id: Id) | Wipe

  /** Executing one operation against the store, under the generation and tombstones of that moment. */
  function Execute(records: Records, op: Operation, generation: nat, deleted: set<Id>): Records {
    match op
    case Put(r, g) => if g != generation || r.id in deleted then records else records[r.id := r]
    case Remove(id) => records - {id}
    case Wipe => map[]
  }

  class Store {
    var records: Records

    constructor ()
      ensures records == map[]
    {
      records := map[];
    }
  }

  class ConversationLifecycle {
    var tail: seq<Operation>
    var generation: nat
    var deleted: set<Id>

    constructor ()
      ensures View() == QueueState([], 0, {})
    {
      tail, generation, deleted := [], 0, {};
    }

    function View(): QueueState
      reads this
    {
      QueueState(tail, generation, deleted)
    }

    /** The caller's record is copied now; whether it is written is decided when its turn comes. */
    method Persist(conversation: Conversation)
      modifies this`tail
      ensures View() == Request(old(View()), Persisting(conversation))
    {
      var record := conversation;
      tail := tail + [Put(record, generation)];
    }

    /** A deletion takes effect when it is requested; an invalid id is refused. */
    method Delete(id: Id) returns (ok: bool)
      modifies this`tail, this`deleted
      ensures ok <==> id != ""
      ensures View() == Request(old(View()), Deleting(id))
    {
      if id == "" { return false; }
      deleted := deleted + {id};
      tail := tail + [Remove(id)];
      return true;
    }

    method Clear()
      modifies this
      ensures View() == Request(old(View()), Clearing)
    {
      generation := generation + 1;
      deleted := {};
      tail := tail + [Wipe];
    }

    /** The next queued operation runs to its end. */
    method RunNext(store: Store) returns (done: bool)
      requires tail != []
      modifies this`tail, store
      ensures tail == old(tail[1..])
      ensures store.records == Execute(old(store.records), old(tail[0]), generation, deleted)
      ensures done <==> !old(tail[0]).Put? || (old(tail[0]).generation == generation && old(tail[0]).record.id !in deleted)
    {
      var op := tail[0];
      tail := tail[1..];
      match op {
        case Put(record, g) =>
          if g != generation || record.id in deleted { return false; }
          store.records := store.records[record.id := record];
        case Remove(id) => store.records := store.records - {id};
        case Wipe => store.records := map[];
      }
      return true;
    }
  }

  // ---- requests, and the store everybody has in mind

  datatype Ask = Persisting(record: Conversation) | Deleting(id: Id) | Clearing

  datatype QueueState = QueueState(tail: seq<Operation>, generation: nat, deleted: set<Id>)

  function Request(q: QueueState, a: Ask): QueueState {
    match a
    case Persisting(r) => q.(tail := q.tail + [Put(r, q.generation)])
    case Deleting(id) => if id == "" then q else q.(tail := q.tail + [Remove(id)], deleted := q.deleted + {id})
    case Clearing => QueueState(q.tail + [Wipe], q.generation + 1, {})
  }

  // A synchronous store: requests take effect at once, and a deleted id stays deleted until the next clear.
  datatype Simple = Simple(records: Records, deleted: set<Id>)

  function Apply(s: Simple, a: Ask): Simple {
    match a
    case Persisting(r) => if r.id in s.deleted then s else s.(records := s.records[r.id := r])
    case Deleting(id) => if id == "" then s else Simple(s.records - {id}, s.deleted + {id})
    case Clearing => Simple(map[], {})
  }

  function ApplyAll(s: Simple, asks: seq<Ask>): Simple {
    if asks == [] then s else Apply(ApplyAll(s, asks[..|asks| - 1]), asks[|asks| - 1])
  }

  // ---- any interleaving of requests with the queue's execution

  datatype System = System(queue: QueueState, records: Records)

  datatype Step = Asked(ask: Ask) | Ran

  function Act(s: System, a: Step): System {
    match a
    case Asked(ask) => s.(queue := Request(s.queue, ask))
    case Ran =>
      if s.queue.tail == [] then s
      else System(s.queue.(tail := s.queue.tail[1..]), Execute(s.records, s.queue.tail[0], s.queue.generation, s.queue.deleted))
  }

  function Run(s: System, run: seq<Step>): System {
    if run == [] then s else Act(Run(s, run[..|run| - 1]), run[|run| - 1])
  }

  /** The requests of a run, in the order they were made. */
  function Asks(run: seq<Step>): seq<Ask> {
    if run == [] then []
    else
      var init, last := Asks(run[..|run| - 1]), run[|run| - 1];
      if last.Asked? then init + [last.ask] else init
  }

  /** What the store will hold once the queue has run, if nothing more is asked. */
  function Drain(records: Records, tail: seq<Operation>, generation: nat, deleted: set<Id>): Records {
    if tail == [] then records
    else Execute(Drain(records, tail[..|tail| - 1], generation, deleted), tail[|tail| - 1], generation, deleted)
  }

  lemma DrainAppend(records: Records, tail: seq<Operation>, op: Operation, generation: nat, deleted: set<Id>)
    ensures Drain(records, tail + [op], generation, deleted) == Execute(Drain(records, tail, generation, deleted), op, generation, deleted)
  {
    assert (tail + [op])[..|tail|] == tail;
  }

  lemma {:induction false} DrainFromFront(records: Records, tail: seq<Operation>, generation: nat, deleted: set<Id>)
    requires tail != []
    ensures Drain(records, tail, generation, deleted) ==
            Drain(Execute(records, tail[0], generation, deleted), tail[1..], generation, deleted)
    decreases |tail|
  {
    var init := tail[..|tail| - 1];
    if |tail| > 1 {
      DrainFromFront(records, init, generation, deleted);
      assert tail[1..][..|tail| - 2] == init[1..];
    }
  }

  /** One more tombstone changes nothing but the entry of its own id. */
  lemma {:induction false} DrainTombstone(records: Records, tail: seq<Operation>, generation: nat, deleted: set<Id>, id: Id)
    ensures Drain(records, tail, generation, deleted + {id}) - {id} == Drain(records, tail, generation, deleted) - {id}
    decreases |tail|
  {
    if tail != [] {
      var init, op := tail[..|tail| - 1], tail[|tail| - 1];
      DrainTombstone(records, init, generation, deleted, id);
      OneTombstone(Drain(records, init, generation, deleted + {id}), Drain(records, init, generation, deleted), op, generation, deleted, id);
    }
  }

  lemma OneTombstone(a: Records, b: Records, op: Operation, generation: nat, deleted: set<Id>, id: Id)
    requires a - {id} == b - {id}
    ensures Execute(a, op, generation, deleted + {id}) - {id} == Execute(b, op, generation, deleted) - {id}
  {
    var x, y := Execute(a, op, generation, deleted + {id}), Execute(b, op, generation, deleted);
    forall k | k != id ensures (k in x <==> k in y) && (k in x ==> x[k] == y[k]) {
      assert k in a - {id} <==> k in b - {id};
      assert k in a <==> k in b;
      if k in a { assert (a - {id})[k] == (b - {id})[k]; }
    }
  }

  ghost predicate Inv(s: System, simple: Simple) {
    && s.queue.deleted == simple.deleted
    && Drain(s.records, s.queue.tail, s.queue.generation, s.queue.deleted) == simple.records
  }

  lemma AskKeepsInv(s: System, simple: Simple, ask: Ask)
    requires Inv(s, simple)
    ensures Inv(Act(s, Asked(ask)), Apply(simple, ask))
  {
    var q, after := s.queue, Request(s.queue, ask);
    hide Drain;
    if ask.Persisting? {
      DrainAppend(s.records, q.tail, Put(ask.record, q.generation), after.generation, after.deleted);
    } else if ask.Clearing? {
      DrainAppend(s.records, q.tail, Wipe, after.generation, after.deleted);
    } else if ask.id != "" {
      DrainTombstone(s.records, q.tail, q.generation, q.deleted, ask.id);
      DrainAppend(s.records, q.tail, Remove(ask.id), after.generation, after.deleted);
    }
  }

  lemma RanKeepsInv(s: System, simple: Simple)
    requires Inv(s, simple)
    ensures Inv(Act(s, Ran), simple)
  {
    if s.queue.tail != [] {
      DrainFromFront(s.records, s.queue.tail, s.queue.generation, s.queue.deleted);
    }
  }

  lemma {:induction false} RunKeepsInv(s: System, simple: Simple, run: seq<Step>)
    requires Inv(s, simple)
    ensures Inv(Run(s, run), ApplyAll(simple, Asks(run)))
  {
    hide Inv, Act, Apply;
    if run != [] {
      var init, last := run[..|run| - 1], run[|run| - 1];
      RunKeepsInv(s, simple, init);
      if last.Asked? {
        AskKeepsInv(Run(s, init), ApplyAll(simple, Asks(init)), last.ask);
        assert Asks(run)[..|Asks(run)| - 1] == Asks(init);
      } else {
        RanKeepsInv(Run(s, init), ApplyAll(simple, Asks(init)));
      }
    }
  }

  /** Refinement: whenever the queue is empty, the store is that of the synchronous store given the same requests. */
  lemma DrainedIsSimple(run: seq<Step>)
    requires Run(System(QueueState([], 0, {}), map[]), run).queue.tail == []
    ensures Run(System(QueueState([], 0, {}), map[]), run).records == ApplyAll(Simple(map[], {}), Asks(run)).records
  {
    var start := System(QueueState([], 0, {}), map[]);
    RunKeepsInv(start, Simple(map[], {}), run);
    hide Run, ApplyAll, Asks;
  }

  // ---- what that means for a deletion

  /** A record in the synchronous store was written by a request with no later deletion of it and no later clear. */
  lemma {:induction false} SurvivorsAreLatest(asks: seq<Ask>, id: Id)
    requires id != "" && id in ApplyAll(Simple(map[], {}), asks).records
    ensures exists i :: 0 <= i < |asks| && asks[i] == Persisting(ApplyAll(Simple(map[], {}), asks).records[id]) &&
              forall j :: i < j < |asks| ==> asks[j] != Clearing && asks[j] != Deleting(id)
    ensures ApplyAll(Simple(map[], {}), asks).records[id].id == id
    decreases |asks|
  {
    if asks != [] {
      var init, last := asks[..|asks| - 1], asks[|asks| - 1];
      var before, after := ApplyAll(Simple(map[], {}), init), ApplyAll(Simple(map[], {}), asks);
      if last.Persisting? && last.record.id == id && id !in before.deleted {
        assert asks[|asks| - 1] == Persisting(after.records[id]);
      } else {
        assert id in before.records && after.records[id] == before.records[id];
        SurvivorsAreLatest(init, id);
        var i :| 0 <= i < |init| && init[i] == Persisting(before.records[id]) &&
                 forall j :: i < j < |init| ==> init[j] != Clearing && init[j] != Deleting(id);
        assert asks[i] == init[i];
        forall j | i < j < |asks| ensures asks[j] != Clearing && asks[j] != Deleting(id) {
          if j < |init| { assert asks[j] == init[j]; }
        }
      }
    }
  }

  /** No write asked for before a deletion or a clear survives it, whenever its turn in the queue comes. */
  lemma NothingComesBack(run: seq<Step>, id: Id)
    requires Run(System(QueueState([], 0, {}), map[]), run).queue.tail == []
    requires id != "" && id in Run(System(QueueState([], 0, {}), map[]), run).records
    ensures exists i :: 0 <= i < |Asks(run)| &&
              Asks(run)[i] == Persisting(Run(System(QueueState([], 0, {}), map[]), run).records[id]) &&
              forall j :: i < j < |Asks(run)| ==> Asks(run)[j] != Clearing && Asks(run)[j] != Deleting(id)
  {
    DrainedIsSimple(run);
    SurvivorsAreLatest(Asks(run), id);
    hide Run, ApplyAll, Asks;
  }

  // ---- exactly what is kept

  /** A deletion of the id among the first n requests has not been followed by a clear among them. */
  ghost predicate Tombstoned(asks: seq<Ask>, n: int, id: Id) {
    exists j :: 0 <= j < n && j < |asks| && asks[j] == Deleting(id) && NoClear(asks, j, n)
  }

  predicate NoClear(asks: seq<Ask>, j: int, n: int) {
    forall k :: 0 <= j < k < n && k < |asks| ==> asks[k] != Clearing
  }

  predicate Concerns(a: Ask, id: Id) {
    a == Clearing || a == Deleting(id) || (a.Persisting? && a.record.id == id)
  }

  /** The i-th request wrote the id while it was not deleted, and nothing later concerns it. */
  ghost predicate LastWritten(asks: seq<Ask>, i: int, id: Id) {
    && 0 <= i < |asks| && asks[i].Persisting? && asks[i].record.id == id && !Tombstoned(asks, i, id)
    && forall k :: i < k < |asks| ==> !Concerns(asks[k], id)
  }

  lemma TombstoneGrows(init: seq<Ask>, last: Ask, id: Id)
    ensures Tombstoned(init + [last], |init| + 1, id) <==> last == Deleting(id) || (last != Clearing && Tombstoned(init, |init|, id))
    ensures forall n :: 0 <= n <= |init| ==> (Tombstoned(init + [last], n, id) <==> Tombstoned(init, n, id))
  {
    var asks, m := init + [last], |init|;
    forall n | 0 <= n <= m ensures Tombstoned(asks, n, id) <==> Tombstoned(init, n, id) {
      forall j | 0 <= j < n ensures NoClear(asks, j, n) <==> NoClear(init, j, n) {
        ClearGrows(init, last, j, n);
      }
      hide NoClear;
    }
    forall j | 0 <= j < m ensures NoClear(asks, j, m + 1) <==> NoClear(init, j, m) && last != Clearing {
      ClearGrows(init, last, j, m);
      assert asks[m] == last;
    }
    assert NoClear(asks, m, m + 1);
    hide NoClear;
    assert asks[m] == last;
    if j :| 0 <= j < m && init[j] == Deleting(id) && NoClear(init, j, m) && last != Clearing {
      assert asks[j] == Deleting(id) && NoClear(asks, j, m + 1);
    }
  }

  lemma ClearGrows(init: seq<Ask>, last: Ask, j: int, n: int)
    requires 0 <= j < n <= |init|
    ensures NoClear(init + [last], j, n) <==> NoClear(init, j, n)
  {
    assert forall k :: 0 <= k < |init| ==> (init + [last])[k] == init[k];
  }

  lemma {:induction false} DeletedIff(asks: seq<Ask>, id: Id)
    requires id != ""
    ensures id in ApplyAll(Simple(map[], {}), asks).deleted <==> Tombstoned(asks, |asks|, id)
    decreases |asks|
  {
    if asks != [] {
      var init, last := asks[..|asks| - 1], asks[|asks| - 1];
      assert asks == init + [last];
      DeletedIff(init, id);
      TombstoneGrows(init, last, id);
      hide Tombstoned;
    }
  }

  lemma WrittenGrows(init: seq<Ask>, last: Ask, id: Id, i: int)
    ensures LastWritten(init + [last], i, id) <==>
      (i == |init| && last.Persisting? && last.record.id == id && !Tombstoned(init, |init|, id)) ||
      (LastWritten(init, i, id) && !Concerns(last, id))
  {
    var asks := init + [last];
    TombstoneGrows(init, last, id);
    hide Tombstoned, Concerns;
    assert asks[|init|] == last;
    assert forall k :: 0 <= k < |init| ==> asks[k] == init[k];
  }

  /** What is written under a tombstone is not last written. */
  lemma TombstoneHides(asks: seq<Ask>, id: Id, i: int)
    requires Tombstoned(asks, |asks|, id)
    ensures !LastWritten(asks, i, id)
  {
    var j :| 0 <= j < |asks| && asks[j] == Deleting(id) && NoClear(asks, j, |asks|);
    if i <= j {
      assert Concerns(asks[j], id);
    } else {
      assert NoClear(asks, j, i);
    }
  }

  /** A synchronous store holds a record under an id exactly when it was written while not deleted and nothing later concerns it. */
  lemma {:induction false} SimpleHoldsIff(asks: seq<Ask>, id: Id, r: Conversation)
    requires id != ""
    ensures (id in ApplyAll(Simple(map[], {}), asks).records && ApplyAll(Simple(map[], {}), asks).records[id] == r) <==>
            exists i :: LastWritten(asks, i, id) && asks[i].record == r
    decreases |asks|
  {
    if asks != [] {
      var init, last := asks[..|asks| - 1], asks[|asks| - 1];
      var before, after := ApplyAll(Simple(map[], {}), init), ApplyAll(Simple(map[], {}), asks);
      assert asks == init + [last];
      SimpleHoldsIff(init, id, r);
      DeletedIff(init, id);
      forall i ensures LastWritten(asks, i, id) <==>
        (i == |init| && last.Persisting? && last.record.id == id && !Tombstoned(init, |init|, id)) ||
        (LastWritten(init, i, id) && !Concerns(last, id))
      {
        WrittenGrows(init, last, id, i);
      }
      if Tombstoned(init, |init|, id) {
        forall i ensures !LastWritten(init, i, id) {
          TombstoneHides(init, id, i);
        }
      }
      LastStep(init, last, id, r, before, after);
    }
  }

  lemma LastStep(init: seq<Ask>, last: Ask, id: Id, r: Conversation, before: Simple, after: Simple)
    requires id != "" && after == Apply(before, last)
    requires (id in before.records && before.records[id] == r) <==> exists i :: LastWritten(init, i, id) && init[i].record == r
    requires id in before.deleted <==> Tombstoned(init, |init|, id)
    requires Tombstoned(init, |init|, id) ==> forall i :: !LastWritten(init, i, id)
    requires forall i :: LastWritten(init + [last], i, id) <==>
      (i == |init| && last.Persisting? && last.record.id == id && !Tombstoned(init, |init|, id)) ||
      (LastWritten(init, i, id) && !Concerns(last, id))
    ensures (id in after.records && after.records[id] == r) <==>
            exists i :: LastWritten(init + [last], i, id) && (init + [last])[i].record == r
  {
    var asks := init + [last];
    assert forall i :: LastWritten(init, i, id) ==> 0 <= i < |init| && asks[i] == init[i];
    hide LastWritten, Tombstoned;
    assert asks[|init|] == last;
    if last.Persisting? && last.record.id == id {
      if id !in before.deleted && last.record == r {
        assert LastWritten(asks, |init|, id);
      }
    } else if !Concerns(last, id) {
      assert after.records.Keys * {id} == before.records.Keys * {id};
    }
  }

  /** Whenever the queue is empty the store holds exactly the last words on every conversation, whatever was asked and in which order it ran. */
  lemma StoreHoldsIff(run: seq<Step>, id: Id, r: Conversation)
    requires Run(System(QueueState([], 0, {}), map[]), run).queue.tail == [] && id != ""
    ensures var records := Run(System(QueueState([], 0, {}), map[]), run).records;
      (id in records && records[id] == r) <==> exists i :: LastWritten(Asks(run), i, id) && Asks(run)[i].record == r
  {
    DrainedIsSimple(run);
    SimpleHoldsIff(Asks(run), id, r);
    hide Run, ApplyAll, Asks, LastWritten;
  }
}
