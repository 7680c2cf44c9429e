/** `IdempotencyWindow` (partition.rs): a queue of operation ids and a map from
    id to sequence, updated in place. */
module Idempotency {
  import opened Words
  import opened WalCodec
  import opened LogFold
  import opened StoreOps

  class IdempotencyWindow {
    const capacity: nat
    var order: seq<OpId>
    var seqs: map<OpId, nat>

    ghost predicate Valid()
      reads this
    {
      0 < capacity && |order| <= capacity && Known(order, seqs)
    }

    /** The ids in the window with their sequences, oldest first. */
    ghost function Contents(): Window
      reads this
      requires Valid()
    {
      Pairs(order, seqs)
    }

    constructor (capacity: nat)
      ensures Valid() && Contents() == [] && this.capacity == if capacity == 0 then 1 else capacity
    {
      this.capacity := if capacity == 0 then 1 else capacity;
      order, seqs := [], map[];
    }

    /** `get` and the search of the window agree. */
    method Get(op: OpId) returns (r: Option<nat>)
      requires Valid()
      ensures r == Lookup(Contents(), op)
    {
      LookupPairs(order, seqs, op);
      r := if op in seqs then Some(seqs[op]) else None;
    }

    /** Drop the oldest ids beyond the capacity. */
    method Evict()
      requires 0 < capacity && Known(order, seqs)
      modifies `order, `seqs
      ensures Valid() && Contents() == LastN(old(Pairs(order, seqs)), capacity)
    {
      ghost var grown := Pairs(order, seqs);
      while |order| > capacity
        invariant Known(order, seqs)
        invariant |order| <= |grown| && Pairs(order, seqs) == grown[|grown| - |order|..]
        invariant |grown| <= capacity ==> |order| == |grown|
        invariant |grown| > capacity ==> |order| >= capacity
      {
        PopPairs(order, seqs);
        var oldest := order[0];
        order := order[1..];
        seqs := seqs - {oldest};
      }
    }

    method Record(op: OpId, s: nat)
      requires Valid()
      modifies `order, `seqs
      ensures Valid() && Contents() == Recorded(old(Contents()), capacity, op, s)
    {
      hide Renew, LastN;
      RecordPairs(order, seqs, op, s);
      var known := op in seqs;
      seqs := seqs[op := s];
      if !known {
        order := order + [op];
      }
      Evict();
    }

    /** The window as saved in a snapshot. */
    method Entries() returns (r: seq<(OpId, nat)>)
      requires Valid()
      ensures r == Contents()
    {
      r := [];
      for i := 0 to |order|
        invariant r == Pairs(order, seqs)[..i]
      {
        if order[i] in seqs {
          r := r + [(order[i], seqs[order[i]])];
        }
      }
    }
  }

  /** The queue has each id once, and the map has the same ids. */
  ghost predicate Known(order: seq<OpId>, seqs: map<OpId, nat>) {
    (forall i, j :: 0 <= i < j < |order| ==> order[i] != order[j]) && (forall id :: id in seqs <==> id in order)
  }

  ghost function Pairs(order: seq<OpId>, seqs: map<OpId, nat>): Window
    requires forall id :: id in order ==> id in seqs
  {
    seq(|order|, i requires 0 <= i < |order| => (order[i], seqs[order[i]]))
  }

  lemma {:induction false} LookupPairs(order: seq<OpId>, seqs: map<OpId, nat>, op: OpId)
    requires forall id :: id in order ==> id in seqs
    ensures Lookup(Pairs(order, seqs), op) == if op in order then Some(seqs[op]) else None
  {
    if order != [] {
      var n := |order| - 1;
      LookupPairs(order[..n], seqs, op);
      assert Pairs(order, seqs)[..n] == Pairs(order[..n], seqs);
      assert order == order[..n] + [order[n]];
    }
  }

  /** Inserting an id renews it in place or puts it last. */
  lemma RecordPairs(order: seq<OpId>, seqs: map<OpId, nat>, op: OpId, s: nat)
    requires forall id :: id in seqs <==> id in order
    ensures op in seqs ==>
              Pairs(order, seqs[op := s]) == Renew(Pairs(order, seqs), op, s)
              && InWindow(Pairs(order, seqs), op)
    ensures op !in seqs ==>
              Pairs(order + [op], seqs[op := s]) == Pairs(order, seqs) + [(op, s)]
              && !InWindow(Pairs(order, seqs), op)
  {
    if op in seqs {
      var i :| 0 <= i < |order| && order[i] == op;
      assert Pairs(order, seqs)[i].0 == op;
    }
  }

  /** Dropping the oldest id. */
  lemma PopPairs(order: seq<OpId>, seqs: map<OpId, nat>)
    requires order != [] && Known(order, seqs)
    ensures Known(order[1..], seqs - {order[0]})
    ensures Pairs(order[1..], seqs - {order[0]}) == Pairs(order, seqs)[1..]
  {
    forall id
      ensures id in seqs - {order[0]} <==> id in order[1..]
    {
      if id in order && id != order[0] {
        var i :| 0 <= i < |order| && order[i] == id;
        assert order[1..][i - 1] == id;
      }
    }
  }
}
