/** 64-bit words of a bitset: the masks used by the visited set and the
    tombstone bitmap of hnsw.rs. */
module Bits {

  /** A word with one bit set. */
  function OneBit(i: bv6): bv64 {
    (1 as bv64) << i
  }

  /** `slot & 63`. */
  function Low(slot: nat): bv6 {
    (slot % 64) as bv6
  }

  predicate Has(word: bv64, i: bv6) {
    word & OneBit(i) != 0
  }

  function With(word: bv64, i: bv6): bv64 {
    word | OneBit(i)
  }

  lemma SameBit(word: bv64, i: bv6)
    ensures Has(With(word, i), i)
  {
  }

  lemma MaskedApart(word: bv64, i: bv6, j: bv6)
    requires i != j
    ensures With(word, i) & OneBit(j) == word & OneBit(j)
  {
  }

  lemma OtherBit(word: bv64, i: bv6, j: bv6)
    requires i != j
    ensures Has(With(word, i), j) <==> Has(word, j)
  {
    MaskedApart(word, i, j);
  }

  lemma WithHas(word: bv64, i: bv6, j: bv6)
    ensures Has(With(word, i), j) <==> i == j || Has(word, j)
  {
    if i == j {
      SameBit(word, i);
    } else {
      OtherBit(word, i, j);
    }
  }

  lemma ZeroHasNone(i: bv6)
    ensures !Has(0, i)
  {
  }

  predicate Bit(word: bv64, slot: nat) {
    Has(word, Low(slot))
  }

  lemma LowBack(slot: nat)
    ensures Low(slot) as nat == slot % 64
  {
  }

  lemma LowApart(a: nat, b: nat)
    ensures Low(a) == Low(b) <==> a % 64 == b % 64
  {
    LowBack(a);
    LowBack(b);
  }

  /** Setting one bit of a word changes that bit only. */
  lemma SetBit(word: bv64, slot: nat, other: nat)
    ensures Bit(With(word, Low(slot)), other) <==> slot % 64 == other % 64 || Bit(word, other)
  {
    LowApart(slot, other);
    WithHas(word, Low(slot), Low(other));
  }

  /** The test both bitsets make for a slot. */
  predicate InWords(words: seq<bv64>, slot: nat) {
    slot / 64 < |words| && Bit(words[slot / 64], slot)
  }

  /** The bitset holds exactly the slots of `s`. */
  ghost predicate Holds(words: seq<bv64>, s: set<nat>) {
    && (forall x :: x in s ==> x < 64 * |words|)
    && forall x: nat {:trigger InWords(words, x)} :: InWords(words, x) <==> x in s
  }

  lemma HoldsAfterSet(words: seq<bv64>, s: set<nat>, slot: nat)
    requires Holds(words, s) && slot < 64 * |words|
    ensures Holds(words[slot / 64 := With(words[slot / 64], Low(slot))], s + {slot})
  {
    var w := slot / 64;
    var after := words[w := With(words[w], Low(slot))];
    forall x: nat
      ensures InWords(after, x) <==> x in s + {slot}
    {
      assert InWords(words, x) <==> x in s;
      if x / 64 == w {
        SetBit(words[w], slot, x);
        assert x % 64 == slot % 64 <==> x == slot;
      }
    }
  }

  /** A zero word added at the end holds nothing. */
  lemma HoldsAfterGrow(words: seq<bv64>, s: set<nat>)
    requires Holds(words, s)
    ensures Holds(words + [0], s)
  {
    forall x: nat
      ensures InWords(words + [0], x) <==> x in s
    {
      assert InWords(words, x) <==> x in s;
      ZeroHasNone(Low(x));
    }
  }
}

/** The reusable visited set of the beam search (`Visited`). */
module VisitedSet {
  import opened Bits

  class Visited {
    var bits: seq<bv64>
    var touched: seq<nat>
    /** The slots whose bit is set. */
    ghost var slots: set<nat>

    /** Every nonzero word has a touched slot in it, so clearing the touched
        words clears the set. */
    ghost predicate Valid()
      reads this
    {
      && Holds(bits, slots)
      && (forall i :: 0 <= i < |touched| ==> touched[i] < 64 * |bits|)
      && (forall w :: 0 <= w < |bits| && bits[w] != 0 ==> exists i :: 0 <= i < |touched| && touched[i] / 64 == w)
    }

    constructor ()
      ensures Valid() && slots == {}
    {
      bits, touched, slots := [], [], {};
      new;
    }

    /** After a reset the set is empty whatever it held before, and it has
        room for `count` slots. */
    method Reset(count: nat)
      requires Valid()
      modifies this
      ensures Valid() && slots == {} && count <= 64 * |bits|
    {
      for i := 0 to |touched|
        invariant touched == old(touched) && |bits| == |old(bits)|
        invariant forall j :: 0 <= j < |touched| ==> touched[j] < 64 * |bits|
        invariant forall w :: 0 <= w < |bits| && bits[w] != 0 ==> exists j :: i <= j < |touched| && touched[j] / 64 == w
      {
        bits := bits[touched[i] / 64 := 0];
      }
      touched, slots := [], {};
      var words := (count + 63) / 64;
      if |bits| < words {
        bits := bits + seq(words - |bits|, _ => 0);
      }
    }

    /** Returns true when the slot was not yet in the set. */
    method Insert(slot: nat) returns (isNew: bool)
      requires Valid() && slot < 64 * |bits|
      modifies this
      ensures Valid() && |bits| == |old(bits)|
      ensures isNew <==> slot !in old(slots)
      ensures slots == old(slots) + {slot}
    {
      var word := bits[slot / 64];
      assert InWords(bits, slot) <==> slot in slots;
      if Bit(word, slot) {
        return false;
      }
      HoldsAfterSet(bits, slots, slot);
      ghost var before := touched;
      if word == 0 {
        touched := touched + [slot];
      }
      forall w | 0 <= w < |bits| && (bits[w] != 0 || w == slot / 64)
        ensures exists i :: 0 <= i < |touched| && touched[i] / 64 == w
      {
        if bits[w] == 0 {
          assert touched[|touched| - 1] / 64 == w;
        } else {
          var i :| 0 <= i < |before| && before[i] / 64 == w;
          assert touched[i] / 64 == w;
        }
      }
      bits := bits[slot / 64 := With(word, Low(slot))];
      slots := slots + {slot};
      isNew := true;
    }
  }
}
