/** Byte order of names and texts: the order a sorted listing has. */
module TextOrder {
  import opened Words

  /** Byte order of texts, as a sorted listing has it. */
  predicate TextBefore(a: Bytes, b: Bytes) {
    if b == [] then false
    else if a == [] then true
    else a[0] < b[0] || (a[0] == b[0] && TextBefore(a[1..], b[1..]))
  }

  lemma {:induction false} FieldsOrder(a: Bytes, b: Bytes, restA: Bytes, restB: Bytes)
    requires |a| == |b|
    ensures TextBefore(a + restA, b + restB) <==> TextBefore(a, b) || (a == b && TextBefore(restA, restB))
    decreases |a|
  {
    if a == [] {
      assert a + restA == restA && b + restB == restB;
    } else {
      FieldsOrder(a[1..], b[1..], restA, restB);
      assert (a + restA)[1..] == a[1..] + restA && (b + restB)[1..] == b[1..] + restB;
      assert a == [a[0]] + a[1..] && b == [b[0]] + b[1..];
    }
  }

  lemma {:induction false} NotBoth(a: Bytes, b: Bytes)
    ensures !(TextBefore(a, b) && TextBefore(b, a)) && !TextBefore(a, a)
    ensures a != b ==> TextBefore(a, b) || TextBefore(b, a)
    decreases |a|
  {
    if a != [] && b != [] {
      NotBoth(a[1..], b[1..]);
      assert a == [a[0]] + a[1..] && b == [b[0]] + b[1..];
    }
    if a != [] {
      NotBoth(a[1..], a[1..]);
    }
  }

  lemma {:induction false} Transitive(a: Bytes, b: Bytes, c: Bytes)
    requires TextBefore(a, b) && TextBefore(b, c)
    ensures TextBefore(a, c)
    decreases |a|
  {
    if a != [] && a[0] == b[0] && b[0] == c[0] {
      Transitive(a[1..], b[1..], c[1..]);
    }
  }
}
