/** Small types and facts about sequences shared by the models. */
module Prelude {

  datatype Option<+T> = None | Some(value: T)

  datatype Result<+T, +E> = Ok(value: T) | Err(error: E)

  /** A transaction hash in its hexadecimal form. */
  type Hash = string

  /** What the load tests remember of a transaction they handed to a node. */
  datatype TxRecord = TxRecord(hash: Hash, nonce: nat, timestamp: int)

  predicate Distinct<T(==)>(s: seq<T>) {
    forall i, j :: 0 <= i < j < |s| ==> s[i] != s[j]
  }

  function Elems<T>(s: seq<T>): set<T> {
    set x | x in s
  }

  function Min(a: int, b: int): int {
    if a <= b then a else b
  }

  /** The order in which `n` concurrent activities complete: each of them exactly once. */
  predicate CompletionOrder(order: seq<nat>, n: nat) {
    && |order| == n
    && Distinct(order)
    && forall k :: 0 <= k < n ==> order[k] < n
  }

  function Hashes(txs: seq<TxRecord>): seq<Hash> {
    seq(|txs|, i requires 0 <= i < |txs| => txs[i].hash)
  }

  lemma ElemsOfConcat<T>(a: seq<T>, b: seq<T>)
    ensures Elems(a + b) == Elems(a) + Elems(b)
  {
    forall x ensures x in Elems(a + b) <==> x in Elems(a) + Elems(b) {
      assert x in a + b <==> x in a || x in b;
    }
  }

  /** A sequence has as many different elements as entries exactly when no entry is repeated. */
  lemma {:induction false} DistinctByCount<T>(s: seq<T>)
    ensures |Elems(s)| <= |s|
    ensures |Elems(s)| == |s| <==> Distinct(s)
  {
    if s == [] {
      assert Elems(s) == {};
    } else {
      var init, last := s[..|s| - 1], s[|s| - 1];
      DistinctByCount(init);
      assert s == init + [last];
      assert Elems(s) == Elems(init) + {last};
      if last in init {
        assert Elems(s) == Elems(init);
        var i :| 0 <= i < |init| && init[i] == last;
        assert s[i] == s[|s| - 1];
      } else if Distinct(init) {
        assert Distinct(s);
      } else {
        var i, j :| 0 <= i < j < |init| && init[i] == init[j];
        assert s[i] == s[j];
      }
    }
  }

  /** The first `n` indices. */
  ghost function UpTo(n: nat): (r: set<nat>)
    ensures |r| == n
    ensures forall i: nat :: i in r <==> i < n
  {
    if n == 0 then {} else UpTo(n - 1) + {n - 1}
  }

  lemma SubsetOfSameSize<T>(a: set<T>, b: set<T>)
    requires a <= b && |a| == |b|
    ensures a == b
  {
    if a != b {
      var x :| x in b && x !in a;
      assert |b - {x}| == |b| - 1;
      SubsetCount(a, b - {x});
    }
  }

  lemma SubsetCount<T>(a: set<T>, b: set<T>)
    requires a <= b
    ensures |a| <= |b|
  {
    assert |b| == |a| + |b - a| by {
      assert b == a + (b - a);
    }
  }

  /** Every one of the `n` activities occurs in a completion order. */
  lemma EveryoneCompletes(order: seq<nat>, n: nat)
    requires CompletionOrder(order, n)
    ensures forall i: nat :: i < n ==> i in order
  {
    DistinctByCount(order);
    assert Elems(order) <= UpTo(n);
    SubsetOfSameSize(Elems(order), UpTo(n));
    forall i: nat | i < n ensures i in order {
      assert i in Elems(order);
    }
  }

  lemma MulMonotone(a: nat, b: nat, c: nat, d: nat)
    requires a <= b && c <= d
    ensures a * c <= b * d
  {
    assert a * c <= b * c;
    assert b * c <= b * d;
  }
}
