/** The probability heap of the bond engine
    (pair_prediction/tools/predict_bonds.py), at the level of detail the
    engine relies on: `heapq` keeps its list as a binary min-heap under
    `Pair.__lt__`, which is inverted, so the root is a pair of highest
    probability. The model keeps the heap as a sequence whose first element
    has the highest probability and does not fix where the other pairs sit;
    a push puts the new pair at the root exactly when it outranks the old
    root, as sifting up does, and a pop brings a highest-probability pair of
    the rest to the root. `list.remove` is modelled here as well, since the
    engine removes the popped pair from its candidate list with it. */
module ProbabilityHeap {
  import opened Wrappers
  import opened Pairs

  /** The first pair has the highest probability. */
  predicate RootMaximal(heap: seq<Pair>)
    reads set p | p in heap
  {
    forall i :: 0 <= i < |heap| ==> heap[i].probability <= heap[0].probability
  }

  /** No two pairs are equal under `Pair.__eq__`, that is, no two share a
      distance: what collecting the candidates in a `set` leaves. */
  predicate DistinctDistances(pairs: seq<Pair>) {
    forall i, j :: 0 <= i < j < |pairs| ==> !pairs[i].Equals(pairs[j])
  }

  /** `heapq.heappush`: the new pair rises to the root exactly when it is
      `__lt__` the root, i.e. has a strictly higher probability. */
  function Push(heap: seq<Pair>, pair: Pair): seq<Pair>
    reads (set p | p in heap), pair
  {
    if heap == [] || pair.Less(heap[0]) then [pair] + heap else heap + [pair]
  }

  /** A push adds exactly the pushed pair and keeps a maximal root. */
  lemma PushSpec(heap: seq<Pair>, pair: Pair)
    requires RootMaximal(heap)
    ensures multiset(Push(heap, pair)) == multiset(heap) + multiset{pair}
    ensures RootMaximal(Push(heap, pair))
    ensures |Push(heap, pair)| == |heap| + 1
  {
    var h := Push(heap, pair);
    if heap == [] || pair.Less(heap[0]) {
      assert forall i :: 1 <= i < |h| ==> h[i] == heap[i - 1];
    } else {
      assert forall i :: 0 <= i < |heap| ==> h[i] == heap[i];
    }
  }

  /** The pairs pushed one after another, in list order, onto an empty heap:
      the loop of `init_prob_heap`. */
  function Heapify(pairs: seq<Pair>): (h: seq<Pair>)
    reads set p | p in pairs
    ensures |h| == |pairs| && forall p :: p in h ==> p in pairs
  {
    if pairs == [] then []
    else
      var init := pairs[..|pairs| - 1];
      Push(Heapify(init), pairs[|pairs| - 1])
  }

  /** The rebuilt heap holds exactly the candidates and has a maximal root. */
  lemma {:induction false} HeapifySpec(pairs: seq<Pair>)
    ensures multiset(Heapify(pairs)) == multiset(pairs)
    ensures RootMaximal(Heapify(pairs))
  {
    if pairs != [] {
      var init := pairs[..|pairs| - 1];
      HeapifySpec(init);
      PushSpec(Heapify(init), pairs[|pairs| - 1]);
      assert pairs == init + [pairs[|pairs| - 1]];
    }
  }

  /** The first position holding a highest probability. */
  function MaxIndex(pairs: seq<Pair>): (m: nat)
    requires pairs != []
    reads set p | p in pairs
    ensures m < |pairs|
    ensures forall i :: 0 <= i < |pairs| ==> pairs[i].probability <= pairs[m].probability
  {
    if |pairs| == 1 then 0
    else
      var m := MaxIndex(pairs[..|pairs| - 1]);
      assert forall i :: 0 <= i < |pairs| - 1 ==> pairs[..|pairs| - 1][i] == pairs[i];
      if pairs[|pairs| - 1].probability > pairs[m].probability then |pairs| - 1 else m
  }

  /** The heap left by `heapq.heappop`, whose result is the old root. */
  function PopRest(heap: seq<Pair>): seq<Pair>
    requires heap != []
    reads set p | p in heap
  {
    var rest := heap[1..];
    if rest == [] then []
    else
      var m := MaxIndex(rest);
      [rest[m]] + rest[..m] + rest[m + 1..]
  }

  /** A pop removes exactly the root and leaves a maximal root. */
  lemma PopSpec(heap: seq<Pair>)
    requires heap != []
    ensures multiset(PopRest(heap)) == multiset(heap) - multiset{heap[0]}
    ensures RootMaximal(PopRest(heap))
    ensures |PopRest(heap)| == |heap| - 1
  {
    var rest := heap[1..];
    assert heap == [heap[0]] + rest;
    assert multiset(heap) - multiset{heap[0]} == multiset(rest);
    if rest != [] {
      var m := MaxIndex(rest);
      assert PopRest(heap) == [rest[m]] + rest[..m] + rest[m + 1..];
      MoveToFront(rest, m);
    }
  }

  /** Moving a highest-probability pair to the front keeps the pairs and
      makes the root maximal. */
  lemma MoveToFront(rest: seq<Pair>, m: nat)
    requires m < |rest|
    requires forall i :: 0 <= i < |rest| ==> rest[i].probability <= rest[m].probability
    ensures multiset([rest[m]] + rest[..m] + rest[m + 1..]) == multiset(rest)
    ensures RootMaximal([rest[m]] + rest[..m] + rest[m + 1..])
  {
    var h := [rest[m]] + rest[..m] + rest[m + 1..];
    assert rest == rest[..m] + [rest[m]] + rest[m + 1..];
    forall i | 0 <= i < |h| ensures h[i].probability <= h[0].probability {
      if 0 < i <= m {
        assert h[i] == rest[i - 1];
      } else if m < i {
        assert h[i] == rest[i];
      }
    }
  }

  /** `list.remove`: drops the first element equal under `Pair.__eq__`, a
      `ValueError` when there is none. */
  function Remove(pairs: seq<Pair>, pair: Pair): (r: Result<seq<Pair>>)
    ensures r.Err? <==> forall i :: 0 <= i < |pairs| ==> !pairs[i].Equals(pair)
    ensures r.Err? ==> r.error == ValueError
  {
    if pairs == [] then Err(ValueError)
    else if pairs[0].Equals(pair) then Ok(pairs[1..])
    else
      var rest :- Remove(pairs[1..], pair);
      Ok([pairs[0]] + rest)
  }

  /** `list.remove` of an element that no earlier element equals removes
      exactly that position. */
  lemma {:induction false} RemoveAt(pairs: seq<Pair>, k: nat)
    requires k < |pairs|
    requires forall i :: 0 <= i < k ==> !pairs[i].Equals(pairs[k])
    ensures Remove(pairs, pairs[k]) == Ok(pairs[..k] + pairs[k + 1..])
  {
    if k == 0 {
      assert pairs[..0] + pairs[1..] == pairs[1..];
    } else {
      var tail := pairs[1..];
      assert tail[k - 1] == pairs[k];
      RemoveAt(tail, k - 1);
      assert [pairs[0]] + (tail[..k - 1] + tail[k..]) == pairs[..k] + pairs[k + 1..];
    }
  }

  /** Among pairs of distinct distances, removing a member drops that very
      pair and nothing else. */
  lemma RemoveMember(pairs: seq<Pair>, pair: Pair)
    requires DistinctDistances(pairs) && pair in pairs
    ensures Remove(pairs, pair).Ok?
    ensures multiset(Remove(pairs, pair).value) == multiset(pairs) - multiset{pair}
    ensures DistinctDistances(Remove(pairs, pair).value)
    ensures pair !in Remove(pairs, pair).value
  {
    var k :| 0 <= k < |pairs| && pairs[k] == pair;
    RemoveAt(pairs, k);
    DropIndex(pairs, k);
  }

  /** Dropping one position of a list without repeated distances. */
  lemma DropIndex(pairs: seq<Pair>, k: nat)
    requires k < |pairs| && DistinctDistances(pairs)
    ensures multiset(pairs[..k] + pairs[k + 1..]) == multiset(pairs) - multiset{pairs[k]}
    ensures DistinctDistances(pairs[..k] + pairs[k + 1..])
    ensures pairs[k] !in pairs[..k] + pairs[k + 1..]
  {
    var r := pairs[..k] + pairs[k + 1..];
    assert pairs == pairs[..k] + [pairs[k]] + pairs[k + 1..];
    forall i, j | 0 <= i < j < |r| ensures !r[i].Equals(r[j]) {
      var i' := if i < k then i else i + 1;
      var j' := if j < k then j else j + 1;
      assert r[i] == pairs[i'] && r[j] == pairs[j'];
    }
    forall i | 0 <= i < |r| ensures r[i] != pairs[k] {
      var i' := if i < k then i else i + 1;
      assert r[i] == pairs[i'];
      assert i' < k ==> !pairs[i'].Equals(pairs[k]);
      assert i' > k ==> !pairs[k].Equals(pairs[i']);
    }
  }
}
