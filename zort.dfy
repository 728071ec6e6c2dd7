/** A lazy two-way merge over two rank-sorted inputs (the `Zort` iterator of src/zort.rs).

    Each input is a sequence together with a read position, standing in for a peekable
    iterator: the head of input `a` is `a[i]` while `i < |a|`, and the input is exhausted
    once `i == |a|`.  One pull either emits the head of lower rank, or, on equal ranks,
    consumes both heads and emits what the decider makes of them, or, when one side is
    exhausted, follows the trail rule. */
module Zort {

  datatype Option<T> = None | Some(value: T)

  /** What one pull yields, and the read positions after it. */
  datatype Pulled<T> = Pulled(item: Option<T>, i: nat, j: nat)

  /** The default decider: keep the element of the left input. */
  function PreferLeft<T>(left: T, right: T): T { left }

  /** The alternative decider: keep the element of the right input. */
  function PreferRight<T>(left: T, right: T): T { right }

  /** The ranker of the unit tests: a number is its own rank. */
  function Identity(x: nat): nat { x }

  /** A pull yields nothing exactly when both inputs are exhausted, or when trail 3 is
      set and one of them is. No other trail value has any effect. */
  predicate Stops<T>(a: seq<T>, b: seq<T>, i: nat, j: nat, trail: nat) {
    (i >= |a| && j >= |b|) || (trail == 3 && (i >= |a| || j >= |b|))
  }

  /** One pull of the merge, with the branches in the order the iterator tests them. */
  function Step<T>(a: seq<T>, b: seq<T>, i: nat, j: nat,
                   rank: T -> nat, decide: (T, T) -> T, trail: nat): (p: Pulled<T>)
    requires i <= |a| && j <= |b|
    ensures p.i <= |a| && p.j <= |b|
    ensures p.item.None? <==> Stops(a, b, i, j, trail)
    ensures p.item.None? ==> p.i == i && p.j == j
    ensures p.item.Some? ==> i <= p.i <= i + 1 && j <= p.j <= j + 1 && i + j < p.i + p.j
  {
    var aDone, bDone := i == |a|, j == |b|;
    if aDone && bDone then Pulled(None, i, j)
    else if aDone && trail == 2 then Pulled(Some(b[j]), i, j + 1)
    else if bDone && trail == 1 then Pulled(Some(a[i]), i + 1, j)
    else if aDone || bDone then
      if trail == 3 then Pulled(None, i, j)
      else if aDone then Pulled(Some(b[j]), i, j + 1)
      else Pulled(Some(a[i]), i + 1, j)
    else if rank(a[i]) == rank(b[j]) then Pulled(Some(decide(a[i], b[j])), i + 1, j + 1)
    else if rank(a[i]) < rank(b[j]) then Pulled(Some(a[i]), i + 1, j)
    else Pulled(Some(b[j]), i, j + 1)
  }

  /** Everything the merge still emits from read positions `i` and `j`, pulling until
      the first pull that yields nothing. */
  function Merged<T>(a: seq<T>, b: seq<T>, i: nat, j: nat,
                     rank: T -> nat, decide: (T, T) -> T, trail: nat): (r: seq<T>)
    requires i <= |a| && j <= |b|
    ensures |r| <= (|a| - i) + (|b| - j)
    decreases (|a| - i) + (|b| - j)
  {
    var p := Step(a, b, i, j, rank, decide, trail);
    if p.item.None? then [] else [p.item.value] + Merged(a, b, p.i, p.j, rank, decide, trail)
  }

  class Zort<T> {
    const a: seq<T>
    const b: seq<T>
    var i: nat
    var j: nat
    const ranker: T -> nat
    var decider: (T, T) -> T
    var trail: nat

    ghost predicate Valid()
      reads this
    {
      i <= |a| && j <= |b|
    }

    /** The items the iterator has yet to yield. */
    function Remaining(): seq<T>
      reads this
      requires Valid()
    {
      Merged(a, b, i, j, ranker, decider, trail)
    }

    /** Whether the next pull yields nothing. */
    predicate Stopped()
      reads this
    {
      Stops(a, b, i, j, trail)
    }

    constructor (a: seq<T>, b: seq<T>, ranker: T -> nat)
      ensures Valid()
      ensures this.a == a && this.b == b && this.ranker == ranker
      ensures i == 0 && j == 0
      ensures decider == PreferLeft && trail == 0
    {
      this.a, this.b, this.ranker := a, b, ranker;
      i, j := 0, 0;
      decider, trail := PreferLeft, 0;
    }

    method SetDecider(decider: (T, T) -> T)
      modifies this`decider
      ensures this.decider == decider
    {
      this.decider := decider;
    }

    method SetTrail(trail: nat)
      modifies this`trail
      ensures this.trail == trail
    {
      this.trail := trail;
    }

    /** One pull. */
    method Next() returns (r: Option<T>)
      requires Valid()
      modifies this`i, this`j
      ensures Valid()
      ensures r.None? <==> old(Stopped())
      ensures r.None? ==> i == old(i) && j == old(j)
      // the pull is the one Step describes
      ensures Pulled(r, i, j) == Step(a, b, old(i), old(j), ranker, decider, trail)
      // what is yielded now, followed by what is yielded later, is what was remaining
      ensures old(Remaining()) == if r.Some? then [r.value] + Remaining() else []
      ensures r.None? ==> Remaining() == []
      ensures r.Some? ==> (|a| - i) + (|b| - j) < (|a| - old(i)) + (|b| - old(j))
    {
      var aDone, bDone := i == |a|, j == |b|;
      if aDone && bDone {
        r := None;
      } else if aDone && trail == 2 {
        r := Some(b[j]);
        j := j + 1;
      } else if bDone && trail == 1 {
        r := Some(a[i]);
        i := i + 1;
      } else if aDone || bDone {
        if trail == 3 {
          r := None;
        } else if aDone {
          r := Some(b[j]);
          j := j + 1;
        } else {
          r := Some(a[i]);
          i := i + 1;
        }
      } else {
        var x, y := a[i], b[j];
        var rankA, rankB := ranker(x), ranker(y);
        if rankA == rankB {
          r := Some(decider(x, y));
          i, j := i + 1, j + 1;
        } else if rankA < rankB {
          r := Some(x);
          i := i + 1;
        } else {
          r := Some(y);
          j := j + 1;
        }
      }
    }

    /** Pulls `n` times from a merge with at least `n` items left, and returns what each
        pull yielded. */
    method Take(n: nat) returns (pulled: seq<Option<T>>)
      requires Valid() && n <= |Remaining()|
      modifies this`i, this`j
      ensures Valid()
      ensures |pulled| == n && forall k :: 0 <= k < n ==> pulled[k] == Some(old(Remaining())[k])
      ensures Remaining() == old(Remaining())[n..]
    {
      pulled := [];
      while |pulled| < n
        invariant Valid() && |pulled| <= n
        invariant forall k :: 0 <= k < |pulled| ==> pulled[k] == Some(old(Remaining())[k])
        invariant Remaining() == old(Remaining())[|pulled|..]
      {
        ghost var rest := Remaining();
        var r := Next();
        assert r.Some? && rest == [r.value] + Remaining();
        assert old(Remaining())[|pulled|] == r.value;
        assert old(Remaining())[|pulled| + 1..] == Remaining();
        pulled := pulled + [r];
      }
    }

    /** Pulls until a pull yields nothing, and returns everything yielded. */
    method Drain() returns (out: seq<T>)
      requires Valid()
      modifies this`i, this`j
      ensures Valid() && Stopped()
      ensures out == old(Remaining())
    {
      out := [];
      while true
        invariant Valid()
        invariant old(Remaining()) == out + Remaining()
        decreases (|a| - i) + (|b| - j)
      {
        var r := Next();
        if r.None? {
          return;
        }
        out := out + [r.value];
      }
    }
  }

  // ---------------------------------------------------------------------------------
  // One unfolding of the merge, by which head is taken

  /** What one pull does, case by case. The iterator's two special cases for trails 1 and 2
      and its general one-side-exhausted branch collapse into one rule: unless the trail is 3,
      the remaining side is drained. */
  lemma StepCases<T>(a: seq<T>, b: seq<T>, i: nat, j: nat,
      rank: T -> nat, decide: (T, T) -> T, trail: nat)
    requires i <= |a| && j <= |b|
    // both heads present
    ensures i < |a| && j < |b| && rank(a[i]) == rank(b[j]) ==>
              Step(a, b, i, j, rank, decide, trail) == Pulled(Some(decide(a[i], b[j])), i + 1, j + 1)
    ensures i < |a| && j < |b| && rank(a[i]) < rank(b[j]) ==>
              Step(a, b, i, j, rank, decide, trail) == Pulled(Some(a[i]), i + 1, j)
    ensures i < |a| && j < |b| && rank(a[i]) > rank(b[j]) ==>
              Step(a, b, i, j, rank, decide, trail) == Pulled(Some(b[j]), i, j + 1)
    // exactly one side exhausted
    ensures i == |a| && j < |b| && trail != 3 ==>
              Step(a, b, i, j, rank, decide, trail) == Pulled(Some(b[j]), i, j + 1)
    ensures i < |a| && j == |b| && trail != 3 ==>
              Step(a, b, i, j, rank, decide, trail) == Pulled(Some(a[i]), i + 1, j)
    // nothing left to pull
    ensures Stops(a, b, i, j, trail) ==> Step(a, b, i, j, rank, decide, trail) == Pulled(None, i, j)
  {
  }

  lemma TakesLeft<T>(a: seq<T>, b: seq<T>, i: nat, j: nat,
      rank: T -> nat, decide: (T, T) -> T, trail: nat)
    requires i < |a| && j <= |b|
    requires (j < |b| && rank(a[i]) < rank(b[j])) || (j == |b| && trail != 3)
    ensures Merged(a, b, i, j, rank, decide, trail) == [a[i]] + Merged(a, b, i + 1, j, rank, decide, trail)
  {
    assert Step(a, b, i, j, rank, decide, trail) == Pulled(Some(a[i]), i + 1, j);
  }

  lemma TakesRight<T>(a: seq<T>, b: seq<T>, i: nat, j: nat,
      rank: T -> nat, decide: (T, T) -> T, trail: nat)
    requires i <= |a| && j < |b|
    requires (i < |a| && rank(b[j]) < rank(a[i])) || (i == |a| && trail != 3)
    ensures Merged(a, b, i, j, rank, decide, trail) == [b[j]] + Merged(a, b, i, j + 1, rank, decide, trail)
  {
    assert Step(a, b, i, j, rank, decide, trail) == Pulled(Some(b[j]), i, j + 1);
  }

  lemma TakesBoth<T>(a: seq<T>, b: seq<T>, i: nat, j: nat,
      rank: T -> nat, decide: (T, T) -> T, trail: nat)
    requires i < |a| && j < |b| && rank(a[i]) == rank(b[j])
    ensures Merged(a, b, i, j, rank, decide, trail)
            == [decide(a[i], b[j])] + Merged(a, b, i + 1, j + 1, rank, decide, trail)
  {
    assert Step(a, b, i, j, rank, decide, trail) == Pulled(Some(decide(a[i], b[j])), i + 1, j + 1);
  }

  // ---------------------------------------------------------------------------------
  // The trail rule

  /** Trail values 1 and 2 (and every value other than 3) give the same merge as 0. */
  lemma {:induction false} TrailOtherThanThreeActsAsZero<T>(a: seq<T>, b: seq<T>, i: nat, j: nat,
      rank: T -> nat, decide: (T, T) -> T, trail: nat)
    requires i <= |a| && j <= |b|
    requires trail != 3
    ensures Merged(a, b, i, j, rank, decide, trail) == Merged(a, b, i, j, rank, decide, 0)
    decreases (|a| - i) + (|b| - j)
  {
    var p := Step(a, b, i, j, rank, decide, trail);
    assert p == Step(a, b, i, j, rank, decide, 0);
    if p.item.Some? {
      TrailOtherThanThreeActsAsZero(a, b, p.i, p.j, rank, decide, trail);
    }
  }

  /** Trail 3 emits a prefix of what trail 0 emits, and nothing at all once a side is
      exhausted: the other side's remaining items are never emitted. */
  lemma {:induction false} TrailThreeIsPrefix<T>(a: seq<T>, b: seq<T>, i: nat, j: nat,
      rank: T -> nat, decide: (T, T) -> T)
    requires i <= |a| && j <= |b|
    ensures Merged(a, b, i, j, rank, decide, 3) <= Merged(a, b, i, j, rank, decide, 0)
    ensures i == |a| || j == |b| ==> Merged(a, b, i, j, rank, decide, 3) == []
    decreases (|a| - i) + (|b| - j)
  {
    if i < |a| && j < |b| {
      var p := Step(a, b, i, j, rank, decide, 3);
      assert p == Step(a, b, i, j, rank, decide, 0);
      TrailThreeIsPrefix(a, b, p.i, p.j, rank, decide);
    }
  }

  /** Merging with an exhausted right input passes the left input through, unless trail
      is 3, which emits nothing. */
  lemma {:induction false} MergeWithExhaustedRight<T>(a: seq<T>, b: seq<T>, i: nat,
      rank: T -> nat, decide: (T, T) -> T, trail: nat)
    requires i <= |a|
    ensures Merged(a, b, i, |b|, rank, decide, trail) == if trail == 3 then [] else a[i..]
    decreases |a| - i
  {
    if i < |a| && trail != 3 {
      TakesLeft(a, b, i, |b|, rank, decide, trail);
      MergeWithExhaustedRight(a, b, i + 1, rank, decide, trail);
      assert a[i..] == [a[i]] + a[i + 1..];
    }
  }

  /** Merging with an exhausted left input passes the right input through, unless trail
      is 3, which emits nothing. */
  lemma {:induction false} MergeWithExhaustedLeft<T>(a: seq<T>, b: seq<T>, j: nat,
      rank: T -> nat, decide: (T, T) -> T, trail: nat)
    requires j <= |b|
    ensures Merged(a, b, |a|, j, rank, decide, trail) == if trail == 3 then [] else b[j..]
    decreases |b| - j
  {
    if j < |b| && trail != 3 {
      TakesRight(a, b, |a|, j, rank, decide, trail);
      MergeWithExhaustedLeft(a, b, j + 1, rank, decide, trail);
      assert b[j..] == [b[j]] + b[j + 1..];
    }
  }

  // ---------------------------------------------------------------------------------
  // Size of the output

  /** Unless trail 3 cuts it short, the merge emits at least as many items as the longer
      remaining input holds (and, by the contract of Merged, at most both together). */
  lemma {:induction false} DrainedAtLeastLongerSide<T>(a: seq<T>, b: seq<T>, i: nat, j: nat,
      rank: T -> nat, decide: (T, T) -> T, trail: nat)
    requires i <= |a| && j <= |b|
    requires trail != 3
    ensures |a| - i <= |Merged(a, b, i, j, rank, decide, trail)|
    ensures |b| - j <= |Merged(a, b, i, j, rank, decide, trail)|
    decreases (|a| - i) + (|b| - j)
  {
    var p := Step(a, b, i, j, rank, decide, trail);
    if p.item.Some? {
      DrainedAtLeastLongerSide(a, b, p.i, p.j, rank, decide, trail);
    }
  }

  // ---------------------------------------------------------------------------------
  // Ties

  /** Two inputs of equal length whose ranks agree position by position. */
  ghost predicate PairedRanks<T>(a: seq<T>, b: seq<T>, rank: T -> nat) {
    |a| == |b| && forall k :: 0 <= k < |a| ==> rank(a[k]) == rank(b[k])
  }

  /** When every rank is shared pairwise, each pull consumes one pair and emits the
      decider's choice for it, so the output is as long as either input. */
  lemma {:induction false} PairedRanksDecidedPairwise<T>(a: seq<T>, b: seq<T>, i: nat,
      rank: T -> nat, decide: (T, T) -> T, trail: nat)
    requires PairedRanks(a, b, rank) && i <= |a|
    ensures |Merged(a, b, i, i, rank, decide, trail)| == |a| - i
    ensures forall k :: 0 <= k < |a| - i ==>
              Merged(a, b, i, i, rank, decide, trail)[k] == decide(a[i + k], b[i + k])
    decreases |a| - i
  {
    if i < |a| {
      PairedRanksDecidedPairwise(a, b, i + 1, rank, decide, trail);
      var rest := Merged(a, b, i + 1, i + 1, rank, decide, trail);
      TakesBoth(a, b, i, i, rank, decide, trail);
      forall k | 0 < k < |a| - i
        ensures Merged(a, b, i, i, rank, decide, trail)[k] == decide(a[i + k], b[i + k])
      {
        assert rest[k - 1] == decide(a[(i + 1) + (k - 1)], b[(i + 1) + (k - 1)]);
      }
    }
  }

  /** With the default decider, ties keep the left input's elements. */
  lemma PreferLeftOnTies<T>(a: seq<T>, b: seq<T>, i: nat, rank: T -> nat, trail: nat)
    requires PairedRanks(a, b, rank) && i <= |a|
    ensures Merged(a, b, i, i, rank, PreferLeft, trail) == a[i..]
  {
    PairedRanksDecidedPairwise(a, b, i, rank, PreferLeft, trail);
  }

  /** With PreferRight, ties keep the right input's elements. */
  lemma PreferRightOnTies<T>(a: seq<T>, b: seq<T>, i: nat, rank: T -> nat, trail: nat)
    requires PairedRanks(a, b, rank) && i <= |a|
    ensures Merged(a, b, i, i, rank, PreferRight, trail) == b[i..]
  {
    PairedRanksDecidedPairwise(a, b, i, rank, PreferRight, trail);
  }

  /** Deciders that agree on every pair give the same merge. */
  lemma {:induction false} AgreeingDecidersSameMerge<T>(a: seq<T>, b: seq<T>, i: nat, j: nat,
      rank: T -> nat, d1: (T, T) -> T, d2: (T, T) -> T, trail: nat)
    requires i <= |a| && j <= |b|
    requires forall x, y :: d1(x, y) == d2(x, y)
    ensures Merged(a, b, i, j, rank, d1, trail) == Merged(a, b, i, j, rank, d2, trail)
    decreases (|a| - i) + (|b| - j)
  {
    var p := Step(a, b, i, j, rank, d1, trail);
    assert p == Step(a, b, i, j, rank, d2, trail);
    if p.item.Some? {
      AgreeingDecidersSameMerge(a, b, p.i, p.j, rank, d1, d2, trail);
    }
  }

  // ---------------------------------------------------------------------------------
  // Order

  /** Ranks strictly increase along the sequence (an input with no repeated rank). */
  ghost predicate StrictlyRanked<T>(s: seq<T>, rank: T -> nat) {
    forall p, q :: 0 <= p < q < |s| ==> rank(s[p]) < rank(s[q])
  }

  ghost predicate HeadsRankAtLeast<T>(a: seq<T>, b: seq<T>, i: nat, j: nat, rank: T -> nat, lo: nat) {
    (i < |a| ==> lo <= rank(a[i])) && (j < |b| ==> lo <= rank(b[j]))
  }

  lemma {:induction false} MergedRanksAtLeast<T>(a: seq<T>, b: seq<T>, i: nat, j: nat,
      rank: T -> nat, decide: (T, T) -> T, trail: nat, lo: nat)
    requires i <= |a| && j <= |b|
    requires StrictlyRanked(a, rank) && StrictlyRanked(b, rank)
    // on a tie the decider returns an element of the shared rank
    requires forall x, y :: rank(x) == rank(y) ==> rank(decide(x, y)) == rank(x)
    requires HeadsRankAtLeast(a, b, i, j, rank, lo)
    ensures StrictlyRanked(Merged(a, b, i, j, rank, decide, trail), rank)
    ensures forall k :: 0 <= k < |Merged(a, b, i, j, rank, decide, trail)| ==>
              lo <= rank(Merged(a, b, i, j, rank, decide, trail)[k])
    decreases (|a| - i) + (|b| - j)
  {
    var p := Step(a, b, i, j, rank, decide, trail);
    if p.item.Some? {
      var x := p.item.value;
      assert lo <= rank(x) && HeadsRankAtLeast(a, b, p.i, p.j, rank, rank(x) + 1) by {
        if i < |a| && j < |b| && rank(a[i]) == rank(b[j]) {
          assert x == decide(a[i], b[j]);
        }
        if p.i == i + 1 && i + 1 < |a| {
          assert rank(a[i]) < rank(a[i + 1]);
        }
        if p.j == j + 1 && j + 1 < |b| {
          assert rank(b[j]) < rank(b[j + 1]);
        }
      }
      MergedRanksAtLeast(a, b, p.i, p.j, rank, decide, trail, rank(x) + 1);
      var rest := Merged(a, b, p.i, p.j, rank, decide, trail);
      var out := Merged(a, b, i, j, rank, decide, trail);
      assert out == [x] + rest;
      forall q | 0 < q < |out| ensures rank(x) < rank(out[q]) {
        assert out[q] == rest[q - 1];
      }
    }
  }

  /** The merge of two strictly ranked inputs is strictly ranked, whatever the trail, when
      the decider keeps the shared rank on ties: nothing is reordered and no rank repeats. */
  lemma MergeKeepsRankOrder<T>(a: seq<T>, b: seq<T>, i: nat, j: nat,
      rank: T -> nat, decide: (T, T) -> T, trail: nat)
    requires i <= |a| && j <= |b|
    requires StrictlyRanked(a, rank) && StrictlyRanked(b, rank)
    // on a tie the decider returns an element of the shared rank
    requires forall x, y :: rank(x) == rank(y) ==> rank(decide(x, y)) == rank(x)
    ensures StrictlyRanked(Merged(a, b, i, j, rank, decide, trail), rank)
  {
    MergedRanksAtLeast(a, b, i, j, rank, decide, trail, 0);
  }

  /** No rank of the left input's rest occurs in the right input's rest. */
  ghost predicate DisjointRanks<T>(a: seq<T>, b: seq<T>, i: nat, j: nat, rank: T -> nat) {
    forall p, q :: i <= p < |a| && j <= q < |b| ==> rank(a[p]) != rank(b[q])
  }

  /** Without shared ranks and without trail 3 every remaining item is emitted exactly once. */
  lemma {:induction false} DisjointMergeIsPermutation<T>(a: seq<T>, b: seq<T>, i: nat, j: nat,
      rank: T -> nat, decide: (T, T) -> T, trail: nat)
    requires i <= |a| && j <= |b| && trail != 3
    requires DisjointRanks(a, b, i, j, rank)
    ensures multiset(Merged(a, b, i, j, rank, decide, trail)) == multiset(a[i..]) + multiset(b[j..])
    decreases (|a| - i) + (|b| - j)
  {
    if i < |a| && (j == |b| || rank(a[i]) < rank(b[j])) {
      TakesLeft(a, b, i, j, rank, decide, trail);
      DisjointMergeIsPermutation(a, b, i + 1, j, rank, decide, trail);
      ConsMultiset(a[i..], b[j..], Merged(a, b, i + 1, j, rank, decide, trail));
    } else if j < |b| {
      assert i < |a| ==> rank(a[i]) != rank(b[j]);
      TakesRight(a, b, i, j, rank, decide, trail);
      DisjointMergeIsPermutation(a, b, i, j + 1, rank, decide, trail);
      ConsMultiset(b[j..], a[i..], Merged(a, b, i, j + 1, rank, decide, trail));
    }
  }

  /** `x` is drawn from the inputs' remainders: an item of either one, or the decider's
      choice for a pair of them that shares a rank. */
  ghost predicate FromInputs<T>(a: seq<T>, b: seq<T>, i: nat, j: nat,
      rank: T -> nat, decide: (T, T) -> T, x: T) {
    (exists p :: i <= p < |a| && x == a[p]) ||
    (exists q :: j <= q < |b| && x == b[q]) ||
    (exists p, q :: i <= p < |a| && j <= q < |b| && rank(a[p]) == rank(b[q]) && x == decide(a[p], b[q]))
  }

  /** The merge invents nothing: every item it emits is drawn from the inputs' remainders,
      whatever the order of the inputs and the trail. */
  lemma {:induction false} MergedFromInputs<T>(a: seq<T>, b: seq<T>, i: nat, j: nat,
      rank: T -> nat, decide: (T, T) -> T, trail: nat)
    requires i <= |a| && j <= |b|
    ensures forall x :: x in Merged(a, b, i, j, rank, decide, trail) ==> FromInputs(a, b, i, j, rank, decide, x)
    decreases (|a| - i) + (|b| - j)
  {
    var p := Step(a, b, i, j, rank, decide, trail);
    if p.item.Some? {
      MergedFromInputs(a, b, p.i, p.j, rank, decide, trail);
      assert FromInputs(a, b, i, j, rank, decide, p.item.value) by {
        if i < |a| && j < |b| && rank(a[i]) == rank(b[j]) {
          assert p.item.value == decide(a[i], b[j]);
        }
      }
      forall x | FromInputs(a, b, p.i, p.j, rank, decide, x)
        ensures FromInputs(a, b, i, j, rank, decide, x)
      {
      }
    }
  }

  /** An item whose rank the other input's remainder never holds is passed through: it is
      emitted unchanged, whatever the order of the inputs, unless trail 3 cuts the merge short. */
  lemma {:induction false} UniqueRankPassesThrough<T>(a: seq<T>, b: seq<T>, i: nat, j: nat,
      rank: T -> nat, decide: (T, T) -> T, trail: nat, p: nat)
    requires i <= p < |a| && j <= |b| && trail != 3
    requires forall q :: j <= q < |b| ==> rank(b[q]) != rank(a[p])
    ensures a[p] in Merged(a, b, i, j, rank, decide, trail)
    decreases (|a| - i) + (|b| - j)
  {
    if j < |b| && rank(b[j]) < rank(a[i]) {
      TakesRight(a, b, i, j, rank, decide, trail);
      UniqueRankPassesThrough(a, b, i, j + 1, rank, decide, trail, p);
    } else if j < |b| && rank(b[j]) == rank(a[i]) {
      assert i != p;
      TakesBoth(a, b, i, j, rank, decide, trail);
      UniqueRankPassesThrough(a, b, i + 1, j + 1, rank, decide, trail, p);
    } else {
      TakesLeft(a, b, i, j, rank, decide, trail);
      if i < p {
        UniqueRankPassesThrough(a, b, i + 1, j, rank, decide, trail, p);
      }
    }
  }

  /** The mirror image: an item of the right input whose rank the left remainder never
      holds is emitted unchanged. */
  lemma {:induction false} UniqueRankPassesThroughRight<T>(a: seq<T>, b: seq<T>, i: nat, j: nat,
      rank: T -> nat, decide: (T, T) -> T, trail: nat, q: nat)
    requires i <= |a| && j <= q < |b| && trail != 3
    requires forall p :: i <= p < |a| ==> rank(a[p]) != rank(b[q])
    ensures b[q] in Merged(a, b, i, j, rank, decide, trail)
    decreases (|a| - i) + (|b| - j)
  {
    if i < |a| && rank(a[i]) < rank(b[j]) {
      TakesLeft(a, b, i, j, rank, decide, trail);
      UniqueRankPassesThroughRight(a, b, i + 1, j, rank, decide, trail, q);
    } else if i < |a| && rank(a[i]) == rank(b[j]) {
      assert j != q;
      TakesBoth(a, b, i, j, rank, decide, trail);
      UniqueRankPassesThroughRight(a, b, i + 1, j + 1, rank, decide, trail, q);
    } else {
      TakesRight(a, b, i, j, rank, decide, trail);
      if j < q {
        UniqueRankPassesThroughRight(a, b, i, j + 1, rank, decide, trail, q);
      }
    }
  }

  /** In strictly ranked inputs, two items that share a rank meet as heads of both inputs at
      the same pull, so the merge emits the decider's choice for that pair, for every trail. */
  lemma {:induction false} SharedRankDecided<T>(a: seq<T>, b: seq<T>, i: nat, j: nat,
      rank: T -> nat, decide: (T, T) -> T, trail: nat, p: nat, q: nat)
    requires StrictlyRanked(a, rank) && StrictlyRanked(b, rank)
    requires i <= p < |a| && j <= q < |b| && rank(a[p]) == rank(b[q])
    ensures decide(a[p], b[q]) in Merged(a, b, i, j, rank, decide, trail)
    decreases (|a| - i) + (|b| - j)
  {
    if i < p && rank(a[i]) < rank(a[p]) && (j == q || rank(a[i]) < rank(b[j])) {
      TakesLeft(a, b, i, j, rank, decide, trail);
      SharedRankDecided(a, b, i + 1, j, rank, decide, trail, p, q);
    } else if j < q && rank(b[j]) < rank(b[q]) && (i == p || rank(b[j]) < rank(a[i])) {
      TakesRight(a, b, i, j, rank, decide, trail);
      SharedRankDecided(a, b, i, j + 1, rank, decide, trail, p, q);
    } else {
      assert i < p ==> rank(a[i]) < rank(a[p]);
      assert j < q ==> rank(b[j]) < rank(b[q]);
      TakesBoth(a, b, i, j, rank, decide, trail);
      if i < p {
        SharedRankDecided(a, b, i + 1, j + 1, rank, decide, trail, p, q);
      }
    }
  }

  /** When the decider keeps the shared rank, the decider's choice is the only item of that
      rank in the output: neither item of the pair also comes out on its own. */
  lemma SharedRankEmittedOnce<T>(a: seq<T>, b: seq<T>, i: nat, j: nat,
      rank: T -> nat, decide: (T, T) -> T, trail: nat, p: nat, q: nat)
    requires StrictlyRanked(a, rank) && StrictlyRanked(b, rank)
    requires forall x, y :: rank(x) == rank(y) ==> rank(decide(x, y)) == rank(x)
    requires i <= p < |a| && j <= q < |b| && rank(a[p]) == rank(b[q])
    ensures decide(a[p], b[q]) in Merged(a, b, i, j, rank, decide, trail)
    ensures forall k :: (0 <= k < |Merged(a, b, i, j, rank, decide, trail)| &&
                         rank(Merged(a, b, i, j, rank, decide, trail)[k]) == rank(a[p])) ==>
              Merged(a, b, i, j, rank, decide, trail)[k] == decide(a[p], b[q])
  {
    SharedRankDecided(a, b, i, j, rank, decide, trail, p, q);
    MergeKeepsRankOrder(a, b, i, j, rank, decide, trail);
    var out := Merged(a, b, i, j, rank, decide, trail);
    var m :| 0 <= m < |out| && out[m] == decide(a[p], b[q]);
    forall k | 0 <= k < |out| && rank(out[k]) == rank(a[p])
      ensures out[k] == decide(a[p], b[q])
    {
      assert rank(out[m]) == rank(out[k]);
    }
  }

  /** Emitting the head of `s` and then a permutation of the rest of `s` and `t` emits a
      permutation of `s` and `t`. */
  lemma ConsMultiset<T>(s: seq<T>, t: seq<T>, rest: seq<T>)
    requires s != [] && multiset(rest) == multiset(s[1..]) + multiset(t)
    ensures multiset([s[0]] + rest) == multiset(s) + multiset(t)
  {
    assert s == [s[0]] + s[1..];
  }

  /** Two strictly increasing sequences of numbers holding the same elements are equal. */
  lemma {:induction false} AscendingIsUnique(s: seq<nat>, t: seq<nat>)
    requires StrictlyRanked(s, Identity) && StrictlyRanked(t, Identity)
    requires forall x :: x in s <==> x in t
    ensures s == t
  {
    assert s == [] <==> t == [] by {
      if s != [] {
        assert s[0] in s;
      }
      if t != [] {
        assert t[0] in t;
      }
    }
    if s != [] {
      HeadIsLeast(t, s[0]);
      HeadIsLeast(s, t[0]);
      TailMembers(s);
      TailMembers(t);
      AscendingIsUnique(s[1..], t[1..]);
    }
  }

  /** The head of a strictly increasing sequence is its least element. */
  lemma HeadIsLeast(s: seq<nat>, x: nat)
    requires StrictlyRanked(s, Identity) && x in s
    ensures s[0] <= x
  {
    var k :| 0 <= k < |s| && s[k] == x;
    if k > 0 {
      assert Identity(s[0]) < Identity(s[k]);
    }
  }

  /** The tail of a strictly increasing sequence holds every element but the head. */
  lemma TailMembers(s: seq<nat>)
    requires StrictlyRanked(s, Identity) && s != []
    ensures StrictlyRanked(s[1..], Identity)
    ensures forall x :: x in s[1..] <==> x in s && x != s[0]
  {
    forall x | x in s[1..] ensures x != s[0] {
      var k :| 0 <= k < |s[1..]| && s[1..][k] == x;
      assert Identity(s[0]) < Identity(s[k + 1]);
    }
    assert s == [s[0]] + s[1..];
  }

  /** For strictly increasing numbers with no value in common, ranked by themselves and
      merged with any trail but 3, the output is the ascending merge of the two inputs:
      the one strictly increasing sequence that holds the elements of both and no other. */
  lemma MergeIsAscendingUnion(a: seq<nat>, b: seq<nat>, c: seq<nat>, trail: nat)
    requires StrictlyRanked(a, Identity) && StrictlyRanked(b, Identity)
    requires DisjointRanks(a, b, 0, 0, Identity)
    requires StrictlyRanked(c, Identity) && forall x :: x in c <==> x in a || x in b
    requires trail != 3
    ensures Merged(a, b, 0, 0, Identity, PreferLeft, trail) == c
  {
    var out := Merged(a, b, 0, 0, Identity, PreferLeft, trail);
    MergeKeepsRankOrder(a, b, 0, 0, Identity, PreferLeft, trail);
    DisjointMergeIsPermutation(a, b, 0, 0, Identity, PreferLeft, trail);
    assert a[0..] == a && b[0..] == b;
    forall x ensures x in out <==> x in c {
      assert x in out <==> x in multiset(out);
    }
    AscendingIsUnique(out, c);
  }

  // ---------------------------------------------------------------------------------
  // The unit tests

  const Digits: seq<nat> := [0, 1, 2, 3, 4, 5, 6, 7, 8, 9]

  /** The shared body of the unit tests: ten pulls from a fresh merge of two inputs that
      split the digits 0 to 9 between them yield 0, 1, ..., 9 in that order. */
  method AssertSorted(a: seq<nat>, b: seq<nat>) returns (pulled: seq<Option<nat>>)
    requires StrictlyRanked(a, Identity) && StrictlyRanked(b, Identity)
    requires DisjointRanks(a, b, 0, 0, Identity)
    requires forall x :: x in Digits <==> x in a || x in b
    ensures |pulled| == 10
    ensures forall n :: 0 <= n < 10 ==> pulled[n] == Some(n)
  {
    var z := new Zort(a, b, Identity);
    SplitDigitsMerge(a, b);
    pulled := z.Take(10);
    DigitsCountUp();
  }

  /** The expected output of the tests holds each digit at its own position. */
  lemma DigitsCountUp()
    ensures |Digits| == 10 && forall n :: 0 <= n < 10 ==> Digits[n] == n
  {
  }

  /** Any split of the digits into two ascending inputs merges back to the digits. */
  lemma SplitDigitsMerge(a: seq<nat>, b: seq<nat>)
    requires StrictlyRanked(a, Identity) && StrictlyRanked(b, Identity)
    requires DisjointRanks(a, b, 0, 0, Identity)
    requires forall x :: x in Digits <==> x in a || x in b
    ensures Merged(a, b, 0, 0, Identity, PreferLeft, 0) == Digits
  {
    DigitsCountUp();
    MergeIsAscendingUnion(a, b, Digits, 0);
  }

  method AThenB() returns (pulled: seq<Option<nat>>)
    ensures |pulled| == 10 && forall n :: 0 <= n < 10 ==> pulled[n] == Some(n)
  {
    pulled := AssertSorted([0, 1, 2, 3, 4], [5, 6, 7, 8, 9]);
  }

  method BThenA() returns (pulled: seq<Option<nat>>)
    ensures |pulled| == 10 && forall n :: 0 <= n < 10 ==> pulled[n] == Some(n)
  {
    pulled := AssertSorted([5, 6, 7, 8, 9], [0, 1, 2, 3, 4]);
  }

  method Alternating() returns (pulled: seq<Option<nat>>)
    ensures |pulled| == 10 && forall n :: 0 <= n < 10 ==> pulled[n] == Some(n)
  {
    pulled := AssertSorted([1, 3, 5, 7, 9], [0, 2, 4, 6, 8]);
  }

  method Random() returns (pulled: seq<Option<nat>>)
    ensures |pulled| == 10 && forall n :: 0 <= n < 10 ==> pulled[n] == Some(n)
  {
    pulled := AssertSorted([1, 4, 6, 8, 9], [0, 2, 3, 5, 7]);
  }

  /** The inputs of the trail example: A is exhausted first. */
  const TrailA: seq<nat> := [1, 3]
  const TrailB: seq<nat> := [2, 4, 5]

  /** The four trail values on A = [1, 3], which is exhausted first, and B = [2, 4, 5]:
      only trail 3 drops the rest of B. */
  lemma TrailExample()
    ensures Merged(TrailA, TrailB, 0, 0, Identity, PreferLeft, 0) == [1, 2, 3, 4, 5]
    ensures Merged(TrailA, TrailB, 0, 0, Identity, PreferLeft, 1) == [1, 2, 3, 4, 5]
    ensures Merged(TrailA, TrailB, 0, 0, Identity, PreferLeft, 2) == [1, 2, 3, 4, 5]
    ensures Merged(TrailA, TrailB, 0, 0, Identity, PreferLeft, 3) == [1, 2, 3]
  {
    var a, b := TrailA, TrailB;
    forall trail | trail == 0 || trail == 3
      ensures Merged(a, b, 0, 0, Identity, PreferLeft, trail)
              == [1, 2, 3] + Merged(a, b, 2, 1, Identity, PreferLeft, trail)
    {
      TakesLeft(a, b, 0, 0, Identity, PreferLeft, trail);
      TakesRight(a, b, 1, 0, Identity, PreferLeft, trail);
      TakesLeft(a, b, 1, 1, Identity, PreferLeft, trail);
    }
    MergeWithExhaustedLeft(a, b, 1, Identity, PreferLeft, 0);
    MergeWithExhaustedLeft(a, b, 1, Identity, PreferLeft, 3);
    assert b[1..] == [4, 5];
    TrailOtherThanThreeActsAsZero(a, b, 0, 0, Identity, PreferLeft, 1);
    TrailOtherThanThreeActsAsZero(a, b, 0, 0, Identity, PreferLeft, 2);
  }
}
