/** Genes, genomes and the innovation counter (src/lib.rs): the consumer of the merge.

    A genome's genes are meant to appear in strictly increasing innovation order; splicing
    two parents walks both gene lists with the merge, ranked by innovation. */
module Lib {
  import Zort

  datatype Gene<T> = Gene(innovation: nat, enabled: bool, phene: T)

  /** The merge rank of a gene is its innovation id. */
  function Ranker<T>(gene: Gene<T>): nat { gene.innovation }

  /** A tie-break that keeps the left parent's gene. */
  function Bias<T>(left: Gene<T>, right: Gene<T>): Gene<T> { left }

  /** Genes in strictly increasing innovation order: no id repeats. */
  ghost predicate InnovationOrdered<T>(genes: seq<Gene<T>>) {
    Zort.StrictlyRanked(genes, Ranker)
  }

  /** What collecting one gene contributes: its payload if it is enabled, else nothing. */
  function Collected<T>(gene: Gene<T>): seq<T> {
    if gene.enabled then [gene.phene] else []
  }

  /** The payloads of the enabled genes, in gene order. */
  function Phenotype<T>(genes: seq<Gene<T>>): (r: seq<T>)
    ensures |r| <= |genes|
  {
    if genes == [] then [] else Collected(genes[0]) + Phenotype(genes[1..])
  }

  class Genome<T> {
    var genes: seq<Gene<T>>
    /** The genes passed to Push so far, in call order. Push has no visible effect, so this
        log is what lets a contract say which calls were made. */
    ghost var pushes: seq<Gene<T>>

    constructor ()
      ensures genes == [] && pushes == []
    {
      genes := [];
      pushes := [];
    }

    /** The mutation step: its body is empty, so the genome keeps its genes whatever the
        gene and the mutation rate; the call is recorded in `pushes`. */
    method Push(gene: Gene<T>, mutation: real)
      modifies this
      ensures genes == old(genes)
      ensures pushes == old(pushes) + [gene]
    {
      pushes := pushes + [gene];
    }

    /** The enabled genes' payloads, gathered by one pass over the genes. */
    method Collect() returns (output: seq<T>)
      ensures output == Phenotype(genes)
    {
      output := [];
      var k := 0;
      while k < |genes|
        invariant 0 <= k <= |genes|
        invariant output == Phenotype(genes[..k])
      {
        var gene := genes[k];
        if gene.enabled {
          output := output + [gene.phene];
        }
        PhenotypeOfConcat(genes[..k], [gene]);
        assert genes[..k + 1] == genes[..k] + [gene];
        k := k + 1;
      }
      assert genes[..k] == genes;
    }

    /** The `for` loop of splice: `Drain` with one push per item. It pulls from `zort`
        until a pull yields nothing and pushes every gene it yields onto `genome`, in order. */
    static method PushAll(genome: Genome<T>, zort: Zort.Zort<Gene<T>>, mutation: real)
      requires zort.Valid()
      modifies genome, zort`i, zort`j
      ensures zort.Valid() && zort.Stopped()
      ensures genome.genes == old(genome.genes)
      ensures genome.pushes == old(genome.pushes) + old(zort.Remaining())
    {
      while true
        invariant zort.Valid()
        invariant genome.genes == old(genome.genes)
        invariant genome.pushes + zort.Remaining() == old(genome.pushes) + old(zort.Remaining())
        decreases (|zort.a| - zort.i) + (|zort.b| - zort.j)
      {
        ghost var rest := zort.Remaining();
        ghost var before := genome.pushes;
        var g := zort.Next();
        if g.None? {
          return;
        }
        assert rest == [g.value] + zort.Remaining();
        assert (before + [g.value]) + zort.Remaining() == before + rest;
        genome.Push(g.value, mutation);
      }
    }

    /** Offspring of two parents: one push per item of the merge of their genes ranked by
        innovation. The merge keeps its default decider and trail 0; `bias` is never handed
        to it. */
    static method Splice(left: Genome<T>, right: Genome<T>,
                         bias: (Gene<T>, Gene<T>) -> Gene<T>, mutation: real)
      returns (genome: Genome<T>)
      ensures fresh(genome) && genome.genes == []
      ensures genome.pushes == Zort.Merged(left.genes, right.genes, 0, 0, Ranker, Zort.PreferLeft, 0)
      ensures genome.pushes == Zort.Merged(left.genes, right.genes, 0, 0, Ranker, Zort.PreferLeft, 1)
    {
      var parentA, parentB := left.genes, right.genes;
      genome := new Genome();
      var zort := new Zort.Zort(parentA, parentB, Ranker);
      PushAll(genome, zort, mutation);
      Zort.TrailOtherThanThreeActsAsZero(left.genes, right.genes, 0, 0, Ranker, Zort.PreferLeft, 1);
    }
  }

  /** The shared innovation counter. */
  class Platter {
    var innovation: nat

    constructor ()
      ensures innovation == 0
    {
      innovation := 0;
    }
  }

  // ---------------------------------------------------------------------------------
  // Phenotype

  /** Collecting keeps the gene order: concatenated genes give concatenated payloads. */
  lemma {:induction false} PhenotypeOfConcat<T>(x: seq<Gene<T>>, y: seq<Gene<T>>)
    ensures Phenotype(x + y) == Phenotype(x) + Phenotype(y)
  {
    if x == [] {
      assert x + y == y;
    } else {
      var xy := x + y;
      assert xy[0] == x[0] && xy[1..] == x[1..] + y;
      PhenotypeOfConcat(x[1..], y);
      calc {
        Phenotype(xy);
        Collected(x[0]) + Phenotype(x[1..] + y);
        Collected(x[0]) + (Phenotype(x[1..]) + Phenotype(y));
        (Collected(x[0]) + Phenotype(x[1..])) + Phenotype(y);
        Phenotype(x) + Phenotype(y);
      }
    }
  }

  /** A payload is collected exactly when some enabled gene carries it. */
  lemma {:induction false} PhenotypeMembers<T>(genes: seq<Gene<T>>, p: T)
    ensures p in Phenotype(genes) <==>
            exists k :: 0 <= k < |genes| && genes[k].enabled && genes[k].phene == p
  {
    if genes != [] {
      PhenotypeMembers(genes[1..], p);
      if p in Phenotype(genes[1..]) {
        var k :| 0 <= k < |genes[1..]| && genes[1..][k].enabled && genes[1..][k].phene == p;
        assert genes[k + 1] == genes[1..][k];
      }
      if exists k :: 0 <= k < |genes| && genes[k].enabled && genes[k].phene == p {
        var k :| 0 <= k < |genes| && genes[k].enabled && genes[k].phene == p;
        if k > 0 {
          assert genes[1..][k - 1] == genes[k];
        }
      }
    }
  }

  /** With every gene enabled, collecting yields every payload, position by position. */
  lemma {:induction false} PhenotypeAllEnabled<T>(genes: seq<Gene<T>>)
    requires forall k :: 0 <= k < |genes| ==> genes[k].enabled
    ensures |Phenotype(genes)| == |genes|
    ensures forall k :: 0 <= k < |genes| ==> Phenotype(genes)[k] == genes[k].phene
  {
    if genes != [] {
      PhenotypeAllEnabled(genes[1..]);
      assert Phenotype(genes) == [genes[0].phene] + Phenotype(genes[1..]);
    }
  }

  /** With no gene enabled, collecting yields nothing. */
  lemma {:induction false} PhenotypeNoneEnabled<T>(genes: seq<Gene<T>>)
    requires forall k :: 0 <= k < |genes| ==> !genes[k].enabled
    ensures Phenotype(genes) == []
  {
    if genes != [] {
      PhenotypeNoneEnabled(genes[1..]);
    }
  }

  // ---------------------------------------------------------------------------------
  // Splicing

  /** The merge over two innovation-ordered parents, whatever the trail, is innovation
      ordered: no gene moves out of innovation order and no innovation id repeats. */
  lemma SpliceMergeIsInnovationOrdered<T>(left: seq<Gene<T>>, right: seq<Gene<T>>, trail: nat)
    requires InnovationOrdered(left) && InnovationOrdered(right)
    ensures InnovationOrdered(Zort.Merged(left, right, 0, 0, Ranker, Zort.PreferLeft, trail))
  {
    Zort.MergeKeepsRankOrder(left, right, 0, 0, Ranker, Zort.PreferLeft, trail);
  }

  /** A gene whose innovation only one parent holds reaches the offspring's merge. */
  lemma SpliceKeepsUnsharedGenes<T>(left: seq<Gene<T>>, right: seq<Gene<T>>)
    ensures forall p :: 0 <= p < |left| && (forall q :: 0 <= q < |right| ==> right[q].innovation != left[p].innovation)
              ==> left[p] in Zort.Merged(left, right, 0, 0, Ranker, Zort.PreferLeft, 0)
    ensures forall q :: 0 <= q < |right| && (forall p :: 0 <= p < |left| ==> left[p].innovation != right[q].innovation)
              ==> right[q] in Zort.Merged(left, right, 0, 0, Ranker, Zort.PreferLeft, 0)
  {
    forall p | 0 <= p < |left| && (forall q :: 0 <= q < |right| ==> right[q].innovation != left[p].innovation)
      ensures left[p] in Zort.Merged(left, right, 0, 0, Ranker, Zort.PreferLeft, 0)
    {
      Zort.UniqueRankPassesThrough(left, right, 0, 0, Ranker, Zort.PreferLeft, 0, p);
    }
    forall q | 0 <= q < |right| && (forall p :: 0 <= p < |left| ==> left[p].innovation != right[q].innovation)
      ensures right[q] in Zort.Merged(left, right, 0, 0, Ranker, Zort.PreferLeft, 0)
    {
      Zort.UniqueRankPassesThroughRight(left, right, 0, 0, Ranker, Zort.PreferLeft, 0, q);
    }
  }

  /** When both innovation-ordered parents hold a gene with the same innovation, the
      offspring's merge keeps the left parent's gene for it. */
  lemma SpliceKeepsLeftOfShared<T>(left: seq<Gene<T>>, right: seq<Gene<T>>, p: nat, q: nat)
    requires InnovationOrdered(left) && InnovationOrdered(right)
    requires p < |left| && q < |right| && left[p].innovation == right[q].innovation
    ensures left[p] in Zort.Merged(left, right, 0, 0, Ranker, Zort.PreferLeft, 0)
  {
    Zort.SharedRankDecided(left, right, 0, 0, Ranker, Zort.PreferLeft, 0, p, q);
  }

  /** ... and no other gene of that innovation, so the right parent's gene does not
      survive on its own. */
  lemma SpliceDropsRightOfShared<T>(left: seq<Gene<T>>, right: seq<Gene<T>>, p: nat, q: nat)
    requires InnovationOrdered(left) && InnovationOrdered(right)
    requires p < |left| && q < |right| && left[p].innovation == right[q].innovation
    ensures forall k :: (0 <= k < |Zort.Merged(left, right, 0, 0, Ranker, Zort.PreferLeft, 0)| &&
                         Zort.Merged(left, right, 0, 0, Ranker, Zort.PreferLeft, 0)[k].innovation
                         == left[p].innovation) ==>
              Zort.Merged(left, right, 0, 0, Ranker, Zort.PreferLeft, 0)[k] == left[p]
  {
    Zort.SharedRankEmittedOnce(left, right, 0, 0, Ranker, Zort.PreferLeft, 0, p, q);
  }

  /** The offspring's merge holds no gene that neither parent has. */
  lemma SpliceGenesFromParents<T>(left: seq<Gene<T>>, right: seq<Gene<T>>)
    ensures forall g :: g in Zort.Merged(left, right, 0, 0, Ranker, Zort.PreferLeft, 0) ==> g in left || g in right
  {
    Zort.MergedFromInputs(left, right, 0, 0, Ranker, Zort.PreferLeft, 0);
  }

  /** Handing `bias` to the merge would not change it: bias and the default decider pick
      the same gene from every pair. */
  lemma BiasMergesLikeDefault<T>(left: seq<Gene<T>>, right: seq<Gene<T>>, trail: nat)
    ensures Zort.Merged(left, right, 0, 0, Ranker, Bias, trail)
            == Zort.Merged(left, right, 0, 0, Ranker, Zort.PreferLeft, trail)
  {
    Zort.AgreeingDecidersSameMerge(left, right, 0, 0, Ranker, Bias, Zort.PreferLeft, trail);
  }
}
