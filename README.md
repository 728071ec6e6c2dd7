# Zort: a verified model of the ordered merge of `platter`

`platter` is an experimental substrate for NEAT-style evolution. Its one algorithm is
`Zort`, a lazy, pull-based merge of two rank-sorted inputs. Each pull does one thing:

- it emits the head of lower rank and advances only that side;
- on equal ranks, it consumes both heads and emits what the decider makes of them;
- when one side is exhausted, it follows the trail rule.

The consumer, `Genome`, has three operations:

- `splice` runs a `Zort` over two parents' genes, ranked by innovation id.
- `push` is the per-gene mutation step. Its body is empty.
- `collect` returns the payloads of the enabled genes.

The model is two Dafny modules:

- `zort.dfy`, module `Zort`. The class `Zort<T>` holds the two inputs as sequences with read
  positions `i` and `j` (they stand in for the two peekable iterators), the ranker
  `T -> nat`, the decider `(T, T) -> T` and the trail value. `Next` is one pull, written as
  the iterator's chain of `if`s. `Step` states one pull as a function of the state, and
  `Merged` states everything a merge still emits. `Next` and `Drain` are proved against
  `Merged` through `Remaining()`, and the lemmas about the merge are stated over `Merged`.
- `lib.dfy`, module `Lib`. `Gene` is a datatype. `Genome` is a class, because `push` takes it
  by mutable reference (`collect` takes it by value and `splice` reads its parents by
  shared reference). `Platter` is a class only because it holds the innovation
  counter, which is meant to change; the source gives it nothing but a constructor.
  `Phenotype` states what `collect` computes.

The trail rule is read from the code. The special branches at src/zort.rs:47-48 look like
a per-side policy: trail 2 drains B once A is exhausted, and trail 1 drains A once B is. But
the general branch below them (lines 49-52) drains whichever side remains for every trail
except 3. So trails 1 and 2 act exactly like trail 0, and only trail 3 changes anything: it
stops as soon as either side is exhausted. For A = [1, 3] and B = [2, 4, 5], every trail
except 3 yields [1, 2, 3, 4, 5], and trail 3 yields [1, 2, 3] (`TrailExample`).

`Genome::splice` passes four arguments to the three-argument `Zort::new`, so the source
does not compile as shown. The model drops the extra `1`, so the merge keeps trail 0.
`Splice` proves that reading the `1` as `set_trail(1)` gives the same merge.

The deciders `PreferLeft` and `PreferRight`, the rankers `Ranker` and `Identity` and the
tie-break `Bias` are plain expressions. They have no `ensures` of their own. What they do in
the merge is stated by the lemmas about them: `PreferLeftOnTies`, `PreferRightOnTies`,
`SpliceMergeIsInnovationOrdered`, `SpliceKeepsLeftOfShared`, `BiasMergesLikeDefault` and
`MergeIsAscendingUnion`.

## Model

| member | source | states |
|---|---|---|
| `Zort.PreferLeft` | src/zort.rs:36 | the default decider: returns its left argument |
| `Zort.PreferRight` | src/zort.rs:37 | the alternative decider: returns its right argument |
| `Zort.Identity` | src/zort.rs:74 | the tests' ranker: a number is its own rank |
| `Zort.Step` | src/zort.rs:43-66 | a pull stays within both inputs; it yields nothing exactly when both sides are exhausted, or when trail is 3 and one side is; a pull that yields nothing consumes nothing; a pull that yields an item consumes one or two items, at most one from each side |
| `Zort.Merged` | src/zort.rs:40-67 | everything still emitted by pulling until the first empty pull; this is never more than the items left in both inputs together, so draining terminates |
| `Zort.Zort.constructor` | src/zort.rs:16-24 | a new merge reads both inputs from position 0, keeps the given ranker, and starts with decider `PreferLeft` and trail 0 |
| `Zort.Zort.SetDecider` | src/zort.rs:26-29 | replaces the decider and changes no other field |
| `Zort.Zort.SetTrail` | src/zort.rs:31-34 | replaces the trail and changes no other field |
| `Zort.Zort.Next` | src/zort.rs:43-67 | one pull, written as the iterator's chain of branches, does exactly what `Step` describes from the old positions. It yields `None` exactly when the merge was stopped, and then leaves the positions unchanged, so every later pull yields `None` too. The item yielded, followed by what remains afterwards, is what remained before. A pull that yields an item consumes at least one |
| `Zort.StepCases` | src/zort.rs:44-66 | one pull, case by case. Both heads with equal rank: yields `decider(a_head, b_head)` and advances both sides. Unequal ranks: yields the lower-ranked head and advances only that side. Exactly one side exhausted and trail not 3: yields the other head and advances it; the two special branches for trails 1 and 2 fall under this rule. Stopped: yields `None` and consumes nothing |
| `Zort.Zort.Take` | src/zort.rs:78-87 | `n` consecutive pulls from a merge with at least `n` items left yield exactly its next `n` items, in order, and leave the rest |
| `Zort.Zort.Drain` | src/lib.rs:35 | the `for` loop over a merge, without the push: pulling until the first `None` returns exactly everything the merge had left, and leaves it stopped (`PushAll` is the same loop with a push per item) |
| `Zort.TrailOtherThanThreeActsAsZero` | src/zort.rs:46-52 | every trail value other than 3, including 1 and 2, gives the same output as trail 0 from every state |
| `Zort.TrailThreeIsPrefix` | src/zort.rs:49-50 | trail 3 emits a prefix of what trail 0 emits, and nothing once either side is exhausted, so the other side's remaining items are never emitted |
| `Zort.MergeWithExhaustedRight` | src/zort.rs:46-52 | with the right input exhausted, the merge emits the rest of the left input unchanged, or nothing under trail 3 |
| `Zort.MergeWithExhaustedLeft` | src/zort.rs:46-52 | with the left input exhausted, the merge emits the rest of the right input unchanged, or nothing under trail 3 |
| `Zort.DrainedAtLeastLongerSide` | src/zort.rs:46-65 | for every trail other than 3, the output is at least as long as each input's remainder |
| `Zort.PairedRanksDecidedPairwise` | src/zort.rs:59-63 | when the inputs share every rank position by position, the output has one item per pair, and item `k` is the decider's choice for pair `k` |
| `Zort.PreferLeftOnTies` | src/zort.rs:36 | with the default decider, pairwise ties emit the left input unchanged |
| `Zort.PreferRightOnTies` | src/zort.rs:37 | with `PreferRight`, pairwise ties emit the right input unchanged |
| `Zort.AgreeingDecidersSameMerge` | src/zort.rs:59-63 | the decider matters only through the values it returns: two deciders that agree on every pair give the same merge |
| `Zort.MergedFromInputs` | src/zort.rs:46-65 | the merge invents nothing: for inputs in any order and every trail, each emitted item is an item of one remainder, or the decider's choice for a pair of items, one from each remainder, that share a rank |
| `Zort.UniqueRankPassesThrough` | src/zort.rs:46-65 | for every trail but 3 and inputs in any order, an item of the left input whose rank the right remainder never holds is emitted unchanged |
| `Zort.UniqueRankPassesThroughRight` | src/zort.rs:46-65 | the mirror image: an item of the right input whose rank the left remainder never holds is emitted unchanged |
| `Zort.SharedRankDecided` | src/zort.rs:59-65 | in strictly ranked inputs, the decider's choice for two items sharing a rank is emitted, for every trail |
| `Zort.SharedRankEmittedOnce` | src/zort.rs:59-65 | when, in addition, the decider keeps the shared rank, that choice is the only output item of that rank: neither item of the pair also comes out on its own |
| `Zort.MergeKeepsRankOrder` | src/zort.rs:59-65 | for every trail, strictly rank-ordered inputs and a decider that keeps the shared rank on ties give a strictly rank-ordered output: nothing is reordered and no rank repeats |
| `Zort.DisjointMergeIsPermutation` | src/zort.rs:64-65 | when no rank is shared and trail is not 3, every remaining input item is emitted exactly once (as a multiset, the output is the two remainders together) |
| `Zort.MergeIsAscendingUnion` | src/zort.rs:76-116 | numbers in two strictly increasing inputs with no value in common, ranked by themselves and merged with any trail but 3, come out as the ascending merge: the only strictly increasing sequence holding exactly the elements of both |
| `Zort.SplitDigitsMerge` | src/zort.rs:76-88 | any split of the digits 0 to 9 into two increasing inputs with no digit in common merges back to 0, 1, ..., 9 |
| `Zort.AssertSorted` | src/zort.rs:76-88 | for such a split, ten pulls from a fresh merge yield `Some(0)`, ..., `Some(9)` in order. The four unit tests call it on their vectors |
| `Zort.TrailExample` | src/zort.rs:46-52 | for A = [1, 3] and B = [2, 4, 5], trails 0, 1 and 2 emit [1, 2, 3, 4, 5] and trail 3 emits [1, 2, 3] |
| `Zort.AThenB` | src/zort.rs:90-95 | ten pulls over [0..4] and [5..9] yield `Some(0)`, ..., `Some(9)` |
| `Zort.BThenA` | src/zort.rs:97-102 | ten pulls over [5..9] and [0..4] yield `Some(0)`, ..., `Some(9)` |
| `Zort.Alternating` | src/zort.rs:104-109 | ten pulls over the odd and the even digits yield `Some(0)`, ..., `Some(9)` |
| `Zort.Random` | src/zort.rs:111-116 | ten pulls over [1, 4, 6, 8, 9] and [0, 2, 3, 5, 7] yield `Some(0)`, ..., `Some(9)` |
| `Lib.Ranker` | src/lib.rs:43-45 | a gene's merge rank is its innovation id |
| `Lib.Bias` | src/lib.rs:39-41 | returns its left gene |
| `Lib.Phenotype` | src/lib.rs:50-58 | the payloads of the enabled genes; never more of them than there are genes |
| `Lib.Genome.constructor` | src/lib.rs:20 | a new genome has no genes and has received no pushes |
| `Lib.Genome.Push` | src/lib.rs:47-48 | leaves the genome's genes unchanged, for every gene and every mutation value; the call is appended to the ghost log `pushes` |
| `Lib.Genome.Collect` | src/lib.rs:50-58 | the loop over the genes returns exactly `Phenotype(genes)` |
| `Lib.Genome.PushAll` | src/lib.rs:35 | the `for` loop of `splice`: the genome's push log grows by exactly the genes the merge still had to yield, in order; its genes stay unchanged and the merge ends stopped |
| `Lib.Genome.Splice` | src/lib.rs:22-37 | returns a fresh, empty genome. Its push log is exactly the merge of the parents' genes, ranked by innovation, with the default decider, in merge order: one `Push` call per merged item. That log is the same whether the extra `1` is dropped (trail 0) or read as trail 1 |
| `Lib.Platter.constructor` | src/lib.rs:62 | a new innovation counter starts at 0 |
| `Lib.PhenotypeOfConcat` | src/lib.rs:52-56 | collecting preserves gene order: the payloads of concatenated gene lists are the concatenated payloads |
| `Lib.PhenotypeMembers` | src/lib.rs:53-55 | a payload is collected exactly when some enabled gene carries it (both directions) |
| `Lib.PhenotypeAllEnabled` | src/lib.rs:52-55 | with every gene enabled, collecting yields one payload per gene, at the same position |
| `Lib.PhenotypeNoneEnabled` | src/lib.rs:52-55 | with no gene enabled, collecting yields nothing |
| `Lib.SpliceMergeIsInnovationOrdered` | src/lib.rs:29-45 | merging two innovation-ordered parents by `Ranker` keeps innovation order with no repeated id, for every trail |
| `Lib.SpliceGenesFromParents` | src/lib.rs:29-35 | every gene of the offspring's merge belongs to one of the parents |
| `Lib.SpliceKeepsUnsharedGenes` | src/lib.rs:29-35 | every gene whose innovation only one parent holds reaches the offspring's merge, from either parent |
| `Lib.SpliceKeepsLeftOfShared` | src/lib.rs:29-35 | for innovation-ordered parents, a shared innovation yields the left parent's gene, the default decider's choice |
| `Lib.SpliceDropsRightOfShared` | src/lib.rs:29-35 | for innovation-ordered parents, the left parent's gene is the only gene of a shared innovation in the merge, so the right parent's gene does not survive on its own |
| `Lib.BiasMergesLikeDefault` | src/lib.rs:39-41 | `Bias` keeps the left gene, like the default decider, so handing it to the merge would give the same merge |

## Left out

- Rust's `Peekable` and `Iterator` machinery is not modelled. Each input is a sequence with a read position, and the `fn` pointer types are Dafny function values. `Next` is the iterator's `next`, and `Drain` is the `for` loop that consumes it.
- The iterator yields references (`&Gene`). The model yields the values themselves, so it does not model aliasing.
- Integer widths are not modelled. `usize` ranks, innovation ids and trail values are `nat`, because the merge never does arithmetic on them.
- `set_decider` and `set_trail` return `&mut Self` for chaining. The model's setters return nothing.
- The mutation rate `mutation: f64` of `splice` and `push` is kept as an ignored `real` parameter, because it is floating point and never read. There is no random generator in the source, and none in the model.
- `splice` takes a `bias` argument but never passes it to the merge. `Splice` takes it and ignores it, as the source does.
- The compile error in `splice` (four arguments to the three-argument `Zort::new`) is not reproduced. The extra `1` is dropped, and `Splice`'s contract shows that trail 1 would give the same merge.
- `collect` takes the genome by value and consumes it. `Collect` only reads, because nothing uses the genome afterwards.
- `Platter` has nothing in the source beyond its constructor, and nothing more is modelled. The model has no handing out of innovation ids, no locking and no concurrency.
- The test helper's `assert_eq!` checks become `AssertSorted`'s postcondition on the value each pull yields. Its precondition asks that the two inputs split the digits 0 to 9 between them, which all four test vectors do.
- `Genome.pushes` is a ghost log of `Push` calls that the source does not have. It exists only so that a contract can say which genes were pushed, because `push` has no visible effect.
- Unsorted inputs are admitted by the model. The model is defined for all inputs, as the source is. Only the ordering and shared-rank lemmas require sorted inputs.
