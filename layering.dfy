/** Stage 3 of the gene track (layerGenes, getMaxLayer): one display record per packed
    gene, sorted by start, and the bound of the track's vertical scale. */
module Layering {
  import opened Genome
  import opened Sequences

  /** The record layerGenes pushes for a gene of lane `level`: no SNPs, not highlighted. */
  function Fresh(gene: Gene, level: nat): Layer {
    Layer(gene, level, [], false)
  }

  function LaneRecords(lane: seq<Gene>, level: nat): seq<Layer> {
    seq(|lane|, k requires 0 <= k < |lane| => Fresh(lane[k], level))
  }

  /** The records in the order layerGenes pushes them: lane by lane, each lane in order. */
  function Tagged(lanes: seq<seq<Gene>>): seq<Layer>
    decreases |lanes|
  {
    if lanes == [] then []
    else Tagged(lanes[..|lanes| - 1]) + LaneRecords(lanes[|lanes| - 1], |lanes| - 1)
  }

  function Genes(records: seq<Layer>): seq<Gene> {
    seq(|records|, k requires 0 <= k < |records| => records[k].gene)
  }

  ghost predicate SortedByStart(records: seq<Layer>) {
    forall i, j :: 0 <= i < j < |records| ==> records[i].gene.start <= records[j].gene.start
  }

  /** Insert `x` before the first record that starts at or after it. */
  function Insert(x: Layer, sorted: seq<Layer>): seq<Layer>
    decreases |sorted|
  {
    if sorted == [] || x.gene.start <= sorted[0].gene.start then [x] + sorted
    else [sorted[0]] + Insert(x, sorted[1..])
  }

  /** `Array.prototype.sort` with the comparator `a.gene.start - b.gene.start`: a sort
      by start, written as an insertion sort. */
  function SortByStart(records: seq<Layer>): seq<Layer>
    decreases |records|
  {
    if records == [] then [] else Insert(records[0], SortByStart(records[1..]))
  }

  lemma {:induction false} InsertPermutes(x: Layer, sorted: seq<Layer>)
    ensures multiset(Insert(x, sorted)) == multiset{x} + multiset(sorted)
    decreases |sorted|
  {
    if !(sorted == [] || x.gene.start <= sorted[0].gene.start) {
      InsertPermutes(x, sorted[1..]);
      assert sorted == [sorted[0]] + sorted[1..];
    }
  }

  lemma {:induction false} InsertKeepsGenes(x: Layer, sorted: seq<Layer>)
    ensures multiset(Genes(Insert(x, sorted))) == multiset{x.gene} + multiset(Genes(sorted))
    decreases |sorted|
  {
    if sorted == [] || x.gene.start <= sorted[0].gene.start {
      assert Genes([x] + sorted) == [x.gene] + Genes(sorted);
    } else {
      var rest := Insert(x, sorted[1..]);
      InsertKeepsGenes(x, sorted[1..]);
      assert Genes([sorted[0]] + rest) == [sorted[0].gene] + Genes(rest);
      assert Genes(sorted) == [sorted[0].gene] + Genes(sorted[1..]);
    }
  }

  lemma {:induction false} InsertSorted(x: Layer, sorted: seq<Layer>)
    requires SortedByStart(sorted)
    ensures SortedByStart(Insert(x, sorted))
    decreases |sorted|
  {
    if !(sorted == [] || x.gene.start <= sorted[0].gene.start) {
      var rest := Insert(x, sorted[1..]);
      InsertSorted(x, sorted[1..]);
      InsertBounded(x, sorted);
      var r := [sorted[0]] + rest;
      forall i, j | 0 <= i < j < |r|
        ensures r[i].gene.start <= r[j].gene.start
      {
        assert r[j] == rest[j - 1];
        if i > 0 {
          assert r[i] == rest[i - 1];
        }
      }
    }
  }

  /** When `x` goes after the first record, that record starts no later than any record
      of the rest of the insertion. */
  lemma InsertBounded(x: Layer, sorted: seq<Layer>)
    requires SortedByStart(sorted)
    requires sorted != [] && x.gene.start > sorted[0].gene.start
    ensures forall k :: 0 <= k < |Insert(x, sorted[1..])| ==>
      sorted[0].gene.start <= Insert(x, sorted[1..])[k].gene.start
  {
    var rest := Insert(x, sorted[1..]);
    InsertPermutes(x, sorted[1..]);
    forall k | 0 <= k < |rest|
      ensures sorted[0].gene.start <= rest[k].gene.start
    {
      assert rest[k] in multiset(rest);
      if rest[k] != x {
        assert rest[k] in sorted[1..];
      }
    }
  }

  /** The sort orders the records by start and only reorders them. */
  lemma {:induction false} SortByStartProperties(records: seq<Layer>)
    ensures SortedByStart(SortByStart(records))
    ensures multiset(SortByStart(records)) == multiset(records)
    ensures multiset(Genes(SortByStart(records))) == multiset(Genes(records))
    decreases |records|
  {
    if records != [] {
      SortByStartProperties(records[1..]);
      InsertSorted(records[0], SortByStart(records[1..]));
      InsertPermutes(records[0], SortByStart(records[1..]));
      InsertKeepsGenes(records[0], SortByStart(records[1..]));
      assert records == [records[0]] + records[1..];
      assert Genes(records) == [records[0].gene] + Genes(records[1..]);
    }
  }

  /** The pushed records are one per packed gene, in flattened order; each carries the
      index of the lane holding its gene, no SNPs and no highlight, and every gene of
      every lane has its record with that lane's index, even where one gene value sits
      in two lanes. */
  lemma {:induction false} TaggedProperties(lanes: seq<seq<Gene>>)
    ensures Genes(Tagged(lanes)) == Flatten(lanes)
    ensures forall r :: r in Tagged(lanes) ==>
      r.level < |lanes| && r.gene in lanes[r.level] && r.snps == [] && !r.highlight
    ensures forall l, k :: 0 <= l < |lanes| && 0 <= k < |lanes[l]| ==>
      Fresh(lanes[l][k], l) in Tagged(lanes)
    decreases |lanes|
  {
    if lanes != [] {
      var n := |lanes| - 1;
      TaggedProperties(lanes[..n]);
      assert Genes(LaneRecords(lanes[n], n)) == lanes[n];
      assert Genes(Tagged(lanes)) == Genes(Tagged(lanes[..n])) + Genes(LaneRecords(lanes[n], n));
      forall r | r in Tagged(lanes)
        ensures r.level < |lanes| && r.gene in lanes[r.level] && r.snps == [] && !r.highlight
      {
        if r in Tagged(lanes[..n]) {
          assert lanes[..n][r.level] == lanes[r.level];
        }
      }
      forall l, k | 0 <= l < |lanes| && 0 <= k < |lanes[l]|
        ensures Fresh(lanes[l][k], l) in Tagged(lanes)
      {
        if l < n {
          assert lanes[..n][l][k] == lanes[l][k];
        } else {
          assert LaneRecords(lanes[n], n)[k] == Fresh(lanes[l][k], l);
        }
      }
    }
  }

  /** layerGenes: push one fresh record per gene, lane by lane, then sort by start. */
  method LayerGenes(orderedGenes: seq<seq<Gene>>) returns (returnArray: seq<Layer>)
    ensures returnArray == SortByStart(Tagged(orderedGenes))
    ensures SortedByStart(returnArray)
    ensures multiset(Genes(returnArray)) == multiset(Flatten(orderedGenes))
    ensures multiset(returnArray) == multiset(Tagged(orderedGenes))
    ensures forall r :: r in returnArray ==>
      r.level < |orderedGenes| && r.gene in orderedGenes[r.level] && r.snps == [] && !r.highlight
    ensures forall l, k :: 0 <= l < |orderedGenes| && 0 <= k < |orderedGenes[l]| ==>
      Fresh(orderedGenes[l][k], l) in returnArray
  {
    var pushed: seq<Layer> := [];
    for i := 0 to |orderedGenes|
      invariant pushed == Tagged(orderedGenes[..i])
    {
      var lane := orderedGenes[i];
      for k := 0 to |lane|
        invariant pushed == Tagged(orderedGenes[..i]) + LaneRecords(lane[..k], i)
      {
        pushed := pushed + [Fresh(lane[k], i)];
      }
      assert lane[..|lane|] == lane;
      assert orderedGenes[..i + 1][..i] == orderedGenes[..i];
    }
    assert orderedGenes[..|orderedGenes|] == orderedGenes;
    returnArray := SortByStart(pushed);
    SortByStartProperties(pushed);
    TaggedProperties(orderedGenes);
    forall r | r in returnArray
      ensures r in pushed
    {
      assert r in multiset(returnArray);
    }
    forall l, k | 0 <= l < |orderedGenes| && 0 <= k < |orderedGenes[l]|
      ensures Fresh(orderedGenes[l][k], l) in returnArray
    {
      assert Fresh(orderedGenes[l][k], l) in multiset(pushed);
    }
  }

  /** getMaxLayer: the largest level plus the visual padding 1.5, or 1.5 for no records. */
  method GetMaxLayer(layeredGenes: seq<Layer>) returns (bound: real)
    ensures layeredGenes == [] ==> bound == 1.5
    ensures forall i :: 0 <= i < |layeredGenes| ==> layeredGenes[i].level as real + 1.5 <= bound
    ensures layeredGenes != [] ==>
      exists i :: 0 <= i < |layeredGenes| && bound == layeredGenes[i].level as real + 1.5
  {
    var returnValue: nat := 0;
    for i := 0 to |layeredGenes|
      invariant forall k :: 0 <= k < i ==> layeredGenes[k].level <= returnValue
      invariant returnValue == 0 || exists k :: 0 <= k < i && returnValue == layeredGenes[k].level
    {
      if returnValue < layeredGenes[i].level {
        returnValue := layeredGenes[i].level;
      }
    }
    if layeredGenes != [] && returnValue == 0 {
      assert layeredGenes[0].level == 0;
    }
    bound := returnValue as real + 1.5;
  }
}
