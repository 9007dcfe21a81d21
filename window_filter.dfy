/** Stage 1 of the gene track (filterGenes): keep the genes near the QTL. */
module WindowFilter {
  import opened Wrappers
  import opened Genome
  import opened Sequences

  /** genomicResolution: the half-width of the window around the QTL, in base pairs. */
  const GenomicResolution: int := 1500000

  /** The test filterGenes applies to one gene: its start lies strictly inside the window,
      or its `end` field lies inside the window bounds inclusive. A missing `end`
      compares false, so for the database's rows only the start test can keep a gene. */
  function NearQtl(d: Gene, position: int): (r: bool)
    ensures position - 1500000 < d.start < position + 1500000 ==> r
    ensures d.end.Some? && position - 1500000 <= d.end.value <= position + 1500000 ==> r
    ensures d.end.None? ==> (r <==> position - 1500000 < d.start < position + 1500000)
  {
    (d.start < position + GenomicResolution && d.start > position - GenomicResolution)
    || (d.end.Some? && d.end.value <= position + GenomicResolution && d.end.value >= position - GenomicResolution)
  }

  /** The genes that pass NearQtl, in input order. */
  function KeepNear(genes: seq<Gene>, position: int): seq<Gene>
    decreases |genes|
  {
    if genes == [] then []
    else
      var n := |genes| - 1;
      KeepNear(genes[..n], position) + (if NearQtl(genes[n], position) then [genes[n]] else [])
  }

  /** A gene is kept exactly when it passes the test, and the kept genes keep
      their input order. */
  lemma {:induction false} KeepNearExactly(genes: seq<Gene>, position: int)
    ensures forall d :: d in KeepNear(genes, position) <==> d in genes && NearQtl(d, position)
    ensures IsSubsequence(KeepNear(genes, position), genes)
    decreases |genes|
  {
    if genes == [] {
      SubsequenceEmpty(genes);
    } else {
      var n := |genes| - 1;
      KeepNearExactly(genes[..n], position);
      SubsequenceExtend(KeepNear(genes[..n], position), genes[..n], genes[n]);
      assert genes[..n] + [genes[n]] == genes;
    }
  }

  /** With no `end` field on any row (the database's rows), the filter is the strict
      start test alone. */
  lemma {:induction false} KeepNearWithoutEnd(genes: seq<Gene>, position: int)
    requires forall k :: 0 <= k < |genes| ==> genes[k].end == None
    ensures forall d :: d in KeepNear(genes, position) <==>
      d in genes && position - GenomicResolution < d.start < position + GenomicResolution
  {
    KeepNearExactly(genes, position);
  }

  /** A gene that starts before the window and stops inside it is dropped when it has no
      `end` field, although its `stop` lies in the window. */
  lemma GeneEndingInWindowIsDropped(position: int)
    ensures var d := Gene(Num(1), "gene", position - GenomicResolution - 10, position, None,
                          "+", "g", "", "g", "protein_coding");
            KeepNear([d], position) == []
  {
  }

  /** filterGenes: a fresh list of the genes near the QTL, in input order. */
  method FilterGenes(genes: seq<Gene>, qtl: Qtl) returns (returnArray: seq<Gene>)
    ensures returnArray == KeepNear(genes, qtl.position)
    ensures forall d :: d in returnArray <==> d in genes && NearQtl(d, qtl.position)
    ensures IsSubsequence(returnArray, genes)
  {
    returnArray := [];
    for i := 0 to |genes|
      invariant returnArray == KeepNear(genes[..i], qtl.position)
    {
      assert genes[..i + 1][..i] == genes[..i];
      if NearQtl(genes[i], qtl.position) {
        returnArray := returnArray + [genes[i]];
      }
    }
    assert genes[..|genes|] == genes;
    KeepNearExactly(genes, qtl.position);
  }
}
