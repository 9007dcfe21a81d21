/** Stage 4 of the gene track (associateSnps, geneMatch) and the fill colour of a gene
    rectangle. */
module SnpAssociation {
  import opened Genome
  import opened Text
  import opened Sequences
  import opened Layering

  /** geneMatch: a missing (empty) or "NA" cross-reference matches nothing; otherwise the
      SNP's Ensembl gene must be contained in the cross-reference text, as a substring. */
  function GeneMatch(gene: Gene, snp: Snp): (r: bool)
    ensures r ==> gene.databaseCrossReference !in {"", "NA"}
                  && |snp.ensemblGene| <= |gene.databaseCrossReference|
    ensures gene.databaseCrossReference !in {"", "NA"} && snp.ensemblGene == gene.databaseCrossReference ==> r
    ensures gene.databaseCrossReference !in {"", "NA"} && snp.ensemblGene == "" ==> r
  {
    gene.databaseCrossReference != "" && gene.databaseCrossReference != "NA"
    && Includes(gene.databaseCrossReference, snp.ensemblGene)
  }

  /** geneMatch is containment at some offset, not equality. */
  lemma GeneMatchIsContainment(gene: Gene, snp: Snp)
    ensures GeneMatch(gene, snp) <==>
      gene.databaseCrossReference !in {"", "NA"}
      && exists i :: OccursAt(gene.databaseCrossReference, snp.ensemblGene, i)
  {
    IncludesAt(gene.databaseCrossReference, snp.ensemblGene);
  }

  /** A cross-reference field listing several Ensembl ids matches each of them. */
  lemma GeneMatchExample()
    ensures var g := Gene(Num(1), "gene", 0, 10, Wrappers.None, "+", "g", "ENSG1,ENSG2", "g", "");
            GeneMatch(g, Snp(5, "ENSG2", "missense", false))
            && !GeneMatch(g.(databaseCrossReference := "NA"), Snp(5, "NA", "missense", false))
  {
    var x := "ENSG1,ENSG2";
    assert x[6..] == "ENSG2";
    assert Includes(x[6..], "ENSG2");
    assert x[6..] == x[1..][1..][1..][1..][1..][1..];
  }

  /** The gene holds the SNP: the position lies in [start, stop] and geneMatch holds. */
  predicate Covers(gene: Gene, snp: Snp) {
    gene.start <= snp.position <= gene.stop && GeneMatch(gene, snp)
  }

  /** The SNPs the gene holds, in input order. */
  function Attached(gene: Gene, snps: seq<Snp>): seq<Snp>
    decreases |snps|
  {
    if snps == [] then []
    else
      var n := |snps| - 1;
      Attached(gene, snps[..n]) + (if Covers(gene, snps[n]) then [snps[n]] else [])
  }

  /** A gene holds exactly the SNPs that it covers, in input order. */
  lemma {:induction false} AttachedExactly(gene: Gene, snps: seq<Snp>)
    ensures forall s :: s in Attached(gene, snps) <==> s in snps && Covers(gene, s)
    ensures IsSubsequence(Attached(gene, snps), snps)
    decreases |snps|
  {
    if snps == [] {
      SubsequenceEmpty(snps);
    } else {
      var n := |snps| - 1;
      AttachedExactly(gene, snps[..n]);
      SubsequenceExtend(Attached(gene, snps[..n]), snps[..n], snps[n]);
      assert snps[..n] + [snps[n]] == snps;
    }
  }

  predicate AnyHighlighted(snps: seq<Snp>) {
    exists i :: 0 <= i < |snps| && snps[i].highlight
  }

  /** A record after the SNPs `found` were pushed onto it: highlighted when it was, or
      when one of them is. */
  function Absorb(r: Layer, found: seq<Snp>): Layer {
    r.(snps := r.snps + found, highlight := r.highlight || AnyHighlighted(found))
  }

  lemma AbsorbStep(r: Layer, found: seq<Snp>, snp: Snp)
    ensures Absorb(Absorb(r, found), [snp]) == Absorb(r, found + [snp])
  {
    assert (found + [snp])[|found|] == snp;
    if AnyHighlighted(found) {
      var i :| 0 <= i < |found| && found[i].highlight;
      assert (found + [snp])[i] == found[i];
    }
    if AnyHighlighted(found + [snp]) {
      var i :| 0 <= i < |found + [snp]| && (found + [snp])[i].highlight;
      if i < |found| {
        assert found[i] == (found + [snp])[i];
      }
    }
  }

  /** The scan of associateSnps reaches record `j` for a SNP at `position` when no record
      up to and including `j` starts after the position (the `break` fires at the first
      one that does). */
  predicate Reached(records: seq<Layer>, j: nat, position: int)
    requires j < |records|
  {
    forall i :: 0 <= i <= j ==> records[i].gene.start <= position
  }

  /** The SNPs the scan as written pushes onto record `j`. */
  function ScanAttached(records: seq<Layer>, j: nat, snps: seq<Snp>): seq<Snp>
    requires j < |records|
    decreases |snps|
  {
    if snps == [] then []
    else
      var n := |snps| - 1;
      var s := snps[n];
      ScanAttached(records, j, snps[..n])
        + (if Reached(records, j, s.position) && s.position <= records[j].gene.stop
              && GeneMatch(records[j].gene, s)
           then [s] else [])
  }

  /** On start-sorted records the early `break` loses nothing: the scan pushes exactly the
      SNPs the gene covers. */
  lemma {:induction false} ScanAgreesWhenSorted(records: seq<Layer>, j: nat, snps: seq<Snp>)
    requires j < |records|
    requires SortedByStart(records)
    ensures ScanAttached(records, j, snps) == Attached(records[j].gene, snps)
    decreases |snps|
  {
    if snps != [] {
      var n := |snps| - 1;
      ScanAgreesWhenSorted(records, j, snps[..n]);
      if records[j].gene.start <= snps[n].position {
        assert Reached(records, j, snps[n].position);
      }
    }
  }

  /** On records out of start order the `break` can lose a SNP: a later record that
      covers it is never reached. */
  lemma ScanLosesWhenUnsorted()
    ensures var late := Gene(Num(1), "gene", 100, 200, Wrappers.None, "+", "late", "E1", "late", "");
            var early := Gene(Num(1), "gene", 50, 80, Wrappers.None, "+", "early", "E1", "early", "");
            var s := Snp(60, "E1", "missense", false);
            var records := [Fresh(late, 0), Fresh(early, 1)];
            Covers(early, s) && ScanAttached(records, 1, [s]) == []
  {
    var late := Gene(Num(1), "gene", 100, 200, Wrappers.None, "+", "late", "E1", "late", "");
    var early := Gene(Num(1), "gene", 50, 80, Wrappers.None, "+", "early", "E1", "early", "");
    var s := Snp(60, "E1", "missense", false);
    var records := [Fresh(late, 0), Fresh(early, 1)];
    assert StartsWith(early.databaseCrossReference, "E1");
    assert [s][..0] == [];
    assert !Reached(records, 1, 60) by {
      assert records[0].gene.start == 100;
    }
  }

  lemma ScanStep(records: seq<Layer>, j: nat, before: seq<Snp>, s: Snp)
    requires j < |records|
    ensures Reached(records, j, s.position) && s.position <= records[j].gene.stop
              && GeneMatch(records[j].gene, s) ==>
            ScanAttached(records, j, before + [s]) == ScanAttached(records, j, before) + [s]
    ensures !(Reached(records, j, s.position) && s.position <= records[j].gene.stop
              && GeneMatch(records[j].gene, s)) ==>
            ScanAttached(records, j, before + [s]) == ScanAttached(records, j, before)
  {
    assert (before + [s])[..|before|] == before;
    assert ScanAttached(records, j, before) + [] == ScanAttached(records, j, before);
  }

  /** Every record of `a` holds what the scan pushed onto it over the SNPs `seen`. */
  ghost predicate ScannedOver(a: seq<Layer>, orig: seq<Layer>, lo: int, hi: int, seen: seq<Snp>)
    requires |a| == |orig|
  {
    forall j :: lo <= j < hi && 0 <= j < |a| ==> a[j] == Absorb(orig[j], ScanAttached(orig, j, seen))
  }

  /** When the scan breaks at record `i`, no record from `i` on is reached, so they all
      already hold what the scan pushes over `before + [snp]`. */
  lemma BreakLeavesRest(a: seq<Layer>, orig: seq<Layer>, i: int, before: seq<Snp>, snp: Snp)
    requires |a| == |orig|
    requires 0 <= i < |orig|
    requires orig[i].gene.start > snp.position
    requires ScannedOver(a, orig, i, |a|, before)
    ensures ScannedOver(a, orig, i, |a|, before + [snp])
  {
    forall j | i <= j < |a|
      ensures a[j] == Absorb(orig[j], ScanAttached(orig, j, before + [snp]))
    {
      assert !Reached(orig, j, snp.position);
      ScanStep(orig, j, before, snp);
    }
  }

  /** One pass of the `forEach` body of associateSnps over the records, for one SNP:
      scan from the first record, stop at the first record that starts after the SNP,
      and push the SNP onto every record passed whose gene holds it, highlighting the
      record when the SNP is highlighted. */
  method ScanForSnp(layeredGenes: array<Layer>, snp: Snp, ghost orig: seq<Layer>, ghost before: seq<Snp>)
    requires |orig| == layeredGenes.Length
    requires ScannedOver(layeredGenes[..], orig, 0, layeredGenes.Length, before)
    modifies layeredGenes
    ensures ScannedOver(layeredGenes[..], orig, 0, layeredGenes.Length, before + [snp])
  {
    var i := 0;
    while i < layeredGenes.Length
      invariant 0 <= i <= layeredGenes.Length
      invariant forall j :: 0 <= j < i ==> orig[j].gene.start <= snp.position
      invariant ScannedOver(layeredGenes[..], orig, 0, i, before + [snp])
      invariant ScannedOver(layeredGenes[..], orig, i, layeredGenes.Length, before)
    {
      var layer := layeredGenes[i];
      assert layeredGenes[..][i] == layer;
      assert layer == Absorb(orig[i], ScanAttached(orig, i, before));
      // too far: no later record is reached either
      if snp.position < layer.gene.start {
        BreakLeavesRest(layeredGenes[..], orig, i, before, snp);
        break;
      } else {
        assert Reached(orig, i, snp.position);
        ScanStep(orig, i, before, snp);
        if snp.position <= layer.gene.stop && GeneMatch(layer.gene, snp) {
          AbsorbStep(orig[i], ScanAttached(orig, i, before), snp);
          assert [snp][0] == snp;
          assert AnyHighlighted([snp]) == snp.highlight;
          layeredGenes[i] := layer.(snps := layer.snps + [snp],
                                    highlight := if snp.highlight then true else layer.highlight);
        }
        assert layeredGenes[i] == Absorb(orig[i], ScanAttached(orig, i, before + [snp]));
      }
      i := i + 1;
    }
  }

  /** associateSnps: the records are updated in place, SNP by SNP. Whatever the order of
      the records, each ends up holding what the scan pushed onto it; on start-sorted
      records (as layerGenes produces them) that is exactly the SNPs its gene covers. */
  method AssociateSnps(layeredGenes: array<Layer>, snps: seq<Snp>)
    modifies layeredGenes
    ensures forall j :: 0 <= j < layeredGenes.Length ==>
      layeredGenes[j] == Absorb(old(layeredGenes[j]), ScanAttached(old(layeredGenes[..]), j, snps))
    ensures SortedByStart(old(layeredGenes[..])) ==>
      forall j :: 0 <= j < layeredGenes.Length ==>
        layeredGenes[j] == Absorb(old(layeredGenes[j]), Attached(old(layeredGenes[j]).gene, snps))
  {
    ghost var orig := layeredGenes[..];
    assert ScannedOver(layeredGenes[..], orig, 0, layeredGenes.Length, snps[..0]);
    for k := 0 to |snps|
      invariant ScannedOver(layeredGenes[..], orig, 0, layeredGenes.Length, snps[..k])
    {
      ScanForSnp(layeredGenes, snps[k], orig, snps[..k]);
      assert snps[..k] + [snps[k]] == snps[..k + 1];
    }
    assert snps[..|snps|] == snps;
    forall j | 0 <= j < layeredGenes.Length
      ensures layeredGenes[j] == Absorb(orig[j], ScanAttached(orig, j, snps))
    {
      assert layeredGenes[..][j] == layeredGenes[j];
    }
    if SortedByStart(orig) {
      forall j | 0 <= j < layeredGenes.Length
        ensures ScanAttached(orig, j, snps) == Attached(orig[j].gene, snps)
      {
        ScanAgreesWhenSorted(orig, j, snps);
      }
    }
  }

  /** On a fresh record, association attaches exactly the SNPs the gene covers, marks
      the record highlighted exactly when one of them is highlighted, and leaves the gene
      and the level alone. */
  lemma FreshRecordAssociation(r: Layer, snps: seq<Snp>)
    requires r.snps == [] && !r.highlight
    ensures var a := Absorb(r, Attached(r.gene, snps));
      && a.gene == r.gene && a.level == r.level
      && (forall s :: s in a.snps <==> s in snps && Covers(r.gene, s))
      && (a.highlight <==> exists s :: s in snps && Covers(r.gene, s) && s.highlight)
  {
    var found := Attached(r.gene, snps);
    AttachedExactly(r.gene, snps);
    assert Absorb(r, found).snps == found by {
      assert [] + found == found;
    }
    AttachedHighlight(r.gene, snps);
  }

  /** The SNPs a gene holds include a highlighted one exactly when the gene covers a
      highlighted SNP. */
  lemma AttachedHighlight(gene: Gene, snps: seq<Snp>)
    ensures AnyHighlighted(Attached(gene, snps)) <==> exists s :: s in snps && Covers(gene, s) && s.highlight
  {
    var found := Attached(gene, snps);
    AttachedExactly(gene, snps);
    if exists s :: s in snps && Covers(gene, s) && s.highlight {
      var s :| s in snps && Covers(gene, s) && s.highlight;
      assert s in found;
      var i :| 0 <= i < |found| && found[i] == s;
    }
    if AnyHighlighted(found) {
      var i :| 0 <= i < |found| && found[i].highlight;
      assert found[i] in found;
    }
  }

  const HighlightedFill: string := "#de2d26"
  const SnpFill: string := "#fc9272"
  const PlainFill: string := "#727272"

  /** The fill colour of a gene rectangle: red for a highlighted record, light red for a
      record holding SNPs, grey otherwise. */
  function Fill(d: Layer): (c: string)
    ensures c in {HighlightedFill, SnpFill, PlainFill}
    ensures c == HighlightedFill <==> d.highlight
    ensures c == SnpFill <==> !d.highlight && d.snps != []
    ensures c == PlainFill <==> !d.highlight && d.snps == []
  {
    if d.highlight then HighlightedFill else if |d.snps| != 0 then SnpFill else PlainFill
  }

  /** A freshly associated record is red when the gene holds a highlighted SNP, light red
      when it holds SNPs and none is highlighted, and grey when it holds none. */
  lemma FillOfAssociatedRecord(r: Layer, snps: seq<Snp>)
    requires r.snps == [] && !r.highlight
    ensures var c := Fill(Absorb(r, Attached(r.gene, snps)));
      && (c == HighlightedFill <==> exists s :: s in snps && Covers(r.gene, s) && s.highlight)
      && (c == SnpFill <==>
            (exists s :: s in snps && Covers(r.gene, s))
            && !(exists s :: s in snps && Covers(r.gene, s) && s.highlight))
      && (c == PlainFill <==> !(exists s :: s in snps && Covers(r.gene, s)))
  {
    FreshRecordAssociation(r, snps);
    var a := Absorb(r, Attached(r.gene, snps));
    if exists s :: s in snps && Covers(r.gene, s) {
      var s :| s in snps && Covers(r.gene, s);
      assert s in a.snps;
    }
  }
}
