/** The gene-track pipeline as drawGroups runs it: filter, pack, layer, bound the
    vertical scale, then associate SNPs with the layered records in place. */
module GeneTrack {
  import opened Genome
  import opened WindowFilter
  import opened LanePacking
  import opened Layering
  import opened SnpAssociation

  /** Some record holds `gene` at level `level`. */
  ghost predicate HasRecord(records: seq<Layer>, gene: Gene, level: int) {
    exists j :: 0 <= j < |records| && records[j].gene == gene && records[j].level == level
  }

  /** Some record's level plus 1.5 is exactly `bound`. */
  ghost predicate BoundAttained(records: seq<Layer>, bound: real) {
    exists j :: 0 <= j < |records| && bound == records[j].level as real + 1.5
  }

  /** The lane packing of the genes near the QTL. */
  function TrackLanes(allGenes: seq<Gene>, qtl: Qtl): seq<seq<Gene>> {
    Pack(KeepNear(allGenes, qtl.position))
  }

  /** The record holds its gene from lane `level` of the packing, with no SNPs yet. */
  ghost predicate FreshInLane(r: Layer, lanes: seq<seq<Gene>>) {
    r.level < |lanes| && r.gene in lanes[r.level] && r.snps == [] && !r.highlight
  }

  /** The declarations of drawGroups before associateSnps: filterGenes, orderGenes,
      layerGenes and getMaxLayer. */
  method LayOutGenes(allGenes: seq<Gene>, qtl: Qtl) returns (plottableGenes: seq<Layer>, maxLayer: real)
    ensures SortedByStart(plottableGenes)
    ensures multiset(Genes(plottableGenes)) == multiset(KeepNear(allGenes, qtl.position))
    ensures multiset(plottableGenes) == multiset(Tagged(TrackLanes(allGenes, qtl)))
    ensures forall j :: 0 <= j < |plottableGenes| ==> FreshInLane(plottableGenes[j], TrackLanes(allGenes, qtl))
    ensures forall l, k :: 0 <= l < |TrackLanes(allGenes, qtl)| && 0 <= k < |TrackLanes(allGenes, qtl)[l]| ==>
      Fresh(TrackLanes(allGenes, qtl)[l][k], l) in plottableGenes
    ensures plottableGenes == [] ==> maxLayer == 1.5
    ensures forall j :: 0 <= j < |plottableGenes| ==> plottableGenes[j].level as real + 1.5 <= maxLayer
    ensures plottableGenes != [] ==> BoundAttained(plottableGenes, maxLayer)
  {
    var genes := FilterGenes(allGenes, qtl);
    var lanes := OrderGenes(genes);
    plottableGenes := LayerGenes(lanes);
    maxLayer := GetMaxLayer(plottableGenes);
    forall j | 0 <= j < |plottableGenes|
      ensures FreshInLane(plottableGenes[j], TrackLanes(allGenes, qtl))
    {
      assert plottableGenes[j] in plottableGenes;
    }
  }

  /** The computation part of drawGroups. Every gene near the QTL gets exactly one
      record, the records are sorted by start, each record's level is the lane its gene
      was packed into, each record holds exactly the SNPs its gene covers (in input
      order, since the layered records are start-sorted), highlighted exactly when one of
      them is, and the vertical bound is the deepest level plus 1.5. */
  method DrawGroups(allGenes: seq<Gene>, qtl: Qtl, snps: seq<Snp>)
    returns (plottableGenes: seq<Layer>, maxLayer: real)
    ensures SortedByStart(plottableGenes)
    ensures multiset(Genes(plottableGenes)) == multiset(KeepNear(allGenes, qtl.position))
    ensures forall j :: 0 <= j < |plottableGenes| ==>
      var r := plottableGenes[j];
      && r.level < |TrackLanes(allGenes, qtl)|
      && r.gene in TrackLanes(allGenes, qtl)[r.level]
      && r.snps == Attached(r.gene, snps)
      && (r.highlight <==> exists s :: s in snps && Covers(r.gene, s) && s.highlight)
    ensures forall l, k :: 0 <= l < |TrackLanes(allGenes, qtl)| && 0 <= k < |TrackLanes(allGenes, qtl)[l]| ==>
      HasRecord(plottableGenes, TrackLanes(allGenes, qtl)[l][k], l)
    ensures plottableGenes == [] ==> maxLayer == 1.5
    ensures forall j :: 0 <= j < |plottableGenes| ==> plottableGenes[j].level as real + 1.5 <= maxLayer
    ensures plottableGenes != [] ==> BoundAttained(plottableGenes, maxLayer)
  {
    var layered;
    layered, maxLayer := LayOutGenes(allGenes, qtl);
    plottableGenes := AssociateLaidOut(layered, snps);
    AssociationOfLayout(layered, plottableGenes, TrackLanes(allGenes, qtl), snps);
    LanesCarriedOver(layered, plottableGenes, TrackLanes(allGenes, qtl));
    BoundCarriedOver(layered, plottableGenes, maxLayer);
  }

  /** The records of the layout go to associateSnps in an array, updated in place. */
  method AssociateLaidOut(layered: seq<Layer>, snps: seq<Snp>) returns (associated: seq<Layer>)
    ensures |associated| == |layered|
    ensures SortedByStart(layered) ==> forall j :: 0 <= j < |layered| ==>
      associated[j] == Absorb(layered[j], Attached(layered[j].gene, snps))
  {
    var records := new Layer[|layered|](i requires 0 <= i < |layered| => layered[i]);
    assert records[..] == layered;
    AssociateSnps(records, snps);
    associated := records[..];
  }

  /** Association of fresh laid-out records: each keeps its gene and level and holds
      exactly the SNPs its gene covers, highlighted exactly when one of them is. */
  lemma AssociationOfLayout(layered: seq<Layer>, associated: seq<Layer>, lanes: seq<seq<Gene>>, snps: seq<Snp>)
    requires |associated| == |layered|
    requires forall j :: 0 <= j < |layered| ==> FreshInLane(layered[j], lanes)
    requires forall j :: 0 <= j < |layered| ==>
      associated[j] == Absorb(layered[j], Attached(layered[j].gene, snps))
    ensures forall j :: 0 <= j < |associated| ==>
      && associated[j].gene == layered[j].gene
      && associated[j].level == layered[j].level
      && associated[j].snps == Attached(layered[j].gene, snps)
      && (associated[j].highlight <==> exists s :: s in snps && Covers(layered[j].gene, s) && s.highlight)
    ensures Genes(associated) == Genes(layered)
    ensures forall j :: 0 <= j < |associated| ==>
      var r := associated[j];
      && r.level < |lanes|
      && r.gene in lanes[r.level]
      && r.snps == Attached(r.gene, snps)
      && (r.highlight <==> exists s :: s in snps && Covers(r.gene, s) && s.highlight)
    ensures SortedByStart(layered) ==> SortedByStart(associated)
  {
    forall j | 0 <= j < |associated|
      ensures associated[j].gene == layered[j].gene
      ensures associated[j].level == layered[j].level
      ensures associated[j].snps == Attached(layered[j].gene, snps)
      ensures associated[j].highlight <==>
        exists s :: s in snps && Covers(layered[j].gene, s) && s.highlight
    {
      assert FreshInLane(layered[j], lanes);
      FreshRecordAssociation(layered[j], snps);
      assert [] + Attached(layered[j].gene, snps) == Attached(layered[j].gene, snps);
    }
  }

  /** Association keeps each record's gene and level, so every (gene, lane) pair of the
      layout survives it. */
  lemma LanesCarriedOver(layered: seq<Layer>, associated: seq<Layer>, lanes: seq<seq<Gene>>)
    requires |associated| == |layered|
    requires forall j :: 0 <= j < |layered| ==>
      associated[j].gene == layered[j].gene && associated[j].level == layered[j].level
    requires forall l, k :: 0 <= l < |lanes| && 0 <= k < |lanes[l]| ==> Fresh(lanes[l][k], l) in layered
    ensures forall l, k :: 0 <= l < |lanes| && 0 <= k < |lanes[l]| ==> HasRecord(associated, lanes[l][k], l)
  {
    forall l, k | 0 <= l < |lanes| && 0 <= k < |lanes[l]|
      ensures HasRecord(associated, lanes[l][k], l)
    {
      var j :| 0 <= j < |layered| && layered[j] == Fresh(lanes[l][k], l);
      assert associated[j].gene == lanes[l][k] && associated[j].level == l;
    }
  }

  /** Association keeps each record's level, so the bound stays the deepest level + 1.5. */
  lemma BoundCarriedOver(layered: seq<Layer>, associated: seq<Layer>, maxLayer: real)
    requires |associated| == |layered|
    requires forall j :: 0 <= j < |layered| ==> associated[j].level == layered[j].level
    requires forall j :: 0 <= j < |layered| ==> layered[j].level as real + 1.5 <= maxLayer
    requires layered != [] ==> BoundAttained(layered, maxLayer)
    ensures forall j :: 0 <= j < |associated| ==> associated[j].level as real + 1.5 <= maxLayer
    ensures associated != [] ==> BoundAttained(associated, maxLayer)
  {
    if associated != [] {
      var j :| 0 <= j < |layered| && maxLayer == layered[j].level as real + 1.5;
      assert associated[j].level == layered[j].level;
    }
  }
}
