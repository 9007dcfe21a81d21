/** The gene lookup of the QTL viewer (geneDrivenViewer.js): the chromosome table, the
    chromosome lookup when a gene is selected, the position clamp and query payload when
    the position filter changes, and the chromosome rename shown for the selected QTL. */
module GeneDrivenViewer {
  import opened Wrappers
  import opened Genome

  /** An entry of the chromosome table; `start` and `stop` are in Mbp. */
  datatype ChromosomeEntry = ChromosomeEntry(id: int, name: string, start: int, stop: int)

  const Chromosomes: seq<ChromosomeEntry> := [
    ChromosomeEntry(1, "1", 3, 196),
    ChromosomeEntry(2, "2", 3, 183),
    ChromosomeEntry(3, "3", 3, 161),
    ChromosomeEntry(4, "4", 3, 157),
    ChromosomeEntry(5, "5", 3, 152),
    ChromosomeEntry(6, "6", 3, 150),
    ChromosomeEntry(7, "7", 3, 146),
    ChromosomeEntry(8, "8", 3, 130),
    ChromosomeEntry(9, "9", 3, 125),
    ChromosomeEntry(10, "10", 3, 131),
    ChromosomeEntry(11, "11", 3, 123),
    ChromosomeEntry(12, "12", 3, 121),
    ChromosomeEntry(13, "13", 3, 121),
    ChromosomeEntry(14, "14", 3, 125),
    ChromosomeEntry(15, "15", 3, 105),
    ChromosomeEntry(16, "16", 3, 98),
    ChromosomeEntry(17, "17", 3, 95),
    ChromosomeEntry(18, "18", 3, 91),
    ChromosomeEntry(19, "19", 3, 62),
    ChromosomeEntry(20, "X", 3, 170)
  ]

  /** The table lists chromosomes 1 to 20 in order, so its ids are unique; every entry
      starts at 3 and ends after it, and chromosome 20 is named "X". */
  lemma ChromosomeTable()
    ensures |Chromosomes| == 20
    ensures forall i :: 0 <= i < |Chromosomes| ==>
      Chromosomes[i].id == i + 1 && Chromosomes[i].start == 3 < Chromosomes[i].stop
    ensures forall i, j :: 0 <= i < j < |Chromosomes| ==> Chromosomes[i].id != Chromosomes[j].id
    ensures Chromosomes[19].name == "X"
  {
  }

  /** The entry the `forEach` lookup settles on: the last one whose id loosely equals the
      gene's chromosome. */
  function FindChromosome(table: seq<ChromosomeEntry>, c: Chromosome): (r: Option<ChromosomeEntry>)
    ensures r.Some? ==> r.value in table && LooselyEquals(c, r.value.id)
    decreases |table|
  {
    if table == [] then None
    else
      var n := |table| - 1;
      if LooselyEquals(c, table[n].id) then Some(table[n]) else FindChromosome(table[..n], c)
  }

  /** Extending the scanned prefix by one entry: that entry wins if it matches. */
  lemma FindChromosomeStep(table: seq<ChromosomeEntry>, i: nat, c: Chromosome)
    requires i < |table|
    ensures FindChromosome(table[..i + 1], c) ==
      if LooselyEquals(c, table[i].id) then Some(table[i]) else FindChromosome(table[..i], c)
  {
    assert table[..i + 1][..i] == table[..i];
  }

  /** The lookup finds an entry exactly when some entry matches, and what it finds is
      the last matching entry of the table (every `forEach` match overwrites the one
      before). */
  lemma {:induction false} FindChromosomeMatches(table: seq<ChromosomeEntry>, c: Chromosome)
    ensures FindChromosome(table, c).None? <==> forall e :: e in table ==> !LooselyEquals(c, e.id)
    ensures FindChromosome(table, c).Some? ==>
      exists i :: 0 <= i < |table| && table[i] == FindChromosome(table, c).value
        && forall k :: i < k < |table| ==> !LooselyEquals(c, table[k].id)
    decreases |table|
  {
    if table != [] {
      var n := |table| - 1;
      FindChromosomeMatches(table[..n], c);
      assert table == table[..n] + [table[n]];
      if !LooselyEquals(c, table[n].id) && FindChromosome(table, c).Some? {
        var i :| 0 <= i < n && table[..n][i] == FindChromosome(table, c).value
          && forall k :: i < k < n ==> !LooselyEquals(c, table[..n][k].id);
        assert table[i] == FindChromosome(table, c).value;
        forall k | i < k < |table|
          ensures !LooselyEquals(c, table[k].id)
        {
          if k < n {
            assert table[..n][k] == table[k];
          }
        }
      }
    }
  }

  /** A numbered chromosome 1 to 20 finds its own table entry. */
  lemma {:induction false} FindNumberedChromosome(n: int)
    requires 1 <= n <= 20
    ensures FindChromosome(Chromosomes, Num(n)) == Some(Chromosomes[n - 1])
  {
    ChromosomeTable();
    var k := 20;
    assert Chromosomes[..20] == Chromosomes;
    while k > n
      invariant n <= k <= 20
      invariant FindChromosome(Chromosomes, Num(n)) == FindChromosome(Chromosomes[..k], Num(n))
    {
      assert Chromosomes[..k][..k - 1] == Chromosomes[..k - 1];
      assert Chromosomes[..k][k - 1] == Chromosomes[k - 1];
      k := k - 1;
    }
    assert Chromosomes[..n][n - 1] == Chromosomes[n - 1];
  }

  /** The position filter is clamped to the chromosome: at or below the start it becomes
      the start, else at or above the stop it becomes the stop. */
  function Clamp(position: real, start: real, stop: real): (r: real)
    ensures start <= stop ==> start <= r <= stop
    ensures start < position < stop ==> r == position
  {
    if position <= start then start else if position >= stop then stop else position
  }

  /** On a chromosome with start <= stop clamping again changes nothing; when start < stop
      the position lands on an end exactly when it was at or beyond that end. */
  lemma ClampProperties(position: real, start: real, stop: real)
    requires start <= stop
    ensures Clamp(Clamp(position, start, stop), start, stop) == Clamp(position, start, stop)
    ensures start < stop ==>
      && (Clamp(position, start, stop) == start <==> position <= start)
      && (Clamp(position, start, stop) == stop <==> position >= stop)
  {
  }

  /** The payload sent to queryQTLsUsingPosition.php. */
  datatype PositionQuery = PositionQuery(chromosome: int, position: real, window: int)

  /** The gene's midpoint in Mbp. */
  function Midpoint(gene: Gene): real {
    (gene.start + gene.stop) as real / 2000000.0
  }

  /** The `$scope.genes` state of the gene lookup. */
  class GeneQuery {
    var selectedGene: Option<Gene>
    var selectedGeneQtl: Option<Qtl>
    var selectedQtl: Option<Qtl>
    var filterChromosome: Option<ChromosomeEntry>
    var filterPosition: real
    var qtls: seq<Qtl>

    /** The initial state: nothing selected, no chromosome, position 0, no QTLs. */
    constructor ()
      ensures selectedGene == None && selectedGeneQtl == None && selectedQtl == None
      ensures filterChromosome == None && filterPosition == 0.0 && qtls == []
    {
      selectedGene := None;
      selectedGeneQtl := None;
      selectedQtl := None;
      filterChromosome := None;
      filterPosition := 0.0;
      qtls := [];
    }

    /** The `genes.selectedGene.gene` watcher: when a gene is selected, every table entry
        whose id loosely equals the gene's chromosome becomes the filter's chromosome,
        with the gene's midpoint as the position; with no match nothing changes. */
    method OnSelectedGeneChange()
      modifies this
      ensures selectedGene.Some? && FindChromosome(Chromosomes, selectedGene.value.chromosome).Some? ==>
        && filterChromosome == FindChromosome(Chromosomes, selectedGene.value.chromosome)
        && filterPosition == Midpoint(selectedGene.value)
      ensures selectedGene.None? || FindChromosome(Chromosomes, selectedGene.value.chromosome).None? ==>
        filterChromosome == old(filterChromosome) && filterPosition == old(filterPosition)
      ensures selectedGene == old(selectedGene) && selectedGeneQtl == old(selectedGeneQtl)
      ensures selectedQtl == old(selectedQtl) && qtls == old(qtls)
    {
      if selectedGene.Some? {
        var gene := selectedGene.value;
        for i := 0 to |Chromosomes|
          invariant selectedGene == old(selectedGene) && selectedGeneQtl == old(selectedGeneQtl)
          invariant selectedQtl == old(selectedQtl) && qtls == old(qtls)
          invariant FindChromosome(Chromosomes[..i], gene.chromosome).Some? ==>
            filterChromosome == FindChromosome(Chromosomes[..i], gene.chromosome)
            && filterPosition == Midpoint(gene)
          invariant FindChromosome(Chromosomes[..i], gene.chromosome).None? ==>
            filterChromosome == old(filterChromosome) && filterPosition == old(filterPosition)
        {
          FindChromosomeStep(Chromosomes, i, gene.chromosome);
          var chromosome := Chromosomes[i];
          if LooselyEquals(gene.chromosome, chromosome.id) {
            filterChromosome := Some(chromosome);
            filterPosition := Midpoint(gene);
          }
        }
        assert Chromosomes[..|Chromosomes|] == Chromosomes;
      }
    }

    /** The `genes.filter` watcher: the QTL list is always cleared and `genes.selectedQtl`
        (not `genes.selectedGene.qtl`) is nulled; with a chromosome set, the position is
        clamped to it and a query for that chromosome, the clamped position and a window
        of 2 is built. */
    method OnFilterChange() returns (query: Option<PositionQuery>)
      modifies this
      ensures qtls == [] && selectedQtl == None
      ensures selectedGene == old(selectedGene) && selectedGeneQtl == old(selectedGeneQtl)
      ensures filterChromosome == old(filterChromosome)
      ensures filterChromosome.None? ==> filterPosition == old(filterPosition) && query == None
      ensures filterChromosome.Some? ==>
        var c := filterChromosome.value;
        && filterPosition == Clamp(old(filterPosition), c.start as real, c.stop as real)
        && query == Some(PositionQuery(c.id, filterPosition, 2))
    {
      qtls := [];
      selectedQtl := None;
      query := None;
      if filterChromosome.Some? {
        var c := filterChromosome.value;
        if filterPosition <= c.start as real {
          filterPosition := c.start as real;
        } else if filterPosition >= c.stop as real {
          filterPosition := c.stop as real;
        }
        query := Some(PositionQuery(c.id, filterPosition, 2));
      }
    }

    /** formatSelectedQtl: with no QTL selected it yields nothing (the empty string);
        otherwise it renames chromosome 20 to "X" in `genes.selectedGene.qtl` itself and
        yields the QTL whose fields the text shows. */
    method FormatSelectedQtl() returns (shown: Option<Qtl>)
      modifies this
      ensures old(selectedGeneQtl).None? ==> shown.None? && selectedGeneQtl == old(selectedGeneQtl)
      ensures old(selectedGeneQtl).Some? ==>
        && selectedGeneQtl == Some(old(selectedGeneQtl).value.(chromosome := DisplayChromosome(old(selectedGeneQtl).value.chromosome)))
        && shown == selectedGeneQtl
      ensures selectedGene == old(selectedGene) && selectedQtl == old(selectedQtl)
      ensures filterChromosome == old(filterChromosome) && filterPosition == old(filterPosition)
      ensures qtls == old(qtls)
    {
      if selectedGeneQtl.None? {
        return None;
      }
      if LooselyEquals(selectedGeneQtl.value.chromosome, 20) {
        selectedGeneQtl := Some(selectedGeneQtl.value.(chromosome := Name("X")));
      }
      shown := selectedGeneQtl;
    }
  }
}
