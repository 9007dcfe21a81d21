/** The records the gene track and the two viewers pass around: genes and SNPs as the
    database returns them, QTLs, and the per-gene display record of the track. */
module Genome {
  import opened Wrappers

  /** A chromosome as the database or the viewer holds it: a number, or a name such as "X". */
  datatype Chromosome = Num(n: int) | Name(s: string)

  /** A gene row (support/php/queryGenes.php). The rows carry `stop`; `end` is the field
      the window filter reads, which the rows do not carry, so it is normally `None`.
      A null cross-reference is represented as the empty string: both are falsy. */
  datatype Gene = Gene(
    chromosome: Chromosome,
    kind: string,
    start: int,
    stop: int,
    end: Option<int>,
    strand: string,
    name: string,
    databaseCrossReference: string,
    mgiName: string,
    bioType: string)

  /** A SNP annotation: its position, the Ensembl gene it is annotated to, its
      comma-separated consequence tags and whether it is to be highlighted. */
  datatype Snp = Snp(position: int, ensemblGene: string, csq: string, highlight: bool)

  /** A QTL: the centre of the gene window. */
  datatype Qtl = Qtl(id: int, compoundName: string, chromosome: Chromosome, position: int, lod: real)

  /** The gene-display record handed to the renderer: a gene, its lane, the SNPs attached
      to it and whether one of them is highlighted. */
  datatype Layer = Layer(gene: Gene, level: nat, snps: seq<Snp>, highlight: bool)

  /** The decimal text of a natural number, as JavaScript prints it. */
  function DecimalText(k: nat): string
    decreases k
  {
    if k < 10 then [DigitChar(k)] else DecimalText(k / 10) + [DigitChar(k % 10)]
  }

  function DigitChar(d: nat): char
    requires d < 10
  {
    "0123456789"[d]
  }

  /** JavaScript's loose `c == k` for a chromosome and a number: a number compares
      numerically, a string compares through its decimal reading. */
  predicate LooselyEquals(c: Chromosome, k: int) {
    match c
    case Num(n) => n == k
    case Name(s) => k >= 0 && s == DecimalText(k)
  }

  /** The in-place rename in formatSelectedQtl: chromosome 20 is shown as "X". */
  function DisplayChromosome(c: Chromosome): (d: Chromosome)
    ensures LooselyEquals(c, 20) ==> d == Name("X")
    ensures !LooselyEquals(c, 20) ==> d == c
    ensures !LooselyEquals(d, 20)
  {
    if LooselyEquals(c, 20) then Name("X") else c
  }

  /** Renaming twice is renaming once. */
  lemma DisplayChromosomeIdempotent(c: Chromosome)
    ensures DisplayChromosome(DisplayChromosome(c)) == DisplayChromosome(c)
  {
  }
}
