# Gene-track layout of the lipid QTL viewer, in Dafny

This project models the computational core of a browser viewer for lipid QTL
(quantitative trait locus) data. The core is the **gene-track layout** in the `genes`
directive (`support/js/internal/qtlGroup.js`). `drawGroups` runs it as a pipeline:

1. **Window filter** (`filterGenes`) keeps the genes whose start lies strictly within
   1,500,000 bp of the QTL (the `end` test never fires on database rows).
2. **Lane packing** (`orderGenes`, `collides`) places each gene, first fit, in the
   lowest display lane where it starts more than 20,000 bp after the lane's last gene.
3. **Layering** (`layerGenes`, `getMaxLayer`) makes one `{gene, level, snps, highlight}`
   record per gene, sorts the records by start and bounds the y-scale.
4. **SNP association** (`associateSnps`, `geneMatch`) pushes each SNP onto the records
   whose gene holds it, in place. Its scan stops at the first record that starts after
   the SNP.
5. **Tag summary** (`extractUniqueSnpDescriptions`) lists a gene's SNP consequence tags
   for the tooltip. The rectangle's fill colour follows from the record.

It also models two small parts of the controllers:

- **Lipid lookup** (`support/js/internal/qtlViewer.js`): the lipid filter predicates,
  the rebuild of the filtered list when the filter changes, the tolerance-unit toggle,
  and the chromosome-20-to-"X" rename in `formatSelectedQtl`.
- **Gene lookup** (`support/js/internal/geneDrivenViewer.js`): the chromosome table,
  the chromosome lookup when a gene is selected, the position clamp and query payload
  when the position filter changes, and the same rename.

Modules: `Wrappers`, `Genome` (shared records), `Sequences` and `Text` (generic
helpers), then one module per pipeline stage: `WindowFilter`, `LanePacking`,
`Layering`, `SnpAssociation`, `SnpSummary`. `GeneTrack` is the pipeline itself.
`LipidViewer` and `GeneDrivenViewer` are the two controllers.

How the model is written:

- Loops in the source are methods with loop invariants. Each loop method except
  `GetMaxLayer` is proved equal to a specification function (`KeepNear`, `Pack`,
  `SortByStart(Tagged(..))`, `ScanAttached`, `Unique(Pieces(..))`, `Passing`), and the
  promised properties are lemmas about those functions. `GetMaxLayer`'s ensures give
  the maximum directly.
- `associateSnps` mutates the records in place, so it works on an `array<Layer>`.
- The controllers' scope objects are the classes `LipidQuery` and `GeneQuery`. Their
  watchers are methods that modify them.

In these details the model follows the code:

- The window filter's second test reads `d.end`. The gene rows carry only `stop`
  (`support/php/queryGenes.php:9,19`), so `end` is an optional field and is absent on
  real rows. A gene that starts before the window and stops inside it is therefore
  dropped (`GeneEndingInWindowIsDropped`).
- `orderGenes` does not sort its input. The genes arrive in database order, because the
  query has no `ORDER BY`. The lane invariant is about consecutive genes of a lane.
  `WellSpacedPairs` extends it to every pair of genes in a lane when each gene has
  start ≤ stop.
- `geneMatch` tests substring containment in the cross-reference text, so an empty
  Ensembl id matches every gene that has a cross-reference.
- The early `break` in `associateSnps` is safe: `layerGenes` sorts the records by start
  (`ScanAgreesWhenSorted`). On unsorted records it can lose a SNP
  (`ScanLosesWhenUnsorted`).

## Model

| member | source | states |
|---|---|---|
| `Text.Includes` | support/js/internal/qtlGroup.js:1135 | `hay.includes(needle)`: the empty needle and the text itself are always included, and an included needle is no longer than the text |
| `Text.IncludesAt` | support/js/internal/qtlGroup.js:1135 | `includes` holds iff the needle occurs in the text at some offset |
| `Text.SplitJoin` | support/js/internal/qtlGroup.js:1142 | `split(",")` loses nothing: joining the pieces with the separator gives the string back, and no piece holds a comma |
| `Genome.DisplayChromosome` | support/js/internal/qtlViewer.js:224-227 | a chromosome loosely equal to 20 is shown as "X"; any other is unchanged; the result is never loosely 20 |
| `Genome.DisplayChromosomeIdempotent` | support/js/internal/geneDrivenViewer.js:204-207 | renaming twice is renaming once |
| `WindowFilter.NearQtl` | support/js/internal/qtlGroup.js:1031-1032 | the per-gene test with `genomicResolution()` = 1,500,000 (lines 1003-1005): a start strictly inside (pos − 1,500,000, pos + 1,500,000) keeps the gene, so does a present `end` inside the closed window, and with no `end` only the strict start test decides |
| `WindowFilter.KeepNearExactly` | support/js/internal/qtlGroup.js:1027-1038 | a gene is kept iff pos−R < start < pos+R, or its `end` is present with pos−R ≤ end ≤ pos+R (R = 1,500,000); kept genes keep input order |
| `WindowFilter.KeepNearWithoutEnd` | support/js/internal/qtlGroup.js:1031-1032 | with no `end` on any row, a gene is kept iff its start is strictly inside the window |
| `WindowFilter.GeneEndingInWindowIsDropped` | support/js/internal/qtlGroup.js:1032 | a gene that starts before the window and stops inside it, with no `end`, is dropped |
| `WindowFilter.FilterGenes` | support/js/internal/qtlGroup.js:1027-1038 | the push loop builds a fresh list equal to `KeepNear`: exactly the genes passing the test, as a subsequence of the input |
| `LanePacking.Collides` | support/js/internal/qtlGroup.js:1067-1079 | an empty lane never collides; otherwise the gene collides iff it starts at most 20,000 bp after the stop of the lane's last gene (earlier genes of the lane are not compared) |
| `LanePacking.FirstFitFrom` | support/js/internal/qtlGroup.js:1050-1060 | the first lane at or after j that the gene does not collide with, or the lane count; it collides with every lane skipped |
| `LanePacking.WellSpacedPairs` | support/js/internal/qtlGroup.js:1051-1058 | if genes have start ≤ stop, any later gene of a lane starts more than 20,000 bp after any earlier gene of that lane stops |
| `LanePacking.PlaceFirstFit` | support/js/internal/qtlGroup.js:1047-1061 | a placed gene collided with the last gene of every lower lane; a lane is opened only when j reaches the lane count; other lanes are untouched |
| `LanePacking.PackShape` | support/js/internal/qtlGroup.js:1040-1065 | the empty input gives no lanes, and any other input gives at least one; every lane is non-empty; consecutive genes of a lane are more than 20,000 bp apart; there are at most as many lanes as genes |
| `LanePacking.PackConserves` | support/js/internal/qtlGroup.js:1040-1065 | the lanes together form a permutation (equal multiset) of the input genes |
| `LanePacking.PackFollowsInputOrder` | support/js/internal/qtlGroup.js:1047-1058 | each lane is a subsequence of the input order |
| `LanePacking.PackExample` | support/js/internal/qtlGroup.js:1067-1079 | genes A[100k,200k], B[150k,250k], C[300k,400k] pack as [[A, C], [B]] |
| `LanePacking.PlaceGene` | support/js/internal/qtlGroup.js:1048-1061 | the `while (true)` loop terminates and performs exactly one first-fit placement |
| `LanePacking.OrderGenes` | support/js/internal/qtlGroup.js:1040-1065 | the result is `Pack(geneList)`: `[]` for no genes; non-empty, well-spaced lanes that are subsequences of the input, whose contents are a permutation of it, with at most one lane per gene |
| `Layering.SortByStartProperties` | support/js/internal/qtlGroup.js:1095-1097 | the sort by `gene.start` yields records non-decreasing by start that are a permutation of its input, gene multiset included |
| `Layering.TaggedProperties` | support/js/internal/qtlGroup.js:1084-1093 | one pushed record per packed gene in flattened order; each has `snps = []`, `highlight = false` and the index of a lane holding its gene, and for every lane l and position k there is the record of gene k of lane l at level l — also when one gene value sits in two lanes |
| `Layering.LayerGenes` | support/js/internal/qtlGroup.js:1081-1100 | the records are sorted by start and are a permutation of the pushed records; they hold each packed gene exactly as often as the lanes do; each has no SNPs, no highlight and a lane holding its gene as level; every gene of lane l has a record at level l |
| `Layering.GetMaxLayer` | support/js/internal/qtlGroup.js:1102-1112 | 1.5 for no records; otherwise the maximum level + 1.5: at least every level + 1.5, and equal to one of them |
| `SnpAssociation.GeneMatch` | support/js/internal/qtlGroup.js:1134-1136 | a match needs a cross-reference other than empty or "NA" at least as long as the SNP's Ensembl id; past that guard the id itself and the empty id always match |
| `SnpAssociation.GeneMatchIsContainment` | support/js/internal/qtlGroup.js:1134-1136 | false for an empty or "NA" cross-reference; otherwise the SNP's Ensembl id occurs in it at some offset |
| `SnpAssociation.GeneMatchExample` | support/js/internal/qtlGroup.js:1135 | "ENSG1,ENSG2" matches "ENSG2" by containment; an "NA" cross-reference matches nothing |
| `SnpAssociation.AttachedExactly` | support/js/internal/qtlGroup.js:1122 | a gene holds a SNP iff start ≤ position ≤ stop and geneMatch holds; held SNPs keep input order |
| `SnpAssociation.ScanAgreesWhenSorted` | support/js/internal/qtlGroup.js:1116-1121 | on start-sorted records the break loses nothing: the scan pushes exactly the SNPs the gene holds |
| `SnpAssociation.ScanLosesWhenUnsorted` | support/js/internal/qtlGroup.js:1119-1120 | on records out of start order, a covering record after a later-starting one is never reached |
| `SnpAssociation.ScanForSnp` | support/js/internal/qtlGroup.js:1116-1130 | one scan pushes the SNP onto exactly the records the scan reaches before the break and whose gene holds it; highlight is set when the SNP is highlighted |
| `SnpAssociation.AssociateSnps` | support/js/internal/qtlGroup.js:1114-1132 | in place, each record gets the scanned SNPs appended in input order and highlight ORed with theirs; on sorted records those are exactly the SNPs its gene holds; gene and level are unchanged |
| `SnpAssociation.FreshRecordAssociation` | support/js/internal/qtlGroup.js:1086-1091 | a fresh record after association contains SNP s iff the gene holds s; it is highlighted iff a held SNP is highlighted; gene and level are unchanged |
| `SnpAssociation.Fill` | support/js/internal/qtlGroup.js:1245-1252 | one of the three colours: "#de2d26" iff the record is highlighted, "#fc9272" iff it is not but holds SNPs, "#727272" iff it is neither |
| `SnpAssociation.FillOfAssociatedRecord` | support/js/internal/qtlGroup.js:1245-1252 | the fill is red iff a held SNP is highlighted; light red iff SNPs are held and none is highlighted; grey iff none are held |
| `SnpSummary.UniqueProperties` | support/js/internal/qtlGroup.js:1144-1148 | the accumulated list has no duplicates and holds exactly the pieces other than "NA" |
| `SnpSummary.UniqueGrowsByAppending` | support/js/internal/qtlGroup.js:1145-1146 | first-seen order: the list after any prefix of the pieces is a prefix of the final list |
| `SnpSummary.PiecesOf` | support/js/internal/qtlGroup.js:1141-1142 | the pieces are exactly the comma-split pieces of the SNPs' `csq` fields |
| `SnpSummary.OfferPieces` | support/js/internal/qtlGroup.js:1144-1148 | the inner loop extends the accumulator to the unique pieces of everything offered so far |
| `SnpSummary.ExtractUniqueSnpDescriptions` | support/js/internal/qtlGroup.js:1138-1152 | no duplicates, never "NA", and every comma-split piece of every `csq` other than "NA" is present, in first-seen order |
| `GeneTrack.LayOutGenes` | support/js/internal/qtlGroup.js:1161-1162 | filter, pack, layer and bound: sorted fresh records, one per gene near the QTL, each on a lane holding its gene, every gene of lane l with its record at level l, and exactly the records `layerGenes` pushes (as a multiset); the bound is 1.5 when empty and otherwise equal to the deepest level + 1.5 |
| `GeneTrack.DrawGroups` | support/js/internal/qtlGroup.js:1160-1164 | the records are sorted by start, one per gene near the QTL, each on a lane holding its gene, and every gene of lane l has a record at level l; each holds exactly the SNPs its gene covers, highlighted iff one of them is; the bound is 1.5 when empty and otherwise equal to the deepest level + 1.5 |
| `LipidViewer.ClassFilter` | support/js/internal/qtlViewer.js:141-147 | a lipid passes iff the class filter value is unset (empty) or equals the lipid's class |
| `LipidViewer.TissueFilter` | support/js/internal/qtlViewer.js:150-156 | a lipid passes iff the tissue filter value is unset (empty) or equals the lipid's tissue |
| `LipidViewer.MzFilter` | support/js/internal/qtlViewer.js:159-178 | an empty or 0 target passes every lipid; in "Da" mode a lipid passes iff its m/z lies within the tolerance on either side of the target |
| `LipidViewer.LipidFilter` | support/js/internal/qtlViewer.js:136-138 | a lipid passes iff its class and tissue match (or are unset) and it passes the m/z test; an unset filter passes every lipid |
| `LipidViewer.PpmWithoutDivision` | support/js/internal/qtlViewer.js:169-177 | outside "Da" mode, with a non-zero target, a lipid passes iff 10^6·\|mz − target\| ≤ tolerance·\|target\| |
| `LipidViewer.PassingExactly` | support/js/internal/qtlViewer.js:136-156 | a lipid is listed iff it is one of the ids and passes the class, tissue and m/z filters; the list is a subsequence of the ids |
| `LipidViewer.UnsetFilterKeepsAll` | support/js/internal/qtlViewer.js:141-163 | with no class, no tissue and no m/z target, every lipid is listed |
| `LipidViewer.Swapped` | support/js/internal/qtlViewer.js:211-217 | the new unit is always "Da" or "ppm", and it is "Da" iff the old one was "ppm" |
| `LipidViewer.SwappedProperties` | support/js/internal/qtlViewer.js:211-217 | from "Da" or "ppm", swapping changes the unit and swapping twice restores it |
| `LipidViewer.LipidQuery.constructor` | support/js/internal/qtlViewer.js:113-133 | nothing selected, no lipids, an unset filter with tolerance 10 in "Da" |
| `LipidViewer.LipidQuery.SwapMatchingType` | support/js/internal/qtlViewer.js:211-217 | only the tolerance unit changes, to its swapped value |
| `LipidViewer.LipidQuery.OnFilterChange` | support/js/internal/qtlViewer.js:288-299 | `filteredIds` becomes exactly the lipids passing lipidFilter, in original order; the selected lipid and QTL become null; ids and filter are unchanged |
| `LipidViewer.LipidQuery.FormatSelectedQtl` | support/js/internal/qtlViewer.js:219-227 | nothing with no QTL selected; otherwise the selected QTL's chromosome 20 is renamed "X" in place and that QTL is shown |
| `GeneDrivenViewer.ChromosomeTable` | support/js/internal/geneDrivenViewer.js:147-168 | 20 entries with ids 1..20 in order, hence unique; each starts at 3 < stop; id 20 is named "X" |
| `GeneDrivenViewer.FindChromosome` | support/js/internal/geneDrivenViewer.js:245-250 | a found entry is in the table and its id loosely equals the gene's chromosome |
| `GeneDrivenViewer.FindChromosomeMatches` | support/js/internal/geneDrivenViewer.js:245-250 | an entry is found iff some entry's id loosely equals the chromosome, and the one found is the last matching entry, so later matches of the `forEach` overwrite earlier ones |
| `GeneDrivenViewer.FindNumberedChromosome` | support/js/internal/geneDrivenViewer.js:245-247 | a numeric chromosome n in 1..20 finds the table entry with id n |
| `GeneDrivenViewer.Clamp` | support/js/internal/geneDrivenViewer.js:259-263 | with start ≤ stop the clamped position lies in [start, stop]; a position strictly inside is kept |
| `GeneDrivenViewer.ClampProperties` | support/js/internal/geneDrivenViewer.js:259-263 | clamping is idempotent; with start < stop the position becomes the start iff it was at or below it, and the stop iff it was at or above it |
| `GeneDrivenViewer.GeneQuery.constructor` | support/js/internal/geneDrivenViewer.js:136-171 | nothing selected, no chromosome, position 0, no QTLs |
| `GeneDrivenViewer.GeneQuery.OnSelectedGeneChange` | support/js/internal/geneDrivenViewer.js:242-252 | with a gene selected and a matching entry, the filter chromosome becomes that entry and the position the gene's midpoint; otherwise the filter is unchanged |
| `GeneDrivenViewer.GeneQuery.OnFilterChange` | support/js/internal/geneDrivenViewer.js:254-272 | QTLs are always cleared and `genes.selectedQtl` nulled, leaving `selectedGene.qtl` alone; with a chromosome the position is clamped and the query is {id, clamped position, window 2}; without one there is no query |
| `GeneDrivenViewer.GeneQuery.FormatSelectedQtl` | support/js/internal/geneDrivenViewer.js:199-207 | nothing with no QTL selected; otherwise `selectedGene.qtl`'s chromosome 20 is renamed "X" in place and that QTL is shown |

## Left out

- D3/SVG rendering: scales, axes, transitions, zoom, the 7.5 px minimum width, and the
  tooltip HTML strings. These are presentation over a foreign library with
  floating-point pixel maths. Only the fill-colour choice is modelled.
- The `genes.sort` after association in `drawGroups` (qtlGroup.js:1166-1168). It
  reorders the filtered list, which nothing after it reads for layout.
- The nearest-point mouse search, `formatPosition` and `d3.formatPrefix`. These are
  float distances inside event handlers.
- `$http` calls, Angular `$watch` scheduling and `alert`. Watchers are modelled as
  methods run when their watched value changes. `GeneQuery.OnFilterChange` returns the
  query payload instead of posting it.
- The random demo data (qtlViewer.js:19-24).
- `GeneQuery.OnSelectedGeneChange`: the midpoint is the exact value
  (start + stop) / 2,000,000. The `toFixed(3)` rounding is not modelled because it is
  float formatting.
- `FormatSelectedQtl` (both classes): it returns the QTL whose fields the HTML shows,
  not the HTML string. The `toFixed(3)` position and LOD text is not modelled.
- `LipidViewer.MzFilter`: m/z values are exact reals. IEEE-754 rounding and
  `Number.MAX_VALUE` are not modelled.
- `Genome.LooselyEquals`: JavaScript's loose `==` between a string and a number is
  modelled for canonical decimal text only. Forms such as " 20" or "020" are not
  modelled.
- Falsy filters: an unset class or tissue is the empty string, and a null
  cross-reference is the empty string. JavaScript's other falsy values behave the same
  way and are not modelled separately.
- Object identity: the layered records are values in an array. Aliasing between record
  objects is not modelled; `layerGenes` creates them fresh. The selected QTL is also held
  as a value: `formatSelectedQtl` renames the object that `$scope.set.consensusData.qtl`
  (qtlViewer.js:341, geneDrivenViewer.js:303) and the QTL list share, and the model
  renames only the selected copy; the rename's effect on those other holders is not
  modelled.
- `Genome.Snp`: the Ensembl id and `csq` are strings, so a null `ensembl_gene` (which
  `includes` reads as the text "null") and a null `csq` (on which `split` at
  qtlGroup.js:1142 throws) are not modelled; bp positions are unbounded integers, which
  JavaScript numbers represent exactly below 2^53.
- `Layering.SortByStart`: the insertion sort is not proved stable; the model promises
  only order by start and a permutation, which is all the SNP association relies on.
- All PHP endpoints and `config.php`. They are database plumbing. The viewers receive
  their rows as parameters.
