/** Stage 2 of the gene track (orderGenes, collides): first-fit packing of genes into
    display lanes. The genes arrive in database order, not sorted by start. */
module LanePacking {
  import opened Wrappers
  import opened Genome
  import opened Sequences

  /** The genomic buffer, in base pairs, that keeps neighbouring genes in a lane apart. */
  const Padding: int := 20000

  function Last(lane: seq<Gene>): Gene
    requires lane != []
  {
    lane[|lane| - 1]
  }

  /** collides: an empty lane never collides; otherwise only the lane's last gene is
      compared, and the gene collides when it starts within the padding after that
      gene's stop. */
  function Collides(gene: Gene, orderedList: seq<seq<Gene>>, level: nat): (r: bool)
    requires level < |orderedList|
    ensures orderedList[level] == [] ==> !r
    ensures orderedList[level] != [] ==>
      (r <==> gene.start - orderedList[level][|orderedList[level]| - 1].stop <= 20000)
  {
    orderedList[level] != [] && gene.start <= Last(orderedList[level]).stop + Padding
  }

  /** The first lane at or after `j` that `gene` does not collide with, or the lane
      count when it collides with all of them. */
  function FirstFitFrom(gene: Gene, lanes: seq<seq<Gene>>, j: nat): (k: nat)
    requires j <= |lanes|
    ensures j <= k <= |lanes|
    ensures k < |lanes| ==> !Collides(gene, lanes, k)
    ensures forall i :: j <= i < k ==> Collides(gene, lanes, i)
    decreases |lanes| - j
  {
    if j == |lanes| then j
    else if Collides(gene, lanes, j) then FirstFitFrom(gene, lanes, j + 1)
    else j
  }

  function FirstFit(gene: Gene, lanes: seq<seq<Gene>>): nat
  {
    FirstFitFrom(gene, lanes, 0)
  }

  /** The first-fit lane is the only lane that the collision tests single out. */
  lemma FirstFitUnique(gene: Gene, lanes: seq<seq<Gene>>, j: nat)
    requires j <= |lanes|
    requires forall k :: 0 <= k < j ==> Collides(gene, lanes, k)
    requires j < |lanes| ==> !Collides(gene, lanes, j)
    ensures FirstFit(gene, lanes) == j
  {
  }

  /** One step of orderGenes: put `gene` at the end of its first-fit lane, opening a new
      lane when it collides with every existing one. */
  function Place(lanes: seq<seq<Gene>>, gene: Gene): seq<seq<Gene>>
  {
    var j := FirstFit(gene, lanes);
    if j == |lanes| then lanes + [[gene]] else lanes[j := lanes[j] + [gene]]
  }

  /** What orderGenes computes: the genes placed one after another, in input order.
      The first gene opens lane 0, as `[[geneList[0]]]` does. */
  function Pack(genes: seq<Gene>): seq<seq<Gene>>
    decreases |genes|
  {
    if genes == [] then [] else Place(Pack(genes[..|genes| - 1]), genes[|genes| - 1])
  }

  ghost predicate NoEmptyLane(lanes: seq<seq<Gene>>) {
    forall l :: 0 <= l < |lanes| ==> lanes[l] != []
  }

  /** Consecutive genes of a lane are more than the padding apart. */
  ghost predicate WellSpaced(lanes: seq<seq<Gene>>) {
    forall l, k :: 0 <= l < |lanes| && 0 <= k < |lanes[l]| - 1 ==>
      lanes[l][k + 1].start > lanes[l][k].stop + Padding
  }

  /** When every gene starts no later than it stops, spacing between consecutive genes of
      a lane extends to every pair: a later gene starts more than the padding after any
      earlier gene of its lane stops. */
  lemma {:induction false} WellSpacedPairs(lanes: seq<seq<Gene>>, l: nat, i: nat, j: nat)
    requires WellSpaced(lanes)
    requires l < |lanes| && i < j < |lanes[l]|
    requires forall k :: 0 <= k < |lanes[l]| ==> lanes[l][k].start <= lanes[l][k].stop
    ensures lanes[l][j].start > lanes[l][i].stop + Padding
    decreases j - i
  {
    if j > i + 1 {
      WellSpacedPairs(lanes, l, i, j - 1);
      assert lanes[l][j].start > lanes[l][j - 1].stop + Padding;
    }
  }

  /** The first-fit step: the gene lands in lane j = FirstFit, it collided with the last
      gene of every lower lane, a lane is opened only when j reaches the lane count, and
      every other lane is untouched. */
  lemma PlaceFirstFit(lanes: seq<seq<Gene>>, gene: Gene)
    ensures var j := FirstFit(gene, lanes); var r := Place(lanes, gene);
      && (forall k :: 0 <= k < j ==> Collides(gene, lanes, k))
      && |r| == (if j == |lanes| then |lanes| + 1 else |lanes|)
      && r[j] == (if j == |lanes| then [] else lanes[j]) + [gene]
      && (forall l :: 0 <= l < |lanes| && l != j ==> r[l] == lanes[l])
  {
  }

  /** Placing keeps every lane non-empty and well spaced, and opens at most one lane. */
  lemma PlacePreserves(lanes: seq<seq<Gene>>, gene: Gene)
    requires NoEmptyLane(lanes) && WellSpaced(lanes)
    ensures NoEmptyLane(Place(lanes, gene)) && WellSpaced(Place(lanes, gene))
    ensures |lanes| <= |Place(lanes, gene)| <= |lanes| + 1
    ensures lanes != [] ==> |Place(lanes, gene)| >= 1
  {
    var j := FirstFit(gene, lanes);
    var r: seq<seq<Gene>> := Place(lanes, gene);
    if j < |lanes| {
      assert !Collides(gene, lanes, j);
      forall l, k | 0 <= l < |r| && 0 <= k < |r[l]| - 1
        ensures r[l][k + 1].start > r[l][k].stop + Padding
      {
        if l == j && k == |lanes[j]| - 1 {
          assert r[l][k] == Last(lanes[j]);
        } else if l == j {
          assert r[l][k] == lanes[j][k] && r[l][k + 1] == lanes[j][k + 1];
        }
      }
    }
  }

  /** Every lane of the packing is non-empty and well spaced, the empty input gives no
      lanes, and there are never more lanes than genes. */
  lemma {:induction false} PackShape(genes: seq<Gene>)
    ensures NoEmptyLane(Pack(genes)) && WellSpaced(Pack(genes))
    ensures |Pack(genes)| <= |genes|
    ensures (genes == []) == (Pack(genes) == [])
    decreases |genes|
  {
    if genes != [] {
      var n := |genes| - 1;
      PackShape(genes[..n]);
      PlacePreserves(Pack(genes[..n]), genes[n]);
      if n == 0 {
        assert Pack(genes) == [[genes[0]]];
      }
    }
  }

  /** The lanes together hold exactly the input genes, each as often as in the input. */
  lemma {:induction false} PackConserves(genes: seq<Gene>)
    ensures multiset(Flatten(Pack(genes))) == multiset(genes)
    decreases |genes|
  {
    if genes != [] {
      var n := |genes| - 1;
      var before := Pack(genes[..n]);
      PackConserves(genes[..n]);
      var j := FirstFit(genes[n], before);
      if j == |before| {
        FlattenNewLane(before, genes[n]);
      } else {
        FlattenAppendToLane(before, j, genes[n]);
      }
      assert genes == genes[..n] + [genes[n]];
    }
  }

  /** Each lane lists its genes in input order. */
  lemma {:induction false} PackFollowsInputOrder(genes: seq<Gene>)
    ensures forall l :: 0 <= l < |Pack(genes)| ==> IsSubsequence(Pack(genes)[l], genes)
    decreases |genes|
  {
    if genes != [] {
      var n := |genes| - 1;
      var before := Pack(genes[..n]);
      PackFollowsInputOrder(genes[..n]);
      var j := FirstFit(genes[n], before);
      var r := Pack(genes);
      assert genes == genes[..n] + [genes[n]];
      forall l | 0 <= l < |r|
        ensures IsSubsequence(r[l], genes)
      {
        if l == |before| {
          SubsequenceEmpty(genes[..n]);
          SubsequenceExtend([], genes[..n], genes[n]);
          assert r[l] == [] + [genes[n]];
        } else if l == j {
          SubsequenceExtend(before[l], genes[..n], genes[n]);
        } else {
          SubsequenceExtend(before[l], genes[..n], genes[n]);
        }
      }
    }
  }

  /** A worked example: A and B collide, and C joins A's lane. */
  lemma PackExample()
    ensures var a := Gene(Num(1), "gene", 100000, 200000, None, "+", "A", "", "A", "");
            var b := Gene(Num(1), "gene", 150000, 250000, None, "+", "B", "", "B", "");
            var c := Gene(Num(1), "gene", 300000, 400000, None, "+", "C", "", "C", "");
            Pack([a, b, c]) == [[a, c], [b]]
  {
    var a := Gene(Num(1), "gene", 100000, 200000, None, "+", "A", "", "A", "");
    var b := Gene(Num(1), "gene", 150000, 250000, None, "+", "B", "", "B", "");
    var c := Gene(Num(1), "gene", 300000, 400000, None, "+", "C", "", "C", "");
    assert [a, b, c][..2] == [a, b];
    assert [a, b][..1] == [a];
    assert [a][..0] == [];
    assert Pack([a]) == [[a]];
    assert Collides(b, [[a]], 0);
    assert Pack([a, b]) == [[a], [b]];
    assert !Collides(c, [[a], [b]], 0);
    assert FirstFit(c, [[a], [b]]) == 0;
    assert Pack([a, b, c]) == Place([[a], [b]], c);
    assert Place([[a], [b]], c) == [[a], [b]][0 := [a] + [c]];
    assert [a] + [c] == [a, c];
    assert [[a], [b]][0 := [a, c]] == [[a, c], [b]];
  }

  /** The body of orderGenes' outer loop: the `while (true)` loop advances `j` past
      every colliding lane, pushing an empty lane when `j` reaches the lane count, and
      puts the gene in the first lane it does not collide with. */
  method PlaceGene(lanes: seq<seq<Gene>>, gene: Gene) returns (returnArray: seq<seq<Gene>>)
    requires lanes != []
    ensures returnArray == Place(lanes, gene)
  {
    returnArray := lanes;
    var j := 0;
    while true
      invariant 0 <= j < |returnArray|
      invariant returnArray == lanes || (returnArray == lanes + [[]] && j == |lanes|)
      invariant forall k :: 0 <= k < j ==> Collides(gene, lanes, k)
      decreases |returnArray| - j + (if returnArray[j] == [] then 0 else 1)
    {
      if Collides(gene, returnArray, j) {
        j := j + 1;
        if |returnArray| == j {
          returnArray := returnArray + [[]];
        }
      } else {
        FirstFitUnique(gene, lanes, j);
        if j == |lanes| {
          assert returnArray == lanes + [[]];
          assert returnArray[j] + [gene] == [gene];
          assert returnArray[j := [gene]] == lanes + [[gene]];
        }
        returnArray := returnArray[j := returnArray[j] + [gene]];
        break;
      }
    }
  }

  /** orderGenes: the empty list gives no lanes; otherwise the first gene opens lane 0
      and every later gene is placed by first fit, in input order. */
  method OrderGenes(geneList: seq<Gene>) returns (returnArray: seq<seq<Gene>>)
    ensures returnArray == Pack(geneList)
    ensures geneList == [] ==> returnArray == []
    ensures forall l :: 0 <= l < |returnArray| ==>
      returnArray[l] != [] && IsSubsequence(returnArray[l], geneList)
    ensures multiset(Flatten(returnArray)) == multiset(geneList)
    ensures WellSpaced(returnArray)
    ensures |returnArray| <= |geneList|
  {
    if |geneList| == 0 {
      return [];
    }
    returnArray := [[geneList[0]]];
    assert geneList[..1][..0] == [];
    for i := 1 to |geneList|
      invariant returnArray == Pack(geneList[..i])
    {
      PackShape(geneList[..i]);
      returnArray := PlaceGene(returnArray, geneList[i]);
      assert geneList[..i + 1][..i] == geneList[..i];
    }
    assert geneList[..|geneList|] == geneList;
    PackShape(geneList);
    PackConserves(geneList);
    PackFollowsInputOrder(geneList);
  }
}
