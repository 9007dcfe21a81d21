/** Stage 5 of the gene track (extractUniqueSnpDescriptions): the consequence tags shown
    in a gene's tooltip. */
module SnpSummary {
  import opened Genome
  import opened Text

  /** The sentinel the database uses for a missing tag. */
  const Missing: string := "NA"

  /** All comma-separated pieces of the SNPs' `csq` fields, SNP by SNP. */
  function Pieces(snps: seq<Snp>): seq<string>
    decreases |snps|
  {
    if snps == [] then [] else Pieces(snps[..|snps| - 1]) + Split(snps[|snps| - 1].csq, ',')
  }

  /** What the accumulator holds after the pieces `xs` were offered one by one: a piece
      is pushed unless it is already there or is "NA". */
  function Unique(xs: seq<string>): seq<string>
    decreases |xs|
  {
    if xs == [] then []
    else
      var u := Unique(xs[..|xs| - 1]);
      var x := xs[|xs| - 1];
      if x in u || x == Missing then u else u + [x]
  }

  predicate NoDuplicates(xs: seq<string>) {
    forall i, j :: 0 <= i < j < |xs| ==> xs[i] != xs[j]
  }

  /** The accumulator holds no duplicate and never "NA", and it holds every piece other
      than "NA". */
  lemma {:induction false} UniqueProperties(xs: seq<string>)
    ensures NoDuplicates(Unique(xs))
    ensures forall t :: t in Unique(xs) <==> t in xs && t != Missing
    decreases |xs|
  {
    if xs != [] {
      var n := |xs| - 1;
      UniqueProperties(xs[..n]);
      assert xs == xs[..n] + [xs[n]];
    }
  }

  /** First-seen order: what the accumulator held after any prefix of the pieces is a
      prefix of the final list, so tags appear in the order they were first met. */
  lemma {:induction false} UniqueGrowsByAppending(xs: seq<string>, k: nat)
    requires k <= |xs|
    ensures Unique(xs[..k]) <= Unique(xs)
    decreases |xs| - k
  {
    if k < |xs| {
      UniqueGrowsByAppending(xs, k + 1);
      assert xs[..k + 1][..k] == xs[..k];
    } else {
      assert xs[..k] == xs;
    }
  }

  /** A piece belongs to Pieces exactly when it is a piece of some SNP's `csq`. */
  lemma {:induction false} PiecesOf(snps: seq<Snp>)
    ensures forall t :: t in Pieces(snps) <==> exists i :: 0 <= i < |snps| && t in Split(snps[i].csq, ',')
    decreases |snps|
  {
    if snps != [] {
      var n := |snps| - 1;
      PiecesOf(snps[..n]);
      forall t | t in Pieces(snps)
        ensures exists i :: 0 <= i < |snps| && t in Split(snps[i].csq, ',')
      {
        if t in Pieces(snps[..n]) {
          var i :| 0 <= i < n && t in Split(snps[..n][i].csq, ',');
          assert snps[..n][i] == snps[i];
        }
      }
      forall t, i | 0 <= i < |snps| && t in Split(snps[i].csq, ',')
        ensures t in Pieces(snps)
      {
        if i < n {
          assert snps[..n][i] == snps[i];
        }
      }
    }
  }

  lemma UniqueStep(xs: seq<string>, x: string)
    ensures Unique(xs + [x]) == if x in Unique(xs) || x == Missing then Unique(xs) else Unique(xs) + [x]
  {
    assert (xs + [x])[..|xs|] == xs;
  }

  lemma PiecesStep(snps: seq<Snp>, k: nat)
    requires k < |snps|
    ensures Pieces(snps[..k + 1]) == Pieces(snps[..k]) + Split(snps[k].csq, ',')
  {
    assert snps[..k + 1][..k] == snps[..k];
  }

  /** The inner `forEach` of extractUniqueSnpDescriptions: offer the pieces of one SNP's
      `csq` to the accumulator, which so far holds the unique pieces of `seen`. */
  method OfferPieces(acc: seq<string>, splitSnps: seq<string>, ghost seen: seq<string>)
    returns (returnList: seq<string>)
    requires acc == Unique(seen)
    ensures returnList == Unique(seen + splitSnps)
  {
    returnList := acc;
    assert seen + splitSnps[..0] == seen;
    for m := 0 to |splitSnps|
      invariant returnList == Unique(seen + splitSnps[..m])
    {
      var splitSnp := splitSnps[m];
      UniqueStep(seen + splitSnps[..m], splitSnp);
      assert seen + splitSnps[..m + 1] == (seen + splitSnps[..m]) + [splitSnp];
      if !(splitSnp in returnList) && splitSnp != Missing {
        returnList := returnList + [splitSnp];
      }
    }
    assert splitSnps[..|splitSnps|] == splitSnps;
  }

  /** extractUniqueSnpDescriptions: every comma-separated piece of every SNP's `csq`,
      without duplicates and without "NA", in first-seen order. */
  method ExtractUniqueSnpDescriptions(snps: seq<Snp>) returns (returnList: seq<string>)
    ensures returnList == Unique(Pieces(snps))
    ensures NoDuplicates(returnList) && Missing !in returnList
    ensures forall t :: t in returnList <==>
      t != Missing && exists i :: 0 <= i < |snps| && t in Split(snps[i].csq, ',')
  {
    returnList := [];
    for k := 0 to |snps|
      invariant returnList == Unique(Pieces(snps[..k]))
    {
      PiecesStep(snps, k);
      returnList := OfferPieces(returnList, Split(snps[k].csq, ','), Pieces(snps[..k]));
    }
    assert snps[..|snps|] == snps;
    UniqueProperties(Pieces(snps));
    PiecesOf(snps);
  }
}
