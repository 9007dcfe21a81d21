/** The lipid lookup of the QTL viewer (queryCtrl): the lipid filter predicates, the
    rebuild of the filtered lipid list when the filter changes, the tolerance-unit
    toggle and the chromosome rename shown for the selected QTL. */
module LipidViewer {
  import opened Wrappers
  import opened Genome
  import opened Sequences

  /** A lipid identification row. */
  datatype Lipid = Lipid(
    id: int,
    newAnalyteName: string,
    newClass: string,
    tissue: string,
    precursorMz: real,
    polarity: string)

  /** `lipids.filter`. An unset class or tissue selection has the empty filter value
      (the falsy case); an empty precursor m/z field is `None`. */
  datatype LipidFilterSettings = LipidFilterSettings(
    classValue: string,
    tissueValue: string,
    precursorMz: Option<real>,
    mzTolerance: real,
    mzToleranceType: string)

  /** classFilter: an unset class passes every lipid, a set one only its own class. */
  function ClassFilter(lipid: Lipid, f: LipidFilterSettings): (r: bool)
    ensures r <==> f.classValue in {"", lipid.newClass}
  {
    if f.classValue == "" then true else lipid.newClass == f.classValue
  }

  /** tissueFilter: an unset tissue passes every lipid, a set one only its own tissue. */
  function TissueFilter(lipid: Lipid, f: LipidFilterSettings): (r: bool)
    ensures r <==> f.tissueValue in {"", lipid.tissue}
  {
    if f.tissueValue == "" then true else lipid.tissue == f.tissueValue
  }

  function Abs(x: real): real {
    if x < 0.0 then -x else x
  }

  /** No target m/z, as an empty field or 0, means no filtering. */
  predicate NoMzTarget(f: LipidFilterSettings) {
    f.precursorMz.None? || f.precursorMz.value == 0.0
  }

  /** mzFilter: without a target every lipid passes, and nothing is computed; in "Da"
      mode the absolute difference is compared with the tolerance, in any other mode the
      difference in parts per million of the target. The target is never 0 where it
      divides. */
  function MzFilter(lipid: Lipid, f: LipidFilterSettings): (r: bool)
    ensures NoMzTarget(f) ==> r
    ensures !NoMzTarget(f) && f.mzToleranceType == "Da" ==>
      (r <==> f.precursorMz.value - f.mzTolerance <= lipid.precursorMz <= f.precursorMz.value + f.mzTolerance)
  {
    if NoMzTarget(f) then true
    else
      var target := f.precursorMz.value;
      var error :=
        if f.mzToleranceType == "Da" then Abs(lipid.precursorMz - target)
        else Abs((lipid.precursorMz - target) / target * 1000000.0);
      error <= f.mzTolerance
  }

  /** lipidFilter: all three sub-filters. */
  function LipidFilter(lipid: Lipid, f: LipidFilterSettings): (r: bool)
    ensures r <==> f.classValue in {"", lipid.newClass} && f.tissueValue in {"", lipid.tissue} && MzFilter(lipid, f)
    ensures f.classValue == "" && f.tissueValue == "" && NoMzTarget(f) ==> r
  {
    ClassFilter(lipid, f) && TissueFilter(lipid, f) && MzFilter(lipid, f)
  }

  lemma AbsOfQuotient(d: real, t: real)
    requires t != 0.0
    ensures Abs(d / t * 1000000.0) * Abs(t) == Abs(d) * 1000000.0
  {
    var q := d / t;
    assert q * t == d;
    if t > 0.0 {
      assert Abs(t) == t;
    } else {
      assert Abs(t) == -t;
    }
  }

  /** The ppm test without the division: the difference is within the tolerance scaled
      by the target and 10^-6. */
  lemma PpmWithoutDivision(lipid: Lipid, f: LipidFilterSettings)
    requires !NoMzTarget(f) && f.mzToleranceType != "Da"
    ensures MzFilter(lipid, f) <==>
      Abs(lipid.precursorMz - f.precursorMz.value) * 1000000.0
        <= f.mzTolerance * Abs(f.precursorMz.value)
  {
    var t := f.precursorMz.value;
    var d := lipid.precursorMz - t;
    var e := Abs(d / t * 1000000.0);
    AbsOfQuotient(d, t);
    assert Abs(t) > 0.0;
    assert e <= f.mzTolerance <==> e * Abs(t) <= f.mzTolerance * Abs(t) by {
      if e <= f.mzTolerance {
        assert (f.mzTolerance - e) * Abs(t) >= 0.0;
      } else {
        assert (e - f.mzTolerance) * Abs(t) > 0.0;
      }
    }
  }

  /** The lipids of `ids` that pass lipidFilter, in their original order. */
  function Passing(ids: seq<Lipid>, f: LipidFilterSettings): seq<Lipid>
    decreases |ids|
  {
    if ids == [] then []
    else
      var n := |ids| - 1;
      Passing(ids[..n], f) + (if LipidFilter(ids[n], f) then [ids[n]] else [])
  }

  /** A lipid is listed exactly when it matches the class, the tissue and the m/z
      tolerance, and the list keeps the original order. */
  lemma {:induction false} PassingExactly(ids: seq<Lipid>, f: LipidFilterSettings)
    ensures forall l :: l in Passing(ids, f) <==>
      l in ids && ClassFilter(l, f) && TissueFilter(l, f) && MzFilter(l, f)
    ensures IsSubsequence(Passing(ids, f), ids)
    decreases |ids|
  {
    if ids == [] {
      SubsequenceEmpty(ids);
    } else {
      var n := |ids| - 1;
      PassingExactly(ids[..n], f);
      SubsequenceExtend(Passing(ids[..n], f), ids[..n], ids[n]);
      assert ids[..n] + [ids[n]] == ids;
    }
  }

  /** An unset filter keeps every lipid. */
  lemma {:induction false} UnsetFilterKeepsAll(ids: seq<Lipid>, f: LipidFilterSettings)
    requires f.classValue == "" && f.tissueValue == "" && NoMzTarget(f)
    ensures Passing(ids, f) == ids
    decreases |ids|
  {
    if ids != [] {
      UnsetFilterKeepsAll(ids[..|ids| - 1], f);
      assert ids[..|ids| - 1] + [ids[|ids| - 1]] == ids;
    }
  }

  /** swapMatchingType's new value: "ppm" becomes "Da", anything else "ppm". */
  function Swapped(mzToleranceType: string): (r: string)
    ensures r in {"Da", "ppm"}
    ensures r == "Da" <==> mzToleranceType == "ppm"
  {
    if mzToleranceType == "ppm" then "Da" else "ppm"
  }

  /** From either unit, swapping changes the unit and swapping twice restores it. */
  lemma SwappedProperties(t: string)
    ensures t in {"Da", "ppm"} ==> Swapped(t) != t && Swapped(Swapped(t)) == t
  {
  }

  /** The `$scope.lipids` state of queryCtrl. */
  class LipidQuery {
    var ids: seq<Lipid>
    var filteredIds: seq<Lipid>
    var filter: LipidFilterSettings
    var selectedLipid: Option<Lipid>
    var selectedQtl: Option<Qtl>

    /** The initial state: no selection, no lipids yet, an unset filter with a tolerance
        of 10 Da. */
    constructor ()
      ensures ids == [] && filteredIds == []
      ensures filter == LipidFilterSettings("", "", None, 10.0, "Da")
      ensures selectedLipid == None && selectedQtl == None
    {
      ids := [];
      filteredIds := [];
      filter := LipidFilterSettings("", "", None, 10.0, "Da");
      selectedLipid := None;
      selectedQtl := None;
    }

    /** swapMatchingType: toggle the tolerance unit and change nothing else. */
    method SwapMatchingType()
      modifies this
      ensures filter == old(filter).(mzToleranceType := Swapped(old(filter.mzToleranceType)))
      ensures ids == old(ids) && filteredIds == old(filteredIds)
      ensures selectedLipid == old(selectedLipid) && selectedQtl == old(selectedQtl)
    {
      if filter.mzToleranceType == "ppm" {
        filter := filter.(mzToleranceType := "Da");
      } else {
        filter := filter.(mzToleranceType := "ppm");
      }
    }

    /** The `lipids.filter` watcher: clear the filtered list and both selections, then
        push every lipid that passes lipidFilter. */
    method OnFilterChange()
      modifies this
      ensures filteredIds == Passing(ids, filter)
      ensures forall l :: l in filteredIds <==> l in ids && LipidFilter(l, filter)
      ensures selectedLipid == None && selectedQtl == None
      ensures ids == old(ids) && filter == old(filter)
    {
      filteredIds := [];
      selectedLipid := None;
      selectedQtl := None;
      for i := 0 to |ids|
        invariant ids == old(ids) && filter == old(filter)
        invariant filteredIds == Passing(ids[..i], filter)
        invariant selectedLipid == None && selectedQtl == None
      {
        assert ids[..i + 1][..i] == ids[..i];
        if LipidFilter(ids[i], filter) {
          filteredIds := filteredIds + [ids[i]];
        }
      }
      assert ids[..|ids|] == ids;
      PassingExactly(ids, filter);
    }

    /** formatSelectedQtl: with no QTL selected it yields nothing (the empty string);
        otherwise it renames chromosome 20 to "X" in the selected QTL itself and yields
        the QTL whose fields the text shows. */
    method FormatSelectedQtl() returns (shown: Option<Qtl>)
      modifies this
      ensures old(selectedQtl).None? ==> shown.None? && selectedQtl == old(selectedQtl)
      ensures old(selectedQtl).Some? ==>
        && selectedQtl == Some(old(selectedQtl).value.(chromosome := DisplayChromosome(old(selectedQtl).value.chromosome)))
        && shown == selectedQtl
      ensures ids == old(ids) && filteredIds == old(filteredIds)
      ensures filter == old(filter) && selectedLipid == old(selectedLipid)
    {
      if selectedQtl.None? {
        return None;
      }
      if LooselyEquals(selectedQtl.value.chromosome, 20) {
        selectedQtl := Some(selectedQtl.value.(chromosome := Name("X")));
      }
      shown := selectedQtl;
    }
  }
}
