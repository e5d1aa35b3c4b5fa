/** Which abundance file `load_abund_table` reads, given the paths that the
    directory listing matched. */
module FileSelection {
  import opened Wrappers
  import opened Text
  import opened Seqs

  /** A phylum-level table is a path naming `phylum_taxonomy`; the full table is
      any path naming neither `_phylum_` nor `_LSU_`. */
  predicate Wanted(path: string, phylum: bool) {
    if phylum then Contains(path, "phylum_taxonomy")
    else !Contains(path, "_phylum_") && !Contains(path, "_LSU_")
  }

  /** The list comprehension that keeps the wanted paths, in listing order. */
  function Candidates(paths: seq<string>, phylum: bool): seq<string> {
    Filter(paths, (f: string) => Wanted(f, phylum))
  }

  /** The first candidate is the first wanted path of the listing. */
  lemma FirstCandidate(paths: seq<string>, phylum: bool)
    ensures |Candidates(paths, phylum)| == 0 <==> forall i :: 0 <= i < |paths| ==> !Wanted(paths[i], phylum)
    ensures |Candidates(paths, phylum)| > 0 ==>
      exists i :: 0 <= i < |paths| && paths[i] == Candidates(paths, phylum)[0] && Wanted(paths[i], phylum)
        && forall j :: 0 <= j < i ==> !Wanted(paths[j], phylum)
  {
    var p := (f: string) => Wanted(f, phylum);
    var idx := FilterPositions(paths, p);
    if |Candidates(paths, phylum)| > 0 {
      var i := idx[0];
      forall j | 0 <= j < i
        ensures !Wanted(paths[j], phylum)
      {
        assert j !in idx by {
          forall m | 0 <= m < |idx|
            ensures idx[m] != j
          {
            if m > 0 {
              assert idx[0] < idx[m];
            }
          }
        }
      }
    } else {
      forall i | 0 <= i < |paths|
        ensures !Wanted(paths[i], phylum)
      {
        assert p(paths[i]) ==> i in idx;
      }
    }
  }

  /** `load_abund_table`'s choice: the first wanted path, or nothing (the source
      prints a message and returns `None`) when no path is wanted. */
  function SelectFile(paths: seq<string>, phylum: bool): (r: Option<string>)
    ensures r.None? <==> forall i :: 0 <= i < |paths| ==> !Wanted(paths[i], phylum)
    ensures r.Some? ==>
      exists i :: 0 <= i < |paths| && paths[i] == r.value && Wanted(paths[i], phylum)
        && forall j :: 0 <= j < i ==> !Wanted(paths[j], phylum)
  {
    FirstCandidate(paths, phylum);
    var candidates := Candidates(paths, phylum);
    if |candidates| > 0 then Some(candidates[0]) else None
  }

  /** With `phylum` set the chosen path names `phylum_taxonomy`; otherwise it
      names neither `_phylum_` nor `_LSU_`. */
  lemma SelectedFileMarkers(paths: seq<string>, phylum: bool)
    requires SelectFile(paths, phylum).Some?
    ensures phylum ==> Contains(SelectFile(paths, phylum).value, "phylum_taxonomy")
    ensures !phylum ==>
      !Contains(SelectFile(paths, phylum).value, "_phylum_") && !Contains(SelectFile(paths, phylum).value, "_LSU_")
  {
  }
}
