/** Moving a finished store into place: two renames that no crash may leave half done in the wrong way. */
module FileSwap {
  import opened Prelude

  /** Which store a file belongs to: the one in place, the one being put there, or some other. */
  datatype Generation = Old | New | Other

  /** The five names the swap touches. */
  datatype Files = Files(
    dat: Option<Generation>, key: Option<Generation>,
    datTmp: Option<Generation>, keyTmp: Option<Generation>, keyBak: Option<Generation>)

  /** Which renames fail; `restore` is the attempt to put the old key back. */
  datatype Faults = Faults(aside: bool, dat: bool, key: bool, restore: bool)

  /** The new pair is written beside an old store, or beside nothing. */
  ghost predicate Start(f: Files) {
    && (f.dat.Some? ==> f.dat.value.Old?) && (f.key.Some? ==> f.key.value.Old?)
    && f.datTmp == Some(New) && f.keyTmp == Some(New)
  }

  /** Bucket offsets of the old key would point into the new data. */
  predicate Mixed(f: Files) {
    f.dat == Some(New) && f.key == Some(Old)
  }

  /** The names, and every state they have been in: a crash leaves one of these. */
  class Swapper {
    var files: Files
    ghost var trace: seq<Files>

    ghost predicate Valid()
      reads this
    {
      trace != [] && trace[|trace| - 1] == files
    }

    constructor (files: Files)
      ensures Valid() && this.files == files && trace == [files]
    {
      this.files, trace := files, [files];
    }

    method Change(next: Files)
      modifies this
      ensures Valid() && files == next && trace == old(trace) + [next]
    {
      files, trace := next, trace + [next];
    }

    /** A failed run removes its temporary files. */
    method Discard()
      requires Valid()
      modifies this
      ensures Valid() && files == old(files).(keyTmp := None, datTmp := None)
      ensures trace == old(trace) + [old(files).(keyTmp := None), files]
    {
      Change(files.(keyTmp := None));
      Change(files.(datTmp := None));
    }

    /** The old key is moved aside, then the data file and the key are moved into place. */
    method Swap(faults: Faults) returns (ok: bool)
      requires Valid()
      modifies this
      ensures Valid() && ok == Succeeds(old(files), faults)
      ensures trace == old(trace) + SwapSteps(old(files), faults)
    {
      var hadOldKey := files.key.Some?;
      if hadOldKey {
        if faults.aside {
          Discard();
          return false;
        }
        Change(files.(keyBak := files.key, key := None));
      }
      ok := !faults.dat;
      if ok {
        Change(files.(dat := files.datTmp, datTmp := None));
        ok := !faults.key;
        if ok {
          Change(files.(key := files.keyTmp, keyTmp := None));
        }
      }
      if !ok {
        if hadOldKey && files.key.None? && !faults.restore {
          Change(files.(key := files.keyBak, keyBak := None));
        }
        Discard();
        return false;
      }
      if hadOldKey {
        Change(files.(keyBak := None));
      }
    }
  }

  predicate Succeeds(f: Files, faults: Faults) {
    (f.key.Some? ==> !faults.aside) && !faults.dat && !faults.key
  }

  function Discarded(f: Files): seq<Files> {
    [f.(keyTmp := None), f.(keyTmp := None, datTmp := None)]
  }

  /** Putting the old key back, if there was one, then discarding the rest. */
  function Recovery(f: Files, hadOldKey: bool, faults: Faults): seq<Files> {
    if hadOldKey && f.key.None? && !faults.restore then
      var g := f.(key := f.keyBak, keyBak := None);
      [g] + Discarded(g)
    else Discarded(f)
  }

  /** From the data file's rename on. */
  function MoveSteps(f: Files, hadOldKey: bool, faults: Faults): seq<Files> {
    if faults.dat then Recovery(f, hadOldKey, faults)
    else
      var g := f.(dat := f.datTmp, datTmp := None);
      if faults.key then [g] + Recovery(g, hadOldKey, faults)
      else
        var h := g.(key := g.keyTmp, keyTmp := None);
        if hadOldKey then [g, h, h.(keyBak := None)] else [g, h]
  }

  /** The states a swap goes through. */
  function SwapSteps(f: Files, faults: Faults): seq<Files> {
    if f.key.None? then MoveSteps(f, false, faults)
    else if faults.aside then Discarded(f)
    else
      var g := f.(keyBak := f.key, key := None);
      [g] + MoveSteps(g, true, faults)
  }

  /**
   * Some crash point pairs the new data with the old key exactly when the old key was moved aside,
   * the data file moved into place, the key's rename failed, and putting the old key back succeeded.
   */
  lemma MixedIff(f: Files, faults: Faults)
    requires Start(f)
    ensures (exists g :: g in SwapSteps(f, faults) && Mixed(g))
       <==> f.key.Some? && !faults.aside && !faults.dat && faults.key && !faults.restore
  {
    var steps := SwapSteps(f, faults);
    if f.key.Some? && !faults.aside && !faults.dat && faults.key && !faults.restore {
      assert Mixed(steps[2]);
    }
  }

  /** Whatever fails and wherever it stops, the old key is there until the new pair is in place. */
  lemma OldKeySurvives(f: Files, faults: Faults, g: Files)
    requires Start(f) && f.key.Some? && g in SwapSteps(f, faults)
    ensures g.key == Some(Old) || g.keyBak == Some(Old) || (g.dat == Some(New) && g.key == Some(New))
  {
  }

  /** A swap that succeeds leaves exactly the new pair. */
  lemma SwapPlaces(f: Files, faults: Faults)
    requires Start(f) && Succeeds(f, faults)
    ensures
      var steps := SwapSteps(f, faults);
      var last := steps[|steps| - 1];
      last == Files(Some(New), Some(New), None, None, if f.key.Some? then None else f.keyBak)
  {
  }

  /**
   * A swap that fails leaves the old store unless the key's own rename was what failed, or the old key stayed
   * aside.
   */
  lemma FailedSwapKeeps(f: Files, faults: Faults)
    requires Start(f) && !Succeeds(f, faults)
    ensures
      var steps := SwapSteps(f, faults);
      var last := steps[|steps| - 1];
      last.dat == f.dat && last.key == f.key
      <==> (f.key.Some? && faults.aside) || (faults.dat && (f.key.Some? ==> !faults.restore))
  {
  }
}
