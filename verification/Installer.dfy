/** Model of the file transactions in src/platform/install.ts: promoting a staged build and rolling
    back to the previous one. At most one operation on files fails without effect. */
module Installers {
  import opened Wrappers
  import opened InstallSpec

  datatype Outcome = Done | Missing | Fault

  class Disk<!C(==)> {
    var slots: Slots<C>
    /** How many operations still go well before the one that fails. */
    var fault: Option<nat>

    constructor (slots: Slots<C>, fault: Option<nat>)
      ensures this.slots == slots && this.fault == fault
    {
      this.slots, this.fault := slots, fault;
    }

    method Tick() returns (failed: bool)
      modifies `fault
      ensures failed == Hits(old(fault), 1) && fault == Spend(old(fault), 1)
    {
      failed := false;
      if fault.Some? {
        failed := fault.value == 0;
        fault := if failed then None else Some(fault.value - 1);
      }
    }

    method Rename(d: Name, from: Kind, to: Kind) returns (r: Outcome)
      requires d in slots && from != to
      modifies this
      ensures fault == Spend(old(fault), 1)
      ensures r == if Hits(old(fault), 1) then Fault else if Get(old(slots)[d], from).None? then Missing else Done
      ensures slots == if r == Done then old(slots)[d := Set(Set(old(slots)[d], to, Get(old(slots)[d], from)), from, None)]
                       else old(slots)
    {
      var failed := Tick();
      if failed {
        return Fault;
      }
      var c := Get(slots[d], from);
      if c.None? {
        return Missing;
      }
      slots := slots[d := Set(Set(slots[d], to, c), from, None)];
      r := Done;
    }

    /** `rm` with `force`. */
    method Remove(d: Name, k: Kind) returns (ok: bool)
      requires d in slots
      modifies this
      ensures ok == !Hits(old(fault), 1) && fault == Spend(old(fault), 1)
      ensures slots == if ok then old(slots)[d := Set(old(slots)[d], k, None)] else old(slots)
    {
      var failed := Tick();
      if !failed {
        slots := slots[d := Set(slots[d], k, None)];
      }
      ok := !failed;
    }

    /** A copy, or an atomic write, of a new file. */
    method Write(d: Name, k: Kind, c: C) returns (ok: bool)
      requires d in slots
      modifies this
      ensures ok == !Hits(old(fault), 1) && fault == Spend(old(fault), 1)
      ensures slots == if ok then old(slots)[d := Set(old(slots)[d], k, Some(c))] else old(slots)
    {
      var failed := Tick();
      if !failed {
        slots := slots[d := Set(slots[d], k, Some(c))];
      }
      ok := !failed;
    }

    // ---- One destination ----

    /** `promoteStagedFile`. A fault at any of its three operations leaves the current file in place,
        though from the second on the previous one is gone. */
    method PromoteStagedFile(d: Name) returns (ok: bool)
      requires d in slots
      modifies this
      ensures old(slots)[d].next.Some? ==>
                && ok == !Hits(old(fault), 3) && fault == Spend(old(fault), 3)
                && slots == if ok then old(slots)[d := Promoted(old(slots)[d])]
                            else if Hits(old(fault), 1) then old(slots)
                            else old(slots)[d := old(slots)[d].(previous := None)]
      ensures old(slots)[d].next.None? ==> !ok
      ensures old(fault).None? && old(slots)[d].next.None? ==> slots == old(slots)[d := old(slots)[d].(previous := None)]
    {
      ok := Remove(d, Previous);
      if !ok {
        return;
      }
      var moved := Rename(d, Current, Previous);
      if moved == Fault {
        return false;
      }
      var placed := Rename(d, New, Current);
      if placed != Done {
        if moved == Done {
          var back := Rename(d, Previous, Current);
        }
        return false;
      }
      ok := true;
    }

    /** `swapCurrentAndPrevious`: all or nothing, wherever the fault is. */
    method SwapCurrentAndPrevious(d: Name) returns (ok: bool)
      requires d in slots && slots[d].swap.None?
      modifies this
      ensures var s := old(slots)[d];
              && ok == (s.previous.Some? && !Hits(old(fault), SwapRenames(s)))
              && slots == (if ok then old(slots)[d := Swapped(s)] else old(slots))
              && fault == if s.previous.None? then old(fault) else Spend(old(fault), SwapRenames(s) + 1)
    {
      if slots[d].previous.None? {
        return false;
      }
      var movedCurrent := Rename(d, Current, Swap);
      var movedPrevious := Fault;
      ok := movedCurrent != Fault;
      if ok {
        movedPrevious := Rename(d, Previous, Current);
        ok := movedPrevious == Done;
        if ok && movedCurrent == Done {
          var third := Rename(d, Swap, Previous);
          ok := third == Done;
        }
      }
      if !ok {
        if movedPrevious == Done {
          var back := Rename(d, Current, Previous);
        }
        if movedCurrent == Done {
          var back := Rename(d, Swap, Current);
        }
      }
      var cleaned := Remove(d, Swap);
    }

    // ---- Several destinations ----

    /** Swaps back, newest first; a swap that is not possible is passed over. */
    method SwapBack(names: seq<Name>)
      requires fault.None? && Distinct(names) && Range(names) <= slots.Keys && NoSwapFiles(slots)
      modifies this
      ensures slots == RolledBack(old(slots), Range(names)) && fault.None?
    {
      var i := |names|;
      assert RolledBack(slots, {}) == slots;
      while i > 0
        invariant 0 <= i <= |names| && fault.None?
        invariant slots == RolledBack(old(slots), Range(names[i..]))
      {
        i := i - 1;
        var d := names[i];
        SwapOneMore(old(slots), Range(names[i + 1..]), d);
        assert Range(names[i..]) == Range(names[i + 1..]) + {d};
        var ok := SwapCurrentAndPrevious(d);
      }
      assert names[0..] == names;
    }

    /** Swaps the destinations that have a previous file, in order, up to the fault. */
    method SwapEach(names: seq<Name>) returns (ok: bool, swapped: seq<Name>)
      requires Distinct(names) && Range(names) <= slots.Keys && NoSwapFiles(slots)
      modifies this
      ensures var r := SwapRun(old(slots), names, old(fault));
              && ok == r.ok && fault == r.fault
              && Distinct(swapped) && HavePrevious(old(slots), Range(names[..r.done]), Range(swapped))
              && slots == RolledBack(old(slots), Range(names[..r.done]))
    {
      swapped := [];
      ok := true;
      assert RolledBack(slots, {}) == slots && names[0..] == names;
      for i := 0 to |names|
        invariant Distinct(swapped) && HavePrevious(old(slots), Range(names[..i]), Range(swapped))
        invariant slots == RolledBack(old(slots), Range(names[..i]))
        invariant Range(names[i..]) <= old(slots).Keys
        invariant var r := SwapRun(old(slots), names[i..], fault);
                  SwapRun(old(slots), names, old(fault)) == r.(done := r.done + i)
      {
        var d := names[i];
        SwapRunNext(old(slots), names, i, fault);
        OneMoreSwapped(old(slots), names, i, swapped);
        SwapOneMore(old(slots), Range(names[..i]), d);
        NextName(names, i);
        if slots[d].previous.Some? {
          ok := SwapCurrentAndPrevious(d);
          if !ok {
            return;
          }
          swapped := swapped + [d];
        }
      }
      assert names[..|names|] == names;
    }

    // ---- Rollback ----

    /** The distinct artifacts of two layouts, in order. */
    static method NamesOf(a: seq<nat>, b: seq<nat>) returns (names: seq<Name>)
      ensures names == Distinctly(a + b)
    {
      names := [];
      var both := a + b;
      for i := 0 to |both|
        invariant names == Distinctly(both[..i])
      {
        assert both[..i + 1][..i] == both[..i];
        if Artifact(both[i]) !in names {
          names := names + [Artifact(both[i])];
        }
      }
      assert both[..|both|] == both;
    }

    /** `rollbackInstalledBuild`: at any fault, exactly the specified outcome. */
    method RollbackInstalledBuild(layouts: Layouts<C>, default: seq<nat>) returns (ok: bool)
      requires Covered(layouts, default, slots) && NoSwapFiles(slots)
      modifies this
      ensures Result(ok, slots) == Rollback(layouts, default, old(slots), old(fault))
    {
      var m := slots[Metadata];
      if m.previous.None? {
        return false;
      }
      var previousLayout := layouts(m.previous.value);
      if previousLayout.None? {
        return false;
      }
      var currentLayout := Some(default);
      if m.current.Some? {
        currentLayout := layouts(m.current.value);
        if currentLayout.None? {
          return false;
        }
      }
      var names := NamesOf(currentLayout.value, previousLayout.value);
      RangeSnoc(names, SchemaHash);
      ok := RollbackAll(names + [SchemaHash]);
    }

    /** The swaps of a rollback: the artifacts and the schema hash, then the metadata. When one fails,
        what was swapped is swapped back. */
    method RollbackAll(names: seq<Name>) returns (ok: bool)
      requires Distinct(names) && Range(names) + {Metadata} <= slots.Keys && NoSwapFiles(slots)
      requires Metadata !in names && slots[Metadata].previous.Some?
      modifies this
      ensures Result(ok, slots) == RollbackOf(old(slots), names, old(fault))
    {
      ghost var r := SwapRun(slots, names, fault);
      var swapped;
      ok, swapped := SwapEach(names);
      if ok {
        assert names[..|names|] == names;
        SwapOneMore(old(slots), Range(names), Metadata);
        ok := SwapCurrentAndPrevious(Metadata);
      }
      if !ok {
        SwapBack(swapped);
        SwapBackIs(old(slots), Range(names[..r.done]), Range(swapped));
      }
    }

    // ---- Promotion ----

    /** Promotes staged files in order; on a failure swaps back what was promoted. */
    method PromoteEach(names: seq<Name>) returns (ok: bool)
      requires Distinct(names) && Range(names) <= slots.Keys && NoSwapFiles(slots)
      requires forall d :: d in names ==> slots[d].next.Some?
      modifies this
      ensures ok == !Hits(old(fault), 3 * |names|)
      ensures slots == if ok then PromotedOn(old(slots), Range(names))
                       else HalfPromoted(old(slots), Range(names[..old(fault).value / 3]), HitBy(names, old(fault).value))
    {
      ok := true;
      assert PromotedOn(slots, {}) == slots;
      for i := 0 to |names|
        invariant slots == PromotedOn(old(slots), Range(names[..i])) && ok
        invariant !Hits(old(fault), 3 * i) && fault == Spend(old(fault), 3 * i)
      {
        var d := names[i];
        NextName(names, i);
        PromoteOneMore(old(slots), Range(names[..i]), d);
        ok := PromoteStagedFile(d);
        if !ok {
          SwapBack(names[..i]);
          HitAt(names, i, old(fault).value);
          HalfPromotedIs(old(slots), Range(names[..i]), d, HitBy(names, old(fault).value), slots);
          return;
        }
      }
      assert names[..|names|] == names;
    }

    /** Stages the files of a build. Without a schema hash, or when it cannot be written, the build
        is staged without one. */
    method Stage(ids: seq<nat>, sources: map<nat, C>, metadata: C, schemaHash: Option<C>)
      returns (ok: bool, schemaHashStaged: bool)
      requires ArtifactsOf(ids) + {Metadata, SchemaHash} <= slots.Keys
      modifies this
      ensures Installed(slots) == Installed(old(slots)) && slots.Keys == old(slots).Keys
      ensures ok == (AllPresent(ids, sources) && !Hits(old(fault), StageCost(ids) - 1))
      ensures ok ==> ArtifactsStaged(slots, ids, sources) && slots[Metadata].next == Some(metadata)
      ensures ok ==> schemaHashStaged == (schemaHash.Some? && !Hits(old(fault), StageCost(ids)))
      ensures ok && schemaHashStaged ==> slots[SchemaHash].next == schemaHash
      ensures ok ==> fault == Spend(old(fault), StageCost(ids))
    {
      schemaHashStaged := false;
      ok := StageArtifacts(ids, sources);
      if ok {
        ok := Write(Metadata, New, metadata);
      }
      if ok {
        schemaHashStaged := StageSchemaHash(schemaHash);
      }
    }

    method StageSchemaHash(schemaHash: Option<C>) returns (staged: bool)
      requires SchemaHash in slots
      modifies this
      ensures staged == (schemaHash.Some? && !Hits(old(fault), 1)) && fault == Spend(old(fault), 1)
      ensures SchemaHash in slots && slots == old(slots)[SchemaHash := slots[SchemaHash]]
      ensures slots[SchemaHash].(next := None) == old(slots)[SchemaHash].(next := None)
      ensures staged ==> slots[SchemaHash].next == schemaHash
    {
      staged := false;
      if schemaHash.Some? {
        staged := Write(SchemaHash, New, schemaHash.value);
      }
      if !staged {
        var removed := Remove(SchemaHash, New);
      }
    }

    method StageArtifacts(ids: seq<nat>, sources: map<nat, C>) returns (ok: bool)
      requires ArtifactsOf(ids) <= slots.Keys
      modifies this
      ensures Installed(slots) == Installed(old(slots)) && slots.Keys == old(slots).Keys
      ensures ok == (AllPresent(ids, sources) && !Hits(old(fault), 2 * |ids|))
      ensures ok ==> ArtifactsStaged(slots, ids, sources) && fault == Spend(old(fault), 2 * |ids|)
    {
      ok := true;
      for i := 0 to |ids|
        invariant ok && Installed(slots) == Installed(old(slots)) && slots.Keys == old(slots).Keys
        invariant ArtifactsStaged(slots, ids[..i], sources)
        invariant !Hits(old(fault), 2 * i) && fault == Spend(old(fault), 2 * i)
      {
        var d := Artifact(ids[i]);
        assert d in ArtifactsOf(ids);
        ok := Remove(d, New);
        if ok && ids[i] in sources {
          ok := Write(d, New, sources[ids[i]]);
        } else {
          ok := false;
        }
        if !ok {
          return;
        }
      }
      assert ids[..|ids|] == ids;
      StagedArePresent(slots, ids, sources);
    }

    /** Removes what is still staged; failures are passed over. */
    method CleanUp(names: seq<Name>)
      requires Range(names) <= slots.Keys
      modifies this
      ensures Installed(slots) == Installed(old(slots)) && slots.Keys == old(slots).Keys
      ensures old(fault).None? ==> fault.None? && forall d :: d in names ==> slots[d].next.None?
    {
      for i := 0 to |names|
        invariant Installed(slots) == Installed(old(slots)) && slots.Keys == old(slots).Keys
        invariant old(fault).None? ==> fault.None? && forall j :: 0 <= j < i ==> slots[names[j]].next.None?
      {
        var removed := Remove(names[i], New);
      }
    }

    /** `promoteInstalledBuild`: at any fault, exactly the specified outcome, but for files that are
        still staged. */
    method PromoteInstalledBuild(ids: seq<nat>, sources: map<nat, C>, metadata: C, schemaHash: Option<C>) returns (ok: bool)
      requires forall i, j :: 0 <= i < j < |ids| ==> ids[i] != ids[j]
      requires ArtifactsOf(ids) + {Metadata, SchemaHash} <= slots.Keys && NoSwapFiles(slots)
      modifies this
      ensures Result(ok, Installed(slots)) == Promote(old(slots), ids, sources, metadata, schemaHash, old(fault))
    {
      var schemaHashStaged;
      ok, schemaHashStaged := Stage(ids, sources, metadata, schemaHash);
      if ok {
        ok := PromoteStaged(ids, schemaHashStaged, sources, metadata, if schemaHashStaged then schemaHash else None, old(slots));
      }
      TargetsInSlots(ids, slots);
      CleanUp(Targets(ids, true));
    }

    method PromoteStaged(ids: seq<nat>, schemaHashStaged: bool, ghost sources: map<nat, C>, ghost metadata: C,
                         ghost staged: Option<C>, ghost was: Slots<C>) returns (ok: bool)
      requires forall i, j :: 0 <= i < j < |ids| ==> ids[i] != ids[j]
      requires ArtifactsOf(ids) + {Metadata, SchemaHash} <= slots.Keys && NoSwapFiles(was)
      requires was.Keys == slots.Keys && Installed(was) == Installed(slots) && AllPresent(ids, sources)
      requires ArtifactsStaged(slots, ids, sources) && slots[Metadata].next == Some(metadata)
      requires schemaHashStaged == staged.Some? && (staged.Some? ==> slots[SchemaHash].next == staged)
      modifies this
      ensures slots.Keys == old(slots).Keys
      ensures ok == !Hits(old(fault), 3 * |Targets(ids, schemaHashStaged)|)
      ensures var names, build := Targets(ids, schemaHashStaged), BuildOf(ids, sources, metadata, staged);
              && (ok ==> Installed(slots) == WithBuild(was, build))
              && (!ok ==> Range(names[..old(fault).value / 3]) <= build.Keys
                          && Installed(slots) == WithoutBuild(was, build, Range(names[..old(fault).value / 3]), HitBy(names, old(fault).value)))
    {
      var names := Targets(ids, schemaHashStaged);
      ghost var build := BuildOf(ids, sources, metadata, staged);
      BuildIsStaged(was, slots, ids, sources, metadata, staged);
      SameInstalled(was, slots);
      TargetsAreBuild(ids, sources, metadata, staged, |names|);
      TargetsAreDistinct(ids, schemaHashStaged);
      PromotedIsWithBuild(was, slots, build);
      if Hits(fault, 3 * |names|) {
        TargetsAreBuild(ids, sources, metadata, staged, fault.value / 3);
        HalfPromotedIsWithoutBuild(was, slots, build, Range(names[..fault.value / 3]), HitBy(names, fault.value));
      }
      ok := PromoteEach(names);
    }
  }
}
