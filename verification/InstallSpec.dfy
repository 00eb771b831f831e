/** Specification for the file transactions of src/platform/install.ts. Every destination has its
    current file and, beside it, at most a staged one, the previous one and the temporary one of a
    swap; all renames stay within one destination. */
module InstallSpec {
  import opened Wrappers

  /** The destinations: the artifacts of a build, its metadata and the schema hash. */
  datatype Name = Artifact(id: nat) | Metadata | SchemaHash

  datatype Kind = Current | New | Previous | Swap

  datatype Slot<C> = Slot(current: Option<C>, next: Option<C>, previous: Option<C>, swap: Option<C>)

  type Slots<C> = map<Name, Slot<C>>

  function Get<C>(s: Slot<C>, k: Kind): Option<C> {
    match k
    case Current => s.current
    case New => s.next
    case Previous => s.previous
    case Swap => s.swap
  }

  function Set<C>(s: Slot<C>, k: Kind, c: Option<C>): Slot<C> {
    match k
    case Current => s.(current := c)
    case New => s.(next := c)
    case Previous => s.(previous := c)
    case Swap => s.(swap := c)
  }

  /** The current and the previous file change places. */
  function Swapped<C>(s: Slot<C>): Slot<C> {
    s.(current := s.previous, previous := s.current)
  }

  /** A swap needs a previous file. */
  function TrySwapped<C>(s: Slot<C>): Slot<C> {
    if s.previous.Some? then Swapped(s) else s
  }

  function Promoted<C>(s: Slot<C>): Slot<C> {
    s.(current := s.next, next := None, previous := s.current)
  }

  /** There is a previous file but no current one. */
  predicate Orphan<C>(s: Slot<C>) {
    s.previous.Some? && s.current.None?
  }

  ghost predicate NoSwapFiles<C>(slots: Slots<C>) {
    forall d :: d in slots ==> slots[d].swap == None
  }

  ghost predicate Distinct(names: seq<Name>) {
    forall i, j :: 0 <= i < j < |names| ==> names[i] != names[j]
  }

  /** Everything but the staged files. */
  function Installed<C>(slots: Slots<C>): Slots<C> {
    map d | d in slots :: slots[d].(next := None)
  }

  function Range(names: seq<Name>): set<Name> {
    set d | d in names
  }

  // ---- A single fault ----

  /** The renames of a swap. The removal that follows them does no harm when it fails. */
  function SwapRenames<C>(s: Slot<C>): nat {
    if s.current.Some? then 3 else 2
  }

  /** `fault` is how many operations still go well before the one that fails. */
  predicate Hits(fault: Option<nat>, operations: nat) {
    fault.Some? && fault.value < operations
  }

  /** What is left of it after operations that it does not hit, or whose failure is ignored. */
  function Spend(fault: Option<nat>, operations: nat): Option<nat> {
    if fault.None? || fault.value < operations then None else Some(fault.value - operations)
  }

  // ---- Rollback ----

  /** What a successful rollback of the names does. */
  function RolledBack<C>(slots: Slots<C>, names: set<Name>): Slots<C> {
    map d | d in slots :: if d in names then TrySwapped(slots[d]) else slots[d]
  }

  /** What a rollback leaves that failed after swapping the names, and swapped them back: without
      an old current file there is nothing to swap back. */
  function SwappedBack<C>(slots: Slots<C>, swapped: set<Name>): Slots<C> {
    map d | d in slots :: if d in swapped then TrySwapped(TrySwapped(slots[d])) else slots[d]
  }

  lemma SwappedBackIsSame<C>(slots: Slots<C>, swapped: set<Name>)
    ensures SwappedBack(slots, swapped) == slots
            <==> forall d :: d in swapped && d in slots ==> !Orphan(slots[d])
  {
    if d :| d in swapped && d in slots && Orphan(slots[d]) {
      assert SwappedBack(slots, swapped)[d] != slots[d];
    }
  }

  lemma SwapOneMore<C>(slots: Slots<C>, names: set<Name>, d: Name)
    requires d in slots && d !in names
    ensures RolledBack(slots, names)[d := TrySwapped(slots[d])] == RolledBack(slots, names + {d})
  {
  }

  /** How far the swaps of some destinations get, and what is left of the fault. */
  datatype Swaps = Swaps(ok: bool, done: nat, fault: Option<nat>)

  function SwapRun<C>(slots: Slots<C>, names: seq<Name>, fault: Option<nat>): (r: Swaps)
    requires Range(names) <= slots.Keys
    ensures r.done <= |names| && (r.ok ==> r.done == |names|)
    ensures (fault.None? ==> r.ok) && (fault.None? || !r.ok ==> r.fault.None?)
  {
    if names == [] then Swaps(true, 0, fault)
    else
      assert names[0] in Range(names) && Range(names[1..]) <= Range(names);
      var s := slots[names[0]];
      if s.previous.Some? && Hits(fault, SwapRenames(s)) then Swaps(false, 0, None)
      else
        var r := SwapRun(slots, names[1..], if s.previous.Some? then Spend(fault, SwapRenames(s) + 1) else fault);
        r.(done := r.done + 1)
  }

  /** The artifact names a metadata file gives, or none if it is invalid. */
  type Layouts<!C> = C -> Option<seq<nat>>

  function ArtifactsOf(ids: seq<nat>): set<Name> {
    set id | id in ids :: Artifact(id)
  }

  /** The artifacts of two layouts, each once, in order. */
  function Distinctly(ids: seq<nat>): (names: seq<Name>)
    ensures Distinct(names) && Range(names) == ArtifactsOf(ids)
  {
    if ids == [] then []
    else
      var front, last := Distinctly(ids[..|ids| - 1]), Artifact(ids[|ids| - 1]);
      assert ArtifactsOf(ids) == ArtifactsOf(ids[..|ids| - 1]) + {last};
      if last in front then front
      else
        assert Range(front + [last]) == Range(front) + {last};
        front + [last]
  }

  /** The layouts of the current and of the previous build. A rollback refuses without valid
      previous metadata, or with invalid current ones. */
  function RollbackIds<C>(layouts: Layouts<C>, default: seq<nat>, slots: Slots<C>): Option<seq<nat>>
    requires Metadata in slots
  {
    var m := slots[Metadata];
    if m.previous.None? || layouts(m.previous.value).None? then None
    else if m.current.Some? && layouts(m.current.value).None? then None
    else Some((if m.current.Some? then layouts(m.current.value).value else default) + layouts(m.previous.value).value)
  }

  /** What a rollback swaps: these artifacts, the schema hash and, at the end, the metadata. */
  function RollbackNames<C>(layouts: Layouts<C>, default: seq<nat>, slots: Slots<C>): Option<set<Name>>
    requires Metadata in slots
  {
    var ids := RollbackIds(layouts, default, slots);
    if ids.None? then None else Some(ArtifactsOf(ids.value) + {SchemaHash, Metadata})
  }

  /** Every name that a rollback swaps has its slot, if only an empty one. */
  ghost predicate Covered<C>(layouts: Layouts<C>, default: seq<nat>, slots: Slots<C>) {
    && Metadata in slots && SchemaHash in slots
    && var ids := RollbackIds(layouts, default, slots); ids.Some? ==> ArtifactsOf(ids.value) <= slots.Keys
  }

  datatype Result<C> = Result(ok: bool, slots: Slots<C>)

  /** A rollback, with a fault at any place or none. */
  ghost function Rollback<C>(layouts: Layouts<C>, default: seq<nat>, slots: Slots<C>, fault: Option<nat>): Result<C>
    requires Covered(layouts, default, slots)
  {
    var ids := RollbackIds(layouts, default, slots);
    if ids.None? then Result(false, slots)
    else RollbackOf(slots, Distinctly(ids.value) + [SchemaHash], fault)
  }

  ghost function RollbackOf<C>(slots: Slots<C>, names: seq<Name>, fault: Option<nat>): Result<C>
    requires Range(names) + {Metadata} <= slots.Keys
  {
    var r := SwapRun(slots, names, fault);
    if !r.ok then Result(false, SwappedBack(slots, Range(names[..r.done])))
    else if Hits(r.fault, SwapRenames(slots[Metadata])) then Result(false, SwappedBack(slots, Range(names)))
    else Result(true, RolledBack(slots, Range(names) + {Metadata}))
  }

  /** The operations of the swaps. */
  function SwapCost<C>(slots: Slots<C>, names: seq<Name>): nat
    requires Range(names) <= slots.Keys
  {
    if names == [] then 0
    else
      assert names[0] in Range(names) && Range(names[1..]) <= Range(names);
      (if slots[names[0]].previous.Some? then SwapRenames(slots[names[0]]) + 1 else 0) + SwapCost(slots, names[1..])
  }

  /** A fault right after the swaps leaves them all done. */
  lemma {:induction false} SwapRunCosts<C>(slots: Slots<C>, names: seq<Name>)
    requires Range(names) <= slots.Keys
    ensures SwapRun(slots, names, Some(SwapCost(slots, names))) == Swaps(true, |names|, Some(0))
  {
    if names == [] {
    } else {
      assert names[0] in Range(names) && Range(names[1..]) <= Range(names);
      SwapRunCosts(slots, names[1..]);
    }
  }

  /** A failed rollback leaves everything as it was, wherever the fault is, if and only if none of
      the artifacts of both builds and not the schema hash has a previous file without a current
      one. The metadata are swapped last, so that they do not matter. */
  lemma FailedRollbackExactly<C>(layouts: Layouts<C>, default: seq<nat>, slots: Slots<C>)
    requires Covered(layouts, default, slots)
    ensures var ids := RollbackIds(layouts, default, slots);
            (forall k: nat :: var r := Rollback(layouts, default, slots, Some(k)); !r.ok ==> r.slots == slots)
            <==> ids.None? || forall d :: d in ArtifactsOf(ids.value) + {SchemaHash} ==> !Orphan(slots[d])
  {
    if RollbackIds(layouts, default, slots).None? {
      return;
    }
    var order := Distinctly(RollbackIds(layouts, default, slots).value) + [SchemaHash];
    var names := ArtifactsOf(RollbackIds(layouts, default, slots).value) + {SchemaHash};
    assert Range(order) == names;
    if forall d :: d in names ==> !Orphan(slots[d]) {
      forall k: nat | !Rollback(layouts, default, slots, Some(k)).ok
        ensures Rollback(layouts, default, slots, Some(k)).slots == slots
      {
        var r := SwapRun(slots, order, Some(k));
        assert Range(order[..r.done]) <= names;
        SwappedBackIsSame(slots, Range(order[..r.done]));
        SwappedBackIsSame(slots, names);
      }
    } else {
      var k := SwapCost(slots, order);
      SwapRunCosts(slots, order);
      SwappedBackIsSame(slots, names);
      assert Rollback(layouts, default, slots, Some(k)) == Result(false, SwappedBack(slots, names));
    }
  }

  /** Two rollbacks in a row: the second is possible exactly when there were current metadata; it
      then swaps the same names, and undoes the first exactly when none of them was without a
      current file. */
  lemma TwoRollbacks<C>(layouts: Layouts<C>, default: seq<nat>, slots: Slots<C>)
    requires Metadata in slots && RollbackNames(layouts, default, slots).Some?
    ensures var names := RollbackNames(layouts, default, slots).value;
            var once := RolledBack(slots, names);
            && (RollbackNames(layouts, default, once).Some? <==> slots[Metadata].current.Some?)
            && (slots[Metadata].current.Some? ==>
                  && RollbackNames(layouts, default, once) == Some(names)
                  && (RolledBack(once, names) == slots
                      <==> forall d :: d in names && d in slots ==> !Orphan(slots[d])))
  {
    var names := RollbackNames(layouts, default, slots).value;
    var once := RolledBack(slots, names);
    assert RolledBack(once, names) == SwappedBack(slots, names);
    SwappedBackIsSame(slots, names);
    var m := slots[Metadata];
    assert once[Metadata] == Swapped(m);
    if m.current.Some? {
      var now, before := layouts(m.current.value).value, layouts(m.previous.value).value;
      assert ArtifactsOf(now + before) == ArtifactsOf(before + now);
    }
  }

  // ---- Promotion ----

  function PromotedOn<C>(slots: Slots<C>, names: set<Name>): Slots<C> {
    map d | d in slots :: if d in names then Promoted(slots[d]) else slots[d]
  }

  lemma PromoteOneMore<C>(slots: Slots<C>, names: set<Name>, d: Name)
    requires d in slots && d !in names
    ensures PromotedOn(slots, names)[d := Promoted(slots[d])] == PromotedOn(slots, names + {d})
  {
  }

  /** After a failure: the promoted files swapped back, and perhaps one previous file gone. */
  function HalfPromoted<C>(slots: Slots<C>, undone: set<Name>, hit: Option<Name>): Slots<C> {
    map d | d in slots ::
      if d in undone then TrySwapped(Promoted(slots[d]))
      else if hit == Some(d) then slots[d].(previous := None)
      else slots[d]
  }

  /** The destination whose previous file a fault costs: its own removal has been done by then. */
  function HitBy(names: seq<Name>, fault: nat): Option<Name>
    requires fault < 3 * |names|
  {
    if fault % 3 == 0 then None else Some(names[fault / 3])
  }

  /** The destinations of a build, in the order of their promotion. */
  function Targets(ids: seq<nat>, schemaHashStaged: bool): (names: seq<Name>)
    ensures |names| == |ids| + 1 + if schemaHashStaged then 1 else 0
  {
    seq(|ids|, i requires 0 <= i < |ids| => Artifact(ids[i])) + [Metadata] + if schemaHashStaged then [SchemaHash] else []
  }

  predicate AllPresent<C>(ids: seq<nat>, sources: map<nat, C>) {
    forall id :: id in ids ==> id in sources
  }

  /** The files of a build by destination. */
  function BuildOf<C>(ids: seq<nat>, sources: map<nat, C>, metadata: C, schemaHash: Option<C>): (build: map<Name, C>)
    requires AllPresent(ids, sources)
    ensures build.Keys == ArtifactsOf(ids) + {Metadata} + if schemaHash.Some? then {SchemaHash} else {}
  {
    var names := ArtifactsOf(ids) + {Metadata} + if schemaHash.Some? then {SchemaHash} else {};
    map d | d in names ::
      match d case Artifact(id) => sources[id] case Metadata => metadata case SchemaHash => schemaHash.value
  }

  /** What is installed after a build was promoted. */
  function WithBuild<C>(slots: Slots<C>, build: map<Name, C>): Slots<C> {
    map d | d in slots ::
      if d in build then slots[d].(current := Some(build[d]), previous := slots[d].current, next := None)
      else slots[d].(next := None)
  }

  /** What is installed after a promotion failed that had got as far as `undone`. A destination that
      had a file has it again, with the new file in place of its previous one; a destination that
      had none keeps the new file. */
  function WithoutBuild<C>(slots: Slots<C>, build: map<Name, C>, undone: set<Name>, hit: Option<Name>): Slots<C>
    requires undone <= build.Keys
  {
    map d | d in slots ::
      if d in undone then
        (if slots[d].current.Some? then slots[d].(previous := Some(build[d]), next := None)
         else slots[d].(current := Some(build[d]), previous := None, next := None))
      else if hit == Some(d) then slots[d].(previous := None, next := None)
      else slots[d].(next := None)
  }

  /** The operations of staging a build: two for each artifact, one for the metadata and one for the
      schema hash. The last may fail without harm; the build is then promoted without the hash. */
  function StageCost(ids: seq<nat>): nat { 2 * |ids| + 2 }

  /** What is installed after a promotion, with a fault at any place or none. */
  function Promote<C>(slots: Slots<C>, ids: seq<nat>, sources: map<nat, C>, metadata: C, schemaHash: Option<C>, fault: Option<nat>): Result<C> {
    if !AllPresent(ids, sources) || Hits(fault, StageCost(ids) - 1) then Result(false, Installed(slots))
    else
      var staged := if Hits(fault, StageCost(ids)) then None else schemaHash;
      var names, build, left := Targets(ids, staged.Some?), BuildOf(ids, sources, metadata, staged), Spend(fault, StageCost(ids));
      if Hits(left, 3 * |names|) then
        TargetsAreBuild(ids, sources, metadata, staged, left.value / 3);
        Result(false, WithoutBuild(slots, build, Range(names[..left.value / 3]), HitBy(names, left.value)))
      else Result(true, WithBuild(slots, build))
  }

  lemma TargetsAreBuild<C>(ids: seq<nat>, sources: map<nat, C>, metadata: C, schemaHash: Option<C>, j: nat)
    requires AllPresent(ids, sources) && j <= |Targets(ids, schemaHash.Some?)|
    ensures var names, build := Targets(ids, schemaHash.Some?), BuildOf(ids, sources, metadata, schemaHash);
            Range(names) == build.Keys && Range(names[..j]) <= build.Keys
  {
    var names := Targets(ids, schemaHash.Some?);
    forall id | id in ids
      ensures Artifact(id) in names
    {
      var i :| 0 <= i < |ids| && ids[i] == id;
      assert names[i] == Artifact(id);
    }
    assert names[|ids|] == Metadata;
    if schemaHash.Some? {
      assert names[|ids| + 1] == SchemaHash;
    }
  }

  ghost predicate SameCurrent<C>(a: Slots<C>, b: Slots<C>) {
    a.Keys == b.Keys && forall d :: d in a ==> a[d].current == b[d].current
  }

  /** A failed promotion, wherever the fault is, leaves every destination that had a current file
      with it; one that had none still has none, or has the file of the build. */
  lemma FailedPromotionKeepsFiles<C>(slots: Slots<C>, ids: seq<nat>, sources: map<nat, C>, metadata: C, schemaHash: Option<C>,
                                     fault: Option<nat>, d: Name)
    requires d in slots && !Promote(slots, ids, sources, metadata, schemaHash, fault).ok
    ensures var r := Promote(slots, ids, sources, metadata, schemaHash, fault);
            && r.slots.Keys == slots.Keys
            && (slots[d].current.Some? ==> r.slots[d].current == slots[d].current)
            && (slots[d].current.None? && r.slots[d].current.Some? ==>
                  && AllPresent(ids, sources) && d in BuildOf(ids, sources, metadata, schemaHash)
                  && r.slots[d].current == Some(BuildOf(ids, sources, metadata, schemaHash)[d]))
  {
  }

  /** A failed promotion leaves every current file as it was, wherever the fault is, if and only if
      every destination but the last one has a current file, or a file of the build is missing. */
  lemma FailedPromotionExactly<C>(slots: Slots<C>, ids: seq<nat>, sources: map<nat, C>, metadata: C, schemaHash: Option<C>)
    requires Range(Targets(ids, schemaHash.Some?)) <= slots.Keys
    ensures var names := Targets(ids, schemaHash.Some?);
            (forall k: nat :: var r := Promote(slots, ids, sources, metadata, schemaHash, Some(k));
               !r.ok ==> SameCurrent(slots, r.slots))
            <==> !AllPresent(ids, sources)
                 || forall i :: 0 <= i < |names| - 1 ==> names[i] in slots && slots[names[i]].current.Some?
  {
    var names := Targets(ids, schemaHash.Some?);
    if AllPresent(ids, sources) {
      if i :| 0 <= i < |names| - 1 && !(names[i] in slots && slots[names[i]].current.Some?) {
        LatePromotionFault(slots, ids, sources, metadata, schemaHash, i);
      } else {
        forall k: nat | !Promote(slots, ids, sources, metadata, schemaHash, Some(k)).ok
          ensures SameCurrent(slots, Promote(slots, ids, sources, metadata, schemaHash, Some(k)).slots)
        {
          EarlierTargetsKept(slots, ids, sources, metadata, schemaHash, k);
        }
      }
    }
  }

  /** A fault at the last destination undoes all the others. */
  lemma LatePromotionFault<C>(slots: Slots<C>, ids: seq<nat>, sources: map<nat, C>, metadata: C, schemaHash: Option<C>, i: nat)
    requires AllPresent(ids, sources)
    requires var names := Targets(ids, schemaHash.Some?);
             i < |names| - 1 && names[i] in slots && slots[names[i]].current.None?
    ensures var k := StageCost(ids) + 3 * (|Targets(ids, schemaHash.Some?)| - 1);
            var r := Promote(slots, ids, sources, metadata, schemaHash, Some(k));
            !r.ok && !SameCurrent(slots, r.slots)
  {
    var names := Targets(ids, schemaHash.Some?);
    var k := StageCost(ids) + 3 * (|names| - 1);
    var left := Spend(Some(k), StageCost(ids));
    assert left == Some(3 * (|names| - 1)) && left.value / 3 == |names| - 1 && HitBy(names, left.value) == None;
    TargetsAreBuild(ids, sources, metadata, schemaHash, |names| - 1);
    assert names[i] in names[..|names| - 1];
    var r := Promote(slots, ids, sources, metadata, schemaHash, Some(k));
    assert r.slots[names[i]].current.Some?;
  }

  lemma EarlierTargetsKept<C>(slots: Slots<C>, ids: seq<nat>, sources: map<nat, C>, metadata: C, schemaHash: Option<C>, k: nat)
    requires var names := Targets(ids, schemaHash.Some?);
             forall i :: 0 <= i < |names| - 1 ==> names[i] in slots && slots[names[i]].current.Some?
    requires !Promote(slots, ids, sources, metadata, schemaHash, Some(k)).ok
    ensures SameCurrent(slots, Promote(slots, ids, sources, metadata, schemaHash, Some(k)).slots)
  {
    var names := Targets(ids, schemaHash.Some?);
    if AllPresent(ids, sources) && k >= StageCost(ids) {
      var j := (k - StageCost(ids)) / 3;
      TargetsAreBuild(ids, sources, metadata, schemaHash, j);
      forall d | d in names[..j]
        ensures d in slots && slots[d].current.Some?
      {
        var i :| 0 <= i < j && names[i] == d;
      }
    }
  }

  /** What a rollback installs after a promotion that failed at any fault, with the names it finds
      then: for everything that was promoted before the fault it is the file of the build that
      failed; the destination that the fault hit after its previous file was gone keeps its current
      one; all else is rolled back as before. */
  lemma SpoiledRollback<C>(layouts: Layouts<C>, default: seq<nat>, slots: Slots<C>, ids: seq<nat>, sources: map<nat, C>,
                           metadata: C, schemaHash: Option<C>, k: nat, d: Name)
    requires AllPresent(ids, sources) && Metadata in slots && d in slots
    requires k < 3 * |Targets(ids, schemaHash.Some?)|
    requires var r := Promote(slots, ids, sources, metadata, schemaHash, Some(StageCost(ids) + k));
             Metadata in r.slots && RollbackNames(layouts, default, r.slots).Some?
    ensures var r := Promote(slots, ids, sources, metadata, schemaHash, Some(StageCost(ids) + k));
            var names := RollbackNames(layouts, default, r.slots).value;
            var targets, build := Targets(ids, schemaHash.Some?), BuildOf(ids, sources, metadata, schemaHash);
            && !r.ok
            && (d in targets[..k / 3] ==> d in build)
            && RolledBack(r.slots, names)[d].current ==
               if d in targets[..k / 3] && (d in names || slots[d].current.None?) then Some(build[d])
               else if d in names && d !in targets[..k / 3] && HitBy(targets, k) != Some(d) then TrySwapped(slots[d]).current
               else slots[d].current
  {
    var targets, build := Targets(ids, schemaHash.Some?), BuildOf(ids, sources, metadata, schemaHash);
    TargetsAreBuild(ids, sources, metadata, schemaHash, k / 3);
    assert Spend(Some(StageCost(ids) + k), StageCost(ids)) == Some(k);
    var r := Promote(slots, ids, sources, metadata, schemaHash, Some(StageCost(ids) + k));
    RollbackOfUndone(slots, build, Range(targets[..k / 3]), HitBy(targets, k), RollbackNames(layouts, default, r.slots).value, d);
  }

  lemma RollbackOfUndone<C>(slots: Slots<C>, build: map<Name, C>, undone: set<Name>, hit: Option<Name>, names: set<Name>, d: Name)
    requires undone <= build.Keys && d in slots
    ensures RolledBack(WithoutBuild(slots, build, undone, hit), names)[d].current ==
            if d in undone && (d in names || slots[d].current.None?) then Some(build[d])
            else if d in names && d !in undone && hit != Some(d) then TrySwapped(slots[d]).current
            else slots[d].current
  {
  }

  /** The rollback does find each artifact of the build that is installed, as long as it is possible
      at all. */
  lemma SpoiledRollbackFinds<C>(layouts: Layouts<C>, default: seq<nat>, slots: Slots<C>, ids: seq<nat>, sources: map<nat, C>,
                                metadata: C, schemaHash: Option<C>, fault: nat, id: nat)
    requires Metadata in slots && slots[Metadata].current.Some? && layouts(slots[Metadata].current.value).Some?
    requires id in layouts(slots[Metadata].current.value).value
    ensures var r := Promote(slots, ids, sources, metadata, schemaHash, Some(fault));
            && Metadata in r.slots
            && (!r.ok && RollbackNames(layouts, default, r.slots).Some? ==>
                  Artifact(id) in RollbackNames(layouts, default, r.slots).value)
  {
    var r := Promote(slots, ids, sources, metadata, schemaHash, Some(fault));
    if !r.ok {
      assert r.slots[Metadata].current == slots[Metadata].current;
    }
  }

  // ---- Faults that show it ----

  /** The artifact number 0 under the metadata 10, 11 and 12. */
  function SampleLayouts(): Layouts<int> {
    c => if 10 <= c <= 12 then Some([0]) else None
  }

  function SampleDisk(artifact: Slot<int>): Slots<int> {
    map[Artifact(0) := artifact, Metadata := Slot(Some(10), None, Some(11), None), SchemaHash := Slot(None, None, None, None)]
  }

  /** An artifact with a previous but no current file: a fault at the metadata leaves it installed. */
  lemma RollbackLeavesAnOrphan()
    ensures var slots := SampleDisk(Slot(None, None, Some(1), None));
            && Covered(SampleLayouts(), [0], slots)
            && var r := Rollback(SampleLayouts(), [0], slots, Some(3));
               !r.ok && slots[Artifact(0)].current.None? && r.slots[Artifact(0)].current == Some(1)
  {
    var slots := SampleDisk(Slot(None, None, Some(1), None));
    var names := [Artifact(0)] + [SchemaHash];
    SampleNames();
    SampleSwaps(slots, names);
    assert Artifact(0) in Range(names);
  }

  lemma SampleNames()
    ensures Distinctly([0] + [0]) == [Artifact(0)] && ArtifactsOf([0] + [0]) == {Artifact(0)}
  {
    assert [0] + [0] == [0, 0] && [0, 0][..1] == [0] && [0][..0] == [];
    assert Distinctly([0]) == Distinctly([]) + [Artifact(0)];
  }

  lemma SampleSwaps(slots: Slots<int>, names: seq<Name>)
    requires slots == SampleDisk(Slot(None, None, Some(1), None)) && names == [Artifact(0)] + [SchemaHash]
    ensures SwapRun(slots, names, Some(3)) == Swaps(true, 2, Some(0))
  {
    assert names[1..] == [SchemaHash] && names[1..][1..] == [];
    assert SwapRun(slots, [SchemaHash], Some(0)) == Swaps(true, 1, Some(0));
  }

  /** A first artifact beside existing metadata: a fault at the metadata leaves it installed. */
  lemma PromotionLeavesANewFile()
    ensures var slots := SampleDisk(Slot(None, None, None, None));
            var r := Promote(slots, [0], map[0 := 2], 12, None, Some(7));
            !r.ok && slots[Artifact(0)].current.None? && r.slots[Artifact(0)].current == Some(2)
  {
    var names := Targets([0], false);
    assert names == [Artifact(0), Metadata] && names[..1] == [Artifact(0)];
    assert Artifact(0) in Range(names[..1]);
  }

  /** An update to build 12 fails at the metadata; a rollback then pairs the artifact of the failed
      build with the metadata of build 11. */
  lemma RollbackInstallsTheFailedBuild()
    ensures var slots := SampleDisk(Slot(Some(1), None, Some(0), None));
            var r := Promote(slots, [0], map[0 := 2], 12, None, Some(7));
            && !r.ok && SameCurrent(slots, r.slots) && Covered(SampleLayouts(), [0], r.slots)
            && var back := Rollback(SampleLayouts(), [0], r.slots, None);
               back.ok && back.slots[Artifact(0)].current == Some(2) && back.slots[Metadata].current == Some(11)
  {
    var slots := SampleDisk(Slot(Some(1), None, Some(0), None));
    SamplePromotion(slots);
    SampleRollback(SampleDisk(Slot(Some(1), None, Some(2), None)));
  }

  lemma SamplePromotion(slots: Slots<int>)
    requires slots == SampleDisk(Slot(Some(1), None, Some(0), None))
    ensures Promote(slots, [0], map[0 := 2], 12, None, Some(7)) == Result(false, SampleDisk(Slot(Some(1), None, Some(2), None)))
  {
    var names := Targets([0], false);
    assert names == [Artifact(0), Metadata] && names[..1] == [Artifact(0)];
    assert Range(names[..1]) == {Artifact(0)} && HitBy(names, 3) == None;
    var build := BuildOf([0], map[0 := 2], 12, None);
    assert build[Artifact(0)] == 2;
    SampleWithout(slots, build);
  }

  lemma SampleWithout(slots: Slots<int>, build: map<Name, int>)
    requires slots == SampleDisk(Slot(Some(1), None, Some(0), None)) && Artifact(0) in build && build[Artifact(0)] == 2
    ensures WithoutBuild(slots, build, {Artifact(0)}, None) == SampleDisk(Slot(Some(1), None, Some(2), None))
  {
  }

  lemma SampleRollback(slots: Slots<int>)
    requires slots == SampleDisk(Slot(Some(1), None, Some(2), None))
    ensures Covered(SampleLayouts(), [0], slots)
    ensures var back := Rollback(SampleLayouts(), [0], slots, None);
            back.ok && back.slots[Artifact(0)].current == Some(2) && back.slots[Metadata].current == Some(11)
  {
    SampleNames();
    assert Artifact(0) in Range([Artifact(0)] + [SchemaHash]);
  }

  // ---- A promotion followed by a rollback ----

  /** A rollback of the names undoes the promotion of a build: every current file is as before. */
  ghost predicate Undone<C>(slots: Slots<C>, build: map<Name, C>, names: set<Name>) {
    forall d :: d in slots ==> RolledBack(WithBuild(slots, build), names)[d].current == slots[d].current
  }

  /** What the rollback swaps is what the promotion moved aside: each file of the build replaced
      one, and no other name has a previous file, left over from an earlier build, that differs. */
  ghost predicate Reversible<C>(slots: Slots<C>, build: map<Name, C>, names: set<Name>) {
    forall d :: d in names && d in slots ==>
      if d in build then slots[d].current.Some?
      else slots[d].previous.Some? ==> slots[d].previous == slots[d].current
  }

  /** After a successful promotion a rollback is possible exactly when there were valid metadata
      before; it then brings every current file back if and only if the promotion is reversible. */
  lemma PromoteThenRollback<C>(layouts: Layouts<C>, default: seq<nat>, slots: Slots<C>, build: map<Name, C>, ids: seq<nat>)
    requires Metadata in slots && Metadata in build && build.Keys <= ArtifactsOf(ids) + {Metadata, SchemaHash}
    requires layouts(build[Metadata]) == Some(ids)
    ensures var names := RollbackNames(layouts, default, WithBuild(slots, build));
            && (names.Some? <==> slots[Metadata].current.Some? && layouts(slots[Metadata].current.value).Some?)
            && (names.Some? ==> (Undone(slots, build, names.value) <==> Reversible(slots, build, names.value)))
  {
    var installed := WithBuild(slots, build);
    var names := RollbackNames(layouts, default, installed);
    assert installed[Metadata].current == Some(build[Metadata]) && installed[Metadata].previous == slots[Metadata].current;
    if names.Some? {
      assert build.Keys <= names.value;
      forall d | d in slots
        ensures RolledBack(installed, names.value)[d].current ==
                if d !in names.value then slots[d].current
                else if d in build then (if slots[d].current.Some? then slots[d].current else Some(build[d]))
                else if slots[d].previous.Some? then slots[d].previous else slots[d].current
      {
      }
      if Undone(slots, build, names.value) {
        forall d | d in names.value && d in slots
          ensures if d in build then slots[d].current.Some? else slots[d].previous.Some? ==> slots[d].previous == slots[d].current
        {
          assert RolledBack(installed, names.value)[d].current == slots[d].current;
        }
      }
    }
  }

  /** An update without a staged schema hash, after one with it: the rollback also brings back the
      hash of the build before, which was not moved aside with this build. */
  lemma RollbackCanMixBuilds<C>(layouts: Layouts<C>, default: seq<nat>, slots: Slots<C>, build: map<Name, C>, ids: seq<nat>)
    requires Metadata in slots && Metadata in build && build.Keys == ArtifactsOf(ids) + {Metadata}
    requires layouts(build[Metadata]) == Some(ids)
    requires slots[Metadata].current.Some? && layouts(slots[Metadata].current.value).Some?
    requires SchemaHash in slots && slots[SchemaHash].previous.Some? && slots[SchemaHash].previous != slots[SchemaHash].current
    ensures var names := RollbackNames(layouts, default, WithBuild(slots, build));
            names.Some? && !Undone(slots, build, names.value)
  {
    PromoteThenRollback(layouts, default, slots, build, ids);
    assert SchemaHash !in build;
  }

  // ---- From the staged files to a build ----

  ghost predicate ArtifactsStaged<C>(slots: Slots<C>, ids: seq<nat>, sources: map<nat, C>) {
    forall i :: 0 <= i < |ids| ==>
      Artifact(ids[i]) in slots && ids[i] in sources && slots[Artifact(ids[i])].next == Some(sources[ids[i]])
  }

  /** The staged files of the build, and nothing else, set `was` and `staged` apart. */
  ghost predicate StagedOver<C>(was: Slots<C>, staged: Slots<C>, build: map<Name, C>) {
    && was.Keys == staged.Keys && Installed(was) == Installed(staged) && build.Keys <= staged.Keys
    && forall d :: d in build ==> staged[d].next == Some(build[d])
  }

  lemma BuildIsStaged<C>(was: Slots<C>, staged: Slots<C>, ids: seq<nat>, sources: map<nat, C>, metadata: C, schemaHash: Option<C>)
    requires was.Keys == staged.Keys && Installed(was) == Installed(staged) && AllPresent(ids, sources)
    requires ArtifactsStaged(staged, ids, sources) && Metadata in staged && staged[Metadata].next == Some(metadata)
    requires schemaHash.Some? ==> SchemaHash in staged && staged[SchemaHash].next == schemaHash
    ensures StagedOver(was, staged, BuildOf(ids, sources, metadata, schemaHash))
  {
    var build := BuildOf(ids, sources, metadata, schemaHash);
    forall d | d in build
      ensures d in staged && staged[d].next == Some(build[d])
    {
      if d.Artifact? {
        var i :| 0 <= i < |ids| && ids[i] == d.id;
      }
    }
  }

  lemma SameInstalled<C>(a: Slots<C>, b: Slots<C>)
    requires Installed(a) == Installed(b) && a.Keys == b.Keys
    ensures forall d :: d in a ==> a[d].(next := None) == b[d].(next := None)
    ensures NoSwapFiles(a) ==> NoSwapFiles(b)
  {
    forall d | d in a
      ensures a[d].(next := None) == b[d].(next := None)
    {
      assert Installed(a)[d] == Installed(b)[d];
    }
  }

  lemma PromotedIsWithBuild<C>(was: Slots<C>, staged: Slots<C>, build: map<Name, C>)
    requires StagedOver(was, staged, build)
    ensures Installed(PromotedOn(staged, build.Keys)) == WithBuild(was, build)
  {
    SameInstalled(was, staged);
  }

  lemma HalfPromotedIsWithoutBuild<C>(was: Slots<C>, staged: Slots<C>, build: map<Name, C>, undone: set<Name>, hit: Option<Name>)
    requires StagedOver(was, staged, build) && undone <= build.Keys
    ensures Installed(HalfPromoted(staged, undone, hit)) == WithoutBuild(was, build, undone, hit)
  {
    SameInstalled(was, staged);
  }

  // ---- Steps of the loops ----

  /** The names that have a previous file. */
  ghost predicate HavePrevious<C>(slots: Slots<C>, names: set<Name>, swapped: set<Name>) {
    && swapped <= names <= slots.Keys
    && forall d :: d in names ==> (d in swapped <==> slots[d].previous.Some?)
  }

  lemma RangeSnoc(names: seq<Name>, d: Name)
    ensures Range(names + [d]) == Range(names) + {d}
  {
  }

  lemma OneMoreSwapped<C>(slots: Slots<C>, names: seq<Name>, i: nat, swapped: seq<Name>)
    requires Distinct(names) && i < |names| && Range(names) <= slots.Keys
    requires HavePrevious(slots, Range(names[..i]), Range(swapped))
    ensures var d := names[i];
            && d in slots && d !in swapped && d !in Range(names[..i])
            && (slots[d].previous.Some? ==> HavePrevious(slots, Range(names[..i + 1]), Range(swapped + [d])))
            && (slots[d].previous.None? ==>
                  && HavePrevious(slots, Range(names[..i + 1]), Range(swapped))
                  && RolledBack(slots, Range(names[..i + 1])) == RolledBack(slots, Range(names[..i])))
  {
    NextName(names, i);
    RangeSnoc(swapped, names[i]);
    assert names[i] in Range(names);
  }

  /** The next swap of a run. */
  lemma SwapRunNext<C>(slots: Slots<C>, names: seq<Name>, i: nat, fault: Option<nat>)
    requires i < |names| && Range(names[i..]) <= slots.Keys
    ensures Range(names[i + 1..]) <= slots.Keys && names[i] in slots
    ensures var s, r := slots[names[i]], SwapRun(slots, names[i..], fault);
            if s.previous.Some? && Hits(fault, SwapRenames(s)) then r == Swaps(false, 0, None)
            else
              var rest := SwapRun(slots, names[i + 1..], if s.previous.Some? then Spend(fault, SwapRenames(s) + 1) else fault);
              r == rest.(done := rest.done + 1)
  {
    NextName(names, i);
  }

  lemma NextName(names: seq<Name>, i: nat)
    requires i < |names|
    ensures Range(names[..i + 1]) == Range(names[..i]) + {names[i]}
    ensures names[i..][0] == names[i] && names[i..][1..] == names[i + 1..] && Range(names[i + 1..]) <= Range(names[i..])
  {
    assert names[..i + 1] == names[..i] + [names[i]];
    assert names[i..][1..] == names[i + 1..];
  }

  /** Only what has a previous file is swapped, so only that needs swapping back. */
  lemma SwapBackIs<C>(slots: Slots<C>, names: set<Name>, swapped: set<Name>)
    requires HavePrevious(slots, names, swapped)
    ensures RolledBack(RolledBack(slots, names), swapped) == SwappedBack(slots, names)
  {
  }

  /** A fault at the promotion of the name at `i`. */
  lemma HitAt(names: seq<Name>, i: nat, fault: nat)
    requires i < |names| && 3 * i <= fault < 3 * i + 3
    ensures fault / 3 == i && HitBy(names, fault) == if fault == 3 * i then None else Some(names[i])
  {
  }

  lemma HalfPromotedIs<C>(was: Slots<C>, undone: set<Name>, d: Name, hit: Option<Name>, now: Slots<C>)
    requires d in was && d !in undone && (hit == None || hit == Some(d))
    requires var promoted := PromotedOn(was, undone);
             now == RolledBack(if hit == None then promoted else promoted[d := promoted[d].(previous := None)], undone)
    ensures now == HalfPromoted(was, undone, hit)
  {
  }

  lemma StagedArePresent<C>(slots: Slots<C>, ids: seq<nat>, sources: map<nat, C>)
    requires ArtifactsStaged(slots, ids, sources)
    ensures AllPresent(ids, sources)
  {
  }

  lemma TargetsAreDistinct(ids: seq<nat>, schemaHashStaged: bool)
    requires forall i, j :: 0 <= i < j < |ids| ==> ids[i] != ids[j]
    ensures Distinct(Targets(ids, schemaHashStaged))
  {
  }

  lemma TargetsInSlots<C>(ids: seq<nat>, slots: Slots<C>)
    requires ArtifactsOf(ids) + {Metadata, SchemaHash} <= slots.Keys
    ensures Range(Targets(ids, true)) <= slots.Keys
  {
    forall d | d in Range(Targets(ids, true))
      ensures d in slots
    {
      if d.Artifact? {
        var i :| 0 <= i < |ids| && Targets(ids, true)[i] == d;
        assert ids[i] in ids;
      }
    }
  }
}
