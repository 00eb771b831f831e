/** The class of src/daemon/history-store.ts: appends and compactions are chained and carry the
    snapshot of the moment they were asked for. */
module HistoryWriter {
  import opened JavaScript
  import opened Wrappers
  import opened RuntimeStore
  import HS = HistoryStore
  import opened RuntimeSessionStores

  class HistoryStore {
    const limits: HS.Limits
    var file: seq<HS.Record>
    var chain: seq<HS.Write>

    /** Events that ask for authentication are never queued. */
    ghost predicate Valid()
      reads this
    {
      forall w :: w in chain ==> w.AppendWrite? ==> !w.event.AuthRequired?
    }

    /** The file once every chained write is done. */
    ghost function Settled(): seq<HS.Record>
      reads this
    {
      HS.PerformAll(file, chain, limits)
    }

    constructor (limits: HS.Limits, file: seq<HS.Record>)
      ensures Valid() && this.limits == limits && this.file == file && chain == []
    {
      this.limits, this.file, chain := limits, file, [];
    }

    method Append(event: Event, snapshot: Snapshot)
      requires Valid()
      modifies `chain
      ensures Valid()
      ensures Settled() == match HS.Append(old(Settled()), event, snapshot, limits)
                           case Some(f) => f
                           case None => old(Settled())
    {
      if event.AuthRequired? {
        return;
      }
      HS.PerformAllSnoc(file, chain, HS.AppendWrite(event, snapshot), limits);
      chain := chain + [HS.AppendWrite(event, snapshot)];
    }

    method Compact(snapshot: Snapshot)
      requires Valid()
      modifies `chain
      ensures Valid()
      ensures Settled() == match HS.CheckpointOf(snapshot, limits)
                           case Some(record) => [record]
                           case None => old(Settled())
    {
      HS.PerformAllSnoc(file, chain, HS.CompactWrite(snapshot), limits);
      chain := chain + [HS.CompactWrite(snapshot)];
    }

    /** The next write of the chain runs to its end. */
    method RunNext() returns (ok: bool)
      requires Valid() && chain != []
      modifies `file, `chain
      ensures chain == old(chain)[1..] && Settled() == old(Settled())
      ensures Valid()
      ensures ok ==> file == HS.Perform(old(file), old(chain)[0], limits) && HS.FileSize(file, limits.size) <= limits.maxBytes
      ensures !ok ==> file == old(file)
    {
      var w := chain[0];
      match w {
        case AppendWrite(event, snapshot) =>
          ok := RunAppend(event, snapshot);
        case CompactWrite(snapshot) =>
          ok := WriteCheckpoint(snapshot);
          CheckpointSize(snapshot, limits);
      }
      chain := chain[1..];
    }

    method RunAppend(event: Event, snapshot: Snapshot) returns (ok: bool)
      modifies `file
      ensures file == HS.Perform(old(file), HS.AppendWrite(event, snapshot), limits)
      ensures ok == HS.Append(old(file), event, snapshot, limits).Some?
      ensures ok && !event.AuthRequired? ==> HS.FileSize(file, limits.size) <= limits.maxBytes
      ensures !ok ==> file == old(file)
    {
      if event.AuthRequired? {
        return true;
      }
      HS.AppendKeepsLimit(file, event, snapshot, limits);
      var line := HS.EventRecord(BoundEvent(event));
      var currentSize := HS.FileSize(file, limits.size);
      if currentSize >= limits.compactAtBytes || currentSize + limits.size(line) > limits.maxBytes {
        ok := WriteCheckpoint(snapshot);
        return;
      }
      file := file + [line];
      ok := true;
    }

    method WriteCheckpoint(snapshot: Snapshot) returns (ok: bool)
      modifies `file
      ensures ok == HS.CheckpointOf(snapshot, limits).Some?
      ensures file == if ok then [HS.CheckpointOf(snapshot, limits).value] else old(file)
    {
      var control := HS.WithoutAuth(snapshot).control;
      var rows := SliceLast(snapshot.rows, 50);
      ghost var goal := HS.FitRows(control, rows, limits);
      while limits.size(HS.Checkpoint(Snapshot(control, rows))) > limits.maxBytes && |rows| > 0
        invariant HS.FitRows(control, rows, limits) == goal
        decreases |rows|
      {
        rows := rows[1..];
      }
      var content := HS.Checkpoint(Snapshot(control, rows));
      if limits.size(content) > limits.maxBytes {
        return false;
      }
      file := [content];
      ok := true;
    }
  }

  lemma CheckpointSize(snapshot: Snapshot, limits: HS.Limits)
    ensures var r := HS.CheckpointOf(snapshot, limits);
            r.Some? ==> HS.FileSize([r.value], limits.size) <= limits.maxBytes
  {
    var r := HS.CheckpointOf(snapshot, limits);
    if r.Some? {
      assert [r.value][..0] == [];
      assert HS.FileSize([r.value], limits.size) == HS.FileSize([], limits.size) + limits.size(r.value);
    }
  }

  /** `loadInto`: the records applied to the given store, one after the other. */
  method LoadInto(file: seq<HS.Record>, store: RuntimeSessionStore)
    requires store.Valid()
    modifies store
    ensures store.Valid() && store.State() == HS.LoadFrom(old(store.State()), file, store.maxHistory)
  {
    ghost var start := store.State();
    for i := 0 to |file|
      invariant store.Valid() && store.State() == HS.LoadFrom(start, file[..i], store.maxHistory)
    {
      assert file[..i + 1][..i] == file[..i];
      match file[i] {
        case Checkpoint(snapshot) => store.Restore(HS.WithoutAuth(snapshot));
        case EventRecord(event) =>
          if !event.AuthRequired? {
            store.Consume(BoundEvent(event));
          }
      }
    }
    assert file[..|file|] == file;
  }
}
