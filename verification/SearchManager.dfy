/** Model of the line handler of src/search/manager.ts: it reads a file line by line, keeps the
    matches that still wait for context in a queue, and stops at the result limit. */
module SearchManagers {
  import opened JavaScript
  import opened Wrappers
  import opened Grep

  /** A search job together with the variables of the file being read. */
  class SearchJob<T> {
    const q: Query<T>
    const limit: Option<nat>
    var results: seq<Found<T>>
    var truncated: bool
    var lineNumber: nat
    var before: seq<T>
    var pending: seq<Found<T>>
    var closed: bool
    var settled: bool

    constructor (q: Query<T>, limit: Option<nat>)
      ensures this.q == q && this.limit == limit && results == [] && !truncated
    {
      this.q, this.limit := q, limit;
      results, truncated := [], false;
      lineNumber, before, pending, closed, settled := 0, [], [], false, false;
    }

    ghost predicate Room()
      reads this
    {
      limit.Some? ==> |results| <= limit.value
    }

    /** The fields hold the state `r` of the specification. */
    ghost predicate Agrees(r: Reader<T>)
      reads this
    {
      && results == r.results && truncated == r.truncated && settled == r.settled
      && (!settled ==> !closed && lineNumber == r.lineNumber && before == r.before && pending == r.pending)
    }

    ghost function State(): Reader<T>
      reads this
    {
      Reader(results, truncated, settled, lineNumber, before, pending)
    }

    method AddResult(result: Found<T>) returns (added: bool)
      requires Room()
      modifies `results, `truncated
      ensures Room()
      ensures added == (limit.None? || |old(results)| < limit.value)
      ensures results == if added then old(results) + [result] else old(results)
      ensures truncated == (old(truncated) || (limit.Some? && |results| == limit.value))
    {
      if limit.Some? && |results| >= limit.value {
        truncated := true;
        return false;
      }
      results := results + [result];
      if limit.Some? && |results| >= limit.value {
        truncated := true;
      }
      added := true;
    }

    /** Reports what is ready at the head of the queue, and closes the file when a match no longer
        fits. */
    method EmitReady(force: bool, currentLine: nat)
      requires Room()
      modifies `results, `truncated, `pending, `closed, `settled
      ensures Room()
      ensures var out := old(pending)[..Ready(old(pending), force, currentLine, q.contextLines)];
              && results == Cap(limit, old(results), out)
              && truncated == (old(truncated) || Full(limit, old(results), out))
              && (if Over(limit, old(results), out) then closed && (old(closed) || settled)
                  else pending == old(pending)[|out|..] && closed == old(closed) && settled == old(settled))
      decreases if closed then 0 else 1, 2
    {
      ghost var all, start, taken := pending, results, [];
      while pending != []
        invariant Drained(all, taken, pending, force, currentLine, q.contextLines)
        invariant Room() && results == start + taken
        invariant truncated == (old(truncated) || Full(limit, start, taken))
        invariant closed == old(closed) && settled == old(settled)
        decreases |pending|
      {
        var head := pending[0];
        if !force && currentLine < head.line + q.contextLines {
          break;
        }
        DrainOne(all, taken, pending, force, currentLine, q.contextLines);
        var emitted := EmitHead();
        if !emitted {
          CapFullNow(limit, start, taken, all, Ready(all, force, currentLine, q.contextLines));
          return;
        }
        taken := taken + [head];
      }
      DrainEnd(all, taken, pending, force, currentLine, q.contextLines);
    }

    /** One round of `emitReady`: the head is reported, or the file is closed because it no longer
        fits; then nothing that is left fits either. */
    method EmitHead() returns (emitted: bool)
      requires Room() && pending != []
      modifies `results, `truncated, `pending, `closed, `settled
      ensures Room() && emitted == (limit.None? || |old(results)| < limit.value)
      ensures truncated == (old(truncated) || (limit.Some? && |results| == limit.value))
      ensures results == if emitted then old(results) + [old(pending)[0]] else old(results)
      ensures if emitted then pending == old(pending)[1..] && closed == old(closed) && settled == old(settled)
              else closed && (old(closed) || settled)
      decreases if closed then 0 else 1, 1
    {
      var head := pending[0];
      pending := pending[1..];
      emitted := AddResult(head);
      if !emitted {
        CloseReader();
      }
    }

    /** The `close` event, raised once: everything left is reported. */
    method CloseReader()
      requires Room()
      modifies `results, `truncated, `pending, `closed, `settled
      ensures Room() && closed
      ensures if old(closed) then results == old(results) && truncated == old(truncated) && settled == old(settled)
              else
                && settled
                && results == Cap(limit, old(results), old(pending))
                && truncated == (old(truncated) || Full(limit, old(results), old(pending)))
      decreases if closed then 0 else 1, 0
    {
      if closed {
        return;
      }
      closed := true;
      ForcedReady(pending, lineNumber, q.contextLines);
      assert pending[..|pending|] == pending;
      EmitReady(true, lineNumber);
      settled := true;
    }

    /** The new line goes into the context of the matches that wait for it. */
    method GrowContexts(line: T)
      requires lineNumber > 0 && forall i :: 0 <= i < |pending| ==> pending[i].line < lineNumber
      modifies `pending
      ensures pending == Extended(old(pending), lineNumber - 1, q.contextLines, line)
    {
      ghost var was := pending;
      for i := 0 to |pending|
        invariant |pending| == |was|
        invariant forall j :: 0 <= j < i ==> pending[j] == Extend(was[j], lineNumber - 1, q.contextLines, line)
        invariant forall j :: i <= j < |was| ==> pending[j] == was[j]
      {
        var m := pending[i];
        if lineNumber > m.line && lineNumber <= m.line + q.contextLines {
          pending := pending[i := m.(after := m.after + [line])];
        }
      }
    }

    method AddMatches(path: T, line: T)
      modifies `pending
      ensures pending == old(pending) + LineFound(path, q.matcher(line), lineNumber, before, [])
    {
      var matches := q.matcher(line);
      ghost var found := LineFound(path, matches, lineNumber, before, []);
      for i := 0 to |matches|
        invariant pending == old(pending) + found[..i]
      {
        pending := pending + [Found(path, lineNumber, matches[i].column, matches[i].text, before, [])];
      }
    }

    /** The `line` event. */
    method OnLine(path: T, line: T, ghost r: Reader<T>)
      requires Room() && Agrees(r)
      requires !r.settled ==> forall i :: 0 <= i < |r.pending| ==> r.pending[i].line <= r.lineNumber
      modifies this
      ensures Room() && Agrees(Grep.OnLine(q, limit, path, r, line))
    {
      if settled {
        return;
      }
      TakeContext(line);
      if settled {
        return;
      }
      TakeMatches(path, line);
    }

    /** The first half of a line: it completes contexts, and matches are reported. */
    method TakeContext(line: T)
      requires Room() && !settled && !closed
      requires forall i :: 0 <= i < |pending| ==> pending[i].line <= lineNumber
      modifies this
      ensures Room() && Agrees(Grep.TakeContext(q, limit, old(State()), line))
    {
      lineNumber := lineNumber + 1;
      GrowContexts(line);
      EmitReady(false, lineNumber);
    }

    /** The second half: its own matches join the queue. */
    method TakeMatches(path: T, line: T)
      requires Room() && !settled && !closed
      modifies this
      ensures Room() && Agrees(Grep.TakeMatches(q, limit, path, old(State()), line))
    {
      AddMatches(path, line);
      EmitReady(false, lineNumber);
      before := SliceLast(before + [line], q.contextLines);
    }

    /** `matchFileContent`: the matches of the file, in order, as far as they fit. */
    method MatchFileContent(file: File<T>)
      requires Room() && !truncated
      modifies this
      ensures Room()
      ensures results == Cap(limit, old(results), All(q, file))
      ensures truncated == Full(limit, old(results), All(q, file))
    {
      StreamRefines(q, limit, results, file);
      ReadLines(file);
      if !settled {
        CloseReader();
      }
    }

    method ReadLines(file: File<T>)
      requires Room() && !truncated
      modifies this
      ensures Room() && Agrees(ReadUpTo(q, limit, old(results), file, |file.lines|))
    {
      lineNumber, before, pending, closed, settled := 0, [], [], false, false;
      ghost var base, r := results, Start(results);
      for i := 0 to |file.lines|
        invariant Room() && r == ReadUpTo(q, limit, base, file, i) && Agrees(r)
      {
        QueueIsPast(q, limit, base, file, i);
        OnLine(file.path, file.lines[i], r);
        r := Grep.OnLine(q, limit, file.path, r, file.lines[i]);
      }
    }

    /** `run`, for contents: the first results up to the limit over all files. `truncated` is set
        exactly when the limit was reached, whether or not anything was left out. */
    method SearchFiles(files: seq<File<T>>)
      requires results == [] && !truncated
      modifies this
      ensures results == Cap(limit, [], AllOf(q, files))
      ensures truncated == (limit == Some(0) || Full(limit, [], AllOf(q, files)))
    {
      if limit == Some(0) {
        truncated := true;
        return;
      }
      assert files[0..] == files;
      var i := 0;
      while i < |files|
        invariant 0 <= i <= |files| && Room() && !truncated && !Full(limit, [], results)
        invariant AllOf(q, files) == results + AllOf(q, files[i..])
      {
        NextFile(limit, results, All(q, files[i]), AllOf(q, files[i + 1..]));
        AllOfNext(q, files, i);
        MatchFileContent(files[i]);
        i := i + 1;
        if truncated {
          return;
        }
      }
    }
  }
}
