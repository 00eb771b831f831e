/** Specification for the content search of src/search/manager.ts: the matches of a file with the
    lines around them. Pattern matching is a function from a line to its matches; early termination,
    time-outs and stopping a job are not part of this model. */
module Grep {
  import opened JavaScript
  import opened Wrappers

  datatype Hit<T> = Hit(column: nat, text: T)

  /** One match; lines count from one. The source adds the path when the match is reported. */
  datatype Found<T> = Found(path: T, line: nat, column: nat, text: T, before: seq<T>, after: seq<T>)

  datatype File<T> = File(path: T, lines: seq<T>)

  /** The pattern and the number of context lines. */
  datatype Query<!T> = Query(matcher: T -> seq<Hit<T>>, contextLines: nat)

  // ---- What a search of one file means ----

  function BeforeOf<T>(lines: seq<T>, n: nat, contextLines: nat): seq<T>
    requires 0 < n <= |lines| + 1
  {
    SliceLast(lines[..n - 1], contextLines)
  }

  function AfterOf<T>(lines: seq<T>, n: nat, contextLines: nat): seq<T>
    requires n <= |lines|
  {
    lines[n..Min(|lines|, n + contextLines)]
  }

  function LineFound<T>(path: T, hits: seq<Hit<T>>, n: nat, before: seq<T>, after: seq<T>): (r: seq<Found<T>>)
    ensures |r| == |hits|
  {
    seq(|hits|, i requires 0 <= i < |hits| => Found(path, n, hits[i].column, hits[i].text, before, after))
  }

  /** The matches of the first `n` lines, in order of line and then of position in the line. */
  function FoundUpTo<T>(q: Query<T>, path: T, lines: seq<T>, n: nat): seq<Found<T>>
    requires n <= |lines|
  {
    if n == 0 then []
    else
      FoundUpTo(q, path, lines, n - 1) +
      LineFound(path, q.matcher(lines[n - 1]), n, BeforeOf(lines, n, q.contextLines), AfterOf(lines, n, q.contextLines))
  }

  function All<T>(q: Query<T>, f: File<T>): seq<Found<T>> {
    FoundUpTo(q, f.path, f.lines, |f.lines|)
  }

  /** The matches of all files, one file after the other. */
  function AllOf<T>(q: Query<T>, files: seq<File<T>>): seq<Found<T>> {
    if files == [] then [] else All(q, files[0]) + AllOf(q, files[1..])
  }

  /** What fits below the limit. */
  function Cap<X>(limit: Option<nat>, base: seq<X>, more: seq<X>): seq<X>
    requires limit.Some? ==> |base| <= limit.value
  {
    if limit.Some? && |base| + |more| > limit.value then base + more[..limit.value - |base|] else base + more
  }

  // ---- Context ----

  /** The lines before a match are the last `contextLines` ones exactly when some context is asked
      for or there is nothing before it. */
  lemma BeforeExactly<T>(lines: seq<T>, n: nat, contextLines: nat)
    requires 0 < n <= |lines|
    ensures |BeforeOf(lines, n, contextLines)| == Min(contextLines, n - 1) <==> contextLines > 0 || n == 1
    ensures contextLines > 0 ==> BeforeOf(lines, n, contextLines) == lines[Max(0, n - 1 - contextLines)..n - 1]
    ensures contextLines == 0 ==> BeforeOf(lines, n, contextLines) == lines[..n - 1]
  {
    if contextLines > 0 && n - 1 > contextLines {
      assert lines[..n - 1][n - 1 - contextLines..] == lines[n - 1 - contextLines..n - 1];
    }
  }

  lemma Window<T>(lines: seq<T>, n: nat, contextLines: nat)
    requires 0 < n <= |lines| && contextLines > 0
    ensures BeforeOf(lines, n, contextLines) + [lines[n - 1]] + AfterOf(lines, n, contextLines)
            == lines[Max(0, n - 1 - contextLines)..Min(|lines|, n + contextLines)]
  {
    BeforeExactly(lines, n, contextLines);
    Around(lines, Max(0, n - 1 - contextLines), n - 1, Min(|lines|, n + contextLines));
  }

  lemma Around<X>(s: seq<X>, lo: nat, i: nat, hi: nat)
    requires lo <= i < hi <= |s|
    ensures s[lo..hi] == s[lo..i] + [s[i]] + s[i + 1..hi]
  {
  }

  /** A match of the file with its context. */
  ghost predicate InContext<T>(q: Query<T>, path: T, lines: seq<T>, m: Found<T>) {
    && 0 < m.line <= |lines| && m.path == path
    && Hit(m.column, m.text) in q.matcher(lines[m.line - 1])
    && m.before + [lines[m.line - 1]] + m.after
       == lines[Max(0, m.line - 1 - q.contextLines)..Min(|lines|, m.line + q.contextLines)]
  }

  lemma LineInContext<T>(q: Query<T>, path: T, lines: seq<T>, n: nat, i: nat)
    requires 0 < n <= |lines| && i < |q.matcher(lines[n - 1])| && q.contextLines > 0
    ensures InContext(q, path, lines,
                      LineFound(path, q.matcher(lines[n - 1]), n, BeforeOf(lines, n, q.contextLines),
                                AfterOf(lines, n, q.contextLines))[i])
  {
    Window(lines, n, q.contextLines);
    var hits := q.matcher(lines[n - 1]);
    assert Hit(hits[i].column, hits[i].text) == hits[i];
  }

  /** With some context, every reported match carries the window of the file around its own line. */
  lemma {:induction false} ContextIsWindow<T>(q: Query<T>, path: T, lines: seq<T>, n: nat, k: nat)
    requires n <= |lines| && k < |FoundUpTo(q, path, lines, n)| && q.contextLines > 0
    ensures InContext(q, path, lines, FoundUpTo(q, path, lines, n)[k])
  {
    var i := |FoundUpTo(q, path, lines, n - 1)|;
    if k < i {
      ContextIsWindow(q, path, lines, n - 1, k);
    } else {
      LineInContext(q, path, lines, n, k - i);
    }
  }

  /** Nothing is left out or out of place: the `i`-th match in a line comes `i` places after the
      matches of the lines before it. */
  lemma {:induction false} FoundExactly<T>(q: Query<T>, path: T, lines: seq<T>, n: nat, line: nat, i: nat)
    requires 0 < line <= n <= |lines| && i < |q.matcher(lines[line - 1])|
    ensures var all, k := FoundUpTo(q, path, lines, n), |FoundUpTo(q, path, lines, line - 1)| + i;
            && k < |all| && all[k].line == line
            && Hit(all[k].column, all[k].text) == q.matcher(lines[line - 1])[i]
  {
    if line < n {
      FoundExactly(q, path, lines, n - 1, line, i);
    } else {
      var hit := q.matcher(lines[line - 1])[i];
      assert Hit(hit.column, hit.text) == hit;
    }
  }

  /** Matches come in line order. */
  lemma {:induction false} FoundInOrder<T>(q: Query<T>, path: T, lines: seq<T>, n: nat, j: nat, k: nat)
    requires n <= |lines| && j <= k < |FoundUpTo(q, path, lines, n)|
    ensures FoundUpTo(q, path, lines, n)[j].line <= FoundUpTo(q, path, lines, n)[k].line <= n
  {
    var init := FoundUpTo(q, path, lines, n - 1);
    if k < |init| {
      FoundInOrder(q, path, lines, n - 1, j, k);
    } else if j < |init| {
      FoundInOrder(q, path, lines, n - 1, j, j);
    }
  }

  // ---- One more line ----

  function Extend<T>(m: Found<T>, count: nat, contextLines: nat, x: T): Found<T> {
    if count < m.line + contextLines then m.(after := m.after + [x]) else m
  }

  function Extended<T>(s: seq<Found<T>>, count: nat, contextLines: nat, x: T): (r: seq<Found<T>>)
    ensures |r| == |s|
  {
    seq(|s|, i requires 0 <= i < |s| => Extend(s[i], count, contextLines, x))
  }

  lemma AfterOfMore<T>(lines: seq<T>, x: T, n: nat, contextLines: nat)
    requires 0 < n <= |lines|
    ensures AfterOf(lines + [x], n, contextLines) ==
            AfterOf(lines, n, contextLines) + if |lines| < n + contextLines then [x] else []
    ensures BeforeOf(lines + [x], n, contextLines) == BeforeOf(lines, n, contextLines)
  {
    assert (lines + [x])[..n - 1] == lines[..n - 1];
  }

  lemma ExtendedConcat<T>(a: seq<Found<T>>, b: seq<Found<T>>, count: nat, contextLines: nat, x: T)
    ensures Extended(a + b, count, contextLines, x) == Extended(a, count, contextLines, x) + Extended(b, count, contextLines, x)
  {
  }

  lemma LineFoundExtended<T>(path: T, hits: seq<Hit<T>>, n: nat, before: seq<T>, after: seq<T>, count: nat, contextLines: nat, x: T)
    ensures Extended(LineFound(path, hits, n, before, after), count, contextLines, x) ==
            LineFound(path, hits, n, before, after + if count < n + contextLines then [x] else [])
  {
    assert after + [] == after;
  }

  lemma {:induction false} FoundWithMore<T>(q: Query<T>, path: T, lines: seq<T>, x: T, n: nat)
    requires n <= |lines|
    ensures FoundUpTo(q, path, lines + [x], n) == Extended(FoundUpTo(q, path, lines, n), |lines|, q.contextLines, x)
  {
    if n == 0 {
    } else {
      FoundWithMore(q, path, lines, x, n - 1);
      AfterOfMore(lines, x, n, q.contextLines);
      var hits, before, after := q.matcher(lines[n - 1]), BeforeOf(lines, n, q.contextLines), AfterOf(lines, n, q.contextLines);
      LineFoundExtended(path, hits, n, before, after, |lines|, q.contextLines, x);
      ExtendedConcat(FoundUpTo(q, path, lines, n - 1), LineFound(path, hits, n, before, after), |lines|, q.contextLines, x);
    }
  }

  /** A further line goes into the context of the matches that still want it, and brings its own. */
  lemma AllWithMore<T>(q: Query<T>, path: T, lines: seq<T>, x: T)
    ensures All(q, File(path, lines + [x])) ==
            Extended(All(q, File(path, lines)), |lines|, q.contextLines, x) +
            LineFound(path, q.matcher(x), |lines| + 1, SliceLast(lines, q.contextLines), [])
  {
    FoundWithMore(q, path, lines, x, |lines|);
    assert (lines + [x])[..|lines|] == lines;
    assert AfterOf(lines + [x], |lines| + 1, q.contextLines) == [];
  }

  // ---- Matches that have all their context, and matches that wait for more ----

  ghost predicate Done<T>(s: seq<Found<T>>, count: nat, contextLines: nat) {
    forall i :: 0 <= i < |s| ==> s[i].line + contextLines <= count
  }

  ghost predicate Waiting<T>(s: seq<Found<T>>, count: nat, contextLines: nat) {
    forall i :: 0 <= i < |s| ==> s[i].line <= count < s[i].line + contextLines
  }

  ghost predicate LineOrder<T>(s: seq<Found<T>>) {
    forall i, j :: 0 <= i < j < |s| ==> s[i].line <= s[j].line
  }

  lemma DoneIsFinal<T>(s: seq<Found<T>>, count: nat, contextLines: nat, x: T)
    requires Done(s, count, contextLines)
    ensures Extended(s, count, contextLines, x) == s
  {
  }

  /** How many matches at the head of the queue can be reported. */
  function Ready<T>(s: seq<Found<T>>, force: bool, count: nat, contextLines: nat): (n: nat)
    ensures n <= |s|
  {
    if s == [] || (!force && count < s[0].line + contextLines) then 0
    else 1 + Ready(s[1..], force, count, contextLines)
  }

  lemma {:induction false} ReadySplits<T>(s: seq<Found<T>>, count: nat, contextLines: nat)
    requires LineOrder(s) && forall i :: 0 <= i < |s| ==> s[i].line <= count
    ensures Done(s[..Ready(s, false, count, contextLines)], count, contextLines)
    ensures Waiting(s[Ready(s, false, count, contextLines)..], count, contextLines)
  {
    if s != [] && s[0].line + contextLines <= count {
      var rest := s[1..];
      ReadySplits(rest, count, contextLines);
      var n := Ready(rest, false, count, contextLines);
      assert s[..n + 1] == [s[0]] + rest[..n];
      assert s[n + 1..] == rest[n..];
    }
  }

  lemma {:induction false} ForcedReady<T>(s: seq<Found<T>>, count: nat, contextLines: nat)
    ensures Ready(s, true, count, contextLines) == |s|
  {
    if s == [] {
    } else {
      ForcedReady(s[1..], count, contextLines);
    }
  }

  // ---- Reading a file ----

  /** After some lines: what was reported and what still waits, together all matches of them. */
  ghost predicate Progress<T>(q: Query<T>, path: T, lines: seq<T>, reported: seq<Found<T>>, pending: seq<Found<T>>) {
    && All(q, File(path, lines)) == reported + pending
    && Done(reported, |lines|, q.contextLines)
    && Waiting(pending, |lines|, q.contextLines)
    && LineOrder(pending)
  }

  /** One line: `p1` is the queue with the line in its contexts, of which `r1` are reported; `p2`
      has the line's own matches behind what is left, and again `r2` are reported. */
  lemma LineKeepsProgress<T>(q: Query<T>, path: T, lines: seq<T>, x: T, reported: seq<Found<T>>, pending: seq<Found<T>>,
                             p1: seq<Found<T>>, r1: nat, p2: seq<Found<T>>, r2: nat)
    requires Progress(q, path, lines, reported, pending)
    requires p1 == Extended(pending, |lines|, q.contextLines, x)
    requires r1 == Ready(p1, false, |lines| + 1, q.contextLines)
    requires p2 == p1[r1..] + LineFound(path, q.matcher(x), |lines| + 1, SliceLast(lines, q.contextLines), [])
    requires r2 == Ready(p2, false, |lines| + 1, q.contextLines)
    ensures reported + p1[..r1] <= All(q, File(path, lines + [x]))
    ensures Done(reported + p1[..r1], |lines| + 1, q.contextLines)
    ensures Progress(q, path, lines + [x], reported + p1[..r1] + p2[..r2], p2[r2..])
  {
    var own := LineFound(path, q.matcher(x), |lines| + 1, SliceLast(lines, q.contextLines), []);
    AllOfLine(q, path, lines, x, reported, pending, own);
    ExtendedShape(pending, |lines|, q.contextLines, x);
    TwoReports(reported, p1, own, |lines| + 1, q.contextLines, r1, p2, r2);
  }

  lemma AllOfLine<T>(q: Query<T>, path: T, lines: seq<T>, x: T, reported: seq<Found<T>>, pending: seq<Found<T>>, own: seq<Found<T>>)
    requires All(q, File(path, lines)) == reported + pending && Done(reported, |lines|, q.contextLines)
    requires own == LineFound(path, q.matcher(x), |lines| + 1, SliceLast(lines, q.contextLines), [])
    ensures All(q, File(path, lines + [x])) == reported + Extended(pending, |lines|, q.contextLines, x) + own
    ensures Done(reported, |lines| + 1, q.contextLines)
  {
    AllWithMore(q, path, lines, x);
    ExtendedConcat(reported, pending, |lines|, q.contextLines, x);
    DoneIsFinal(reported, |lines|, q.contextLines, x);
  }

  lemma ExtendedShape<T>(pending: seq<Found<T>>, count: nat, contextLines: nat, x: T)
    requires Waiting(pending, count, contextLines) && LineOrder(pending)
    ensures var p := Extended(pending, count, contextLines, x);
            LineOrder(p) && forall i :: 0 <= i < |p| ==> p[i].line <= count + 1
  {
  }

  /** Reporting what is ready before and after the new matches join the queue. */
  lemma TwoReports<T>(reported: seq<Found<T>>, p1: seq<Found<T>>, own: seq<Found<T>>, n: nat, contextLines: nat,
                      r1: nat, p2: seq<Found<T>>, r2: nat)
    requires Done(reported, n, contextLines) && LineOrder(p1)
    requires forall i :: 0 <= i < |p1| ==> p1[i].line <= n
    requires forall i :: 0 <= i < |own| ==> own[i].line == n
    requires r1 == Ready(p1, false, n, contextLines) && p2 == p1[r1..] + own && r2 == Ready(p2, false, n, contextLines)
    ensures reported + p1 + own == reported + p1[..r1] + p2 == reported + p1[..r1] + p2[..r2] + p2[r2..]
    ensures Done(reported + p1[..r1], n, contextLines)
    ensures Done(reported + p1[..r1] + p2[..r2], n, contextLines)
    ensures Waiting(p2[r2..], n, contextLines) && LineOrder(p2[r2..])
  {
    ReadySplits(p1, n, contextLines);
    QueueAgain(p1[r1..], own, n, contextLines);
    Regroup(reported, p1, own, r1);
    Regroup(reported + p1[..r1], p2, own, r2);
    DoneConcat(reported, p1[..r1], n, contextLines);
    DoneConcat(reported + p1[..r1], p2[..r2], n, contextLines);
  }

  lemma Regroup<X>(a: seq<X>, b: seq<X>, c: seq<X>, r: nat)
    requires r <= |b|
    ensures a + b + c == a + b[..r] + (b[r..] + c)
    ensures a + b == a + b[..r] + b[r..]
  {
  }

  lemma DoneConcat<T>(a: seq<Found<T>>, b: seq<Found<T>>, n: nat, contextLines: nat)
    requires Done(a, n, contextLines) && Done(b, n, contextLines)
    ensures Done(a + b, n, contextLines)
  {
  }

  lemma QueueAgain<T>(waiting: seq<Found<T>>, own: seq<Found<T>>, n: nat, contextLines: nat)
    requires Waiting(waiting, n, contextLines) && LineOrder(waiting)
    requires forall i :: 0 <= i < |own| ==> own[i].line == n
    ensures var p := waiting + own;
            var r := Ready(p, false, n, contextLines);
            && Done(p[..r], n, contextLines) && Waiting(p[r..], n, contextLines) && LineOrder(p[r..])
  {
    ReadySplits(waiting + own, n, contextLines);
  }

  /** Reported matches of the lines read so far stay the first ones. */
  lemma ReportedStays<T>(q: Query<T>, path: T, lines: seq<T>, x: T, reported: seq<Found<T>>)
    requires reported <= All(q, File(path, lines)) && Done(reported, |lines|, q.contextLines)
    ensures reported <= All(q, File(path, lines + [x])) && Done(reported, |lines| + 1, q.contextLines)
  {
    var all := All(q, File(path, lines));
    AllWithMore(q, path, lines, x);
    DoneIsFinal(reported, |lines|, q.contextLines, x);
    ExtendedConcat(reported, all[|reported|..], |lines|, q.contextLines, x);
    assert reported + all[|reported|..] == all;
  }

  lemma SliceLastStep<X>(s: seq<X>, x: X, count: nat)
    ensures SliceLast(SliceLast(s, count) + [x], count) == SliceLast(s + [x], count)
  {
  }

  // ---- Caps ----

  /** The limit is reached by adding something. */
  predicate Full<X>(limit: Option<nat>, base: seq<X>, more: seq<X>) {
    limit.Some? && |more| > 0 && |base| + |more| >= limit.value
  }

  /** Something does not fit. */
  predicate Over<X>(limit: Option<nat>, base: seq<X>, more: seq<X>) {
    limit.Some? && |base| + |more| > limit.value
  }

  /** Where the results of a file stand after the matches `reported` were taken from the queue. */
  ghost predicate Tally<X>(limit: Option<nat>, base: seq<X>, reported: seq<X>, results: seq<X>, truncated: bool, settled: bool) {
    && (limit.Some? ==> |base| <= limit.value)
    && results == Cap(limit, base, reported)
    && (truncated <==> Full(limit, base, reported))
    && (settled <==> Over(limit, base, reported))
  }

  lemma TallyMore<X>(limit: Option<nat>, base: seq<X>, reported: seq<X>, results: seq<X>, truncated: bool, out: seq<X>)
    requires Tally(limit, base, reported, results, truncated, false)
    ensures limit.Some? ==> |results| <= limit.value
    ensures Tally(limit, base, reported + out, Cap(limit, results, out), truncated || Full(limit, results, out),
                  Over(limit, results, out))
  {
    CapTwice(limit, base, reported, out);
  }

  /** The limit was reached before the first `n` were all added. */
  lemma CapFullNow<X>(limit: Option<nat>, base: seq<X>, taken: seq<X>, all: seq<X>, n: nat)
    requires limit.Some? && |base + taken| == limit.value && |taken| < n <= |all| && taken <= all
    ensures Over(limit, base, all[..n]) && Cap(limit, base, all[..n]) == base + taken
  {
    assert all[..n][..|taken|] == taken;
  }

  /** `taken` was ready and has been taken from the head of the queue, and `left` is what is left. */
  predicate Drained<T(==)>(all: seq<Found<T>>, taken: seq<Found<T>>, left: seq<Found<T>>, force: bool, count: nat,
                           contextLines: nat)
  {
    taken + left == all && Ready(all, force, count, contextLines) == |taken| + Ready(left, force, count, contextLines)
  }

  lemma DrainOne<T>(all: seq<Found<T>>, taken: seq<Found<T>>, left: seq<Found<T>>, force: bool, count: nat, contextLines: nat)
    requires Drained(all, taken, left, force, count, contextLines)
    requires left != [] && (force || left[0].line + contextLines <= count)
    ensures Drained(all, taken + [left[0]], left[1..], force, count, contextLines)
    ensures taken <= all && |taken| < Ready(all, force, count, contextLines)
  {
  }

  lemma DrainEnd<T>(all: seq<Found<T>>, taken: seq<Found<T>>, left: seq<Found<T>>, force: bool, count: nat, contextLines: nat)
    requires Drained(all, taken, left, force, count, contextLines) && Ready(left, force, count, contextLines) == 0
    ensures all[..Ready(all, force, count, contextLines)] == taken && all[|taken|..] == left
  {
  }

  lemma CapTwice<X>(limit: Option<nat>, base: seq<X>, a: seq<X>, b: seq<X>)
    requires limit.Some? ==> |base| <= limit.value
    ensures Cap(limit, Cap(limit, base, a), b) == Cap(limit, base, a + b)
  {
  }

  /** Once the limit is reached, what comes later does not matter. */
  lemma CapFull<X>(limit: Option<nat>, base: seq<X>, a: seq<X>, b: seq<X>)
    requires limit.Some? && |base| <= limit.value <= |base| + |a| && a <= b
    ensures Cap(limit, base, a) == Cap(limit, base, b)
  {
    assert b[..limit.value - |base|] == a[..limit.value - |base|];
  }

  // ---- The reader, step by step ----

  /** The job's results and the variables of the file being read. Once the file is closed early the
      queue no longer matters. */
  datatype Reader<T> = Reader(
    results: seq<Found<T>>, truncated: bool, settled: bool, lineNumber: nat, before: seq<T>, pending: seq<Found<T>>)

  /** Takes what is ready from the queue. */
  function Emit<T>(limit: Option<nat>, r: Reader<T>, ready: nat): Reader<T>
    requires (limit.Some? ==> |r.results| <= limit.value) && ready <= |r.pending|
  {
    var out := r.pending[..ready];
    r.(results := Cap(limit, r.results, out), truncated := r.truncated || Full(limit, r.results, out),
       settled := Over(limit, r.results, out), pending := r.pending[ready..])
  }

  function Waken<T>(q: Query<T>, r: Reader<T>, line: T): Reader<T> {
    r.(lineNumber := r.lineNumber + 1, pending := Extended(r.pending, r.lineNumber, q.contextLines, line))
  }

  function Enqueue<T>(q: Query<T>, path: T, r: Reader<T>, line: T): Reader<T> {
    r.(pending := r.pending + LineFound(path, q.matcher(line), r.lineNumber, r.before, []))
  }

  function ReadyOf<T>(q: Query<T>, r: Reader<T>): (n: nat)
    ensures n <= |r.pending|
  {
    Ready(r.pending, false, r.lineNumber, q.contextLines)
  }

  function TakeContext<T>(q: Query<T>, limit: Option<nat>, r: Reader<T>, line: T): (s: Reader<T>)
    requires limit.Some? ==> |r.results| <= limit.value
    ensures limit.Some? ==> |s.results| <= limit.value
  {
    var w := Waken(q, r, line);
    Emit(limit, w, ReadyOf(q, w))
  }

  function TakeMatches<T>(q: Query<T>, limit: Option<nat>, path: T, r: Reader<T>, line: T): (s: Reader<T>)
    requires limit.Some? ==> |r.results| <= limit.value
    ensures limit.Some? ==> |s.results| <= limit.value
  {
    var e := Enqueue(q, path, r, line);
    Emit(limit, e, ReadyOf(q, e)).(before := SliceLast(r.before + [line], q.contextLines))
  }

  /** The `line` event. */
  function OnLine<T>(q: Query<T>, limit: Option<nat>, path: T, r: Reader<T>, line: T): (s: Reader<T>)
    requires limit.Some? ==> |r.results| <= limit.value
    ensures limit.Some? ==> |s.results| <= limit.value
  {
    if r.settled then r
    else
      var half := TakeContext(q, limit, r, line);
      if half.settled then half else TakeMatches(q, limit, path, half, line)
  }

  function Start<T>(base: seq<Found<T>>): Reader<T> {
    Reader(base, false, false, 0, [], [])
  }

  /** The reader after the first `n` lines. */
  function ReadUpTo<T>(q: Query<T>, limit: Option<nat>, base: seq<Found<T>>, f: File<T>, n: nat): (s: Reader<T>)
    requires (limit.Some? ==> |base| <= limit.value) && n <= |f.lines|
    ensures limit.Some? ==> |s.results| <= limit.value
  {
    if n == 0 then Start(base) else OnLine(q, limit, f.path, ReadUpTo(q, limit, base, f, n - 1), f.lines[n - 1])
  }

  /** What holds of the reader after the lines `lines`, when `reported` were taken from the queue. */
  ghost predicate ReaderInv<T>(q: Query<T>, limit: Option<nat>, base: seq<Found<T>>, path: T, lines: seq<T>,
                               r: Reader<T>, reported: seq<Found<T>>)
  {
    && Tally(limit, base, reported, r.results, r.truncated, r.settled)
    && reported <= All(q, File(path, lines)) && Done(reported, |lines|, q.contextLines)
    && (!r.settled ==>
          && Progress(q, path, lines, reported, r.pending)
          && r.lineNumber == |lines| && r.before == SliceLast(lines, q.contextLines))
  }

  lemma OnLineKeepsInv<T>(q: Query<T>, limit: Option<nat>, base: seq<Found<T>>, path: T, lines: seq<T>, x: T,
                          r: Reader<T>, reported: seq<Found<T>>) returns (more: seq<Found<T>>)
    requires ReaderInv(q, limit, base, path, lines, r, reported) && (limit.Some? ==> |r.results| <= limit.value)
    ensures ReaderInv(q, limit, base, path, lines + [x], OnLine(q, limit, path, r, x), more)
  {
    if r.settled {
      ReportedStays(q, path, lines, x, reported);
      return reported;
    }
    var w := Waken(q, r, x);
    var half := TakeContext(q, limit, r, x);
    var e := Enqueue(q, path, half, x);
    var r1, r2 := ReadyOf(q, w), ReadyOf(q, e);
    LineKeepsProgress(q, path, lines, x, reported, r.pending, w.pending, r1, e.pending, r2);
    TallyMore(limit, base, reported, r.results, r.truncated, w.pending[..r1]);
    more := reported + w.pending[..r1];
    if !half.settled {
      TallyMore(limit, base, more, half.results, half.truncated, e.pending[..r2]);
      more := more + e.pending[..r2];
      SliceLastStep(lines, x, q.contextLines);
    }
  }

  lemma {:induction false} ReadUpToInv<T>(q: Query<T>, limit: Option<nat>, base: seq<Found<T>>, f: File<T>, n: nat)
    returns (reported: seq<Found<T>>)
    requires (limit.Some? ==> |base| <= limit.value) && n <= |f.lines|
    ensures ReaderInv(q, limit, base, f.path, f.lines[..n], ReadUpTo(q, limit, base, f, n), reported)
  {
    if n == 0 {
      assert f.lines[..0] == [];
      StartInv(q, limit, base, f.path);
      return [];
    }
    reported := ReadUpToInv(q, limit, base, f, n - 1);
    reported := NextLineInv(q, limit, base, f, n, ReadUpTo(q, limit, base, f, n - 1), reported);
  }

  lemma NextLineInv<T>(q: Query<T>, limit: Option<nat>, base: seq<Found<T>>, f: File<T>, n: nat,
                       r: Reader<T>, reported: seq<Found<T>>) returns (more: seq<Found<T>>)
    requires 0 < n <= |f.lines| && (limit.Some? ==> |r.results| <= limit.value)
    requires ReaderInv(q, limit, base, f.path, f.lines[..n - 1], r, reported)
    ensures ReaderInv(q, limit, base, f.path, f.lines[..n], OnLine(q, limit, f.path, r, f.lines[n - 1]), more)
  {
    more := OnLineKeepsInv(q, limit, base, f.path, f.lines[..n - 1], f.lines[n - 1], r, reported);
    assert f.lines[..n - 1] + [f.lines[n - 1]] == f.lines[..n];
  }

  lemma StartInv<T>(q: Query<T>, limit: Option<nat>, base: seq<Found<T>>, path: T)
    requires limit.Some? ==> |base| <= limit.value
    ensures ReaderInv(q, limit, base, path, [], Start(base), [])
  {
    assert base + [] == base;
  }

  lemma QueueIsPast<T>(q: Query<T>, limit: Option<nat>, base: seq<Found<T>>, f: File<T>, n: nat)
    requires (limit.Some? ==> |base| <= limit.value) && n <= |f.lines|
    ensures var r := ReadUpTo(q, limit, base, f, n);
            !r.settled ==> forall i :: 0 <= i < |r.pending| ==> r.pending[i].line <= r.lineNumber
  {
    var reported := ReadUpToInv(q, limit, base, f, n);
  }

  /** The streaming search of a file refines its meaning: when the file ends, with the queue
      reported, the results are the file's matches as far as they fit. */
  lemma StreamRefines<T>(q: Query<T>, limit: Option<nat>, base: seq<Found<T>>, f: File<T>)
    requires limit.Some? ==> |base| <= limit.value
    ensures var r := ReadUpTo(q, limit, base, f, |f.lines|);
            if r.settled then
              && r.results == Cap(limit, base, All(q, f))
              && r.truncated == Full(limit, base, All(q, f))
            else
              && Cap(limit, r.results, r.pending) == Cap(limit, base, All(q, f))
              && (r.truncated || Full(limit, r.results, r.pending)) == Full(limit, base, All(q, f))
  {
    var r := ReadUpTo(q, limit, base, f, |f.lines|);
    var reported := ReadUpToInv(q, limit, base, f, |f.lines|);
    assert f.lines[..|f.lines|] == f.lines && File(f.path, f.lines) == f;
    if r.settled {
      CapFull(limit, base, reported, All(q, f));
    } else {
      TallyMore(limit, base, reported, r.results, r.truncated, r.pending);
    }
  }

  /** Going on to the next file only while the limit is not reached loses nothing. */
  lemma NextFile<X>(limit: Option<nat>, done: seq<X>, found: seq<X>, rest: seq<X>)
    requires (limit.Some? ==> |done| <= limit.value) && !Full(limit, [], done)
    ensures if Full(limit, done, found) then
              && Cap(limit, [], done + found + rest) == Cap(limit, done, found)
              && Full(limit, [], done + found + rest)
            else
              && Cap(limit, done, found) == done + found
              && !Full(limit, [], done + found)
  {
    if Full(limit, done, found) {
      CapTwice(limit, [], done, found);
      CapFull(limit, [], done + found, done + found + rest);
      assert [] + done == done;
    }
  }

  lemma AllOfNext<T>(q: Query<T>, files: seq<File<T>>, i: nat)
    requires i < |files|
    ensures forall done: seq<Found<T>> ::
              done + AllOf(q, files[i..]) == done + All(q, files[i]) + AllOf(q, files[i + 1..])
  {
    assert files[i..][1..] == files[i + 1..];
  }
}
