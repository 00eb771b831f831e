/** Model of `BoundedUtf8Buffer` in src/process/manager.ts: the tail of a process's output.

    Text is kept as the UTF-8 bytes that `Buffer.from(value, "utf8")` produces, which are always
    well formed (section 4 of RFC 3629). */
module ProcessBuffer {
  import opened JavaScript
  import opened Wrappers

  /** `(byte & 0xc0) === 0x80` */
  predicate IsContinuation(b: Byte) { 0x80 <= b < 0xC0 }

  function SequenceLength(b: Byte): (n: nat)
    ensures 1 <= n <= 4
  {
    if b < 0x80 then 1 else if b < 0xE0 then 2 else if b < 0xF0 then 3 else 4
  }

  /** One character at `p`, by the grammar of section 4 of RFC 3629. */
  predicate CharacterAt(s: seq<Byte>, p: nat) {
    p < |s| &&
    var n := SequenceLength(s[p]);
    && p + n <= |s|
    && !IsContinuation(s[p])
    && (n >= 2 ==>
          && IsContinuation(s[p + 1])
          && 0xC2 <= s[p] <= 0xF4
          && (s[p] == 0xE0 ==> 0xA0 <= s[p + 1])
          && (s[p] == 0xED ==> s[p + 1] < 0xA0)
          && (s[p] == 0xF0 ==> 0x90 <= s[p + 1])
          && (s[p] == 0xF4 ==> s[p + 1] < 0x90))
    && (n >= 3 ==> IsContinuation(s[p + 2]))
    && (n == 4 ==> IsContinuation(s[p + 3]))
  }

  /** From `p` on, `s` is a sequence of whole characters. */
  predicate WholeFrom(s: seq<Byte>, p: nat)
    requires p <= |s|
    decreases |s| - p
  {
    p == |s| || (CharacterAt(s, p) && WholeFrom(s, p + SequenceLength(s[p])))
  }

  predicate Utf8(s: seq<Byte>) { WholeFrom(s, 0) }

  /** `p` does not fall inside a character. */
  predicate Boundary(s: seq<Byte>, p: int) {
    0 <= p <= |s| && (p < |s| ==> !IsContinuation(s[p]))
  }

  lemma {:induction false} WholeFromDrop(s: seq<Byte>, cut: nat, p: nat)
    requires cut + p <= |s|
    ensures WholeFrom(s[cut..], p) == WholeFrom(s, cut + p)
    decreases |s| - p
  {
    if cut + p == |s| {
    } else {
      assert CharacterAt(s[cut..], p) == CharacterAt(s, cut + p);
      if CharacterAt(s, cut + p) {
        WholeFromDrop(s, cut, p + SequenceLength(s[cut + p]));
      }
    }
  }

  /** Whole characters can be cut at any boundary. */
  lemma {:induction false} WholeFromTake(s: seq<Byte>, p: nat, q: nat)
    requires p <= q && Boundary(s, q) && WholeFrom(s, p)
    ensures WholeFrom(s[..q], p) && WholeFrom(s, q)
    decreases |s| - p
  {
    if p == q {
    } else {
      WholeFromTake(s, p + SequenceLength(s[p]), q);
    }
  }

  lemma Utf8Slice(s: seq<Byte>, p: nat, q: nat)
    requires Utf8(s) && p <= q && Boundary(s, p) && Boundary(s, q)
    ensures Utf8(s[p..q])
  {
    WholeFromTake(s, 0, q);
    WholeFromTake(s[..q], 0, p);
    WholeFromDrop(s[..q], p, 0);
    assert s[..q][p..] == s[p..q];
  }

  lemma {:induction false} WholeFromConcat(a: seq<Byte>, b: seq<Byte>, p: nat)
    requires p <= |a| && WholeFrom(a, p) && Utf8(b)
    ensures WholeFrom(a + b, p)
    decreases |a| - p
  {
    if p == |a| {
      WholeFromDrop(a + b, p, 0);
      assert (a + b)[p..] == b;
    } else {
      WholeFromConcat(a, b, p + SequenceLength(a[p]));
      assert CharacterAt(a + b, p);
    }
  }

  /** From a boundary the next one is exactly the length its lead byte announces. */
  lemma CharacterAtBoundary(s: seq<Byte>, p: nat)
    requires Utf8(s) && Boundary(s, p) && p < |s|
    ensures CharacterAt(s, p) && Boundary(s, p + SequenceLength(s[p]))
    ensures forall k :: p < k < p + SequenceLength(s[p]) ==> !Boundary(s, k)
  {
    WholeFromTake(s, 0, p);
  }

  // ---- Moving an index to a character boundary ----

  /** The first boundary at or after `p`. */
  function NextStart(s: seq<Byte>, p: nat): (r: nat)
    requires p <= |s|
    ensures p <= r && Boundary(s, r)
    decreases |s| - p
  {
    if p < |s| && IsContinuation(s[p]) then NextStart(s, p + 1) else p
  }

  /** The last boundary at or before `p` and not before `low`. */
  function LastStart(s: seq<Byte>, low: nat, p: nat): (r: nat)
    requires low <= p <= |s|
    ensures low <= r <= p && (r == low || Boundary(s, r))
  {
    if p == low || Boundary(s, p) then p else LastStart(s, low, p - 1)
  }

  /** No boundary is passed over on the way. */
  lemma {:induction false} NextStartIsFirst(s: seq<Byte>, p: nat, k: nat)
    requires p <= k <= |s| && Boundary(s, k)
    ensures NextStart(s, p) <= k
    decreases k - p
  {
    if p < k && IsContinuation(s[p]) {
      NextStartIsFirst(s, p + 1, k);
    }
  }

  lemma {:induction false} LastStartIsLast(s: seq<Byte>, low: nat, p: nat, k: nat)
    requires low <= k <= p <= |s| && Boundary(s, k)
    ensures k <= LastStart(s, low, p)
  {
    if !(p == low || Boundary(s, p)) {
      LastStartIsLast(s, low, p - 1, k);
    }
  }

  /** Starting later, but not past the result, leads to the same place. */
  lemma {:induction false} NextStartFromBetween(s: seq<Byte>, p: nat, q: nat)
    requires p <= q <= |s| && q <= NextStart(s, p)
    ensures NextStart(s, q) == NextStart(s, p)
    decreases q - p
  {
    if p == q {
    } else {
      NextStartFromBetween(s, p + 1, q);
    }
  }

  /** Aligning an index in a suffix is aligning it in the whole. */
  lemma {:induction false} NextStartShifts(s: seq<Byte>, cut: nat, p: nat)
    requires cut + p <= |s|
    ensures NextStart(s, cut + p) == cut + NextStart(s[cut..], p)
    decreases |s| - p
  {
    if cut + p < |s| && IsContinuation(s[cut + p]) {
      NextStartShifts(s, cut, p + 1);
    }
  }

  lemma {:induction false} LastStartShifts(s: seq<Byte>, cut: nat, low: nat, p: nat)
    requires low <= p && cut + p <= |s|
    ensures LastStart(s, cut + low, cut + p) == cut + LastStart(s[cut..], low, p)
  {
    assert Boundary(s, cut + p) == Boundary(s[cut..], p);
    if !(p == low || Boundary(s, cut + p)) {
      LastStartShifts(s, cut, low, p - 1);
    }
  }

  /** Aligning an index in a front does not look past it when a character starts there. */
  lemma {:induction false} NextStartInFront(front: seq<Byte>, rest: seq<Byte>, p: nat)
    requires p <= |front| && Boundary(rest, 0)
    ensures NextStart(front + rest, p) == NextStart(front, p)
    decreases |front| - p
  {
    if p < |front| {
      assert (front + rest)[p] == front[p];
      if IsContinuation(front[p]) {
        NextStartInFront(front, rest, p + 1);
      }
    } else {
      assert Boundary(front + rest, p);
    }
  }

  lemma {:induction false} NextStartIsNear(s: seq<Byte>, p: nat)
    requires Utf8(s) && p <= |s|
    ensures NextStart(s, p) <= p + 3
  {
    if p > 0 && s != [] {
      var n := SequenceLength(s[0]);
      CharacterAtBoundary(s, 0);
      if p < n {
        NextStartIsFirst(s, p, n);
      } else {
        WholeFromDrop(s, n, 0);
        NextStartIsNear(s[n..], p - n);
        NextStartShifts(s, n, p - n);
      }
    }
  }

  // ---- safeTail: the longest whole-character suffix within a budget ----

  function SafeTail(s: seq<Byte>, maxBytes: nat): (r: seq<Byte>)
    ensures |r| <= maxBytes && |r| <= |s|
  {
    s[NextStart(s, if |s| > maxBytes then |s| - maxBytes else 0)..]
  }

  lemma SafeTailOfShort(s: seq<Byte>, maxBytes: nat)
    requires Boundary(s, 0) && |s| <= maxBytes
    ensures SafeTail(s, maxBytes) == s
  {
  }

  /** It is well formed, and misses the budget by 3 bytes at most unless it is everything. */
  lemma SafeTailNearlyFills(s: seq<Byte>, maxBytes: nat)
    requires Utf8(s)
    ensures Utf8(SafeTail(s, maxBytes)) && SafeTail(s, maxBytes) == s[|s| - |SafeTail(s, maxBytes)|..]
    ensures SafeTail(s, maxBytes) == s || |SafeTail(s, maxBytes)| >= maxBytes - 3
  {
    var p := if |s| > maxBytes then |s| - maxBytes else 0;
    Utf8Slice(s, NextStart(s, p), |s|);
    assert s[NextStart(s, p)..|s|] == s[NextStart(s, p)..];
    NextStartIsNear(s, p);
  }

  /** No longer suffix of whole characters fits. */
  lemma SafeTailIsLongest(s: seq<Byte>, maxBytes: nat, k: nat)
    requires Utf8(s) && k <= |s| && Utf8(s[k..]) && |s| - k <= maxBytes
    ensures |s| - k <= |SafeTail(s, maxBytes)|
  {
    assert Boundary(s, k);
    NextStartIsFirst(s, if |s| > maxBytes then |s| - maxBytes else 0, k);
  }

  /** A front that lies wholly outside the budget does not matter. */
  lemma SafeTailDrops(front: seq<Byte>, rest: seq<Byte>, maxBytes: nat)
    requires maxBytes <= |rest|
    ensures SafeTail(front + rest, maxBytes) == SafeTail(rest, maxBytes)
  {
    var s := front + rest;
    assert s[|front|..] == rest;
    NextStartShifts(s, |front|, |rest| - maxBytes);
  }

  /** A front that straddles the budget is trimmed on its own. */
  lemma SafeTailTrims(front: seq<Byte>, rest: seq<Byte>, maxBytes: nat)
    requires Boundary(rest, 0) && |rest| <= maxBytes <= |front| + |rest|
    ensures SafeTail(front + rest, maxBytes) == SafeTail(front, maxBytes - |rest|) + rest
  {
    NextStartInFront(front, rest, |front| + |rest| - maxBytes);
  }

  /** When the rest after an aligned cut fits, aligning the cut any later makes no difference. */
  lemma SafeTailOfCut(x: seq<Byte>, y: seq<Byte>, p: nat, maxBytes: nat)
    requires p <= |x| && Boundary(y, 0)
    requires p <= |x| + |y| - maxBytes <= NextStart(x, p)
    ensures SafeTail(x + y, maxBytes) == x[NextStart(x, p)..] + y
  {
    var q := |x| + |y| - maxBytes;
    NextStartFromBetween(x, p, q);
    NextStartInFront(x, y, q);
    SafeTailFromCut(x + y, q, maxBytes);
    DropOfConcat(x, y, NextStart(x, p));
  }

  lemma SafeTailFromCut(s: seq<Byte>, q: nat, maxBytes: nat)
    requires |s| == q + maxBytes
    ensures SafeTail(s, maxBytes) == s[NextStart(s, q)..]
  {
  }

  lemma DropOfConcat(x: seq<Byte>, y: seq<Byte>, r: nat)
    requires r <= |x|
    ensures (x + y)[r..] == x[r..] + y
  {
  }

  /** A cut before the budget's own makes no difference. */
  lemma SafeTailOfEarlyCut(x: seq<Byte>, y: seq<Byte>, r: nat, maxBytes: nat)
    requires r <= |x| && r + maxBytes <= |x| + |y|
    ensures SafeTail(x[r..] + y, maxBytes) == SafeTail(x + y, maxBytes)
  {
    assert x[..r] + (x[r..] + y) == x + y;
    SafeTailDrops(x[..r], x[r..] + y, maxBytes);
  }

  /** What was cut off earlier would be cut off now. */
  lemma SafeTailAbsorbs(x: seq<Byte>, y: seq<Byte>, maxBytes: nat)
    requires Boundary(x, 0) && Boundary(y, 0)
    ensures SafeTail(SafeTail(x, maxBytes) + y, maxBytes) == SafeTail(x + y, maxBytes)
  {
    if |x| <= maxBytes {
      SafeTailOfShort(x, maxBytes);
    } else {
      var r := NextStart(x, |x| - maxBytes);
      if |x| + |y| - maxBytes <= r {
        SafeTailOfCut(x, y, |x| - maxBytes, maxBytes);
        SafeTailOfShort(x[r..] + y, maxBytes);
      } else {
        SafeTailOfEarlyCut(x, y, r, maxBytes);
      }
    }
  }

  // ---- Pages ----

  datatype Page = Page(text: seq<Byte>, offset: nat, end: nat, nextOffset: nat, truncated: bool)

  function Natural(n: Option<int>): Option<nat>
    requires n.Some? ==> n.value >= 0
  {
    if n.Some? then Some(n.value) else None
  }

  /** Where a read with these arguments begins and ends before alignment to characters. */
  function ReadFrom(total: nat, retainedStart: nat, offset: Option<nat>): nat {
    Min(total, Max(if offset.Some? then offset.value else retainedStart, retainedStart))
  }

  function ReadTo(total: nat, from: nat, length: Option<nat>): nat {
    if length.Some? then Min(total, from + length.value) else total
  }

  /** The characters that lie wholly between two positions. */
  function PageBetween(stream: seq<Byte>, from: nat, to: nat, truncated: bool): Page
    requires from <= to <= |stream|
  {
    var start := Min(NextStart(stream, from), to);
    var end := LastStart(stream, start, to);
    Page(stream[start..end], start, end, |stream|, truncated)
  }

  /** The page of `stream`, in positions of the whole stream, when the bytes from
      `retainedStart` on are still there. */
  function PageOf(stream: seq<Byte>, retainedStart: nat, flagged: bool, offset: Option<nat>, length: Option<nat>): Page
    requires retainedStart <= |stream|
  {
    var from := ReadFrom(|stream|, retainedStart, offset);
    PageBetween(stream, from, ReadTo(|stream|, from, length), flagged || (offset.Some? && offset.value < retainedStart))
  }

  /** What a page is, from the stream and the arguments: it begins with the first character at or
      after the position asked for, or what is retained; it spans at most the length, and one more
      character would not; without a length it ends with the stream. */
  lemma PageExactly(stream: seq<Byte>, retainedStart: nat, flagged: bool, offset: Option<nat>, length: Option<nat>)
    requires Utf8(stream) && Boundary(stream, retainedStart) && (length.Some? ==> length.value > 0)
    ensures var page := PageOf(stream, retainedStart, flagged, offset, length);
            var asked := if offset.Some? && offset.value > retainedStart then offset.value else retainedStart;
            && page.nextOffset == |stream|
            && (page.truncated <==> flagged || (offset.Some? && offset.value < retainedStart))
            && page.offset <= page.end <= |stream| && page.text == stream[page.offset..page.end]
            && (if asked >= |stream| then page.offset == |stream| else asked <= page.offset)
            && (forall k :: asked <= k < page.offset ==> !Boundary(stream, k))
            && (Boundary(stream, asked) ==> page.offset == asked)
            && (length.Some? && asked <= |stream| ==> page.end <= asked + length.value)
            && (length.Some? && Boundary(stream, page.end) && page.end < |stream| ==>
                  page.end + SequenceLength(stream[page.end]) > asked + length.value)
            && (!Boundary(stream, page.end) ==> length.Some? && page.offset == page.end == asked + length.value)
            && (length.None? ==> page.end == |stream|)
  {
    var from := ReadFrom(|stream|, retainedStart, offset);
    var to := ReadTo(|stream|, from, length);
    NoBoundaryBefore(stream, from);
    NothingMoreFits(stream, Min(NextStart(stream, from), to), to);
  }

  lemma NoBoundaryBefore(s: seq<Byte>, p: nat)
    requires p <= |s|
    ensures forall k :: p <= k < NextStart(s, p) ==> !Boundary(s, k)
  {
    forall k | p <= k < NextStart(s, p)
      ensures !Boundary(s, k)
    {
      if Boundary(s, k) {
        NextStartIsFirst(s, p, k);
      }
    }
  }

  /** From the last boundary up to `p` no whole character fits before `p`. */
  lemma NothingMoreFits(s: seq<Byte>, low: nat, p: nat)
    requires Utf8(s) && low <= p <= |s|
    ensures var r := LastStart(s, low, p);
            r < |s| && Boundary(s, r) && p < |s| ==> r + SequenceLength(s[r]) > p
  {
    var r := LastStart(s, low, p);
    if r < |s| && Boundary(s, r) {
      CharacterAtBoundary(s, r);
      var next := r + SequenceLength(s[r]);
      if next <= p {
        LastStartIsLast(s, low, p, next);
      }
    }
  }

  /** Every page is whole characters. */
  lemma PageIsWholeCharacters(stream: seq<Byte>, retainedStart: nat, flagged: bool, offset: Option<nat>, length: Option<nat>)
    requires Utf8(stream) && retainedStart <= |stream|
    ensures Utf8(PageOf(stream, retainedStart, flagged, offset, length).text)
  {
    var page := PageOf(stream, retainedStart, flagged, offset, length);
    if page.offset < page.end {
      Utf8Slice(stream, page.offset, page.end);
    }
  }

  /** A read from a boundary that is still retained starts there, and moves on exactly when the
      character there fits the requested length. */
  lemma PageAdvances(stream: seq<Byte>, retainedStart: nat, flagged: bool, offset: nat, length: nat)
    requires Utf8(stream) && Boundary(stream, offset) && retainedStart <= offset < |stream|
    ensures var page := PageOf(stream, retainedStart, flagged, Some(offset), Some(length));
            && page.offset == offset
            && Boundary(stream, page.end)
            && (page.end > offset <==> length >= SequenceLength(stream[offset]))
  {
    CharacterAtBoundary(stream, offset);
    var page := PageOf(stream, retainedStart, flagged, Some(offset), Some(length));
    var next := offset + SequenceLength(stream[offset]);
    if length >= SequenceLength(stream[offset]) {
      LastStartIsLast(stream, offset, ReadTo(|stream|, offset, Some(length)), next);
    }
  }

  /** A page never skips bytes silently: one that starts after the requested boundary reports
      truncation, and then the requested bytes are gone. */
  lemma NoSilentGap(stream: seq<Byte>, retainedStart: nat, flagged: bool, offset: nat, length: Option<nat>)
    requires Utf8(stream) && retainedStart <= |stream| && Boundary(stream, offset)
    requires length.Some? ==> length.value > 0
    ensures var page := PageOf(stream, retainedStart, flagged, Some(offset), length);
            page.offset != offset ==> offset < retainedStart && page.truncated
  {
  }

  /** All pages of `length` bytes from `offset` on, each starting where the one before ended. */
  ghost function Pages(stream: seq<Byte>, retainedStart: nat, flagged: bool, offset: nat, length: nat): (pages: seq<seq<Byte>>)
    requires Utf8(stream) && Boundary(stream, offset) && retainedStart <= offset && length >= 4
    decreases |stream| - offset
  {
    if offset == |stream| then []
    else
      PageAdvances(stream, retainedStart, flagged, offset, length);
      var page := PageOf(stream, retainedStart, flagged, Some(offset), Some(length));
      [page.text] + Pages(stream, retainedStart, flagged, page.end, length)
  }

  lemma SliceOfDrop(s: seq<Byte>, cut: nat, a: nat, b: nat)
    requires a <= b && cut + b <= |s|
    ensures s[cut..][a..b] == s[cut + a..cut + b]
  {
  }

  lemma ConcatCons(c: seq<Byte>, chunks: seq<seq<Byte>>)
    ensures Concat([c] + chunks) == c + Concat(chunks)
  {
    assert ([c] + chunks)[1..] == chunks;
  }

  /** Paging is lossless: the pages put together are everything from the offset on. */
  lemma {:induction false} PagesReconstruct(stream: seq<Byte>, retainedStart: nat, flagged: bool, offset: nat, length: nat)
    requires Utf8(stream) && Boundary(stream, offset) && retainedStart <= offset && length >= 4
    ensures Concat(Pages(stream, retainedStart, flagged, offset, length)) == stream[offset..]
    decreases |stream| - offset
  {
    if offset == |stream| {
    } else {
      PageAdvances(stream, retainedStart, flagged, offset, length);
      var page := PageOf(stream, retainedStart, flagged, Some(offset), Some(length));
      PagesReconstruct(stream, retainedStart, flagged, page.end, length);
      ConcatCons(page.text, Pages(stream, retainedStart, flagged, page.end, length));
      SplitAt(stream, offset, page.end);
    }
  }

  lemma SplitAt(s: seq<Byte>, a: nat, b: nat)
    requires a <= b <= |s|
    ensures s[a..] == s[a..b] + s[b..]
  {
  }

  lemma {:induction false} ConcatAppend(chunks: seq<seq<Byte>>, c: seq<Byte>)
    ensures Concat(chunks + [c]) == Concat(chunks) + c
  {
    if chunks == [] {
      assert Concat([c]) == c + Concat([]);
    } else {
      assert (chunks + [c])[1..] == chunks[1..] + [c];
      ConcatAppend(chunks[1..], c);
    }
  }

  // ---- The truncated flag over a run of appends ----

  /** `bytes` sets the flag: it fills the buffer alone, or does not fit beside what is kept. */
  predicate Overfills(kept: seq<Byte>, bytes: seq<Byte>, maxBytes: nat) {
    bytes != [] && (|bytes| >= maxBytes || |kept| + |bytes| > maxBytes)
  }

  /** The flag after the given appends. */
  ghost predicate Flagged(appends: seq<seq<Byte>>, maxBytes: nat) {
    if appends == [] then false
    else
      var front, last := appends[..|appends| - 1], appends[|appends| - 1];
      Flagged(front, maxBytes) || Overfills(SafeTail(Concat(front), maxBytes), last, maxBytes)
  }

  ghost predicate FillsAlone(appends: seq<seq<Byte>>, maxBytes: nat) {
    exists a :: a in appends && a != [] && |a| == maxBytes
  }

  /** The flag does not mean that bytes were lost: it is also set when a single append fills the
      buffer to the byte. */
  lemma {:induction false} FlaggedExactly(appends: seq<seq<Byte>>, maxBytes: nat)
    requires forall a :: a in appends ==> Utf8(a)
    ensures Utf8(Concat(appends))
    ensures Flagged(appends, maxBytes)
            <==> |Concat(appends)| > maxBytes || FillsAlone(appends, maxBytes)
  {
    if appends == [] {
    } else {
      var front, last := appends[..|appends| - 1], appends[|appends| - 1];
      assert appends == front + [last];
      ConcatAppend(front, last);
      FlaggedExactly(front, maxBytes);
      WholeFromConcat(Concat(front), last, 0);
      SafeTailNearlyFills(Concat(front), maxBytes);
      if |Concat(front)| <= maxBytes {
        SafeTailOfShort(Concat(front), maxBytes);
      }
      assert FillsAlone(appends, maxBytes) <==> FillsAlone(front, maxBytes) || (last != [] && |last| == maxBytes) by {
        assert last in appends;
        assert forall a :: a in appends <==> a in front || a == last;
      }
    }
  }

  // ---- Reading on while output arrives ----

  /** A reader that asks for the bytes after its last page, `next`, and the pages it got. */
  datatype Reader = Reader(appends: seq<seq<Byte>>, next: nat, pages: seq<Page>)

  datatype Access = Appended(bytes: seq<Byte>) | ReadOn(length: Option<nat>)

  /** Text is well formed, and a length is positive. */
  predicate IsAccess(a: Access) {
    if a.Appended? then Utf8(a.bytes) else a.length.Some? ==> a.length.value > 0
  }

  /** The first position of the stream that is still retained. */
  function RetainedStart(stream: seq<Byte>, maxBytes: nat): (p: nat)
    ensures p <= |stream|
  {
    |stream| - |SafeTail(stream, maxBytes)|
  }

  /** After any appends, a page reports truncation if and only if the stream is over the limit, one
      append filled the buffer by itself, or the position asked for is no longer retained; without an
      offset it begins with what is retained. */
  lemma PageAfterAppends(appends: seq<seq<Byte>>, maxBytes: nat, offset: Option<nat>, length: Option<nat>)
    requires (forall a :: a in appends ==> Utf8(a)) && (length.Some? ==> length.value > 0)
    ensures var stream := Concat(appends);
            var page := PageOf(stream, RetainedStart(stream, maxBytes), Flagged(appends, maxBytes), offset, length);
            && (page.truncated <==>
                  || |stream| > maxBytes || FillsAlone(appends, maxBytes)
                  || (offset.Some? && offset.value < |stream| - |SafeTail(stream, maxBytes)|))
            && (offset.None? ==> page.offset == |stream| - |SafeTail(stream, maxBytes)|)
  {
    var stream := Concat(appends);
    FlaggedExactly(appends, maxBytes);
    SafeTailNearlyFills(stream, maxBytes);
    PageExactly(stream, RetainedStart(stream, maxBytes), Flagged(appends, maxBytes), offset, length);
  }

  /** The page that a read from the reader's position gets now. */
  ghost function NextPage(r: Reader, length: Option<nat>, maxBytes: nat): Page {
    var stream := Concat(r.appends);
    PageOf(stream, RetainedStart(stream, maxBytes), Flagged(r.appends, maxBytes), Some(r.next), length)
  }

  ghost function AfterAccess(r: Reader, a: Access, maxBytes: nat): Reader {
    match a
    case Appended(bytes) => r.(appends := r.appends + [bytes])
    case ReadOn(length) => var page := NextPage(r, length, maxBytes); r.(next := page.end, pages := r.pages + [page])
  }

  /** The reader after a run of appends and reads. */
  ghost function AfterAll(r: Reader, accesses: seq<Access>, maxBytes: nat): Reader {
    if accesses == [] then r
    else AfterAccess(AfterAll(r, accesses[..|accesses| - 1], maxBytes), accesses[|accesses| - 1], maxBytes)
  }

  function TextOf(pages: seq<Page>): seq<Byte> {
    if pages == [] then [] else TextOf(pages[..|pages| - 1]) + pages[|pages| - 1].text
  }

  function EndOf(start: nat, pages: seq<Page>): nat {
    if pages == [] then start else pages[|pages| - 1].end
  }

  /** Each page begins where the one before it ended. */
  predicate Seamless(start: nat, pages: seq<Page>) {
    pages == [] ||
    (Seamless(start, pages[..|pages| - 1]) && pages[|pages| - 1].offset == EndOf(start, pages[..|pages| - 1]))
  }

  predicate NoneTruncated(pages: seq<Page>) {
    pages == [] || (NoneTruncated(pages[..|pages| - 1]) && !pages[|pages| - 1].truncated)
  }

  /** The pages since `start` are the stream from there on, or lack some of it and say so. */
  ghost predicate ReaderInv(start: nat, r: Reader) {
    var stream := Concat(r.appends);
    && Utf8(stream) && Boundary(stream, r.next) && r.next == EndOf(start, r.pages) && start <= r.next
    && (Seamless(start, r.pages) ==> TextOf(r.pages) == stream[start..r.next])
    && (!Seamless(start, r.pages) ==> |TextOf(r.pages)| < r.next - start && !NoneTruncated(r.pages))
  }

  lemma AppendedKeepsReader(start: nat, r: Reader, bytes: seq<Byte>)
    requires ReaderInv(start, r) && Utf8(bytes)
    ensures ReaderInv(start, r.(appends := r.appends + [bytes]))
  {
    ConcatAppend(r.appends, bytes);
    WholeFromConcat(Concat(r.appends), bytes, 0);
    SliceOfFront(Concat(r.appends), bytes, start, r.next);
  }

  lemma SliceOfFront(s: seq<Byte>, t: seq<Byte>, a: nat, b: nat)
    requires a <= b <= |s|
    ensures (s + t)[a..b] == s[a..b]
  {
  }

  /** A page starts at the reader's position or, when that is gone, at what is retained; it ends
      between characters. */
  lemma PageFrom(stream: seq<Byte>, maxBytes: nat, flagged: bool, offset: nat, length: Option<nat>)
    requires Utf8(stream) && Boundary(stream, offset) && (length.Some? ==> length.value > 0)
    ensures var page := PageOf(stream, RetainedStart(stream, maxBytes), flagged, Some(offset), length);
            && page.offset == Max(offset, RetainedStart(stream, maxBytes)) && page.offset <= page.end
            && Boundary(stream, page.end)
            && (page.offset > offset ==> page.truncated)
            && (length.None? ==> page.end == |stream|)
  {
    SafeTailNearlyFills(stream, maxBytes);
  }

  lemma ReadOnKeepsReader(start: nat, r: Reader, length: Option<nat>, maxBytes: nat)
    requires ReaderInv(start, r) && (length.Some? ==> length.value > 0)
    ensures ReaderInv(start, AfterAccess(r, ReadOn(length), maxBytes))
    ensures length.None? ==> AfterAccess(r, ReadOn(length), maxBytes).next == |Concat(r.appends)|
  {
    var stream, page := Concat(r.appends), NextPage(r, length, maxBytes);
    PageFrom(stream, maxBytes, Flagged(r.appends, maxBytes), r.next, length);
    assert (r.pages + [page])[..|r.pages|] == r.pages;
    if page.offset == r.next {
      assert stream[start..r.next] + stream[r.next..page.end] == stream[start..page.end];
    }
  }

  /** Reading on, over every run of appends and reads between them: the pages join up to the stream
      from the start on if and only if each begins where the one before ended; if some do not join
      up, one of them reports truncation. A read without a length reaches the end. */
  lemma {:induction false} PagesJoinUp(start: Reader, accesses: seq<Access>, maxBytes: nat)
    requires start.pages == [] && Utf8(Concat(start.appends)) && Boundary(Concat(start.appends), start.next)
    requires forall a :: a in accesses ==> IsAccess(a)
    ensures var r := AfterAll(start, accesses, maxBytes);
            && ReaderInv(start.next, r)
            && (TextOf(r.pages) == Concat(r.appends)[start.next..r.next] <==> Seamless(start.next, r.pages))
            && (NoneTruncated(r.pages) ==> TextOf(r.pages) == Concat(r.appends)[start.next..r.next])
            && (accesses != [] && accesses[|accesses| - 1] == ReadOn(None) ==> r.next == |Concat(r.appends)|)
  {
    if accesses == [] {
    } else {
      var front, last := accesses[..|accesses| - 1], accesses[|accesses| - 1];
      PagesJoinUp(start, front, maxBytes);
      var r := AfterAll(start, front, maxBytes);
      assert IsAccess(last) by { assert last in accesses; }
      if last.Appended? {
        AppendedKeepsReader(start.next, r, last.bytes);
      } else {
        ReadOnKeepsReader(start.next, r, last.length, maxBytes);
      }
    }
  }

  // ---- The class ----

  /** `kept` is the longest whole-character suffix of `stream` that fits. */
  ghost predicate IsTailOf(kept: seq<Byte>, stream: seq<Byte>, maxBytes: nat) {
    kept == SafeTail(stream, maxBytes) && Utf8(kept) && kept == stream[|stream| - |kept|..]
  }

  class BoundedUtf8Buffer {
    const maxBytes: nat
    var chunks: seq<seq<Byte>>
    var totalBytes: nat
    var retainedBytes: nat
    var truncated: bool
    /** Everything ever appended. */
    ghost var appends: seq<seq<Byte>>

    ghost function Stream(): seq<Byte>
      reads this
    {
      Concat(appends)
    }

    ghost predicate Valid()
      reads this
    {
      && (forall c :: c in chunks ==> Utf8(c))
      && Utf8(Stream())
      && totalBytes == |Stream()|
      && IsTailOf(Concat(chunks), Stream(), maxBytes)
      && retainedBytes == |Concat(chunks)|
      && truncated == Flagged(appends, maxBytes)
    }

    constructor (maxBytes: nat)
      ensures Valid() && this.maxBytes == maxBytes && appends == [] && !truncated
    {
      this.maxBytes := maxBytes;
      chunks, totalBytes, retainedBytes, truncated := [], 0, 0, false;
      appends := [];
    }

    static method SafeTailFrom(bytes: seq<Byte>, maxBytes: nat) returns (tail: seq<Byte>)
      ensures tail == SafeTail(bytes, maxBytes)
    {
      var start := Max(0, |bytes| - maxBytes);
      while start < |bytes| && IsContinuation(bytes[start])
        invariant Max(0, |bytes| - maxBytes) <= start <= |bytes|
        invariant NextStart(bytes, start) == NextStart(bytes, Max(0, |bytes| - maxBytes))
      {
        start := start + 1;
      }
      tail := bytes[start..];
    }

    /** Whatever the chunks were, what is kept is the longest whole-character tail of everything
        appended that fits. */
    method Append(bytes: seq<Byte>)
      requires Valid() && Utf8(bytes)
      modifies this
      ensures Valid() && appends == old(appends) + [bytes]
    {
      FlaggedSnoc(appends, bytes, maxBytes);
      AppendBytes(bytes, Stream());
      appends := appends + [bytes];
    }

    /** `append`, given everything that was appended before. */
    method AppendBytes(bytes: seq<Byte>, ghost stream: seq<Byte>)
      requires (forall c :: c in chunks ==> Utf8(c)) && Utf8(stream) && Utf8(bytes)
      requires totalBytes == |stream| && IsTailOf(Concat(chunks), stream, maxBytes) && retainedBytes == |Concat(chunks)|
      modifies `chunks, `totalBytes, `retainedBytes, `truncated
      ensures (forall c :: c in chunks ==> Utf8(c)) && Utf8(stream + bytes)
      ensures totalBytes == |stream + bytes| && IsTailOf(Concat(chunks), stream + bytes, maxBytes) && retainedBytes == |Concat(chunks)|
      ensures truncated == (old(truncated) || Overfills(SafeTail(stream, maxBytes), bytes, maxBytes))
    {
      AppendKeepsTail(stream, Concat(chunks), bytes, maxBytes);
      if |bytes| == 0 {
        return;
      }
      totalBytes := totalBytes + |bytes|;
      if |bytes| >= maxBytes {
        var tail := SafeTailFrom(bytes, maxBytes);
        chunks := if |tail| == 0 then [] else [tail];
        SingleChunk(tail);
        retainedBytes := |tail|;
        truncated := true;
        return;
      }
      PushAndTrim(bytes);
    }

    /** The second half of `append`: push the new chunk, then trim from the front. */
    method PushAndTrim(bytes: seq<Byte>)
      requires retainedBytes == |Concat(chunks)| && (forall c :: c in chunks ==> Utf8(c)) && Utf8(bytes)
      modifies `chunks, `retainedBytes, `truncated
      ensures forall c :: c in chunks ==> Utf8(c)
      ensures Concat(chunks) == SafeTail(Concat(old(chunks)) + bytes, maxBytes) && retainedBytes == |Concat(chunks)|
      ensures truncated == (old(truncated) || old(retainedBytes) + |bytes| > maxBytes)
    {
      ConcatAppend(chunks, bytes);
      chunks := chunks + [bytes];
      retainedBytes := retainedBytes + |bytes|;
      ghost var goal := SafeTail(Concat(chunks), maxBytes);
      while retainedBytes > maxBytes && |chunks| > 0
        invariant forall c :: c in chunks ==> Utf8(c)
        invariant retainedBytes == |Concat(chunks)| && SafeTail(Concat(chunks), maxBytes) == goal
        invariant truncated || retainedBytes > maxBytes <==> old(truncated) || old(retainedBytes) + |bytes| > maxBytes
        decreases |chunks| + retainedBytes
      {
        TrimFirst();
        truncated := true;
      }
      ConcatUtf8(chunks);
      SafeTailOfShort(Concat(chunks), maxBytes);
    }

    /** One round of the trimming loop: the first chunk goes, or loses its front. */
    method TrimFirst()
      requires retainedBytes == |Concat(chunks)| > maxBytes && |chunks| > 0 && forall c :: c in chunks ==> Utf8(c)
      modifies `chunks, `retainedBytes
      ensures forall c :: c in chunks ==> Utf8(c)
      ensures retainedBytes == |Concat(chunks)| && SafeTail(Concat(chunks), maxBytes) == SafeTail(old(Concat(chunks)), maxBytes)
      ensures |chunks| + retainedBytes < old(|chunks| + retainedBytes)
    {
      var excess := retainedBytes - maxBytes;
      var first := chunks[0];
      ghost var rest := Concat(chunks[1..]);
      ConcatUtf8(chunks[1..]);
      if |first| <= excess {
        SafeTailDrops(first, rest, maxBytes);
        chunks := chunks[1..];
        retainedBytes := retainedBytes - |first|;
      } else {
        var trimmed := SafeTailFrom(first, |first| - excess);
        TrimmedChunk(first, rest, maxBytes);
        ConcatUpdate(chunks, trimmed);
        chunks := chunks[0 := trimmed];
        retainedBytes := retainedBytes - (|first| - |trimmed|);
      }
    }

    static method SafeUtf8Start(bytes: seq<Byte>, from: nat, end: nat) returns (start: nat)
      requires from <= end <= |bytes|
      ensures start == Min(NextStart(bytes, from), end)
    {
      start := from;
      while start < end && IsContinuation(bytes[start])
        invariant from <= start <= end
        invariant NextStart(bytes, start) == NextStart(bytes, from)
      {
        start := start + 1;
      }
    }

    static method SafeUtf8End(bytes: seq<Byte>, start: nat, end: nat) returns (r: nat)
      requires Utf8(bytes) && start <= end <= |bytes|
      requires start < end ==> Boundary(bytes, start)
      ensures r == LastStart(bytes, start, end)
    {
      if end <= start {
        return end;
      }
      var lead := end - 1;
      while lead > start && IsContinuation(bytes[lead])
        invariant start <= lead < end
        invariant forall k :: lead < k < end ==> IsContinuation(bytes[k])
      {
        lead := lead - 1;
      }
      CharacterAtBoundary(bytes, lead);
      r := if lead + SequenceLength(bytes[lead]) == end then end else lead;
      LastStartIs(bytes, start, end, r);
    }

    /** A page of the whole stream, even though only its tail is kept; it reports truncation when some
        append overfilled the buffer. */
    method Read(offset: Option<int>, length: Option<int>) returns (page: Option<Page>)
      requires Valid()
      ensures page.Some? <==>
                && (offset.Some? ==> 0 <= offset.value <= MAX_SAFE_INTEGER)
                && (length.Some? ==> 0 < length.value <= MAX_SAFE_INTEGER)
      ensures page.Some? ==>
                page.value == PageOf(Stream(), RetainedStart(Stream(), maxBytes), Flagged(appends, maxBytes),
                                     Natural(offset), Natural(length))
    {
      if offset.Some? && !(0 <= offset.value <= MAX_SAFE_INTEGER) {
        return None;
      }
      if length.Some? && !(0 < length.value <= MAX_SAFE_INTEGER) {
        return None;
      }
      var p := ReadTail(Natural(offset), Natural(length));
      page := Some(p);
    }

    /** `read`, once its arguments are validated. */
    method ReadTail(offset: Option<nat>, length: Option<nat>) returns (page: Page)
      requires Valid()
      ensures page == PageOf(Stream(), RetainedStart(Stream(), maxBytes), Flagged(appends, maxBytes), offset, length)
    {
      page := ReadBuffer(Concat(chunks), totalBytes - retainedBytes, truncated, offset, length, Stream());
    }

    /** `read`, given the concatenated chunks. */
    static method ReadBuffer(buffer: seq<Byte>, retainedStart: nat, flagged: bool, offset: Option<nat>, length: Option<nat>, ghost stream: seq<Byte>)
      returns (page: Page)
      requires retainedStart + |buffer| == |stream| && buffer == stream[retainedStart..] && Utf8(buffer)
      ensures page == PageOf(stream, retainedStart, flagged, offset, length)
    {
      var flag := flagged || (offset.Some? && offset.value < retainedStart);
      var relativeStart, relativeEnd := ReadRange(retainedStart + |buffer|, |buffer|, offset, length);
      ghost var from := ReadFrom(|stream|, retainedStart, offset);
      ghost var to := ReadTo(|stream|, from, length);
      page := AlignedPage(buffer, relativeStart, relativeEnd, retainedStart, flag, stream, from, to);
    }

    /** The arithmetic of `read`: the requested range, relative to what is retained. */
    static method ReadRange(totalBytes: nat, retainedBytes: nat, offset: Option<nat>, length: Option<nat>)
      returns (relativeStart: nat, relativeEnd: nat)
      requires retainedBytes <= totalBytes
      ensures relativeStart <= relativeEnd <= retainedBytes
      ensures var from := ReadFrom(totalBytes, totalBytes - retainedBytes, offset);
              && totalBytes - retainedBytes + relativeStart == from
              && totalBytes - retainedBytes + relativeEnd == ReadTo(totalBytes, from, length)
    {
      var retainedStart := totalBytes - retainedBytes;
      var requestedStart := if offset.Some? then offset.value else retainedStart;
      var start := Min(totalBytes, Max(requestedStart, retainedStart));
      var requestedEnd := if length.None? then totalBytes else Min(totalBytes, start + length.value);
      relativeStart := Max(0, start - retainedStart);
      relativeEnd := Max(relativeStart, Min(retainedBytes, requestedEnd - retainedStart));
    }

    /** The alignment of both ends to characters, in `read`. */
    static method AlignedPage(buffer: seq<Byte>, from: nat, to: nat, retainedStart: nat, truncated: bool,
                              ghost stream: seq<Byte>, ghost streamFrom: nat, ghost streamTo: nat)
      returns (page: Page)
      requires retainedStart + |buffer| == |stream| && buffer == stream[retainedStart..] && Utf8(buffer)
      requires from <= to <= |buffer| && streamFrom == retainedStart + from && streamTo == retainedStart + to
      ensures page == PageBetween(stream, streamFrom, streamTo, truncated)
    {
      var start := SafeUtf8Start(buffer, from, to);
      var end := SafeUtf8End(buffer, start, to);
      NextStartShifts(stream, retainedStart, from);
      LastStartShifts(stream, retainedStart, start, to);
      SliceOfDrop(stream, retainedStart, start, end);
      page := Page(buffer[start..end], retainedStart + start, retainedStart + end, retainedStart + |buffer|, truncated);
    }
  }

  lemma FlaggedSnoc(appends: seq<seq<Byte>>, bytes: seq<Byte>, maxBytes: nat)
    ensures Concat(appends + [bytes]) == Concat(appends) + bytes
    ensures Flagged(appends + [bytes], maxBytes)
            <==> Flagged(appends, maxBytes) || Overfills(SafeTail(Concat(appends), maxBytes), bytes, maxBytes)
  {
    ConcatAppend(appends, bytes);
    assert (appends + [bytes])[..|appends|] == appends;
  }

  lemma SingleChunk(tail: seq<Byte>)
    ensures Concat([tail]) == tail
  {
    assert Concat<Byte>([]) == [];
  }

  lemma SafeTailIsTailOf(stream: seq<Byte>, maxBytes: nat)
    requires Utf8(stream)
    ensures IsTailOf(SafeTail(stream, maxBytes), stream, maxBytes)
  {
    SafeTailNearlyFills(stream, maxBytes);
  }

  /** What `append` has to establish, whichever way it goes. */
  lemma AppendKeepsTail(stream: seq<Byte>, kept: seq<Byte>, bytes: seq<Byte>, maxBytes: nat)
    requires Utf8(stream) && Utf8(bytes) && IsTailOf(kept, stream, maxBytes)
    ensures Utf8(stream + bytes)
    ensures bytes == [] ==> IsTailOf(kept, stream + bytes, maxBytes)
    ensures |bytes| >= maxBytes ==> IsTailOf(SafeTail(bytes, maxBytes), stream + bytes, maxBytes)
    ensures IsTailOf(SafeTail(kept + bytes, maxBytes), stream + bytes, maxBytes)
  {
    WholeFromConcat(stream, bytes, 0);
    SafeTailIsTailOf(stream + bytes, maxBytes);
    assert SafeTail(kept + bytes, maxBytes) == SafeTail(stream + bytes, maxBytes) by {
      SafeTailAbsorbs(stream, bytes, maxBytes);
    }
    if |bytes| >= maxBytes {
      SafeTailDrops(stream, bytes, maxBytes);
    }
    if bytes == [] {
      assert stream + bytes == stream;
    }
  }

  lemma TrimmedChunk(first: seq<Byte>, rest: seq<Byte>, maxBytes: nat)
    requires Utf8(first) && Utf8(rest) && |rest| <= maxBytes <= |first| + |rest|
    ensures var trimmed := SafeTail(first, maxBytes - |rest|);
            && Utf8(trimmed)
            && SafeTail(trimmed + rest, maxBytes) == SafeTail(first + rest, maxBytes)
  {
    SafeTailTrims(first, rest, maxBytes);
    SafeTailNearlyFills(first, maxBytes - |rest|);
    WholeFromConcat(SafeTail(first, maxBytes - |rest|), rest, 0);
    SafeTailOfShort(SafeTail(first, maxBytes - |rest|) + rest, maxBytes);
  }

  lemma {:induction false} ConcatUtf8(chunks: seq<seq<Byte>>)
    requires forall c :: c in chunks ==> Utf8(c)
    ensures Utf8(Concat(chunks))
  {
    if chunks == [] {
    } else {
      ConcatUtf8(chunks[1..]);
      assert Utf8(chunks[0]);
      WholeFromConcat(chunks[0], Concat(chunks[1..]), 0);
    }
  }

  lemma ConcatUpdate(chunks: seq<seq<Byte>>, c: seq<Byte>)
    requires chunks != []
    ensures Concat(chunks[0 := c]) == c + Concat(chunks[1..])
  {
    assert chunks[0 := c][1..] == chunks[1..];
  }

  lemma {:induction false} LastStartIs(s: seq<Byte>, low: nat, p: nat, r: nat)
    requires low <= r <= p <= |s| && (r == low || Boundary(s, r))
    requires forall k :: r < k <= p ==> !Boundary(s, k)
    ensures LastStart(s, low, p) == r
  {
    if p == r {
    } else {
      LastStartIs(s, low, p - 1, r);
    }
  }
}
