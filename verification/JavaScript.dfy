/** The few built-ins of JavaScript that several files use. */
module JavaScript {
  type Byte = b: int | 0 <= b < 256

  /** `Number.MAX_SAFE_INTEGER` */
  const MAX_SAFE_INTEGER: int := 0x1F_FFFF_FFFF_FFFF

  /** `Math.min` */
  function Min(a: int, b: int): int { if a <= b then a else b }

  /** `Math.max` */
  function Max(a: int, b: int): int { if a >= b then a else b }

  /** `s.slice(-count)`: the last elements, or, with a count of zero, everything. */
  function SliceLast<T>(s: seq<T>, count: nat): seq<T> {
    if count == 0 || |s| <= count then s else s[|s| - count..]
  }

  /** `Buffer.concat` */
  function Concat<T>(chunks: seq<seq<T>>): seq<T> {
    if chunks == [] then [] else chunks[0] + Concat(chunks[1..])
  }

  /** `s.findIndex(found)`, or the length when there is none. */
  function FindIndex<T>(s: seq<T>, found: T -> bool): (i: nat)
    ensures i <= |s| && (i < |s| ==> found(s[i]))
    ensures forall j :: 0 <= j < i ==> !found(s[j])
  {
    if s == [] || found(s[0]) then 0 else 1 + FindIndex(s[1..], found)
  }

  /** What `s.splice(i, 1)` leaves. */
  function RemoveAt<T>(s: seq<T>, i: nat): (r: seq<T>)
    requires i < |s|
    ensures |r| == |s| - 1 && forall j :: 0 <= j < |r| ==> r[j] == s[if j < i then j else j + 1]
  {
    s[..i] + s[i + 1..]
  }
}
