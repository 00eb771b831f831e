/** Model of src/session/bounds.ts: cutting text to a byte budget. */
module TextBounds {
  // JavaScript strings are sequences of UTF-16 units and `Buffer.byteLength` counts the UTF-8 bytes
  // they encode to: an unpaired surrogate is written as U+FFFD (three bytes), a surrogate pair takes
  // four. A value of type `unknown` is modelled by its JSON serialization.

  type Unit = x: int | 0 <= x < 0x1_0000
  type Text = seq<Unit>

  predicate IsHighSurrogate(u: Unit) { 0xD800 <= u < 0xDC00 }

  predicate IsLowSurrogate(u: Unit) { 0xDC00 <= u < 0xE000 }

  /** Bytes of a unit standing alone. */
  function UnitBytes(u: Unit): (n: nat) {
    if u < 0x80 then 1 else if u < 0x800 then 2 else 3
  }

  /** True when the last unit of `a` and the first of `b` form one surrogate pair. */
  predicate Joins(a: Text, b: Text) {
    a != [] && b != [] && IsHighSurrogate(a[|a| - 1]) && IsLowSurrogate(b[0])
  }

  /** Two surrogates forming a pair are 3 + 3 bytes on their own and 4 together. */
  function ByteLength(t: Text): (n: nat) {
    if t == [] then 0
    else UnitBytes(t[0]) + ByteLength(t[1..]) - (if Joins(t[..1], t[1..]) then 2 else 0)
  }

  lemma {:induction false} ByteLengthConcat(a: Text, b: Text)
    ensures ByteLength(a + b) == ByteLength(a) + ByteLength(b) - (if Joins(a, b) then 2 else 0)
  {
    if a == [] {
      assert a + b == b;
    } else if |a| == 1 {
      assert (a + b)[1..] == b && (a + b)[..1] == a;
      assert a[1..] == [];
    } else {
      assert (a + b)[1..] == a[1..] + b;
      assert (a + b)[..1] == a[..1];
      ByteLengthConcat(a[1..], b);
    }
  }

  /** Cutting units off either end strictly lowers the byte length. */
  lemma {:induction false} ByteLengthMonotone(t: Text, i: nat)
    requires i <= |t|
    ensures i < |t| ==> ByteLength(t[..i]) < ByteLength(t)
    ensures 0 < i ==> ByteLength(t[i..]) < ByteLength(t)
    ensures ByteLength(t) <= ByteLength(t[..i]) + ByteLength(t[i..])
  {
    assert t == t[..i] + t[i..];
    ByteLengthConcat(t[..i], t[i..]);
    LeastBytes(t[..i]);
    LeastBytes(t[i..]);
  }

  /** A nonempty text has a byte; one that starts or ends with a surrogate has three. */
  lemma {:induction false} LeastBytes(t: Text)
    ensures t != [] ==> ByteLength(t) >= 1
    ensures t != [] && IsLowSurrogate(t[0]) ==> ByteLength(t) >= 3
    ensures t != [] && IsHighSurrogate(t[|t| - 1]) ==> ByteLength(t) >= 3
    ensures |t| <= ByteLength(t) <= 3 * |t|
  {
    if t == [] {
    } else {
      LeastBytes(t[1..]);
    }
  }

  // ---- The two binary searches ----

  /** The longest prefix of `value` within `maxBytes`. */
  function HeadOf(value: Text, maxBytes: nat): (r: Text)
    ensures |r| <= |value| && ByteLength(r) <= maxBytes
  {
    if ByteLength(value) <= maxBytes then value else HeadOf(value[..|value| - 1], maxBytes)
  }

  /** The longest suffix of `value` within `maxBytes`. */
  function TailOf(value: Text, maxBytes: nat): (r: Text)
    ensures |r| <= |value| && ByteLength(r) <= maxBytes
  {
    if ByteLength(value) <= maxBytes then value else TailOf(value[1..], maxBytes)
  }

  lemma {:induction false} HeadOfIsPrefix(value: Text, maxBytes: nat)
    ensures HeadOf(value, maxBytes) == value[..|HeadOf(value, maxBytes)|]
  {
    if ByteLength(value) <= maxBytes {
      assert value[..|value|] == value;
    } else {
      HeadOfIsPrefix(value[..|value| - 1], maxBytes);
    }
  }

  lemma {:induction false} TailOfIsSuffix(value: Text, maxBytes: nat)
    ensures TailOf(value, maxBytes) == value[|value| - |TailOf(value, maxBytes)|..]
  {
    if ByteLength(value) <= maxBytes {
      assert value[0..] == value;
    } else {
      TailOfIsSuffix(value[1..], maxBytes);
      SuffixOfRest(value, |TailOf(value, maxBytes)|);
    }
  }

  lemma SuffixOfRest(value: Text, k: nat)
    requires k < |value|
    ensures value[1..][|value| - 1 - k..] == value[|value| - k..]
  {
  }

  lemma {:induction false} HeadOfIsLongest(value: Text, maxBytes: nat, k: nat)
    requires k <= |value|
    ensures k <= |HeadOf(value, maxBytes)| <==> ByteLength(value[..k]) <= maxBytes
  {
    if ByteLength(value) <= maxBytes {
      assert value[..|value|] == value;
      ByteLengthMonotone(value, k);
    } else if k == |value| {
      assert value[..k] == value;
    } else {
      HeadOfIsLongest(value[..|value| - 1], maxBytes, k);
      assert value[..|value| - 1][..k] == value[..k];
    }
  }

  lemma {:induction false} TailOfIsLongest(value: Text, maxBytes: nat, k: nat)
    requires k <= |value|
    ensures k <= |TailOf(value, maxBytes)| <==> ByteLength(value[|value| - k..]) <= maxBytes
  {
    if ByteLength(value) <= maxBytes {
      assert value[0..] == value;
      ByteLengthMonotone(value, |value| - k);
    } else if k == |value| {
      assert value[0..] == value;
    } else {
      TailOfIsLongest(value[1..], maxBytes, k);
      SuffixOfRest(value, k);
    }
  }

  method TakeUtf8Head(value: Text, maxBytes: nat) returns (r: Text)
    ensures r == HeadOf(value, maxBytes)
  {
    var low, high := 0, |value|;
    while low < high
      invariant 0 <= low <= |HeadOf(value, maxBytes)| <= high <= |value|
    {
      var mid := (low + high + 1) / 2;
      HeadOfIsLongest(value, maxBytes, mid);
      if ByteLength(value[..mid]) <= maxBytes {
        low := mid;
      } else {
        high := mid - 1;
      }
    }
    HeadOfIsPrefix(value, maxBytes);
    r := value[..low];
  }

  method TakeUtf8Tail(value: Text, maxBytes: nat) returns (r: Text)
    ensures r == TailOf(value, maxBytes)
  {
    var low, high := 0, |value|;
    while low < high
      invariant 0 <= low <= |TailOf(value, maxBytes)| <= high <= |value|
    {
      var count := (low + high + 1) / 2;
      TailOfIsLongest(value, maxBytes, count);
      if ByteLength(value[|value| - count..]) <= maxBytes {
        low := count;
      } else {
        high := count - 1;
      }
    }
    TailOfIsSuffix(value, maxBytes);
    r := value[|value| - low..];
  }

  // ---- boundText ----

  /** Decimal digits of `n`, as `${n}` prints them. */
  function Decimal(n: nat): (t: Text)
    ensures t != [] && forall i :: 0 <= i < |t| ==> 0x30 <= t[i] <= 0x39
  {
    if n < 10 then [0x30 + n] else Decimal(n / 10) + [0x30 + n % 10]
  }

  // newline, ellipsis, ` [truncated: `
  const MARKER_HEAD: Text := [
    0x0A, 0x2026, 0x20, 0x5B, 0x74, 0x72, 0x75, 0x6E, 0x63, 0x61, 0x74, 0x65, 0x64, 0x3A,
    0x20
  ]

  // ` bytes] `, ellipsis, newline
  const MARKER_TAIL: Text := [
    0x20, 0x62, 0x79, 0x74, 0x65, 0x73, 0x5D, 0x20, 0x2026, 0x0A
  ]

  /** The marker naming how many bytes the original had. */
  function Marker(originalBytes: nat): Text {
    MARKER_HEAD + Decimal(originalBytes) + MARKER_TAIL
  }

  /** `marker` between the ends of `value` that the rest of the budget has room for. */
  function Splice(value: Text, marker: Text, maxBytes: nat): Text {
    if ByteLength(marker) >= maxBytes then HeadOf(marker, maxBytes) else
    var available := maxBytes - ByteLength(marker);
    HeadOf(value, (available + 1) / 2) + marker + TailOf(value, available / 2)
  }

  function BoundText(value: Text, maxBytes: nat): Text {
    if ByteLength(value) <= maxBytes then value else Splice(value, Marker(ByteLength(value)), maxBytes)
  }

  lemma ByteLengthSubadditive(a: Text, b: Text, c: Text)
    ensures ByteLength(a + b + c) <= ByteLength(a) + ByteLength(b) + ByteLength(c)
  {
    ByteLengthConcat(a, b);
    ByteLengthConcat(a + b, c);
  }

  lemma SpliceFits(value: Text, marker: Text, maxBytes: nat)
    ensures ByteLength(Splice(value, marker, maxBytes)) <= maxBytes
  {
    if ByteLength(marker) < maxBytes {
      var available := maxBytes - ByteLength(marker);
      ByteLengthSubadditive(HeadOf(value, (available + 1) / 2), marker, TailOf(value, available / 2));
    }
  }

  lemma BoundTextFits(value: Text, maxBytes: nat)
    ensures ByteLength(BoundText(value, maxBytes)) <= maxBytes
  {
    SpliceFits(value, Marker(ByteLength(value)), maxBytes);
  }

  lemma BoundTextIdempotent(value: Text, maxBytes: nat)
    ensures BoundText(BoundText(value, maxBytes), maxBytes) == BoundText(value, maxBytes)
  {
    BoundTextFits(value, maxBytes);
  }

  /** A head and a tail that together cover the text weigh at least as much as it does. */
  lemma CoveringEndsAreHeavy(value: Text, h: nat, t: nat)
    requires h <= |value| && t <= |value| <= h + t
    ensures ByteLength(value) <= ByteLength(value[..h]) + ByteLength(value[|value| - t..])
  {
    var cut := |value| - t;
    ByteLengthMonotone(value, cut);
    ByteLengthMonotone(value[..h], cut);
    assert value[..h][..cut] == value[..cut];
  }

  lemma LightEndsAreDisjoint(value: Text, h: nat, t: nat)
    requires h <= |value| && t <= |value|
    requires ByteLength(value[..h]) + ByteLength(value[|value| - t..]) < ByteLength(value)
    ensures h + t < |value|
  {
    if h + t >= |value| {
      CoveringEndsAreHeavy(value, h, t);
    }
  }

  /** The number that decimal digits stand for. */
  function ValueOf(digits: Text): int {
    if digits == [] then 0 else 10 * ValueOf(digits[..|digits| - 1]) + digits[|digits| - 1] - 0x30
  }

  lemma {:induction false} DecimalIsRead(n: nat)
    ensures ValueOf(Decimal(n)) == n
  {
    if n < 10 {
      assert ValueOf([]) == 0;
    } else {
      DecimalIsRead(n / 10);
      assert Decimal(n)[..|Decimal(n)| - 1] == Decimal(n / 10);
    }
  }

  /** No longer prefix fits. */
  predicate LongestHead(value: Text, h: nat, maxBytes: nat) {
    h <= |value| && forall k :: 0 <= k <= |value| ==> (k <= h <==> ByteLength(value[..k]) <= maxBytes)
  }

  /** No longer suffix fits. */
  predicate LongestTail(value: Text, t: nat, maxBytes: nat) {
    t <= |value| && forall k :: 0 <= k <= |value| ==> (|value| - k <= t <==> ByteLength(value[k..]) <= maxBytes)
  }

  lemma HeadExactly(value: Text, maxBytes: nat) returns (h: nat)
    ensures LongestHead(value, h, maxBytes) && HeadOf(value, maxBytes) == value[..h]
  {
    h := |HeadOf(value, maxBytes)|;
    HeadOfIsPrefix(value, maxBytes);
    forall k | 0 <= k <= |value|
      ensures k <= h <==> ByteLength(value[..k]) <= maxBytes
    {
      HeadOfIsLongest(value, maxBytes, k);
    }
  }

  lemma TailExactly(value: Text, maxBytes: nat) returns (t: nat)
    ensures LongestTail(value, t, maxBytes) && TailOf(value, maxBytes) == value[|value| - t..]
  {
    t := |TailOf(value, maxBytes)|;
    TailOfIsSuffix(value, maxBytes);
    forall k | 0 <= k <= |value|
      ensures |value| - k <= t <==> ByteLength(value[k..]) <= maxBytes
    {
      TailOfIsLongest(value, maxBytes, |value| - k);
      assert value[|value| - (|value| - k)..] == value[k..];
    }
  }

  /** The digits that are the number of bytes of the value. */
  predicate NamesSize(digits: Text, value: Text) {
    ValueOf(digits) == ByteLength(value) && forall i :: 0 <= i < |digits| ==> 0x30 <= digits[i] <= 0x39
  }

  /** Ends that together have a smaller budget than the text share no unit of it. */
  lemma EndsExactly(value: Text, headBytes: nat, tailBytes: nat) returns (h: nat, t: nat)
    requires headBytes + tailBytes < ByteLength(value)
    ensures h + t < |value| && LongestHead(value, h, headBytes) && LongestTail(value, t, tailBytes)
    ensures HeadOf(value, headBytes) == value[..h] && TailOf(value, tailBytes) == value[|value| - t..]
  {
    h := HeadExactly(value, headBytes);
    t := TailExactly(value, tailBytes);
    LightEndsAreDisjoint(value, h, t);
  }

  /** A text over its budget is cut: the marker names its size, and the longest head and the longest
      tail that fit half of the rest each, which share no unit of it, stand around the marker. */
  lemma CutTextExactly(value: Text, maxBytes: nat) returns (digits: Text, h: nat, t: nat)
    requires ByteLength(value) > maxBytes > ByteLength(Marker(ByteLength(value)))
    ensures NamesSize(digits, value)
    ensures var marker := MARKER_HEAD + digits + MARKER_TAIL;
            var available := maxBytes - ByteLength(marker);
            && available > 0 && h + t < |value|
            && BoundText(value, maxBytes) == value[..h] + marker + value[|value| - t..]
            && LongestHead(value, h, (available + 1) / 2) && LongestTail(value, t, available / 2)
  {
    digits := Decimal(ByteLength(value));
    DecimalIsRead(ByteLength(value));
    var marker := Marker(ByteLength(value));
    var available := maxBytes - ByteLength(marker);
    h, t := EndsExactly(value, (available + 1) / 2, available / 2);
  }

  /** When the marker fills the budget, as much of it as fits is all there is. */
  lemma CutMarkerExactly(value: Text, maxBytes: nat) returns (digits: Text, h: nat)
    requires ByteLength(value) > maxBytes && ByteLength(Marker(ByteLength(value))) >= maxBytes
    ensures NamesSize(digits, value)
    ensures var marker := MARKER_HEAD + digits + MARKER_TAIL;
            LongestHead(marker, h, maxBytes) && BoundText(value, maxBytes) == marker[..h]
  {
    var marker := Marker(ByteLength(value));
    digits := Decimal(ByteLength(value));
    DecimalIsRead(ByteLength(value));
    h := HeadExactly(marker, maxBytes);
  }

  // ---- boundUnknown ----

  const QUOTE: Unit := 0x22
  const BACKSLASH: Unit := 0x5C

  function HexDigit(d: int): Unit
    requires 0 <= d < 16
  {
    if d < 10 then 0x30 + d else 0x57 + d
  }

  function UnicodeEscape(u: Unit): Text {
    [BACKSLASH, 0x75, HexDigit(u / 0x1000), HexDigit(u / 0x100 % 16), HexDigit(u / 16 % 16), HexDigit(u % 16)]
  }

  function EscapeUnit(u: Unit): Text {
    if u == QUOTE || u == BACKSLASH then [BACKSLASH, u]
    else if u == 0x08 then [BACKSLASH, 0x62]
    else if u == 0x09 then [BACKSLASH, 0x74]
    else if u == 0x0A then [BACKSLASH, 0x6E]
    else if u == 0x0C then [BACKSLASH, 0x66]
    else if u == 0x0D then [BACKSLASH, 0x72]
    else if u < 0x20 || IsHighSurrogate(u) || IsLowSurrogate(u) then UnicodeEscape(u)
    else [u]
  }

  function EscapeUnits(t: Text): Text {
    if t == [] then []
    else if |t| >= 2 && IsHighSurrogate(t[0]) && IsLowSurrogate(t[1]) then t[..2] + EscapeUnits(t[2..])
    else EscapeUnit(t[0]) + EscapeUnits(t[1..])
  }

  /** `JSON.stringify` of a string: section 7 of RFC 8259, with unpaired surrogates escaped. */
  function QuoteJson(t: Text): (r: Text)
    ensures |r| >= 2
  {
    [QUOTE] + EscapeUnits(t) + [QUOTE]
  }

  // `{"__desktopRemoteTruncated":true,"originalBytes":`
  const ORIGINAL_BYTES_KEY: Text := [
    0x7B, 0x22, 0x5F, 0x5F, 0x64, 0x65, 0x73, 0x6B, 0x74, 0x6F, 0x70, 0x52, 0x65, 0x6D,
    0x6F, 0x74, 0x65, 0x54, 0x72, 0x75, 0x6E, 0x63, 0x61, 0x74, 0x65, 0x64, 0x22, 0x3A,
    0x74, 0x72, 0x75, 0x65, 0x2C, 0x22, 0x6F, 0x72, 0x69, 0x67, 0x69, 0x6E, 0x61, 0x6C,
    0x42, 0x79, 0x74, 0x65, 0x73, 0x22, 0x3A
  ]

  // `,"preview":`
  const PREVIEW_KEY: Text := [
    0x2C, 0x22, 0x70, 0x72, 0x65, 0x76, 0x69, 0x65, 0x77, 0x22, 0x3A
  ]

  function TruncatedPrefix(originalBytes: nat): Text {
    ORIGINAL_BYTES_KEY + Decimal(originalBytes) + PREVIEW_KEY
  }

  /** The serialization of `{ __desktopRemoteTruncated: true, originalBytes, preview }`. */
  function Truncated(originalBytes: nat, preview: Text): Text {
    TruncatedPrefix(originalBytes) + QuoteJson(preview) + [0x7D]
  }

  /** The shrinking search for a preview that fits, from `previewBudget` down. */
  function ShrinkPreview(serialized: Text, maxBytes: nat, previewBudget: nat): Text
    decreases previewBudget
  {
    var originalBytes := ByteLength(serialized);
    if previewBudget == 0 then Truncated(originalBytes, [])
    else
      var candidate := Truncated(originalBytes, BoundText(serialized, previewBudget));
      if ByteLength(candidate) <= maxBytes then candidate
      else ShrinkPreview(serialized, maxBytes, previewBudget * 4 / 5)
  }

  function BoundUnknown(serialized: Text, maxBytes: nat): Text {
    if ByteLength(serialized) <= maxBytes then serialized
    else ShrinkPreview(serialized, maxBytes, if maxBytes >= 256 then maxBytes - 256 else 0)
  }

  method BoundUnknownLoop(serialized: Text, maxBytes: nat) returns (r: Text)
    ensures r == BoundUnknown(serialized, maxBytes)
  {
    var originalBytes := ByteLength(serialized);
    if originalBytes <= maxBytes {
      return serialized;
    }
    var previewBudget := if maxBytes >= 256 then maxBytes - 256 else 0;
    while previewBudget > 0
      invariant previewBudget >= 0
      invariant BoundUnknown(serialized, maxBytes) == ShrinkPreview(serialized, maxBytes, previewBudget)
    {
      var candidate := Truncated(originalBytes, BoundText(serialized, previewBudget));
      if ByteLength(candidate) <= maxBytes {
        return candidate;
      }
      previewBudget := previewBudget * 4 / 5;
    }
    return Truncated(originalBytes, []);
  }

  /** The empty preview is the smallest candidate. */
  lemma {:induction false} TruncatedGrows(originalBytes: nat, preview: Text)
    ensures ByteLength(Truncated(originalBytes, [])) <= ByteLength(Truncated(originalBytes, preview))
  {
    var front := TruncatedPrefix(originalBytes) + [QUOTE];
    var back := [QUOTE] + [0x7D];
    var body := EscapeUnits(preview);
    assert EscapeUnits([]) == [];
    assert Truncated(originalBytes, []) == front + back;
    assert Truncated(originalBytes, preview) == front + body + back;
    ByteLengthConcat(front, back);
    ByteLengthConcat(front, body);
    ByteLengthConcat(front + body, back);
  }

  lemma {:induction false} ShrinkPreviewFits(serialized: Text, maxBytes: nat, previewBudget: nat)
    ensures ByteLength(ShrinkPreview(serialized, maxBytes, previewBudget)) <= maxBytes
            <==> ByteLength(Truncated(ByteLength(serialized), [])) <= maxBytes
    decreases previewBudget
  {
    if previewBudget == 0 {
    } else {
      TruncatedGrows(ByteLength(serialized), BoundText(serialized, previewBudget));
      ShrinkPreviewFits(serialized, maxBytes, previewBudget * 4 / 5);
    }
  }

  /** `boundUnknown` keeps its budget exactly when the value already fits or the budget has room
      for the record with an empty preview. */
  lemma BoundUnknownFits(serialized: Text, maxBytes: nat)
    ensures ByteLength(BoundUnknown(serialized, maxBytes)) <= maxBytes
            <==> ByteLength(serialized) <= maxBytes || ByteLength(Truncated(ByteLength(serialized), [])) <= maxBytes
  {
    ShrinkPreviewFits(serialized, maxBytes, if maxBytes >= 256 then maxBytes - 256 else 0);
  }

  /** The budgets that `boundUnknown` tries for the preview, one after the other. */
  function PreviewBudget(maxBytes: nat, k: nat): nat {
    if k == 0 then (if maxBytes >= 256 then maxBytes - 256 else 0) else PreviewBudget(maxBytes, k - 1) * 4 / 5
  }

  /** The record with the preview that the `k`th budget allows. */
  function Candidate(serialized: Text, maxBytes: nat, k: nat): Text {
    var budget := PreviewBudget(maxBytes, k);
    Truncated(ByteLength(serialized), if budget == 0 then [] else BoundText(serialized, budget))
  }

  /** Such a budget is the last when its record fits or when it is zero. */
  predicate IsLast(serialized: Text, maxBytes: nat, k: nat) {
    PreviewBudget(maxBytes, k) == 0 || ByteLength(Candidate(serialized, maxBytes, k)) <= maxBytes
  }

  /** A value over its budget becomes the record with the first preview that fits. */
  lemma PreviewIsTheFirstThatFits(serialized: Text, maxBytes: nat) returns (k: nat)
    requires ByteLength(serialized) > maxBytes
    ensures BoundUnknown(serialized, maxBytes) == Candidate(serialized, maxBytes, k)
    ensures IsLast(serialized, maxBytes, k) && forall j :: 0 <= j < k ==> !IsLast(serialized, maxBytes, j)
  {
    k := FirstThatFits(serialized, maxBytes, 0);
  }

  lemma {:induction false} FirstThatFits(serialized: Text, maxBytes: nat, from: nat) returns (k: nat)
    requires forall j :: 0 <= j < from ==> !IsLast(serialized, maxBytes, j)
    ensures ShrinkPreview(serialized, maxBytes, PreviewBudget(maxBytes, from)) == Candidate(serialized, maxBytes, k)
    ensures IsLast(serialized, maxBytes, k) && forall j :: 0 <= j < k ==> !IsLast(serialized, maxBytes, j)
    decreases PreviewBudget(maxBytes, from)
  {
    k := from;
    if !IsLast(serialized, maxBytes, from) {
      k := FirstThatFits(serialized, maxBytes, from + 1);
    }
  }

  function Pow10(k: nat): (p: nat)
    ensures p >= 1
  {
    if k == 0 then 1 else 10 * Pow10(k - 1)
  }

  lemma {:induction false} DecimalDigits(n: nat, k: nat)
    requires 1 <= k && n < Pow10(k)
    ensures |Decimal(n)| <= k
  {
    if n < 10 {
    } else {
      assert k >= 2 by { assert Pow10(1) == 10 * Pow10(0); }
      DecimalDigits(n / 10, k - 1);
    }
  }

  /** ECMAScript strings have fewer than 2^53 units. */
  const MAX_STRING_UNITS: nat := 0x20_0000_0000_0000

  /** Within ECMAScript's string length, 256 bytes are enough for `boundUnknown` to keep its budget. */
  lemma BoundUnknownFitsStrings(serialized: Text, maxBytes: nat)
    requires |serialized| < MAX_STRING_UNITS && maxBytes >= 256
    ensures ByteLength(BoundUnknown(serialized, maxBytes)) <= maxBytes
    ensures BoundUnknown(BoundUnknown(serialized, maxBytes), maxBytes) == BoundUnknown(serialized, maxBytes)
  {
    var n := ByteLength(serialized);
    LeastBytes(serialized);
    assert Pow10(17) == 100_000_000_000_000_000 by { PowersOfTen(); }
    DecimalDigits(n, 17);
    assert EscapeUnits([]) == [];
    LeastBytes(Truncated(n, []));
    BoundUnknownFits(serialized, maxBytes);
  }

  lemma PowersOfTen()
    ensures Pow10(17) == 100_000_000_000_000_000
  {
    assert Pow10(4) == 10_000;
    assert Pow10(8) == 100_000_000;
    assert Pow10(12) == 1_000_000_000_000;
    assert Pow10(16) == 10_000_000_000_000_000;
  }
}
