/** Model of src/core/response-budget.ts: pruning a JSON value to a byte budget. */
module ResponseBudget {
  import opened JavaScript
  import opened Wrappers
  import opened TextBounds

  // Values are finite JSON trees; `undefined`, big integers, functions and cycles are not part of
  // this model. An object is the list of its members in key order, with distinct keys.

  datatype Json =
    | Null
    | Bool(b: bool)
    | Number(printed: Text)
    | Str(text: Text)
    | Arr(items: seq<Json>)
    | Obj(members: seq<Member>)

  datatype Member = Member(key: Text, value: Json)

  // ---- The exact size ----

  /** The size the estimator aims at; string escapes are not counted. */
  function Size(v: Json): (n: nat)
    decreases v
  {
    match v
    case Null => 4
    case Bool(b) => if b then 4 else 5
    case Number(printed) => |printed|
    case Str(text) => ByteLength(text) + 2
    case Arr(items) => 2 + ItemsSize(items, |items|)
    case Obj(members) => 2 + MembersSize(members, |members|)
  }

  /** The first `n` items with the commas between them. */
  function ItemsSize(items: seq<Json>, n: nat): nat
    requires n <= |items|
    decreases items, n
  {
    if n == 0 then 0 else ItemsSize(items, n - 1) + Size(items[n - 1]) + if n > 1 then 1 else 0
  }

  function MembersSize(members: seq<Member>, n: nat): nat
    requires n <= |members|
    decreases members, n
  {
    if n == 0 then 0 else MembersSize(members, n - 1) + MemberSize(members[n - 1]) + if n > 1 then 1 else 0
  }

  function MemberSize(m: Member): nat
    decreases m
  {
    ByteLength(QuoteJson(m.key)) + 1 + Size(m.value)
  }

  lemma {:induction false} ItemsSizeMonotone(items: seq<Json>, i: nat, j: nat)
    requires i <= j <= |items|
    ensures ItemsSize(items, i) <= ItemsSize(items, j)
    decreases j
  {
    if i == j {
    } else {
      ItemsSizeMonotone(items, i, j - 1);
    }
  }

  lemma {:induction false} MembersSizeMonotone(members: seq<Member>, i: nat, j: nat)
    requires i <= j <= |members|
    ensures MembersSize(members, i) <= MembersSize(members, j)
    decreases j
  {
    if i == j {
    } else {
      MembersSizeMonotone(members, i, j - 1);
    }
  }

  /** `estimate`: stops early, and agrees with the exact size up to the limit. */
  method Estimate(value: Json, limit: nat) returns (r: nat)
    ensures Size(value) <= limit ==> r == Size(value)
    ensures Size(value) > limit ==> r > limit
    ensures value.Number? ==> r == Size(value)
    decreases value
  {
    match value {
      case Str(text) => r := Min(limit + 1, ByteLength(text) + 2);
      case Null => r := 4;
      case Bool(b) => r := if b then 4 else 5;
      case Number(printed) => r := |printed|;
      case Arr(items) =>
        var total := 2;
        for index := 0 to |items|
          invariant total == 2 + ItemsSize(items, index) + if 0 < index < |items| then 1 else 0
          invariant index == |items| > 0 ==> total <= limit
        {
          var n := Estimate(items[index], Max(0, limit - total));
          total := total + n;
          ItemsSizeMonotone(items, index + 1, |items|);
          if total > limit {
            return limit + 1;
          }
          if index < |items| - 1 {
            total := total + 1;
          }
        }
        r := total;
      case Obj(members) =>
        var total := 2;
        for index := 0 to |members|
          invariant total == 2 + MembersSize(members, index) + if 0 < index then 1 else 0
          invariant index > 0 ==> total <= limit + 1
        {
          var m := members[index];
          total := total + ByteLength(QuoteJson(m.key));
          total := total + 1;
          var n := Estimate(m.value, Max(0, limit - total));
          total := total + n;
          MembersSizeMonotone(members, index + 1, |members|);
          if total > limit {
            return limit + 1;
          }
          total := total + 1;
        }
        r := if total > 2 then total - 1 else total;
    }
  }

  // ---- Budgets ----

  datatype Options = Options(maxBytes: Option<int>, maxItems: Option<int>, maxProperties: Option<int>, maxStringBytes: Option<int>)

  datatype Budget = Budget(maxBytes: nat, maxItems: nat, maxProperties: nat, maxStringBytes: nat)

  function PositiveInteger(value: Option<int>, fallback: nat): nat {
    if value.Some? && 0 < value.value <= MAX_SAFE_INTEGER then value.value else fallback
  }

  function NormalizeBudget(options: Options): Budget {
    var maxBytes := PositiveInteger(options.maxBytes, 64 * 1024);
    Budget(maxBytes, PositiveInteger(options.maxItems, 256), PositiveInteger(options.maxProperties, 128),
           Min(PositiveInteger(options.maxStringBytes, 16 * 1024), Max(1, maxBytes - 2)))
  }

  // ---- Strings ----

  const ELLIPSIS: Unit := 0x2026

  function TruncateUtf8(value: Text, maxBytes: nat): Text {
    if maxBytes < 1 then []
    else if ByteLength(value) <= maxBytes then value
    else HeadOf(value, Max(0, maxBytes - 3)) + [ELLIPSIS]
  }

  method TruncateUtf8Loop(value: Text, maxBytes: nat) returns (r: Text)
    ensures r == TruncateUtf8(value, maxBytes)
  {
    if maxBytes < 1 {
      return [];
    }
    if ByteLength(value) <= maxBytes {
      return value;
    }
    var contentLimit := Max(0, maxBytes - ByteLength([ELLIPSIS]));
    var low, high := 0, |value|;
    while low < high
      invariant 0 <= low <= |HeadOf(value, contentLimit)| <= high <= |value|
    {
      var middle := (low + high + 1) / 2;
      HeadOfIsLongest(value, contentLimit, middle);
      if ByteLength(value[..middle]) <= contentLimit {
        low := middle;
      } else {
        high := middle - 1;
      }
    }
    HeadOfIsPrefix(value, contentLimit);
    assert ByteLength([ELLIPSIS]) == 3;
    assert value[..low] == HeadOf(value, contentLimit);
    r := value[..low] + [ELLIPSIS];
  }

  /** The text in front of the ellipsis and the ellipsis, by their bytes. */
  lemma CutBytes(head: Text)
    ensures ByteLength(head + [ELLIPSIS]) == ByteLength(head) + 3
    ensures head != [] ==> ByteLength(head) >= 1
  {
    ByteLengthConcat(head, [ELLIPSIS]);
    assert ByteLength([ELLIPSIS]) == 3;
    LeastBytes(head);
  }

  lemma NoRoomNoText(value: Text)
    ensures HeadOf(value, 0) == []
  {
    LeastBytes(HeadOf(value, 0));
  }

  /** A text that had to be cut. */
  lemma CutTextIsStable(value: Text, maxBytes: nat)
    requires 0 < maxBytes < ByteLength(value)
    ensures var r := TruncateUtf8(value, maxBytes);
            TruncateUtf8(r, maxBytes) == r && (maxBytes >= 3 ==> ByteLength(r) <= maxBytes)
  {
    if maxBytes >= 3 {
      CutBytes(HeadOf(value, maxBytes - 3));
    } else {
      NoRoomNoText(value);
      NoRoomNoText([ELLIPSIS]);
      assert [] + [ELLIPSIS] == [ELLIPSIS];
    }
  }

  /** A truncated string is left alone the second time. With less room than the ellipsis takes it
      is the ellipsis, over the budget. */
  lemma TruncateUtf8Idempotent(value: Text, maxBytes: nat)
    ensures TruncateUtf8(TruncateUtf8(value, maxBytes), maxBytes) == TruncateUtf8(value, maxBytes)
    ensures maxBytes == 0 || maxBytes >= 3 || ByteLength(value) <= maxBytes ==> ByteLength(TruncateUtf8(value, maxBytes)) <= maxBytes
  {
    if maxBytes < 1 {
      assert ByteLength([]) == 0;
    } else if maxBytes < ByteLength(value) {
      CutTextIsStable(value, maxBytes);
    }
  }

  // ---- Bounded values ----

  function Bound(v: Json, budget: Budget): Json
    decreases v
  {
    match v
    case Str(text) => Str(TruncateUtf8(text, budget.maxStringBytes))
    case Arr(items) => Arr(BoundItems(items, Min(|items|, budget.maxItems), budget))
    case Obj(members) => Obj(BoundMembers(members, Min(|members|, budget.maxProperties), budget))
    case _ => v
  }

  /** The bounded forms of the first items, up to the first one that makes the array too large. */
  function BoundItems(items: seq<Json>, n: nat, budget: Budget): (r: seq<Json>)
    requires n <= |items|
    ensures |r| <= n
    decreases items, n
  {
    if n == 0 then []
    else
      var r := BoundItems(items, n - 1, budget);
      if |r| < n - 1 then r
      else
        var next := r + [Bound(items[n - 1], budget)];
        if Size(Arr(next)) > budget.maxBytes then r else next
  }

  function BoundMembers(members: seq<Member>, n: nat, budget: Budget): (r: seq<Member>)
    requires n <= |members|
    ensures |r| <= n
    decreases members, n
  {
    if n == 0 then []
    else
      var r := BoundMembers(members, n - 1, budget);
      if |r| < n - 1 then r
      else
        var next := r + [BoundMember(members[n - 1], budget)];
        if Size(Obj(next)) > budget.maxBytes then r else next
  }

  function BoundMember(m: Member, budget: Budget): Member
    decreases m
  {
    Member(m.key, Bound(m.value, budget))
  }

  /** A bounded array holds the bounded forms of a prefix of its items, every prefix of it fits,
      and it stops at the item limit or at the first item that does not fit. */
  lemma {:induction false} BoundItemsIsPrefix(items: seq<Json>, n: nat, budget: Budget)
    requires n <= |items|
    ensures var r := BoundItems(items, n, budget);
            && (forall i :: 0 <= i < |r| ==> r[i] == Bound(items[i], budget))
            && (forall k :: 0 < k <= |r| ==> Size(Arr(r[..k])) <= budget.maxBytes)
            && (|r| < n ==> Size(Arr(r + [Bound(items[|r|], budget)])) > budget.maxBytes)
    decreases n
  {
    if n == 0 {
    } else {
      BoundItemsIsPrefix(items, n - 1, budget);
      var r := BoundItems(items, n - 1, budget);
      if |r| == n - 1 {
        Prefixes(r, Bound(items[n - 1], budget));
      }
    }
  }

  lemma Prefixes<X>(r: seq<X>, x: X)
    ensures forall k :: 0 <= k <= |r| ==> (r + [x])[..k] == r[..k]
    ensures (r + [x])[..|r| + 1] == r + [x]
  {
  }

  lemma {:induction false} BoundMembersIsPrefix(members: seq<Member>, n: nat, budget: Budget)
    requires n <= |members|
    ensures var r := BoundMembers(members, n, budget);
            && (forall i :: 0 <= i < |r| ==> r[i] == BoundMember(members[i], budget))
            && (forall k :: 0 < k <= |r| ==> Size(Obj(r[..k])) <= budget.maxBytes)
            && (|r| < n ==> Size(Obj(r + [BoundMember(members[|r|], budget)])) > budget.maxBytes)
    decreases n
  {
    if n == 0 {
    } else {
      BoundMembersIsPrefix(members, n - 1, budget);
      var r := BoundMembers(members, n - 1, budget);
      if |r| == n - 1 {
        Prefixes(r, BoundMember(members[n - 1], budget));
      }
    }
  }

  /** A bounded array or object is within the budget exactly when the budget has room for the
      empty one. */
  lemma BoundFits(v: Json, budget: Budget)
    requires v.Arr? || v.Obj?
    ensures Size(Bound(v, budget)) <= budget.maxBytes <==> budget.maxBytes >= 2
  {
    match v {
      case Arr(items) =>
        var n := Min(|items|, budget.maxItems);
        BoundItemsIsPrefix(items, n, budget);
        var r := BoundItems(items, n, budget);
        assert r[..|r|] == r;
      case Obj(members) =>
        var n := Min(|members|, budget.maxProperties);
        BoundMembersIsPrefix(members, n, budget);
        var r := BoundMembers(members, n, budget);
        assert r[..|r|] == r;
    }
  }

  /** Bounding a second time changes nothing, for every value and every budget. */
  lemma {:induction false} BoundIdempotent(v: Json, budget: Budget)
    ensures Bound(Bound(v, budget), budget) == Bound(v, budget)
    decreases v
  {
    match v {
      case Str(text) => TruncateUtf8Idempotent(text, budget.maxStringBytes);
      case Arr(items) =>
        var n := Min(|items|, budget.maxItems);
        var r := BoundItems(items, n, budget);
        BoundItemsIsPrefix(items, n, budget);
        forall i | 0 <= i < |r|
          ensures Bound(r[i], budget) == r[i]
        {
          BoundIdempotent(items[i], budget);
        }
        BoundedItemsAreKept(r, |r|, budget);
        assert r[..|r|] == r;
      case Obj(members) =>
        var n := Min(|members|, budget.maxProperties);
        var r := BoundMembers(members, n, budget);
        BoundMembersIsPrefix(members, n, budget);
        forall i | 0 <= i < |r|
          ensures BoundMember(r[i], budget) == r[i]
        {
          BoundIdempotent(members[i].value, budget);
        }
        BoundedMembersAreKept(r, |r|, budget);
        assert r[..|r|] == r;
      case _ =>
    }
  }

  lemma {:induction false} BoundedItemsAreKept(r: seq<Json>, n: nat, budget: Budget)
    requires n <= |r| && forall i :: 0 <= i < |r| ==> Bound(r[i], budget) == r[i]
    requires forall k :: 0 < k <= |r| ==> Size(Arr(r[..k])) <= budget.maxBytes
    ensures BoundItems(r, n, budget) == r[..n]
    decreases n
  {
    if n == 0 {
    } else {
      BoundedItemsAreKept(r, n - 1, budget);
      assert r[..n - 1] + [r[n - 1]] == r[..n];
    }
  }

  lemma {:induction false} BoundedMembersAreKept(r: seq<Member>, n: nat, budget: Budget)
    requires n <= |r| && forall i :: 0 <= i < |r| ==> BoundMember(r[i], budget) == r[i]
    requires forall k :: 0 < k <= |r| ==> Size(Obj(r[..k])) <= budget.maxBytes
    ensures BoundMembers(r, n, budget) == r[..n]
    decreases n
  {
    if n == 0 {
    } else {
      BoundedMembersAreKept(r, n - 1, budget);
      assert r[..n - 1] + [r[n - 1]] == r[..n];
    }
  }

  /** What a value must meet to come back untouched. */
  ghost predicate Within(v: Json, budget: Budget)
    decreases v
  {
    match v
    case Str(text) =>
      ByteLength(text) <= budget.maxStringBytes || (text == [ELLIPSIS] && budget.maxStringBytes > 0)
    case Arr(items) =>
      && |items| <= budget.maxItems
      && (items == [] || Size(v) <= budget.maxBytes)
      && forall i :: 0 <= i < |items| ==> Within(items[i], budget)
    case Obj(members) =>
      && |members| <= budget.maxProperties
      && (members == [] || Size(v) <= budget.maxBytes)
      && forall i :: 0 <= i < |members| ==> Within(members[i].value, budget)
    case _ => true
  }

  /** A value is untouched exactly when every string, item count, property count and size in it is
      within the budget. */
  lemma {:induction false} UntouchedExactly(v: Json, budget: Budget)
    ensures Bound(v, budget) == v <==> Within(v, budget)
    decreases v
  {
    match v {
      case Str(text) => TruncateUtf8Untouched(text, budget.maxStringBytes);
      case Arr(items) =>
        forall i | 0 <= i < |items|
          ensures Bound(items[i], budget) == items[i] <==> Within(items[i], budget)
        {
          UntouchedExactly(items[i], budget);
        }
        ItemsUntouched(items, budget);
      case Obj(members) =>
        forall i | 0 <= i < |members|
          ensures BoundMember(members[i], budget) == members[i] <==> Within(members[i].value, budget)
        {
          UntouchedExactly(members[i].value, budget);
        }
        MembersUntouched(members, budget);
      case _ =>
    }
  }

  lemma TruncateUtf8Untouched(text: Text, maxBytes: nat)
    ensures TruncateUtf8(text, maxBytes) == text
            <==> ByteLength(text) <= maxBytes || (text == [ELLIPSIS] && maxBytes > 0)
  {
    LeastBytes(text);
    assert ByteLength([ELLIPSIS]) == 3;
    if 0 < maxBytes < ByteLength(text) {
      var head := HeadOf(text, Max(0, maxBytes - 3));
      ByteLengthConcat(head, [ELLIPSIS]);
      LeastBytes(head);
    }
  }

  lemma ItemsUntouched(items: seq<Json>, budget: Budget)
    ensures BoundItems(items, Min(|items|, budget.maxItems), budget) == items
            <==> && |items| <= budget.maxItems
                 && (items == [] || Size(Arr(items)) <= budget.maxBytes)
                 && forall i :: 0 <= i < |items| ==> Bound(items[i], budget) == items[i]
  {
    var n := Min(|items|, budget.maxItems);
    BoundItemsIsPrefix(items, n, budget);
    assert items[..|items|] == items;
    if && (items == [] || Size(Arr(items)) <= budget.maxBytes)
       && forall i :: 0 <= i < |items| ==> Bound(items[i], budget) == items[i] {
      forall k | 0 < k <= |items|
        ensures Size(Arr(items[..k])) <= budget.maxBytes
      {
        ItemsSizeOfPrefix(items, k, k);
        ItemsSizeMonotone(items, k, |items|);
      }
      BoundedItemsAreKept(items, n, budget);
    }
  }

  lemma MembersUntouched(members: seq<Member>, budget: Budget)
    ensures BoundMembers(members, Min(|members|, budget.maxProperties), budget) == members
            <==> && |members| <= budget.maxProperties
                 && (members == [] || Size(Obj(members)) <= budget.maxBytes)
                 && forall i :: 0 <= i < |members| ==> BoundMember(members[i], budget) == members[i]
  {
    var n := Min(|members|, budget.maxProperties);
    BoundMembersIsPrefix(members, n, budget);
    assert members[..|members|] == members;
    if && (members == [] || Size(Obj(members)) <= budget.maxBytes)
       && forall i :: 0 <= i < |members| ==> BoundMember(members[i], budget) == members[i] {
      forall k | 0 < k <= |members|
        ensures Size(Obj(members[..k])) <= budget.maxBytes
      {
        MembersSizeOfPrefix(members, k, k);
        MembersSizeMonotone(members, k, |members|);
      }
      BoundedMembersAreKept(members, n, budget);
    }
  }

  lemma {:induction false} ItemsSizeOfPrefix(items: seq<Json>, k: nat, n: nat)
    requires n <= k <= |items|
    ensures ItemsSize(items[..k], n) == ItemsSize(items, n)
    decreases n
  {
    if n == 0 {
    } else {
      ItemsSizeOfPrefix(items, k, n - 1);
    }
  }

  lemma {:induction false} MembersSizeOfPrefix(members: seq<Member>, k: nat, n: nat)
    requires n <= k <= |members|
    ensures MembersSize(members[..k], n) == MembersSize(members, n)
    decreases n
  {
    if n == 0 {
    } else {
      MembersSizeOfPrefix(members, k, n - 1);
    }
  }

  // ---- The pruner ----

  /** The flag shared by a whole call. */
  class BoundState {
    var truncated: bool

    constructor (truncated: bool)
      ensures this.truncated == truncated
    {
      this.truncated := truncated;
    }
  }

  /** `boundValue`: the flag is raised exactly when the value comes out changed. */
  method BoundValue(value: Json, budget: Budget, state: BoundState) returns (r: Json)
    modifies state
    ensures r == Bound(value, budget)
    ensures state.truncated == (old(state.truncated) || r != value)
    decreases value, 1
  {
    match value {
      case Str(text) =>
        var bounded := TruncateUtf8Loop(text, budget.maxStringBytes);
        if bounded != text {
          state.truncated := true;
        }
        r := Str(bounded);
      case Arr(items) =>
        var bounded := BoundArray(items, budget, state);
        r := Arr(bounded);
      case Obj(members) =>
        var bounded := BoundObject(members, budget, state);
        r := Obj(bounded);
      case _ =>
        r := value;
    }
  }

  method BoundArray(value: seq<Json>, budget: Budget, state: BoundState) returns (result: seq<Json>)
    modifies state
    ensures result == BoundItems(value, Min(|value|, budget.maxItems), budget)
    ensures state.truncated == (old(state.truncated) || result != value)
    decreases value, 0
  {
    result := [];
    var count := Min(|value|, budget.maxItems);
    if |value| > count {
      state.truncated := true;
    }
    ghost var start := state.truncated;
    for index := 0 to count
      invariant result == BoundItems(value, index, budget) && |result| == index
      invariant state.truncated == (start || result != value[..index])
    {
      var candidate := BoundValue(value[index], budget, state);
      var next := result + [candidate];
      assert value[..index + 1] == value[..index] + [value[index]];
      var size := Estimate(Arr(next), budget.maxBytes);
      if size > budget.maxBytes {
        state.truncated := true;
        BoundItemsStop(value, index + 1, count, budget);
        return;
      }
      result := next;
    }
  }

  /** Once an item did not fit, the later ones do not matter. */
  lemma {:induction false} BoundItemsStop(items: seq<Json>, i: nat, n: nat, budget: Budget)
    requires i <= n <= |items| && |BoundItems(items, i, budget)| < i
    ensures BoundItems(items, n, budget) == BoundItems(items, i, budget)
    decreases n
  {
    if i == n {
    } else {
      BoundItemsStop(items, i, n - 1, budget);
    }
  }

  method BoundObject(value: seq<Member>, budget: Budget, state: BoundState) returns (result: seq<Member>)
    modifies state
    ensures result == BoundMembers(value, Min(|value|, budget.maxProperties), budget)
    ensures state.truncated == (old(state.truncated) || result != value)
    decreases value, 0
  {
    result := [];
    var count := Min(|value|, budget.maxProperties);
    if |value| > count {
      state.truncated := true;
    }
    ghost var start := state.truncated;
    for index := 0 to count
      invariant result == BoundMembers(value, index, budget) && |result| == index
      invariant state.truncated == (start || result != value[..index])
    {
      var m := value[index];
      var candidate := BoundValue(m.value, budget, state);
      var next := result + [Member(m.key, candidate)];
      assert value[..index + 1] == value[..index] + [value[index]];
      var size := Estimate(Obj(next), budget.maxBytes);
      if size > budget.maxBytes {
        state.truncated := true;
        BoundMembersStop(value, index + 1, count, budget);
        return;
      }
      result := next;
    }
  }

  lemma {:induction false} BoundMembersStop(members: seq<Member>, i: nat, n: nat, budget: Budget)
    requires i <= n <= |members| && |BoundMembers(members, i, budget)| < i
    ensures BoundMembers(members, n, budget) == BoundMembers(members, i, budget)
    decreases n
  {
    if i == n {
    } else {
      BoundMembersStop(members, i, n - 1, budget);
    }
  }

  // ---- boundResponse ----

  datatype BoundedResponse = BoundedResponse(value: Json, truncated: bool, originalBytes: nat, bytes: nat)

  /** The bounded value is small enough for the estimator's own default limit. */
  lemma BoundIsSmall(v: Json, options: Options)
    requires !v.Number?
    ensures Size(Bound(v, NormalizeBudget(options))) <= MAX_SAFE_INTEGER
  {
    var budget := NormalizeBudget(options);
    match v {
      case Str(text) =>
        TruncateUtf8Idempotent(text, budget.maxStringBytes);
        var head := HeadOf(text, Max(0, budget.maxStringBytes - 3));
        ByteLengthConcat(head, [ELLIPSIS]);
        assert ByteLength([ELLIPSIS]) == 3;
      case Arr(items) =>
        var r := BoundItems(items, Min(|items|, budget.maxItems), budget);
        BoundItemsIsPrefix(items, Min(|items|, budget.maxItems), budget);
        assert r[..|r|] == r;
      case Obj(members) =>
        var r := BoundMembers(members, Min(|members|, budget.maxProperties), budget);
        BoundMembersIsPrefix(members, Min(|members|, budget.maxProperties), budget);
        assert r[..|r|] == r;
      case _ =>
    }
  }

  /** An array or object comes back within the budget, and is reported truncated exactly when it
      came back changed or the budget has no room for an empty one. */
  method BoundResponse(value: Json, options: Options) returns (r: BoundedResponse)
    ensures r.value == Bound(value, NormalizeBudget(options)) && r.bytes == Size(r.value)
    ensures var maxBytes := NormalizeBudget(options).maxBytes;
            && (Size(value) <= maxBytes ==> r.originalBytes == Size(value))
            && (Size(value) > maxBytes ==> r.originalBytes > maxBytes)
            && (value.Arr? || value.Obj? ==> (r.bytes <= maxBytes <==> maxBytes >= 2))
            && (value.Arr? || value.Obj? ==> (r.truncated <==> r.value != value || maxBytes < 2))
            && (r.truncated <==> r.value != value || Size(value) > maxBytes || r.bytes > maxBytes)
  {
    var budget := NormalizeBudget(options);
    var originalBytes := Estimate(value, budget.maxBytes);
    var state := new BoundState(originalBytes > budget.maxBytes);
    var bounded := BoundValue(value, budget, state);
    if !value.Number? {
      BoundIsSmall(value, options);
    }
    var bytes := Estimate(bounded, MAX_SAFE_INTEGER);
    if value.Arr? || value.Obj? {
      BoundFits(value, budget);
    }
    r := BoundedResponse(bounded, state.truncated || bytes > budget.maxBytes, originalBytes, bytes);
  }
}
