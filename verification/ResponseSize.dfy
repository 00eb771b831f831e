/** How the estimated size of src/core/response-budget.ts relates to the size of the JSON text. */
module ResponseSize {
  import opened JavaScript
  import opened Wrappers
  import opened TextBounds
  import opened ResponseBudget

  // ---- `JSON.stringify` ----

  function Serialize(v: Json): Text
    decreases v
  {
    match v
    case Null => [0x6E, 0x75, 0x6C, 0x6C]
    case Bool(b) => if b then [0x74, 0x72, 0x75, 0x65] else [0x66, 0x61, 0x6C, 0x73, 0x65]
    case Number(printed) => printed
    case Str(text) => QuoteJson(text)
    case Arr(items) => [0x5B] + ItemsText(items, |items|) + [0x5D]
    case Obj(members) => [0x7B] + MembersText(members, |members|) + [0x7D]
  }

  function ItemsText(items: seq<Json>, n: nat): Text
    requires n <= |items|
    decreases items, n
  {
    if n == 0 then [] else ItemsText(items, n - 1) + Comma(n) + Serialize(items[n - 1])
  }

  function MembersText(members: seq<Member>, n: nat): Text
    requires n <= |members|
    decreases members, n
  {
    if n == 0 then [] else MembersText(members, n - 1) + Comma(n) + MemberText(members[n - 1])
  }

  function MemberText(m: Member): Text
    decreases m
  {
    QuoteJson(m.key) + [0x3A] + Serialize(m.value)
  }

  function Comma(n: nat): Text { if n > 1 then [0x2C] else [] }

  /** Numbers are printed in ASCII. */
  ghost predicate Printed(v: Json)
    decreases v
  {
    match v
    case Number(printed) => printed != [] && forall i :: 0 <= i < |printed| ==> printed[i] < 0x80
    case Arr(items) => forall i :: 0 <= i < |items| ==> Printed(items[i])
    case Obj(members) => forall i :: 0 <= i < |members| ==> Printed(members[i].value)
    case _ => true
  }

  /** No string in it has anything to escape; keys do not matter. */
  predicate NoEscapes(v: Json)
    decreases v
  {
    match v
    case Str(text) => EscapeUnits(text) == text
    case Arr(items) => NoneEscapes(items, |items|)
    case Obj(members) => NoMemberEscapes(members, |members|)
    case _ => true
  }

  predicate NoneEscapes(items: seq<Json>, n: nat)
    requires n <= |items|
    decreases items, n
  {
    n == 0 || (NoneEscapes(items, n - 1) && NoEscapes(items[n - 1]))
  }

  predicate NoMemberEscapes(members: seq<Member>, n: nat)
    requires n <= |members|
    decreases members, n
  {
    n == 0 || (NoMemberEscapes(members, n - 1) && NoEscapes(members[n - 1].value))
  }

  // ---- Sizes ----

  /** Texts that do not begin with the second half of a surrogate pair add up. */
  predicate StartsPlain(t: Text) { t != [] && !IsLowSurrogate(t[0]) }

  lemma PlainAdds(a: Text, b: Text)
    requires StartsPlain(b)
    ensures ByteLength(a + b) == ByteLength(a) + ByteLength(b)
  {
    ByteLengthConcat(a, b);
  }

  /** Escaping never shortens a text, and leaves its size alone only if it leaves it alone. */
  lemma {:induction false} EscapeGrows(t: Text)
    ensures ByteLength(t) <= ByteLength(EscapeUnits(t))
    ensures ByteLength(t) == ByteLength(EscapeUnits(t)) <==> EscapeUnits(t) == t
  {
    if t == [] {
    } else if |t| >= 2 && IsHighSurrogate(t[0]) && IsLowSurrogate(t[1]) {
      EscapeGrows(t[2..]);
      assert t == t[..2] + t[2..];
      ByteLengthConcat(t[..2], t[2..]);
      ByteLengthConcat(t[..2], EscapeUnits(t[2..]));
    } else {
      EscapeGrows(t[1..]);
      EscapeUnitGrows(t[0]);
      assert t == [t[0]] + t[1..];
      ByteLengthConcat([t[0]], t[1..]);
      ByteLengthConcat(EscapeUnit(t[0]), EscapeUnits(t[1..]));
    }
  }

  lemma EscapeUnitGrows(u: Unit)
    ensures var e := EscapeUnit(u);
            && e != [] && !IsHighSurrogate(e[|e| - 1])
            && (e == [u] || ByteLength(e) > ByteLength([u]))
  {
    LeastBytes(EscapeUnit(u));
    assert ByteLength([u]) <= 3;
    if u < 0x80 {
      assert ByteLength([u]) == 1;
    }
  }

  lemma QuoteGrows(t: Text)
    ensures StartsPlain(QuoteJson(t)) && ByteLength(t) + 2 <= ByteLength(QuoteJson(t))
    ensures ByteLength(t) + 2 == ByteLength(QuoteJson(t)) <==> EscapeUnits(t) == t
  {
    EscapeGrows(t);
    ByteLengthConcat([QUOTE], EscapeUnits(t));
    PlainAdds([QUOTE] + EscapeUnits(t), [QUOTE]);
    assert ByteLength([QUOTE]) == 1;
  }

  lemma {:induction false} AsciiSize(t: Text)
    requires forall i :: 0 <= i < |t| ==> t[i] < 0x80
    ensures ByteLength(t) == |t|
  {
    if t == [] {
    } else {
      AsciiSize(t[1..]);
    }
  }

  /** A text between two brackets. */
  lemma BracketsAdd(open: Unit, t: Text, close: Unit)
    requires open < 0x80 && close < 0x80
    ensures StartsPlain([open] + t + [close]) && ByteLength([open] + t + [close]) == ByteLength(t) + 2
  {
    ByteLengthConcat([open], t);
    PlainAdds([open] + t, [close]);
    assert ByteLength([open]) == 1 && ByteLength([close]) == 1;
  }

  /** One more element behind a comma. */
  lemma CommaAdds(front: Text, n: nat, t: Text)
    requires StartsPlain(t)
    ensures ByteLength(front + Comma(n) + t) == ByteLength(front) + ByteLength(t) + if n > 1 then 1 else 0
  {
    PlainAdds(front + Comma(n), t);
    if n > 1 {
      PlainAdds(front, Comma(n));
      assert ByteLength([0x2C]) == 1;
    } else {
      assert front + [] == front;
    }
  }

  /** The estimator's size is never more than the size of the JSON text, and is that size if and only
      if no string in the value has anything to escape. */
  lemma {:induction false} SizeExactly(v: Json)
    requires Printed(v)
    ensures StartsPlain(Serialize(v)) && Size(v) <= ByteLength(Serialize(v))
    ensures Size(v) == ByteLength(Serialize(v)) <==> NoEscapes(v)
    decreases v, 0
  {
    match v {
      case Null => AsciiSize(Serialize(v));
      case Bool(_) => AsciiSize(Serialize(v));
      case Number(printed) => AsciiSize(printed);
      case Str(text) => QuoteGrows(text);
      case Arr(items) =>
        ItemsSizeExactly(items, |items|);
        BracketsAdd(0x5B, ItemsText(items, |items|), 0x5D);
      case Obj(members) =>
        MembersSizeExactly(members, |members|);
        BracketsAdd(0x7B, MembersText(members, |members|), 0x7D);
    }
  }

  lemma {:induction false} ItemsSizeExactly(items: seq<Json>, n: nat)
    requires n <= |items| && forall i :: 0 <= i < |items| ==> Printed(items[i])
    ensures ItemsSize(items, n) <= ByteLength(ItemsText(items, n))
    ensures ItemsSize(items, n) == ByteLength(ItemsText(items, n)) <==> NoneEscapes(items, n)
    decreases items, n
  {
    if n == 0 {
    } else {
      ItemsSizeExactly(items, n - 1);
      SizeExactly(items[n - 1]);
      CommaAdds(ItemsText(items, n - 1), n, Serialize(items[n - 1]));
    }
  }

  lemma MemberSizeExactly(m: Member)
    requires Printed(m.value)
    requires StartsPlain(Serialize(m.value)) && Size(m.value) <= ByteLength(Serialize(m.value))
    requires Size(m.value) == ByteLength(Serialize(m.value)) <==> NoEscapes(m.value)
    ensures StartsPlain(MemberText(m)) && MemberSize(m) <= ByteLength(MemberText(m))
    ensures MemberSize(m) == ByteLength(MemberText(m)) <==> NoEscapes(m.value)
  {
    QuoteGrows(m.key);
    PlainAdds(QuoteJson(m.key), [0x3A]);
    PlainAdds(QuoteJson(m.key) + [0x3A], Serialize(m.value));
    assert ByteLength([0x3A]) == 1;
  }

  lemma {:induction false} MembersSizeExactly(members: seq<Member>, n: nat)
    requires n <= |members| && forall i :: 0 <= i < |members| ==> Printed(members[i].value)
    ensures MembersSize(members, n) <= ByteLength(MembersText(members, n))
    ensures MembersSize(members, n) == ByteLength(MembersText(members, n))
            <==> NoMemberEscapes(members, n)
    decreases members, n
  {
    if n == 0 {
    } else {
      MembersSizeExactly(members, n - 1);
      SizeExactly(members[n - 1].value);
      MemberSizeExactly(members[n - 1]);
      CommaAdds(MembersText(members, n - 1), n, MemberText(members[n - 1]));
    }
  }

  // ---- Strings and budgets ----

  /** A string that is cut is the longest prefix that fits beside the ellipsis, and the ellipsis. */
  lemma CutStringExactly(value: Text, maxBytes: nat) returns (h: nat)
    requires 0 < maxBytes < ByteLength(value)
    ensures LongestHead(value, h, if maxBytes >= 3 then maxBytes - 3 else 0)
    ensures TruncateUtf8(value, maxBytes) == value[..h] + [0x2026]
  {
    h := HeadExactly(value, if maxBytes >= 3 then maxBytes - 3 else 0);
  }

  /** A response that is one string fits its budget, from five bytes on: the limit for strings leaves
      room for the quotes. */
  lemma StringResponseFits(text: Text, options: Options)
    ensures var budget := NormalizeBudget(options);
            && budget.maxBytes > 0 && budget.maxItems > 0 && budget.maxProperties > 0 && budget.maxStringBytes > 0
            && (budget.maxBytes >= 5 && budget.maxStringBytes >= 3 ==>
                  Size(Bound(Str(text), budget)) <= budget.maxBytes)
  {
    TruncateUtf8Idempotent(text, NormalizeBudget(options).maxStringBytes);
  }
}
