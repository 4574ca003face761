/** Most-specific-match pricing. Prices and weights are exact; trimming and upper-casing are parameters. */
module Valuation {
  import opened Prelude

  datatype Entry = Entry(
    lab: Option<string>,
    shape: Option<string>,
    weightBandCode: Option<string>,
    color: Option<string>,
    clarity: Option<string>,
    pricePerCarat: real)

  /** A stone; its weight is None when it is not a finite number. */
  datatype Stone = Stone(
    lab: Option<string>,
    shape: Option<string>,
    weightBandCode: Option<string>,
    color: Option<string>,
    clarity: Option<string>,
    weight: Option<real>)

  datatype Text = Text(trim: string -> string, upper: string -> string)

  // ----- Loading the price entries -----

  /** One element of the configured `prices`: fields that are not strings count as None, and so does a
      price that is not a finite number. */
  datatype RawPrice = NotAnObject | RawPrice(
    lab: Option<string>,
    shape: Option<string>,
    weightBandCode: Option<string>,
    color: Option<string>,
    clarity: Option<string>,
    price: Option<real>)

  function Str(text: Text, v: Option<string>): Option<string> {
    if v.Some? && text.trim(v.value) != "" then Some(text.trim(v.value)) else None
  }

  function Upper(text: Text, v: Option<string>): Option<string> {
    if v.Some? then Some(text.upper(v.value)) else None
  }

  predicate Usable(raw: RawPrice) {
    raw.RawPrice? && raw.price.Some? && raw.price.value > 0.0
  }

  function ToEntry(text: Text, raw: RawPrice): Entry
    requires Usable(raw)
  {
    Entry(Str(text, raw.lab), Upper(text, Str(text, raw.shape)), Str(text, raw.weightBandCode),
          Upper(text, Str(text, raw.color)), Upper(text, Str(text, raw.clarity)), raw.price.value)
  }

  function Loaded(text: Text, raws: seq<RawPrice>): seq<Entry> {
    if raws == [] then [] else
      var earlier, last := Loaded(text, raws[..|raws| - 1]), raws[|raws| - 1];
      if Usable(last) then earlier + [ToEntry(text, last)] else earlier
  }

  method LoadEntries(text: Text, raws: seq<RawPrice>) returns (entries: seq<Entry>)
    ensures entries == Loaded(text, raws)
    ensures entries == [] <==> forall i :: 0 <= i < |raws| ==> !Usable(raws[i])
  {
    entries := [];
    for i := 0 to |raws|
      invariant entries == Loaded(text, raws[..i])
      invariant entries == [] <==> forall k :: 0 <= k < i ==> !Usable(raws[k])
    {
      assert raws[..i + 1][..i] == raws[..i];
      if !Usable(raws[i]) {
        continue;
      }
      entries := entries + [ToEntry(text, raws[i])];
    }
    assert raws[..|raws|] == raws;
  }

  function IsUsable(): RawPrice -> bool { (raw: RawPrice) => Usable(raw) }

  /** The loaded entries are the usable prices, one for one and in their order, each with its own price. */
  lemma {:induction false} LoadedIsEveryUsablePrice(text: Text, raws: seq<RawPrice>)
    ensures
      var usable := Filter(raws, IsUsable());
      |Loaded(text, raws)| == |usable|
      && forall i :: 0 <= i < |usable| ==>
        Usable(usable[i]) && Loaded(text, raws)[i] == ToEntry(text, usable[i])
        && Some(Loaded(text, raws)[i].pricePerCarat) == usable[i].price
    decreases |raws|
  {
    if raws != [] {
      var earlier, last := raws[..|raws| - 1], raws[|raws| - 1];
      LoadedIsEveryUsablePrice(text, earlier);
      assert raws == earlier + [last];
      FilterConcat(earlier, [last], IsUsable());
      assert [last][1..] == [];
    }
  }

  // ----- Valuing a stone -----

  datatype Status = Configured | NotConfigured

  datatype Policy = Policy(status: Status, entries: seq<Entry>)

  datatype Result =
    | Valued(value: real, pricePerCarat: real)
    | PolicyNotConfigured
    | NoMatchingPrice
    | InvalidWeight

  function Trimmed(text: Text, v: Option<string>): Option<string> {
    if v.Some? then Some(text.trim(v.value)) else None
  }

  function Normalized(text: Text, stone: Stone): Stone {
    Stone(Trimmed(text, stone.lab), Upper(text, Trimmed(text, stone.shape)), Trimmed(text, stone.weightBandCode),
          Upper(text, Trimmed(text, stone.color)), Upper(text, Trimmed(text, stone.clarity)), stone.weight)
  }

  predicate Matches(e: Entry, s: Stone) {
    (e.lab.Some? ==> e.lab == s.lab) && (e.shape.Some? ==> e.shape == s.shape)
    && (e.weightBandCode.Some? ==> e.weightBandCode == s.weightBandCode)
    && (e.color.Some? ==> e.color == s.color) && (e.clarity.Some? ==> e.clarity == s.clarity)
  }

  function Bit(v: Option<string>, weight: int): int { if v.Some? then weight else 0 }

  function Score(e: Entry): int {
    Bit(e.lab, 16) + Bit(e.shape, 8) + Bit(e.weightBandCode, 4) + Bit(e.color, 2) + Bit(e.clarity, 1)
  }

  function ScoreOf(best: Option<Entry>): int { if best.Some? then Score(best.value) else -1 }

  function Best(entries: seq<Entry>, s: Stone): Option<Entry> {
    if entries == [] then None else
      var earlier, last := Best(entries[..|entries| - 1], s), entries[|entries| - 1];
      if Matches(last, s) && Score(last) > ScoreOf(earlier) then Some(last) else earlier
  }

  /** Weight times price, rounded to cents. */
  function Estimate(weight: real, pricePerCarat: real): real {
    JsRound(weight * pricePerCarat * 100.0) as real / 100.0
  }

  function ValueOf(text: Text, stone: Stone, policy: Policy): Result {
    if policy.status.NotConfigured? then PolicyNotConfigured
    else if stone.weight.None? || stone.weight.value <= 0.0 then InvalidWeight
    else
      var best := Best(policy.entries, Normalized(text, stone));
      if best.None? then NoMatchingPrice
      else Valued(Estimate(stone.weight.value, best.value.pricePerCarat), best.value.pricePerCarat)
  }

  method ValueStone(text: Text, stone: Stone, policy: Policy) returns (result: Result)
    ensures result == ValueOf(text, stone, policy)
  {
    if policy.status.NotConfigured? {
      return PolicyNotConfigured;
    }
    if stone.weight.None? || stone.weight.value <= 0.0 {
      return InvalidWeight;
    }
    var s := Normalized(text, stone);
    var best: Option<Entry> := None;
    var bestScore := -1;
    for i := 0 to |policy.entries|
      invariant best == Best(policy.entries[..i], s) && bestScore == ScoreOf(best)
    {
      var e := policy.entries[i];
      assert policy.entries[..i + 1][..i] == policy.entries[..i];
      assert Best(policy.entries[..i + 1], s) == if Matches(e, s) && Score(e) > bestScore then Some(e) else best;
      var score := 0;
      if e.lab.Some? {
        if e.lab != s.lab { continue; }
        score := score + 16;
      }
      if e.shape.Some? {
        if e.shape != s.shape { continue; }
        score := score + 8;
      }
      if e.weightBandCode.Some? {
        if e.weightBandCode != s.weightBandCode { continue; }
        score := score + 4;
      }
      if e.color.Some? {
        if e.color != s.color { continue; }
        score := score + 2;
      }
      if e.clarity.Some? {
        if e.clarity != s.clarity { continue; }
        score := score + 1;
      }
      assert Matches(e, s) && score == Score(e);
      if score > bestScore {
        best := Some(e);
        bestScore := score;
      }
    }
    assert policy.entries[..|policy.entries|] == policy.entries;
    assert best == Best(policy.entries, Normalized(text, stone));
    if best.None? {
      return NoMatchingPrice;
    }
    var price := best.value.pricePerCarat;
    result := Valued(Estimate(stone.weight.value, price), price);
  }

  // ----- The score is a lexicographic order -----

  function Flags(e: Entry): seq<bool> {
    [e.lab.Some?, e.shape.Some?, e.weightBandCode.Some?, e.color.Some?, e.clarity.Some?]
  }

  /** At the first field that only one of the two fixes, `b` fixes it. */
  predicate LessSpecific(a: seq<bool>, b: seq<bool>)
    requires |a| == |b|
  {
    a != [] && if a[0] != b[0] then b[0] else LessSpecific(a[1..], b[1..])
  }

  function Power(n: nat): int { if n == 0 then 1 else 2 * Power(n - 1) }

  function Worth(flags: seq<bool>): int {
    if flags == [] then 0 else (if flags[0] then Power(|flags| - 1) else 0) + Worth(flags[1..])
  }

  lemma {:induction false} WorthIsBounded(flags: seq<bool>)
    ensures 0 <= Worth(flags) < Power(|flags|)
  {
    if flags != [] {
      WorthIsBounded(flags[1..]);
    }
  }

  lemma {:induction false} WorthIsLexicographic(a: seq<bool>, b: seq<bool>)
    requires |a| == |b|
    ensures Worth(a) < Worth(b) <==> LessSpecific(a, b)
    ensures Worth(a) == Worth(b) <==> a == b
  {
    if a != [] {
      WorthIsBounded(a[1..]);
      WorthIsBounded(b[1..]);
      WorthIsLexicographic(a[1..], b[1..]);
      assert a == [a[0]] + a[1..] && b == [b[0]] + b[1..];
    }
  }

  lemma ScoreIsWorth(e: Entry)
    ensures Score(e) == Worth(Flags(e))
  {
    var f := Flags(e);
    assert Power(4) == 16 && Power(3) == 8 && Power(2) == 4;
    var f1 := f[1..];
    var f2 := f1[1..];
    var f3 := f2[1..];
    var f4 := f3[1..];
    assert f4[1..] == [];
    assert Worth(f4) == if f4[0] then 1 else 0;
    assert Worth(f3) == (if f3[0] then 2 else 0) + Worth(f4);
    assert Worth(f2) == (if f2[0] then 4 else 0) + Worth(f3);
    assert Worth(f1) == (if f1[0] then 8 else 0) + Worth(f2);
  }

  predicate SamePattern(a: Entry, b: Entry) {
    a.lab == b.lab && a.shape == b.shape && a.weightBandCode == b.weightBandCode && a.color == b.color && a.clarity == b.clarity
  }

  /** The score compares entries by lab, then shape, band, color and clarity; and two entries that match
      the same stone tie only if all five fields are identical. */
  lemma ScoreOrdersBySpecificity(a: Entry, b: Entry, s: Stone)
    requires Matches(a, s) && Matches(b, s)
    ensures Score(a) < Score(b) <==> LessSpecific(Flags(a), Flags(b))
    ensures Score(a) == Score(b) <==> SamePattern(a, b)
  {
    ScoreIsWorth(a);
    ScoreIsWorth(b);
    WorthIsLexicographic(Flags(a), Flags(b));
    var fa, fb := Flags(a), Flags(b);
    assert fa == fb <==> fa[0] == fb[0] && fa[1] == fb[1] && fa[2] == fb[2] && fa[3] == fb[3] && fa[4] == fb[4];
  }

  // ----- The result is the first most specific match -----

  predicate IsFirstMostSpecific(entries: seq<Entry>, s: Stone, i: int) {
    0 <= i < |entries| && Matches(entries[i], s)
    && (forall j :: 0 <= j < i && Matches(entries[j], s) ==> LessSpecific(Flags(entries[j]), Flags(entries[i])))
    && (forall j :: i < j < |entries| && Matches(entries[j], s) ==> !LessSpecific(Flags(entries[i]), Flags(entries[j])))
  }

  predicate IsFirstMax(entries: seq<Entry>, s: Stone, i: int) {
    0 <= i < |entries| && Matches(entries[i], s)
    && (forall j :: 0 <= j < i && Matches(entries[j], s) ==> Score(entries[j]) < Score(entries[i]))
    && (forall j :: i < j < |entries| && Matches(entries[j], s) ==> Score(entries[j]) <= Score(entries[i]))
  }

  predicate AnyMatches(entries: seq<Entry>, s: Stone) {
    exists i :: 0 <= i < |entries| && Matches(entries[i], s)
  }

  lemma {:induction false} BestIsFirstMax(entries: seq<Entry>, s: Stone) returns (i: int)
    ensures Best(entries, s).Some? <==> AnyMatches(entries, s)
    ensures Best(entries, s).Some? ==> IsFirstMax(entries, s, i) && Best(entries, s) == Some(entries[i])
    decreases |entries|
  {
    i := -1;
    if entries != [] {
      var n := |entries| - 1;
      var earlier := entries[..n];
      i := BestIsFirstMax(earlier, s);
      assert forall j :: 0 <= j < n ==> entries[j] == earlier[j];
      if Matches(entries[n], s) && Score(entries[n]) > ScoreOf(Best(earlier, s)) {
        i := n;
      }
    }
  }

  lemma FirstMaxIsFirstMostSpecific(entries: seq<Entry>, s: Stone, i: int)
    requires IsFirstMax(entries, s, i)
    ensures IsFirstMostSpecific(entries, s, i)
  {
    forall j | 0 <= j < |entries| && Matches(entries[j], s)
      ensures Score(entries[j]) < Score(entries[i]) <==> LessSpecific(Flags(entries[j]), Flags(entries[i]))
      ensures Score(entries[i]) < Score(entries[j]) <==> LessSpecific(Flags(entries[i]), Flags(entries[j]))
    {
      ScoreOrdersBySpecificity(entries[j], entries[i], s);
      ScoreOrdersBySpecificity(entries[i], entries[j], s);
    }
  }

  lemma EstimateIsNear(weight: real, pricePerCarat: real)
    ensures -0.005 <= Estimate(weight, pricePerCarat) - weight * pricePerCarat <= 0.005
  {
    var x := weight * pricePerCarat;
    var r := JsRound(x * 100.0) as real;
    assert r <= x * 100.0 + 0.5 < r + 1.0;
  }

  /** A valued stone got the price of the first entry that is most specific among the matching ones, and
      its value is within half a cent of weight times price; a stone is left unvalued, with the reason named, exactly
      when the policy is not configured, else when the weight is not positive, else when no entry matches. */
  lemma ValueMeans(text: Text, stone: Stone, policy: Policy)
    ensures
      var result := ValueOf(text, stone, policy);
      var s := Normalized(text, stone);
      && (result.Valued? <==>
            policy.status.Configured? && stone.weight.Some? && stone.weight.value > 0.0 && AnyMatches(policy.entries, s))
      && (result.PolicyNotConfigured? <==> policy.status.NotConfigured?)
      && (result.InvalidWeight? <==>
            policy.status.Configured? && !(stone.weight.Some? && stone.weight.value > 0.0))
      && (result.Valued? ==>
            && (exists i :: IsFirstMostSpecific(policy.entries, s, i) && policy.entries[i].pricePerCarat == result.pricePerCarat)
            && -0.005 <= result.value - stone.weight.value * result.pricePerCarat <= 0.005)
  {
    var entries, s := policy.entries, Normalized(text, stone);
    var i := BestIsFirstMax(entries, s);
    if ValueOf(text, stone, policy).Valued? {
      FirstMaxIsFirstMostSpecific(entries, s, i);
      EstimateIsNear(stone.weight.value, entries[i].pricePerCarat);
    }
  }

  // ----- Order of the policy -----

  function PriceOf(best: Option<Entry>): Option<real> {
    if best.Some? then Some(best.value.pricePerCarat) else None
  }

  predicate IsTop(entries: seq<Entry>, s: Stone, e: Entry) {
    e in entries && Matches(e, s) && forall j :: 0 <= j < |entries| && Matches(entries[j], s) ==> Score(entries[j]) <= Score(e)
  }

  /** Most specific matches all have the same price. */
  ghost predicate TiesAgree(entries: seq<Entry>, s: Stone) {
    forall a, b :: IsTop(entries, s, a) && IsTop(entries, s, b) ==> a.pricePerCarat == b.pricePerCarat
  }

  lemma BestIsTop(entries: seq<Entry>, s: Stone)
    ensures Best(entries, s).Some? ==> IsTop(entries, s, Best(entries, s).value)
    ensures Best(entries, s).None? <==> forall e :: e in entries ==> !Matches(e, s)
  {
    var i := BestIsFirstMax(entries, s);
  }

  lemma SameEntries(a: seq<Entry>, b: seq<Entry>)
    requires multiset(a) == multiset(b)
    ensures forall e :: e in a <==> e in b
  {
    forall e
      ensures e in a <==> e in b
    {
      assert e in a <==> e in multiset(a);
      assert e in b <==> e in multiset(b);
    }
  }

  lemma TopInEveryOrder(entries: seq<Entry>, order: seq<Entry>, s: Stone, e: Entry)
    requires multiset(order) == multiset(entries) && IsTop(order, s, e)
    ensures IsTop(entries, s, e)
  {
    SameEntries(entries, order);
    forall j | 0 <= j < |entries| && Matches(entries[j], s)
      ensures Score(entries[j]) <= Score(e)
    {
      assert entries[j] in order;
    }
  }

  lemma TopCanComeFirst(entries: seq<Entry>, s: Stone, e: Entry) returns (order: seq<Entry>)
    requires IsTop(entries, s, e)
    ensures multiset(order) == multiset(entries) && Best(order, s) == Some(e)
  {
    var i :| 0 <= i < |entries| && entries[i] == e;
    order := [e] + entries[..i] + entries[i + 1..];
    assert entries == entries[..i] + [e] + entries[i + 1..];
    SameEntries(entries, order);
    assert order[0] == e;
    forall j | 0 <= j < |order| && Matches(order[j], s)
      ensures Score(order[j]) <= Score(e)
    {
      assert order[j] in entries;
    }
    var k := BestIsFirstMax(order, s);
  }

  /** Reordering the policy never changes the price of a stone if and only if its most specific matches
      agree on the price. */
  lemma OrderMattersOnlyForTies(entries: seq<Entry>, s: Stone)
    ensures TiesAgree(entries, s)
      <==> forall order :: multiset(order) == multiset(entries) ==> PriceOf(Best(order, s)) == PriceOf(Best(entries, s))
  {
    if TiesAgree(entries, s) {
      forall order | multiset(order) == multiset(entries)
        ensures PriceOf(Best(order, s)) == PriceOf(Best(entries, s))
      {
        SameEntries(entries, order);
        BestIsTop(entries, s);
        BestIsTop(order, s);
        if Best(order, s).Some? {
          TopInEveryOrder(entries, order, s, Best(order, s).value);
        }
      }
    } else {
      var a, b :| IsTop(entries, s, a) && IsTop(entries, s, b) && a.pricePerCarat != b.pricePerCarat;
      var first := TopCanComeFirst(entries, s, a);
      var second := TopCanComeFirst(entries, s, b);
      assert PriceOf(Best(first, s)) != PriceOf(Best(second, s));
    }
  }

  predicate NoDuplicatePatterns(entries: seq<Entry>) {
    forall i, j :: 0 <= i < j < |entries| ==> !SamePattern(entries[i], entries[j])
  }

  /** In particular a policy without duplicate patterns can be written in any order. */
  lemma DistinctPatternsNeverTie(entries: seq<Entry>, s: Stone)
    requires NoDuplicatePatterns(entries)
    ensures TiesAgree(entries, s)
  {
    forall a, b | IsTop(entries, s, a) && IsTop(entries, s, b)
      ensures a.pricePerCarat == b.pricePerCarat
    {
      var i :| 0 <= i < |entries| && entries[i] == a;
      var j :| 0 <= j < |entries| && entries[j] == b;
      ScoreOrdersBySpecificity(a, b, s);
      assert SamePattern(entries[i], entries[j]);
    }
  }

  /** A field the price leaves blank, or the same text up to padding. */
  predicate SameTrimmed(text: Text, wanted: Option<string>, given: Option<string>) {
    Str(text, wanted).Some? ==> given.Some? && text.trim(given.value) == text.trim(wanted.value)
  }

  /** A field the price leaves blank, or the same text up to padding and case. */
  predicate SameUpper(text: Text, wanted: Option<string>, given: Option<string>) {
    Str(text, wanted).Some? ==> given.Some? && text.upper(text.trim(given.value)) == text.upper(text.trim(wanted.value))
  }

  /** A configured price applies to a stone whatever padding either of them has, and whatever case their
      shape, color and clarity have: only the normalized texts are compared. */
  lemma LoadedEntryMatchesNormalizedText(text: Text, raw: RawPrice, stone: Stone)
    requires Usable(raw)
    ensures Matches(ToEntry(text, raw), Normalized(text, stone)) <==>
      && SameTrimmed(text, raw.lab, stone.lab) && SameUpper(text, raw.shape, stone.shape)
      && SameTrimmed(text, raw.weightBandCode, stone.weightBandCode)
      && SameUpper(text, raw.color, stone.color) && SameUpper(text, raw.clarity, stone.clarity)
  {
  }
}
