/** Bundle availability, expansion of bundle lines, and assembly (engines/bundles.go). Money is real, stock is whole units. */
module Bundles {
  import opened Text

  datatype Component = Component(sku: string, qty: int, price: real, weight: real)

  datatype Pricing = ParentPrice | FixedPrice | ComponentPrice

  datatype Bundle = Bundle(sku: string, isVirtual: bool, pricing: Pricing, fixedPrice: real, components: seq<Component>)

  /** What validateProductBundleMasterRules demands of every saved bundle. */
  ghost predicate Saved(b: Bundle)
  {
    && b.components != []
    && (forall i :: 0 <= i < |b.components| ==> b.components[i].qty > 0 && b.components[i].sku != b.sku)
    && (forall i, j :: 0 <= i < j < |b.components| ==> b.components[i].sku != b.components[j].sku)
  }

  // ---- availability ---------------------------------------------------------------------------

  const MAX_INT := 0x7fff_ffff_ffff_ffff

  /** A SKU's units available to sell at one place, never negative (rawSKUATS). */
  type Available = string -> nat

  ghost predicate Covers(cs: seq<Component>, ats: Available, k: int)
  {
    forall i :: 0 <= i < |cs| ==> k * cs[i].qty <= ats(cs[i].sku)
  }

  ghost predicate Positive(cs: seq<Component>) { forall i :: 0 <= i < |cs| ==> cs[i].qty > 0 }

  /** The running minimum of the loop over components. */
  function Scarcest(cs: seq<Component>, ats: Available): int
    requires forall i :: 0 <= i < |cs| ==> cs[i].qty > 0
  {
    if cs == [] then MAX_INT
    else
      var before, c := Scarcest(cs[..|cs| - 1], ats), cs[|cs| - 1];
      if ats(c.sku) / c.qty < before then ats(c.sku) / c.qty else before
  }

  function VirtualATS(cs: seq<Component>, ats: Available): nat
    requires forall i :: 0 <= i < |cs| ==> cs[i].qty > 0
  {
    var k := Scarcest(cs, ats);
    if k == MAX_INT || k < 0 then 0 else k
  }

  lemma RatioIsLargest(k: int, qty: int, a: nat)
    requires qty > 0
    ensures k <= a / qty <==> k * qty <= a
  {
    if k <= a / qty { assert k * qty <= a / qty * qty; }
    if k > a / qty { assert k * qty >= (a / qty + 1) * qty; }
  }

  lemma {:induction false} ScarcestBounds(cs: seq<Component>, ats: Available, k: int)
    requires Positive(cs)
    ensures k <= Scarcest(cs, ats) <==> k <= MAX_INT && Covers(cs, ats, k)
  {
    if cs != [] {
      var n := |cs| - 1;
      ScarcestBounds(cs[..n], ats, k);
      RatioIsLargest(k, cs[n].qty, ats(cs[n].sku));
      assert forall i :: 0 <= i < n ==> cs[..n][i] == cs[i];
    }
  }

  /** What one place can sell of a bundle is the largest number whose parts it all has. */
  lemma VirtualATSIsLargest(cs: seq<Component>, ats: Available, k: nat)
    requires Positive(cs) && cs != [] && ats(cs[0].sku) < MAX_INT
    ensures k <= VirtualATS(cs, ats) <==> Covers(cs, ats, k)
  {
    ScarcestBounds(cs, ats, k);
    ScarcestBounds(cs, ats, 0);
    ScarcestBounds(cs, ats, MAX_INT);
    TooManyIsNotCovered(cs, ats, MAX_INT);
    if k > MAX_INT { TooManyIsNotCovered(cs, ats, k); }
  }

  lemma TooManyIsNotCovered(cs: seq<Component>, ats: Available, k: nat)
    requires Positive(cs) && cs != [] && k > ats(cs[0].sku)
    ensures !Covers(cs, ats, k)
  {
    assert k * cs[0].qty >= k * 1;
  }

  method VirtualBundleATSAtLocation(cs: seq<Component>, ats: Available) returns (r: nat)
    requires forall i :: 0 <= i < |cs| ==> cs[i].qty > 0
    ensures r == VirtualATS(cs, ats)
  {
    var result := MAX_INT;
    for i := 0 to |cs|
      invariant result == Scarcest(cs[..i], ats)
    {
      assert cs[..i + 1][..i] == cs[..i];
      var possible := ats(cs[i].sku) / cs[i].qty;
      if possible < result { result := possible; }
    }
    assert cs[..|cs|] == cs;
    if result == MAX_INT || result < 0 { return 0; }
    r := result;
  }

  // ---- the network figure -----------------------------------------------------------------------

  /** The same figures, place by place. */
  type Network = (string, string) -> nat

  function At(net: Network, place: string): Available { sku => net(sku, place) }

  function NetworkATS(cs: seq<Component>, net: Network, places: seq<string>): nat
    requires forall i :: 0 <= i < |cs| ==> cs[i].qty > 0
  {
    if places == [] then 0
    else NetworkATS(cs, net, places[..|places| - 1]) + VirtualATS(cs, At(net, places[|places| - 1]))
  }

  /** A component's units over all places. */
  function Total(net: Network, sku: string, places: seq<string>): nat
  {
    if places == [] then 0 else Total(net, sku, places[..|places| - 1]) + net(sku, places[|places| - 1])
  }

  method ComputeNetworkATS(cs: seq<Component>, net: Network, places: seq<string>) returns (total: nat)
    requires forall i :: 0 <= i < |cs| ==> cs[i].qty > 0
    ensures total == NetworkATS(cs, net, places)
  {
    total := 0;
    for i := 0 to |places|
      invariant total == NetworkATS(cs, net, places[..i])
    {
      assert places[..i + 1][..i] == places[..i];
      var ats := VirtualBundleATSAtLocation(cs, At(net, places[i]));
      total := total + ats;
    }
    assert places[..|places|] == places;
  }

  lemma VirtualATSIsCovered(cs: seq<Component>, ats: Available, i: nat)
    requires Positive(cs) && i < |cs|
    ensures VirtualATS(cs, ats) * cs[i].qty <= ats(cs[i].sku)
  {
    var k := VirtualATS(cs, ats);
    ScarcestBounds(cs, ats, k);
    ScarcestBounds(cs, ats, 0);
    assert Covers(cs, ats, k);
  }

  /** Bundles are counted whole at one place: the network never promises more than any component's total allows. */
  lemma {:induction false} NetworkWithinEveryRatio(cs: seq<Component>, net: Network, places: seq<string>, i: nat)
    requires Positive(cs) && i < |cs|
    ensures NetworkATS(cs, net, places) * cs[i].qty <= Total(net, cs[i].sku, places)
    ensures NetworkATS(cs, net, places) <= Total(net, cs[i].sku, places) / cs[i].qty
  {
    var n := NetworkATS(cs, net, places);
    if places != [] {
      var place := places[|places| - 1];
      NetworkWithinEveryRatio(cs, net, places[..|places| - 1], i);
      VirtualATSIsCovered(cs, At(net, place), i);
      var before, here := NetworkATS(cs, net, places[..|places| - 1]), VirtualATS(cs, At(net, place));
      assert (before + here) * cs[i].qty == before * cs[i].qty + here * cs[i].qty;
    }
    RatioIsLargest(n, cs[i].qty, Total(net, cs[i].sku, places));
  }

  // ---- expanding a bundle line --------------------------------------------------------------------

  datatype Line = Line(sku: string, qty: int, price: real, bundleSku: string)

  function Value(l: Line): real { l.price * l.qty as real }

  function Values(ls: seq<Line>): real
  {
    if ls == [] then 0.0 else Values(ls[..|ls| - 1]) + Value(ls[|ls| - 1])
  }

  function Weight(c: Component): real { if c.weight <= 0.0 then c.qty as real else c.weight }

  function Weights(cs: seq<Component>): real
  {
    if cs == [] then 0.0 else Weights(cs[..|cs| - 1]) + Weight(cs[|cs| - 1])
  }

  function PriceOfParts(cs: seq<Component>): real
  {
    if cs == [] then 0.0 else PriceOfParts(cs[..|cs| - 1]) + cs[|cs| - 1].price * cs[|cs| - 1].qty as real
  }

  /** What one bundle is sold for. */
  function UnitPrice(b: Bundle, linePrice: real): real
  {
    match b.pricing
    case FixedPrice => b.fixedPrice
    case ComponentPrice => PriceOfParts(b.components)
    case ParentPrice => linePrice
  }

  /** What a bundle line is sold for. */
  function LineTotal(b: Bundle, line: Line): real { UnitPrice(b, line.price) * line.qty as real }

  /** What the first n components together are given; the last one takes whatever is left. */
  function Allocated(cs: seq<Component>, total: real, n: nat): real
    requires n <= |cs| && Weights(cs) != 0.0
    decreases n, 0
  {
    if n == 0 then 0.0 else Allocated(cs, total, n - 1) + Share(cs, total, n - 1)
  }

  function Share(cs: seq<Component>, total: real, i: nat): real
    requires i < |cs| && Weights(cs) != 0.0
    decreases i, 1
  {
    if i == |cs| - 1 then total - Allocated(cs, total, i) else total * Weight(cs[i]) / Weights(cs)
  }

  function Child(b: Bundle, line: Line, i: nat): Line
    requires i < |b.components| && Weights(b.components) != 0.0 && line.qty * b.components[i].qty != 0
  {
    var c := b.components[i];
    var childQty := line.qty * c.qty;
    Line(c.sku, childQty,
         if b.pricing == ComponentPrice then c.price
         else Share(b.components, LineTotal(b, line), i) / childQty as real,
         b.sku)
  }

  function Children(b: Bundle, line: Line, n: nat): seq<Line>
    requires n <= |b.components| && Weights(b.components) != 0.0
    requires forall i :: 0 <= i < n ==> line.qty * b.components[i].qty != 0
  {
    if n == 0 then [] else Children(b, line, n - 1) + [Child(b, line, n - 1)]
  }

  lemma {:induction false} WeightsArePositive(cs: seq<Component>)
    requires cs != [] && Positive(cs)
    ensures Weights(cs) > 0.0
  {
    if |cs| > 1 { WeightsArePositive(cs[..|cs| - 1]); }
  }

  lemma PiecesAreWhole(b: Bundle, qty: int)
    requires Positive(b.components) && qty > 0
    ensures forall i :: 0 <= i < |b.components| ==> qty * b.components[i].qty > 0
  {
    forall i | 0 <= i < |b.components| ensures qty * b.components[i].qty > 0 { ProductPositive(qty, b.components[i].qty); }
  }

  lemma ProductPositive(a: int, b: int)
    requires a > 0 && b > 0
    ensures a * b > 0
  {
  }

  lemma ChildValue(b: Bundle, line: Line, i: nat)
    requires i < |b.components| && Weights(b.components) != 0.0 && line.qty * b.components[i].qty != 0
    ensures Value(Child(b, line, i)) ==
              if b.pricing == ComponentPrice then b.components[i].price * b.components[i].qty as real * line.qty as real
              else Share(b.components, LineTotal(b, line), i)
  {
    var c := b.components[i];
    if b.pricing == ComponentPrice {
      RealProduct(c.price, c.qty, line.qty);
    } else {
      SpreadBack(c.sku, line.qty * c.qty, Share(b.components, LineTotal(b, line), i), b.sku);
    }
  }

  /** A total divided over a quantity is worth the total again. */
  lemma SpreadBack(sku: string, qty: int, total: real, parent: string)
    requires qty != 0
    ensures Value(Line(sku, qty, total / qty as real, parent)) == total
  {
    DivideBack(total, qty as real);
  }

  /** The parts priced so far are worth what was given out so far. */
  ghost function GivenOut(b: Bundle, line: Line, n: nat): real
    requires n <= |b.components| && Weights(b.components) != 0.0
  {
    if b.pricing == ComponentPrice then PriceOfParts(b.components[..n]) * line.qty as real
    else Allocated(b.components, LineTotal(b, line), n)
  }

  lemma GivenOutStep(b: Bundle, line: Line, n: nat)
    requires n < |b.components| && Weights(b.components) != 0.0 && line.qty * b.components[n].qty != 0
    ensures GivenOut(b, line, n + 1) == GivenOut(b, line, n) + Value(Child(b, line, n))
  {
    ChildValue(b, line, n);
    var c := b.components[n];
    if b.pricing == ComponentPrice {
      assert b.components[..n + 1][..n] == b.components[..n];
      Distribute(PriceOfParts(b.components[..n]), c.price * c.qty as real, line.qty as real);
    }
  }

  lemma {:induction false} ChildrenLength(b: Bundle, line: Line, n: nat)
    requires n <= |b.components| && Weights(b.components) != 0.0
    requires forall i :: 0 <= i < |b.components| ==> line.qty * b.components[i].qty != 0
    ensures |Children(b, line, n)| == n
    ensures forall i :: 0 <= i < n ==> Children(b, line, n)[i] == Child(b, line, i)
  {
    if n > 0 { ChildrenLength(b, line, n - 1); }
  }

  /** A running figure that grows by each line's value is the value of the lines. */
  lemma {:induction false} ValuesGrow(ls: seq<Line>, sums: seq<real>)
    requires |sums| == |ls| + 1 && sums[0] == 0.0
    requires forall i :: 0 <= i < |ls| ==> sums[i + 1] == sums[i] + Value(ls[i])
    ensures Values(ls) == sums[|ls|]
  {
    if ls != [] { ValuesGrow(ls[..|ls| - 1], sums[..|ls|]); }
  }

  /** What has been given out before each part, and at the end. */
  ghost predicate RunningSums(b: Bundle, line: Line, sums: seq<real>)
    requires Weights(b.components) != 0.0
  {
    |sums| == |b.components| + 1 && forall i :: 0 <= i < |sums| ==> sums[i] == GivenOut(b, line, i)
  }

  lemma SumsStep(b: Bundle, line: Line, sums: seq<real>, children: seq<Line>, i: nat)
    requires Weights(b.components) != 0.0 && RunningSums(b, line, sums) && i < |b.components|
    requires forall j :: 0 <= j < |b.components| ==> line.qty * b.components[j].qty != 0
    requires children == Children(b, line, |b.components|)
    ensures |children| == |b.components| && sums[i + 1] == sums[i] + Value(children[i])
  {
    ChildrenLength(b, line, |b.components|);
    GivenOutStep(b, line, i);
  }

  lemma NothingGivenOut(b: Bundle, line: Line)
    requires Weights(b.components) != 0.0
    ensures GivenOut(b, line, 0) == 0.0
  {
    assert b.components[..0] == [];
  }

  lemma ChildrenValue(b: Bundle, line: Line, sums: seq<real>, children: seq<Line>)
    requires Weights(b.components) != 0.0 && RunningSums(b, line, sums)
    requires forall j :: 0 <= j < |b.components| ==> line.qty * b.components[j].qty != 0
    requires children == Children(b, line, |b.components|) && |children| == |b.components|
    ensures Values(children) == sums[|b.components|]
  {
    NothingGivenOut(b, line);
    forall i | 0 <= i < |children| ensures sums[i + 1] == sums[i] + Value(children[i]) {
      SumsStep(b, line, sums, children, i);
    }
    ValuesGrow(children, sums);
  }

  /** Whatever is given to the others, the last part takes exactly what is left. */
  lemma AllGivenOut(b: Bundle, line: Line)
    requires b.components != [] && Weights(b.components) != 0.0
    ensures GivenOut(b, line, |b.components|) == LineTotal(b, line)
  {
    assert b.components[..|b.components|] == b.components;
    LastTakesTheRest(b.components, LineTotal(b, line));
  }

  lemma LastTakesTheRest(cs: seq<Component>, total: real)
    requires cs != [] && Weights(cs) != 0.0
    ensures Allocated(cs, total, |cs|) == total
  {
    assert Allocated(cs, total, |cs|) == Allocated(cs, total, |cs| - 1) + Share(cs, total, |cs| - 1);
  }

  lemma RealProduct(p: real, a: int, b: int)
    ensures p * (b * a) as real == p * a as real * b as real
  {
    assert (b * a) as real == b as real * a as real;
  }

  lemma Distribute(x: real, y: real, z: real)
    ensures (x + y) * z == x * z + y * z
  {
  }

  lemma DivideBack(x: real, y: real)
    requires y != 0.0
    ensures x / y * y == x
  {
  }

  /** Whatever the pricing, the parts are together worth what the bundle line was sold for. */
  lemma ExpansionKeepsValue(b: Bundle, line: Line)
    requires Saved(b) && line.qty > 0
    ensures Weights(b.components) != 0.0 && forall i :: 0 <= i < |b.components| ==> line.qty * b.components[i].qty != 0
    ensures Values(Children(b, line, |b.components|)) == LineTotal(b, line)
  {
    WeightsArePositive(b.components);
    PiecesAreWhole(b, line.qty);
    ChildrenLength(b, line, |b.components|);
    var sums := seq(|b.components| + 1, i requires 0 <= i <= |b.components| => GivenOut(b, line, i));
    ChildrenValue(b, line, sums, Children(b, line, |b.components|));
    AllGivenOut(b, line);
  }

  /** Every part is taken in exactly its quantity per bundle, once. */
  lemma ExpansionKeepsQuantities(b: Bundle, line: Line, i: nat)
    requires Saved(b) && line.qty > 0 && i < |b.components|
    ensures Weights(b.components) != 0.0 && forall j :: 0 <= j < |b.components| ==> line.qty * b.components[j].qty != 0
    ensures var children := Children(b, line, |b.components|);
            && |children| == |b.components|
            && children[i].sku == b.components[i].sku && children[i].qty == line.qty * b.components[i].qty && children[i].bundleSku == b.sku
  {
    WeightsArePositive(b.components);
    PiecesAreWhole(b, line.qty);
    ChildrenLength(b, line, |b.components|);
  }

  // ---- the whole order ---------------------------------------------------------------------------------

  ghost predicate AllSaved(bundles: map<string, Bundle>) { forall k :: k in bundles ==> Saved(bundles[k]) }

  /** The order's value with every virtual bundle line at what its bundle is sold for. */
  function SaleValue(bundles: map<string, Bundle>, lines: seq<Line>): real
  {
    if lines == [] then 0.0
    else
      var l := lines[|lines| - 1];
      SaleValue(bundles, lines[..|lines| - 1])
      + (if l.sku in bundles && bundles[l.sku].isVirtual then LineTotal(bundles[l.sku], l) else Value(l))
  }

  lemma {:induction false} ValuesConcat(a: seq<Line>, b: seq<Line>)
    ensures Values(a + b) == Values(a) + Values(b)
  {
    if b == [] { assert a + b == a; }
    else {
      assert (a + b)[..|a + b| - 1] == a + b[..|b| - 1];
      ValuesConcat(a, b[..|b| - 1]);
    }
  }

  /** One part's unit price, and what has been given out with it. */
  method PriceChild(b: Bundle, line: Line, i: nat, given: real) returns (price: real, after: real)
    requires i < |b.components| && Weights(b.components) != 0.0 && line.qty * b.components[i].qty != 0
    requires b.pricing != ComponentPrice ==> given == Allocated(b.components, LineTotal(b, line), i)
    ensures price == Child(b, line, i).price
    ensures b.pricing != ComponentPrice ==> after == Allocated(b.components, LineTotal(b, line), i + 1)
  {
    price, after := b.components[i].price, given;
    if b.pricing != ComponentPrice {
      var total := LineTotal(b, line);
      var share := total * Weight(b.components[i]) / Weights(b.components);
      if i == |b.components| - 1 { share := total - given; }
      assert share == Share(b.components, total, i);
      after := given + share;
      price := share / (line.qty * b.components[i].qty) as real;
    }
  }

  /** One child per part, in its exact quantity, and all of them together worth what the line was sold for. */
  ghost predicate IsExpansion(b: Bundle, line: Line, children: seq<Line>)
  {
    && |children| == |b.components|
    && (forall i :: 0 <= i < |children| ==>
          && children[i].sku == b.components[i].sku && children[i].bundleSku == b.sku
          && children[i].qty == line.qty * b.components[i].qty)
    && Values(children) == LineTotal(b, line)
  }

  function PartsOf(b: Bundle, line: Line): (children: seq<Line>)
    requires Saved(b) && line.qty > 0
    ensures IsExpansion(b, line, children)
  {
    ExpansionKeepsValue(b, line);
    ChildrenLength(b, line, |b.components|);
    Children(b, line, |b.components|)
  }

  /** One bundle line's parts, priced as the loop goes along. */
  method ExpandLine(b: Bundle, line: Line) returns (children: seq<Line>)
    requires Saved(b) && line.qty > 0
    ensures children == PartsOf(b, line) && IsExpansion(b, line, children)
  {
    ExpansionKeepsValue(b, line);
    ChildrenLength(b, line, |b.components|);
    var given := 0.0;
    children := [];
    for i := 0 to |b.components|
      invariant children == Children(b, line, i)
      invariant b.pricing != ComponentPrice ==> given == Allocated(b.components, LineTotal(b, line), i)
    {
      var price;
      price, given := PriceChild(b, line, i, given);
      children := children + [Line(b.components[i].sku, line.qty * b.components[i].qty, price, b.sku)];
    }
  }

  predicate IsVirtual(bundles: map<string, Bundle>, l: Line) { l.sku in bundles && bundles[l.sku].isVirtual }

  ghost predicate Expandable(bundles: map<string, Bundle>, lines: seq<Line>)
  {
    forall i :: 0 <= i < |lines| && IsVirtual(bundles, lines[i]) ==> lines[i].qty > 0
  }

  /** Each virtual bundle's parts in its place, every other line as it is. */
  function Expanded(bundles: map<string, Bundle>, lines: seq<Line>): seq<Line>
    requires AllSaved(bundles) && Expandable(bundles, lines)
  {
    if lines == [] then []
    else
      var l := lines[|lines| - 1];
      Expanded(bundles, lines[..|lines| - 1]) + (if IsVirtual(bundles, l) then PartsOf(bundles[l.sku], l) else [l])
  }

  /** An order keeps the value it was sold for. */
  lemma {:induction false} ExpandedKeepsValue(bundles: map<string, Bundle>, lines: seq<Line>)
    requires AllSaved(bundles) && Expandable(bundles, lines)
    ensures Values(Expanded(bundles, lines)) == SaleValue(bundles, lines)
  {
    if lines != [] {
      var init, l := lines[..|lines| - 1], lines[|lines| - 1];
      ExpandedKeepsValue(bundles, init);
      assert [l][..0] == [];
      ValuesConcat(Expanded(bundles, init), if IsVirtual(bundles, l) then PartsOf(bundles[l.sku], l) else [l]);
    }
  }

  /** What an order ships of a SKU: each line's quantity of it, a bundle's part in its quantity per bundle. */
  function Ships(bundles: map<string, Bundle>, lines: seq<Line>, sku: string): int
  {
    if lines == [] then 0
    else
      var l := lines[|lines| - 1];
      Ships(bundles, lines[..|lines| - 1], sku)
      + (if IsVirtual(bundles, l) then l.qty * PerBundle(bundles[l.sku].components, sku) else if l.sku == sku then l.qty else 0)
  }

  function PerBundle(cs: seq<Component>, sku: string): int
  {
    if cs == [] then 0
    else PerBundle(cs[..|cs| - 1], sku) + (if cs[|cs| - 1].sku == sku then cs[|cs| - 1].qty else 0)
  }

  function Quantity(ls: seq<Line>, sku: string): int
  {
    if ls == [] then 0 else Quantity(ls[..|ls| - 1], sku) + (if ls[|ls| - 1].sku == sku then ls[|ls| - 1].qty else 0)
  }

  lemma {:induction false} QuantityConcat(a: seq<Line>, b: seq<Line>, sku: string)
    ensures Quantity(a + b, sku) == Quantity(a, sku) + Quantity(b, sku)
  {
    if b == [] { assert a + b == a; }
    else {
      assert (a + b)[..|a + b| - 1] == a + b[..|b| - 1];
      QuantityConcat(a, b[..|b| - 1], sku);
    }
  }

  lemma {:induction false} PartsQuantity(cs: seq<Component>, ls: seq<Line>, qty: int, sku: string)
    requires |ls| == |cs| && forall i :: 0 <= i < |cs| ==> ls[i].sku == cs[i].sku && ls[i].qty == qty * cs[i].qty
    ensures Quantity(ls, sku) == qty * PerBundle(cs, sku)
  {
    if cs != [] {
      var n := |cs| - 1;
      PartsQuantity(cs[..n], ls[..n], qty, sku);
      if cs[n].sku == sku { Times(qty, PerBundle(cs[..n], sku), cs[n].qty); }
    }
  }

  lemma Times(x: int, y: int, z: int)
    ensures x * (y + z) == x * y + x * z
  {
  }

  /** And it ships exactly what was ordered, every SKU counted over the whole order. */
  lemma {:induction false} ExpandedKeepsQuantities(bundles: map<string, Bundle>, lines: seq<Line>, sku: string)
    requires AllSaved(bundles) && Expandable(bundles, lines)
    ensures Quantity(Expanded(bundles, lines), sku) == Ships(bundles, lines, sku)
  {
    if lines != [] {
      var init, l := lines[..|lines| - 1], lines[|lines| - 1];
      ExpandedKeepsQuantities(bundles, init, sku);
      if IsVirtual(bundles, l) {
        QuantityConcat(Expanded(bundles, init), PartsOf(bundles[l.sku], l), sku);
        LinePartsQuantity(bundles[l.sku], l, sku);
      } else {
        QuantityConcat(Expanded(bundles, init), [l], sku);
        assert [l][..0] == [];
      }
    }
  }

  lemma LinePartsQuantity(b: Bundle, l: Line, sku: string)
    requires Saved(b) && l.qty > 0
    ensures Quantity(PartsOf(b, l), sku) == l.qty * PerBundle(b.components, sku)
  {
    PartsQuantity(b.components, PartsOf(b, l), l.qty, sku);
  }

  datatype Summary = Summary(bundleSku: string, quantity: int, unitPrice: real, pricing: Pricing)

  function SummaryOf(b: Bundle, l: Line): Summary { Summary(b.sku, l.qty, UnitPrice(b, l.price), b.pricing) }

  /** One summary per expanded bundle line, in order. */
  function Summaries(bundles: map<string, Bundle>, lines: seq<Line>): seq<Summary>
  {
    if lines == [] then []
    else
      var l := lines[|lines| - 1];
      Summaries(bundles, lines[..|lines| - 1]) + (if IsVirtual(bundles, l) then [SummaryOf(bundles[l.sku], l)] else [])
  }

  /** An order is refused for a bundle line without quantity, or expanded line by line. */
  method ExpandSalesOrderBundles(bundles: map<string, Bundle>, lines: seq<Line>) returns (r: Option<(seq<Line>, seq<Summary>)>)
    requires AllSaved(bundles)
    ensures r.Some? <==> Expandable(bundles, lines)
    ensures r.Some? ==> r.value == (Expanded(bundles, lines), Summaries(bundles, lines))
  {
    var expanded: seq<Line> := [];
    var summaries: seq<Summary> := [];
    for i := 0 to |lines|
      invariant Expandable(bundles, lines[..i])
      invariant expanded == Expanded(bundles, lines[..i]) && summaries == Summaries(bundles, lines[..i])
    {
      assert lines[..i + 1][..i] == lines[..i];
      var line := lines[i];
      if line.sku !in bundles || !bundles[line.sku].isVirtual {
        assert summaries + [] == summaries;
        expanded := expanded + [line];
        continue;
      }
      if line.qty <= 0 {
        assert IsVirtual(bundles, lines[i]);
        return None;
      }
      var children := ExpandLine(bundles[line.sku], line);
      expanded := expanded + children;
      summaries := summaries + [SummaryOf(bundles[line.sku], line)];
    }
    assert lines[..|lines|] == lines;
    r := Some((expanded, summaries));
  }

  function Worth(ss: seq<Summary>): real
  {
    if ss == [] then 0.0 else Worth(ss[..|ss| - 1]) + ss[|ss| - 1].unitPrice * ss[|ss| - 1].quantity as real
  }

  function PlainValue(bundles: map<string, Bundle>, lines: seq<Line>): real
  {
    if lines == [] then 0.0
    else
      var l := lines[|lines| - 1];
      PlainValue(bundles, lines[..|lines| - 1]) + (if IsVirtual(bundles, l) then 0.0 else Value(l))
  }

  lemma WorthSnoc(ss: seq<Summary>, b: Bundle, l: Line)
    ensures Worth(ss + [SummaryOf(b, l)]) == Worth(ss) + LineTotal(b, l)
  {
    assert (ss + [SummaryOf(b, l)])[..|ss|] == ss;
  }

  /** The summaries and the lines left as they are together make what the order was sold for. */
  lemma {:induction false} SummariesMakeTheSale(bundles: map<string, Bundle>, lines: seq<Line>)
    ensures Worth(Summaries(bundles, lines)) + PlainValue(bundles, lines) == SaleValue(bundles, lines)
  {
    if lines != [] {
      var n := |lines| - 1;
      SummariesMakeTheSale(bundles, lines[..n]);
      var before := Summaries(bundles, lines[..n]);
      if IsVirtual(bundles, lines[n]) {
        WorthSnoc(before, bundles[lines[n].sku], lines[n]);
      } else {
        assert before + [] == before;
      }
    }
  }
}
