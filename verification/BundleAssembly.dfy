/** Assembling and taking apart stocked bundles (engines/bundles.go; computeATS of engines/inventory.go). */
module BundleAssembly {
  import opened Text
  import opened Bundles

  datatype Bucket = Bucket(onHand: int, available: int, reserved: int, safety: int, blocked: int, qc: int, damaged: int,
                           buffer: int, held: int)

  datatype Policy = Policy(qcSellable: bool, damagedSellable: bool)

  function ATS(p: Policy, b: Bucket): int
  {
    b.available - b.reserved - b.safety - b.blocked - b.buffer - b.held
    + (if p.qcSellable then b.qc else 0) + (if p.damagedSellable then b.damaged else 0)
  }

  /** The buckets of one location. */
  type Stock = map<string, Bucket>

  datatype Movement = Movement(sku: string, qty: int)

  datatype Operation = Assemble | Disassemble

  const EMPTY := Bucket(0, 0, 0, 0, 0, 0, 0, 0, 0)

  function Shifted(b: Bucket, qty: int): Bucket { b.(onHand := b.onHand + qty, available := b.available + qty) }

  function BucketOf(s: Stock, sku: string): Bucket { if sku in s then s[sku] else EMPTY }

  /** Stock may only be taken from a row that has it to sell. */
  predicate Allowed(p: Policy, s: Stock, m: Movement)
  {
    m.qty < 0 ==> m.sku in s && ATS(p, s[m.sku]) + m.qty >= 0
  }

  function Move(s: Stock, m: Movement): Stock { s[m.sku := Shifted(BucketOf(s, m.sku), m.qty)] }

  /** The movements in order; None as soon as one is refused. */
  function MoveAll(p: Policy, s: Stock, ms: seq<Movement>): Option<Stock>
  {
    if ms == [] then Some(s)
    else
      match MoveAll(p, s, ms[..|ms| - 1])
      case None => None
      case Some(t) => if Allowed(p, t, ms[|ms| - 1]) then Some(Move(t, ms[|ms| - 1])) else None
  }

  function Parts(cs: seq<Component>, factor: int): (ms: seq<Movement>)
    ensures |ms| == |cs| && forall i :: 0 <= i < |cs| ==> ms[i] == Movement(cs[i].sku, factor * cs[i].qty)
  {
    seq(|cs|, i requires 0 <= i < |cs| => Movement(cs[i].sku, factor * cs[i].qty))
  }

  /** The parts go out before the bundle comes in, and the bundle goes out before the parts come in. */
  function Movements(b: Bundle, quantity: int, op: Operation): seq<Movement>
  {
    match op
    case Assemble => Parts(b.components, -quantity) + [Movement(b.sku, quantity)]
    case Disassemble => [Movement(b.sku, -quantity)] + Parts(b.components, quantity)
  }

  // ---- what a list of movements does ------------------------------------------------------------

  ghost predicate Different(ms: seq<Movement>) { forall i, j :: 0 <= i < j < |ms| ==> ms[i].sku != ms[j].sku }

  /** Every listed bucket moved by its quantity, every other as it was. */
  ghost predicate Moved(s: Stock, t: Stock, ms: seq<Movement>)
  {
    && (forall k :: k in t <==> k in s || exists i :: 0 <= i < |ms| && ms[i].sku == k)
    && (forall i :: 0 <= i < |ms| ==> ms[i].sku in t && t[ms[i].sku] == Shifted(BucketOf(s, ms[i].sku), ms[i].qty))
    && (forall k :: k in s && (forall i :: 0 <= i < |ms| ==> ms[i].sku != k) ==> t[k] == s[k])
  }

  /** Movements of different SKUs go through exactly when each is allowed on the stock they start from. */
  lemma {:induction false} MoveAllIs(p: Policy, s: Stock, ms: seq<Movement>)
    requires Different(ms)
    ensures MoveAll(p, s, ms).Some? <==> forall i :: 0 <= i < |ms| ==> Allowed(p, s, ms[i])
    ensures MoveAll(p, s, ms).Some? ==> Moved(s, MoveAll(p, s, ms).value, ms)
  {
    if ms != [] {
      var n := |ms| - 1;
      MoveAllIs(p, s, ms[..n]);
      assert forall i :: 0 <= i < n ==> ms[..n][i] == ms[i];
      match MoveAll(p, s, ms[..n])
      case None =>
      case Some(t) =>
        MovedLeaves(s, t, ms[..n], ms[n].sku);
        if Allowed(p, t, ms[n]) { MovedStep(s, t, ms); }
    }
  }

  lemma MovedLeaves(s: Stock, t: Stock, ms: seq<Movement>, sku: string)
    requires Moved(s, t, ms) && forall i :: 0 <= i < |ms| ==> ms[i].sku != sku
    ensures (sku in t <==> sku in s) && BucketOf(t, sku) == BucketOf(s, sku)
  {
  }

  lemma MovedStep(s: Stock, t: Stock, ms: seq<Movement>)
    requires ms != [] && Different(ms) && Moved(s, t, ms[..|ms| - 1])
    ensures Moved(s, Move(t, ms[|ms| - 1]), ms)
  {
    var n := |ms| - 1;
    var u := Move(t, ms[n]);
    assert forall i :: 0 <= i < n ==> ms[..n][i] == ms[i];
    MovedLeaves(s, t, ms[..n], ms[n].sku);
    forall k ensures k in u <==> k in s || exists i :: 0 <= i < |ms| && ms[i].sku == k {
      if k in t && k !in s { var i :| 0 <= i < n && ms[..n][i].sku == k; assert ms[i].sku == k; }
      if k == ms[n].sku { assert ms[n].sku == k; }
    }
    forall k | k in s && (forall i :: 0 <= i < |ms| ==> ms[i].sku != k) ensures u[k] == s[k] {
      assert forall i :: 0 <= i < n ==> ms[..n][i].sku != k;
    }
  }

  lemma MovementsDiffer(b: Bundle, quantity: int, op: Operation)
    requires Saved(b)
    ensures Different(Movements(b, quantity, op))
  {
  }

  // ---- taking apart undoes putting together -----------------------------------------------------------

  lemma AssemblyEffect(p: Policy, s: Stock, b: Bundle, quantity: int, op: Operation)
    requires Saved(b) && quantity > 0
    ensures var r := MoveAll(p, s, Movements(b, quantity, op));
            && (r.Some? <==> forall i :: 0 <= i < |Movements(b, quantity, op)| ==> Allowed(p, s, Movements(b, quantity, op)[i]))
            && (r.Some? ==> Moved(s, r.value, Movements(b, quantity, op)))
  {
    MovementsDiffer(b, quantity, op);
    MoveAllIs(p, s, Movements(b, quantity, op));
  }

  /** After assembling, the bundle can be taken apart exactly when its own bucket was not oversold before. */
  lemma DisassemblyGoesThroughExactlyWhen(p: Policy, s: Stock, t: Stock, b: Bundle, quantity: int)
    requires Saved(b) && quantity > 0 && MoveAll(p, s, Movements(b, quantity, Assemble)) == Some(t)
    ensures MoveAll(p, t, Movements(b, quantity, Disassemble)).Some? <==> ATS(p, BucketOf(s, b.sku)) >= 0
  {
    AssemblyEffect(p, s, b, quantity, Assemble);
    AssemblyEffect(p, t, b, quantity, Disassemble);
    var up, down := Movements(b, quantity, Assemble), Movements(b, quantity, Disassemble);
    assert up[|b.components|] == Movement(b.sku, quantity);
    assert down[0] == Movement(b.sku, -quantity);
    forall i | 1 <= i < |down| ensures Allowed(p, t, down[i]) {
      assert down[i] == Movement(b.components[i - 1].sku, quantity * b.components[i - 1].qty);
      ProductPositive(quantity, b.components[i - 1].qty);
    }
  }

  /** A bundle oversold by one is assembled once; it cannot be taken apart again. */
  lemma OversoldBundleStaysTogether()
    ensures var p, b := Policy(false, false), Bundle("kit", false, ParentPrice, 0.0, [Component("part", 1, 0.0, 0.0)]);
            var s := map["kit" := EMPTY.(onHand := -1, available := -1), "part" := EMPTY.(onHand := 1, available := 1)];
            var t := MoveAll(p, s, Movements(b, 1, Assemble));
            Saved(b) && t.Some? && MoveAll(p, t.value, Movements(b, 1, Disassemble)).None?
  {
    var p, b := Policy(false, false), Bundle("kit", false, ParentPrice, 0.0, [Component("part", 1, 0.0, 0.0)]);
    var s := map["kit" := EMPTY.(onHand := -1, available := -1), "part" := EMPTY.(onHand := 1, available := 1)];
    AssemblyEffect(p, s, b, 1, Assemble);
    assert Movements(b, 1, Assemble) == [Movement("part", -1), Movement("kit", 1)];
    DisassemblyGoesThroughExactlyWhen(p, s, MoveAll(p, s, Movements(b, 1, Assemble)).value, b, 1);
  }

  /** Assembling and taking apart again gives every bucket back exactly; the bundle may keep an empty row. */
  lemma DisassembleUndoesAssemble(p: Policy, s: Stock, t: Stock, u: Stock, b: Bundle, quantity: int)
    requires Saved(b) && quantity > 0
    requires MoveAll(p, s, Movements(b, quantity, Assemble)) == Some(t)
    requires MoveAll(p, t, Movements(b, quantity, Disassemble)) == Some(u)
    ensures forall k :: BucketOf(u, k) == BucketOf(s, k)
    ensures u == if b.sku in s then s else s[b.sku := EMPTY]
  {
    AssemblyEffect(p, s, b, quantity, Assemble);
    AssemblyEffect(p, t, b, quantity, Disassemble);
    forall k ensures BucketOf(u, k) == BucketOf(s, k) && (k in u <==> k in s || k == b.sku) {
      BucketComesBack(p, s, t, u, b, quantity, k);
    }
    SameBuckets(s, u, b.sku);
  }

  lemma SameBuckets(s: Stock, u: Stock, sku: string)
    requires forall k :: BucketOf(u, k) == BucketOf(s, k) && (k in u <==> k in s || k == sku)
    ensures u == if sku in s then s else s[sku := EMPTY]
  {
    assert forall k :: k in s ==> u[k] == BucketOf(u, k) && s[k] == BucketOf(s, k);
    if sku !in s { assert u[sku] == BucketOf(u, sku) == EMPTY; }
  }

  /** A movement and its opposite cancel. */
  lemma OppositesCancel(s: Stock, t: Stock, u: Stock, ups: seq<Movement>, downs: seq<Movement>, i: nat, j: nat)
    requires Moved(s, t, ups) && Moved(t, u, downs) && i < |ups| && j < |downs|
    requires ups[i].sku == downs[j].sku && ups[i].qty + downs[j].qty == 0
    ensures ups[i].sku in u && BucketOf(u, ups[i].sku) == BucketOf(s, ups[i].sku)
  {
    assert t[ups[i].sku] == Shifted(BucketOf(s, ups[i].sku), ups[i].qty);
    assert u[downs[j].sku] == Shifted(BucketOf(t, downs[j].sku), downs[j].qty);
  }

  lemma UnmentionedStays(s: Stock, t: Stock, u: Stock, ups: seq<Movement>, downs: seq<Movement>, k: string)
    requires Moved(s, t, ups) && Moved(t, u, downs)
    requires (forall i :: 0 <= i < |ups| ==> ups[i].sku != k) && (forall i :: 0 <= i < |downs| ==> downs[i].sku != k)
    ensures (k in u <==> k in s) && BucketOf(u, k) == BucketOf(s, k)
  {
    MovedLeaves(s, t, ups, k);
    MovedLeaves(t, u, downs, k);
  }

  lemma MovementsAre(b: Bundle, quantity: int, i: nat)
    requires i < |b.components|
    ensures Movements(b, quantity, Assemble)[i] == Movement(b.components[i].sku, -(quantity * b.components[i].qty))
    ensures Movements(b, quantity, Disassemble)[i + 1] == Movement(b.components[i].sku, quantity * b.components[i].qty)
  {
    assert -quantity * b.components[i].qty == -(quantity * b.components[i].qty);
  }

  lemma BucketComesBack(p: Policy, s: Stock, t: Stock, u: Stock, b: Bundle, quantity: int, k: string)
    requires Saved(b) && quantity > 0
    requires Moved(s, t, Movements(b, quantity, Assemble)) && Moved(t, u, Movements(b, quantity, Disassemble))
    requires forall i :: 0 <= i < |b.components| ==> Allowed(p, s, Movements(b, quantity, Assemble)[i])
    ensures BucketOf(u, k) == BucketOf(s, k) && (k in u <==> k in s || k == b.sku)
  {
    var up, down := Movements(b, quantity, Assemble), Movements(b, quantity, Disassemble);
    var n := |b.components|;
    if k == b.sku {
      OppositesCancel(s, t, u, up, down, n, 0);
    } else if i :| 0 <= i < n && b.components[i].sku == k {
      MovementsAre(b, quantity, i);
      ProductPositive(quantity, b.components[i].qty);
      OppositesCancel(s, t, u, up, down, i, i + 1);
      assert Allowed(p, s, up[i]);
    } else {
      forall i | 0 <= i < n ensures up[i].sku != k && down[i + 1].sku != k { MovementsAre(b, quantity, i); }
      assert forall i :: 1 <= i < |down| ==> down[i] == down[(i - 1) + 1];
      UnmentionedStays(s, t, u, up, down, k);
    }
  }

  // ---- the operation ---------------------------------------------------------------------------------------

  class StockRoom {
    var stock: Stock
    var done: map<string, string>          // request key -> operation id

    constructor (stock: Stock)
      ensures this.stock == stock && done == map[]
    {
      this.stock, done := stock, map[];
    }

    /** One transaction: all movements, or none and the stock stays. */
    method PostBundleAssembly(p: Policy, b: Bundle, quantity: int, op: Operation, requestKey: string, id: string) returns (r: Option<string>)
      requires Saved(b)
      modifies this
      ensures var key := Trim(requestKey);
              if quantity <= 0 || b.isVirtual then r == None && stock == old(stock) && done == old(done)
              else if key != "" && key in old(done) then r == Some(old(done)[key]) && stock == old(stock) && done == old(done)
              else match MoveAll(p, old(stock), Movements(b, quantity, op))
                case None => r == None && stock == old(stock) && done == old(done)
                case Some(t) => r == Some(id) && stock == t && done == if key == "" then old(done) else old(done)[key := id]
    {
      var key := Trim(requestKey);
      if quantity <= 0 || b.isVirtual { return None; }
      if key != "" && key in done { return Some(done[key]); }
      var items: seq<Movement> := [];
      var direction := -1;
      if op == Disassemble {
        direction := 1;
        items := items + [Movement(b.sku, -quantity)];
      }
      ghost var head := items;
      for i := 0 to |b.components|
        invariant items == head + Parts(b.components, direction * quantity)[..i]
        invariant stock == old(stock) && done == old(done)
      {
        items := items + [Movement(b.components[i].sku, direction * quantity * b.components[i].qty)];
      }
      if op == Assemble { items := items + [Movement(b.sku, quantity)]; }
      assert Parts(b.components, direction * quantity)[..|b.components|] == Parts(b.components, direction * quantity);
      assert items == Movements(b, quantity, op);
      var t := PostItems(p, stock, items);
      if t.None? { return None; }
      stock := t.value;
      if key != "" { done := done[key := id]; }
      r := Some(id);
    }

    static method PostItems(p: Policy, s: Stock, items: seq<Movement>) returns (r: Option<Stock>)
      ensures r == MoveAll(p, s, items)
    {
      var t := s;
      for i := 0 to |items|
        invariant MoveAll(p, s, items[..i]) == Some(t)
      {
        assert items[..i + 1][..i] == items[..i];
        var m := items[i];
        if m.qty < 0 && (m.sku !in t || ATS(p, t[m.sku]) + m.qty < 0) {
          RefusalStays(p, s, items, i + 1);
          return None;
        }
        t := t[m.sku := Shifted(BucketOf(t, m.sku), m.qty)];
      }
      assert items[..|items|] == items;
      r := Some(t);
    }
  }

  lemma {:induction false} RefusalStays(p: Policy, s: Stock, ms: seq<Movement>, i: nat)
    requires i <= |ms| && MoveAll(p, s, ms[..i]).None?
    ensures MoveAll(p, s, ms).None?
  {
    if i < |ms| {
      assert ms[..|ms| - 1][..i] == ms[..i];
      RefusalStays(p, s, ms[..|ms| - 1], i);
    } else {
      assert ms[..i] == ms;
    }
  }
}
