/** Code 128-B barcodes: encoding, checksum and the reference reader that undoes it (engines/code128.go). */
module Code128 {
  import opened Text
  import opened Code128Table

  const START_B: nat := 104
  const STOP: nat := 106
  const STOP_WIDTHS: seq<nat> := [2, 3, 3, 1, 1, 1, 2]

  predicate Printable(data: string) { forall i :: 0 <= i < |data| ==> 32 <= data[i] as int <= 126 }

  function Values(data: string): (vs: seq<nat>)
    requires Printable(data)
    ensures |vs| == |data| && forall i :: 0 <= i < |vs| ==> vs[i] == data[i] as int - 32 && vs[i] <= 94
  {
    seq(|data|, i requires 0 <= i < |data| => data[i] as int - 32)
  }

  /** Each value counted as often as its position says, from one. */
  function Weighted(vs: seq<nat>): nat
  {
    if vs == [] then 0 else Weighted(vs[..|vs| - 1]) + vs[|vs| - 1] * |vs|
  }

  function Checksum(vs: seq<nat>): (c: nat)
    ensures c < 103
  {
    (START_B + Weighted(vs)) % 103
  }

  function SymbolWidths(v: nat): seq<nat>
    requires v < 106
  {
    var p := Pattern(v);
    [p.a, p.b, p.c, p.d, p.e, p.f]
  }

  function AllWidths(symbols: seq<nat>): seq<nat>
    requires forall i :: 0 <= i < |symbols| ==> symbols[i] < 106
  {
    if symbols == [] then [] else AllWidths(symbols[..|symbols| - 1]) + SymbolWidths(symbols[|symbols| - 1])
  }

  function Symbols(data: string): (s: seq<nat>)
    requires Printable(data)
    ensures forall i :: 0 <= i < |s| ==> s[i] < 106
  {
    [START_B] + Values(data) + [Checksum(Values(data))]
  }

  function Encoded(data: string): seq<nat>
    requires Printable(data)
  {
    AllWidths(Symbols(data)) + STOP_WIDTHS
  }

  // ---- the encoder ------------------------------------------------------------------------------

  lemma WeightedStep(vs: seq<nat>, i: nat)
    requires i < |vs|
    ensures Weighted(vs[..i + 1]) == Weighted(vs[..i]) + vs[i] * (i + 1)
  {
    assert vs[..i + 1][..i] == vs[..i];
  }

  method SumValues(values: array<nat>) returns (checksum: nat)
    ensures checksum == Checksum(values[..])
  {
    checksum := START_B;
    for i := 0 to values.Length
      invariant checksum == START_B + Weighted(values[..i])
    {
      WeightedStep(values[..], i);
      assert values[..][..i] == values[..i] && values[..][..i + 1] == values[..i + 1];
      checksum := checksum + values[i] * (i + 1);
    }
    assert values[..values.Length] == values[..];
    checksum := checksum % 103;
  }

  method EncodeCode128B(data: string) returns (r: Option<seq<nat>>)
    ensures r.Some? <==> data != "" && Printable(data)
    ensures r.Some? ==> r.value == Encoded(data)
  {
    if data == "" { return None; }
    var values := new nat[|data|];
    for i := 0 to |data|
      invariant forall j :: 0 <= j < i ==> 32 <= data[j] as int <= 126 && values[j] == data[j] as int - 32
    {
      if data[i] as int < 32 || data[i] as int > 126 { return None; }
      values[i] := data[i] as int - 32;
    }
    assert values[..] == Values(data);
    var checksum := SumValues(values);
    var symbols := [START_B] + values[..] + [checksum, STOP];
    var widths: seq<nat> := [];
    for i := 0 to |symbols| - 1
      invariant widths == AllWidths(Symbols(data)[..i])
    {
      assert Symbols(data)[..i + 1][..i] == Symbols(data)[..i];
      assert symbols[i] == Symbols(data)[i];
      widths := widths + SymbolWidths(symbols[i]);
    }
    assert Symbols(data)[..|symbols| - 1] == Symbols(data);
    r := Some(widths + STOP_WIDTHS);
  }

  // ---- shape of the symbol --------------------------------------------------------------------------

  function Sum(ws: seq<nat>): nat { if ws == [] then 0 else Sum(ws[..|ws| - 1]) + ws[|ws| - 1] }

  lemma {:induction false} SumConcat(a: seq<nat>, b: seq<nat>)
    ensures Sum(a + b) == Sum(a) + Sum(b)
  {
    if b == [] { assert a + b == a; }
    else {
      assert (a + b)[..|a + b| - 1] == a + b[..|b| - 1];
      SumConcat(a, b[..|b| - 1]);
    }
  }

  lemma SumSix(p: nat, q: nat, r: nat, s: nat, t: nat, u: nat)
    ensures Sum([p, q, r, s, t, u]) == p + q + r + s + t + u
  {
    SumThree(p, q, r);
    SumThree(s, t, u);
    SumConcat([p, q, r], [s, t, u]);
    assert [p, q, r] + [s, t, u] == [p, q, r, s, t, u];
  }

  lemma SumThree(p: nat, q: nat, r: nat)
    ensures Sum([p, q, r]) == p + q + r
  {
    assert [p, q, r][..2] == [p, q] && [p, q][..1] == [p] && [p][..0] == [];
    assert Sum([p]) == p;
    assert Sum([p, q]) == p + q;
  }

  lemma {:induction false} AllWidthsShape(symbols: seq<nat>)
    requires forall i :: 0 <= i < |symbols| ==> symbols[i] < 106
    ensures |AllWidths(symbols)| == 6 * |symbols| && Sum(AllWidths(symbols)) == 11 * |symbols|
    ensures forall i :: 0 <= i < |AllWidths(symbols)| ==> 1 <= AllWidths(symbols)[i] <= 4
  {
    if symbols != [] {
      var n := |symbols| - 1;
      var p := Pattern(symbols[n]);
      AllWidthsShape(symbols[..n]);
      PatternIsGood(symbols[n]);
      SumSix(p.a, p.b, p.c, p.d, p.e, p.f);
      SumConcat(AllWidths(symbols[..n]), SymbolWidths(symbols[n]));
    }
  }

  /**
    A barcode of n characters is an odd number of widths, so it starts and ends on a bar, each from one to four
    modules, and takes 11(n + 2) + 13 modules.
   */
  lemma BarcodeShape(data: string)
    requires Printable(data)
    ensures |Encoded(data)| == 6 * (|data| + 2) + 7 && |Encoded(data)| % 2 == 1
    ensures Sum(Encoded(data)) == 11 * (|data| + 2) + 13
    ensures forall i :: 0 <= i < |Encoded(data)| ==> 1 <= Encoded(data)[i] <= 4
  {
    AllWidthsShape(Symbols(data));
    SumConcat(AllWidths(Symbols(data)), STOP_WIDTHS);
    SumConcat([2, 3, 3, 1, 1, 1], [2]);
    SumSix(2, 3, 3, 1, 1, 1);
    assert [2, 3, 3, 1, 1, 1] + [2] == STOP_WIDTHS;
    assert [2][..0] == [];
  }

  // ---- drawing the bars -------------------------------------------------------------------------------

  const QUIET := 10
  const MODULE := 2

  datatype Bar = Bar(x: nat, width: nat)

  /** Every other width is a bar; each starts where the widths before it end, after the quiet zone. */
  ghost predicate Drawn(bars: seq<Bar>, widths: seq<nat>)
  {
    && |bars| == (|widths| + 1) / 2
    && forall k :: 0 <= k < |bars| ==> bars[k] == Bar(MODULE * (QUIET + Sum(widths[..2 * k])), MODULE * widths[2 * k])
  }

  method DrawBars(widths: seq<nat>) returns (bars: seq<Bar>, total: nat)
    ensures Drawn(bars, widths)
    ensures total == MODULE * (2 * QUIET + Sum(widths))
  {
    var modules := QUIET * 2;
    for i := 0 to |widths|
      invariant modules == QUIET * 2 + Sum(widths[..i])
    {
      assert widths[..i + 1][..i] == widths[..i];
      modules := modules + widths[i];
    }
    assert widths[..|widths|] == widths;
    total := modules * MODULE;
    bars := [];
    var x := QUIET * MODULE;
    for i := 0 to |widths|
      invariant x == MODULE * (QUIET + Sum(widths[..i])) && |bars| == (i + 1) / 2
      invariant forall k :: 0 <= k < |bars| ==> bars[k] == Bar(MODULE * (QUIET + Sum(widths[..2 * k])), MODULE * widths[2 * k])
    {
      assert widths[..i + 1][..i] == widths[..i];
      if i % 2 == 0 { bars := bars + [Bar(x, widths[i] * MODULE)]; }
      x := x + widths[i] * MODULE;
    }
  }

  lemma SumPrefix(widths: seq<nat>, i: nat)
    requires i < |widths|
    ensures Sum(widths[..i + 1]) == Sum(widths[..i]) + widths[i]
  {
    assert widths[..i + 1][..i] == widths[..i];
  }

  /** The bars of a barcode never touch, and both quiet zones are kept. */
  lemma BarsKeepApart(data: string, bars: seq<Bar>, total: nat)
    requires Printable(data) && Drawn(bars, Encoded(data)) && total == MODULE * (2 * QUIET + Sum(Encoded(data)))
    ensures forall k :: 0 <= k < |bars| - 1 ==> bars[k].x + bars[k].width < bars[k + 1].x
    ensures bars != [] && bars[0].x == MODULE * QUIET
    ensures bars[|bars| - 1].x + bars[|bars| - 1].width + MODULE * QUIET == total
  {
    var ws := Encoded(data);
    BarcodeShape(data);
    forall k | 0 <= k < |bars| - 1 ensures bars[k].x + bars[k].width < bars[k + 1].x {
      SumPrefix(ws, 2 * k);
      SumPrefix(ws, 2 * k + 1);
      assert 2 * (k + 1) == 2 * k + 1 + 1;
    }
    assert ws[..0] == [];
    SumPrefix(ws, |ws| - 1);
    assert ws[..|ws|] == ws;
  }

  // ---- reading it back ------------------------------------------------------------------------------------

  /** One symbol of six widths. */
  function ReadSymbol(ws: seq<nat>): Option<nat>
    requires |ws| == 6
  {
    Symbol(Number(Six(ws[0], ws[1], ws[2], ws[3], ws[4], ws[5])))
  }

  /** The symbols before the stop pattern. */
  function ReadSymbols(ws: seq<nat>): Option<seq<nat>>
  {
    if ws == STOP_WIDTHS then Some([])
    else if |ws| < 13 then None
    else
      match ReadSymbol(ws[..6])
      case None => None
      case Some(v) => (match ReadSymbols(ws[6..]) case None => None case Some(rest) => Some([v] + rest))
  }

  function Characters(vs: seq<nat>): Option<string>
  {
    if forall i :: 0 <= i < |vs| ==> vs[i] <= 94 then
      Some(seq(|vs|, i requires 0 <= i < |vs| => if vs[i] <= 94 then (vs[i] + 32) as char else ' '))
    else None
  }

  /** A reader: start symbol, data, checksum, stop. */
  function Decode(ws: seq<nat>): Option<string>
  {
    match ReadSymbols(ws)
    case None => None
    case Some(symbols) =>
      if |symbols| < 2 || symbols[0] != START_B then None
      else
        var vs := symbols[1..|symbols| - 1];
        if symbols[|symbols| - 1] != Checksum(vs) then None else Characters(vs)
  }

  lemma {:induction false} AllWidthsFront(symbols: seq<nat>)
    requires symbols != [] && forall i :: 0 <= i < |symbols| ==> symbols[i] < 106
    ensures AllWidths(symbols) == SymbolWidths(symbols[0]) + AllWidths(symbols[1..])
  {
    var n := |symbols| - 1;
    if n == 0 {
      assert symbols[..0] == [] && symbols[1..] == [];
    } else {
      AllWidthsFront(symbols[..n]);
      assert symbols[..n][1..] == symbols[1..][..n - 1];
    }
  }

  lemma {:induction false} SymbolsReadBack(symbols: seq<nat>)
    requires forall i :: 0 <= i < |symbols| ==> symbols[i] < 106
    ensures ReadSymbols(AllWidths(symbols) + STOP_WIDTHS) == Some(symbols)
  {
    var ws := AllWidths(symbols) + STOP_WIDTHS;
    AllWidthsShape(symbols);
    if symbols == [] {
      assert ws == STOP_WIDTHS;
    } else {
      AllWidthsFront(symbols);
      assert ws[..6] == SymbolWidths(symbols[0]);
      assert ws[6..] == AllWidths(symbols[1..]) + STOP_WIDTHS;
      SymbolOfPattern(symbols[0]);
      SymbolsReadBack(symbols[1..]);
      assert [symbols[0]] + symbols[1..] == symbols;
    }
  }

  /** Reading a printed barcode gives back what was encoded. */
  lemma DecodeUndoesEncode(data: string)
    requires Printable(data)
    ensures Decode(Encoded(data)) == Some(data)
  {
    SymbolsReadBack(Symbols(data));
    assert Symbols(data)[1..|Symbols(data)| - 1] == Values(data);
    var back := Characters(Values(data)).value;
    assert back == data;
  }

  // ---- what the checksum notices ------------------------------------------------------------------------

  lemma {:induction false} WeightedUpdate(vs: seq<nat>, i: nat, v: nat)
    requires i < |vs|
    ensures Weighted(vs[i := v]) == Weighted(vs) + (v - vs[i]) * (i + 1)
  {
    var n := |vs| - 1;
    if i == n {
      assert vs[i := v][..n] == vs[..n];
    } else {
      assert vs[i := v][..n] == vs[..n][i := v];
      WeightedUpdate(vs[..n], i, v);
    }
  }

  /** 103 is prime: no number from 2 to 102 divides it. */
  lemma NoDivisor(d: nat, k: nat)
    requires 2 <= d <= 102
    ensures d * k != 103
  {
    if d <= 10 { SmallFactor(d, k); }
    else if k == 1 { }
    else if k <= 10 { SmallFactor(k, d); }
    else { assert d * k >= 11 * 11 by { assert (d - 11) * (k - 11) >= 0; } }
  }

  lemma SmallFactor(d: nat, k: nat)
    requires d <= 10 && d != 1
    ensures d * k != 103
  {
    assert 2 * k != 103 && 3 * k != 103 && 4 * k != 103 && 5 * k != 103 && 6 * k != 103;
    assert 7 * k != 103 && 8 * k != 103 && 9 * k != 103 && 10 * k != 103;
  }

  /** If 103 divides a product and d is below it, it divides the other factor. */
  lemma {:induction false} PrimeDivides(d: nat, p: nat, m: int)
    requires 0 < d < 103 && d * p == 103 * m
    ensures p % 103 == 0
  {
    if d > 1 {
      var q, r := 103 / d, 103 % d;
      assert 103 == d * q + r;
      if r == 0 { NoDivisor(d, q); }
      assert r * p == 103 * (p - q * m) by {
        assert r * p == 103 * p - d * q * p;
        assert d * q * p == q * (d * p);
      }
      PrimeDivides(r, p, p - q * m);
    } else {
      assert p == 103 * m;
    }
  }

  lemma SameChecksum(vs: seq<nat>, ws: seq<nat>, diff: int)
    requires Weighted(ws) == Weighted(vs) + diff
    ensures Checksum(ws) == Checksum(vs) <==> diff % 103 == 0
  {
  }

  /** Exchanging two neighbours that differ always changes the checksum. */
  lemma SwapChangesChecksum(data: string, i: nat)
    requires Printable(data) && i + 1 < |data| && data[i] != data[i + 1]
    ensures var swapped := data[i := data[i + 1]][i + 1 := data[i]];
            Printable(swapped) && Checksum(Values(swapped)) != Checksum(Values(data))
  {
    var swapped := data[i := data[i + 1]][i + 1 := data[i]];
    var vs := Values(data);
    assert Values(swapped) == vs[i := vs[i + 1]][i + 1 := vs[i]];
    assert data[i] as int != data[i + 1] as int;
    SwappedValues(vs, i);
  }

  lemma SwappedValues(vs: seq<nat>, i: nat)
    requires i + 1 < |vs| && vs[i] != vs[i + 1] && vs[i] < 103 && vs[i + 1] < 103
    ensures Checksum(vs[i := vs[i + 1]][i + 1 := vs[i]]) != Checksum(vs)
  {
    var a: int, b: int := vs[i], vs[i + 1];
    WeightedSwap(vs, i);
    SameChecksum(vs, vs[i := vs[i + 1]][i + 1 := vs[i]], a - b);
  }

  lemma WeightedSwap(vs: seq<nat>, i: nat)
    requires i + 1 < |vs|
    ensures Weighted(vs[i := vs[i + 1]][i + 1 := vs[i]]) + vs[i + 1] == Weighted(vs) + vs[i]
  {
    WeightedUpdate(vs, i, vs[i + 1]);
    WeightedUpdate(vs[i := vs[i + 1]], i + 1, vs[i]);
    Telescope(vs[i], vs[i + 1], i);
  }

  lemma Telescope(a: int, b: int, i: int)
    ensures (b - a) * (i + 1) + (a - b) * (i + 2) == a - b
  {
  }

  /**
    Replacing one character changes the checksum exactly when its position, counted from one, is not a multiple
    of 103.
   */
  lemma SubstitutionChangesChecksumExactlyWhen(data: string, i: nat, c: char)
    requires Printable(data) && i < |data| && 32 <= c as int <= 126 && c != data[i]
    ensures Checksum(Values(data[i := c])) != Checksum(Values(data)) <==> (i + 1) % 103 != 0
  {
    var vs := Values(data);
    var v := c as int - 32;
    assert Values(data[i := c]) == vs[i := v];
    WeightedUpdate(vs, i, v);
    var d := v - vs[i];
    SameChecksum(vs, vs[i := v], d * (i + 1));
    assert d != 0 by { assert c as int != data[i] as int; }
    DivisibleExactlyWhen(d, i + 1);
  }

  lemma DivisibleExactlyWhen(d: int, p: nat)
    requires -103 < d < 103 && d != 0
    ensures d * p % 103 == 0 <==> p % 103 == 0
  {
    if p % 103 == 0 {
      assert d * p == 103 * (d * (p / 103)) by { assert p == 103 * (p / 103); }
    } else if d * p % 103 == 0 {
      var m := d * p / 103;
      assert d * p == 103 * m;
      if d > 0 { PrimeDivides(d, p, m); }
      else { assert (-d) * p == 103 * (-m); PrimeDivides(-d, p, -m); }
    }
  }
}
