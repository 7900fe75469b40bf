/** The order migration files run in (db/migrate.go). */
module MigrationNames {
  import opened Text

  const MAX_INT := 0x7fff_ffff_ffff_ffff

  /** strconv.Atoi of a digit run: the largest integer when it does not fit. */
  function RunValue(digits: string): nat
    requires AllDigits(digits)
  {
    if DecimalValue(digits) > MAX_INT then MAX_INT else DecimalValue(digits)
  }

  /** The end of the digit run that starts at i. */
  function RunEnd(s: string, i: nat): (e: nat)
    requires i <= |s|
    ensures i <= e <= |s|
    ensures forall k :: i <= k < e ==> IsDigit(s[k])
    ensures e < |s| ==> !IsDigit(s[e])
    ensures i < |s| && IsDigit(s[i]) ==> i < e
    decreases |s| - i
  {
    if i < |s| && IsDigit(s[i]) then RunEnd(s, i + 1) else i
  }

  // ---- the order as a person reads it -----------------------------------------------------

  /** A file name is a list of numbers and single characters. */
  datatype Token = Number(value: nat) | Letter(c: char)

  function TokensFrom(s: string, i: nat): seq<Token>
    requires i <= |s|
    decreases |s| - i
  {
    if i == |s| then []
    else if IsDigit(s[i]) then [Number(RunValue(s[i..RunEnd(s, i)]))] + TokensFrom(s, RunEnd(s, i))
    else [Letter(s[i])] + TokensFrom(s, i + 1)
  }

  function Tokens(s: string): seq<Token> { TokensFrom(s, 0) }

  /** A number sorts after any character. */
  predicate TokenLess(a: Token, b: Token)
  {
    match (a, b)
    case (Number(m), Number(n)) => m < n
    case (Letter(c), Letter(d)) => c < d
    case (Letter(_), Number(_)) => true
    case (Number(_), Letter(_)) => false
  }

  /** The first difference decides; a list that ends there comes first. */
  predicate LessAt(a: seq<Token>, b: seq<Token>, k: nat)
  {
    k <= |a| && k < |b| && a[..k] == b[..k] && (k == |a| || TokenLess(a[k], b[k]))
  }

  ghost predicate Before(a: seq<Token>, b: seq<Token>) { exists k: nat :: LessAt(a, b, k) }

  function CompareTokens(a: seq<Token>, b: seq<Token>): int
  {
    if a == [] then (if b == [] then 0 else -1)
    else if b == [] then 1
    else if TokenLess(a[0], b[0]) then -1
    else if TokenLess(b[0], a[0]) then 1
    else CompareTokens(a[1..], b[1..])
  }

  // ---- the comparison loop ------------------------------------------------------------------

  method DigitRun(s: string, i: nat) returns (e: nat)
    requires i <= |s|
    ensures e == RunEnd(s, i)
  {
    e := i;
    while e < |s| && IsDigit(s[e])
      invariant i <= e <= |s| && RunEnd(s, e) == RunEnd(s, i)
    {
      e := e + 1;
    }
  }

  lemma TokensStep(s: string, i: nat)
    requires i < |s|
    ensures TokensFrom(s, i) != []
    ensures IsDigit(s[i]) ==> TokensFrom(s, i)[0] == Number(RunValue(s[i..RunEnd(s, i)])) && TokensFrom(s, i)[1..] == TokensFrom(s, RunEnd(s, i))
    ensures !IsDigit(s[i]) ==> TokensFrom(s, i)[0] == Letter(s[i]) && TokensFrom(s, i)[1..] == TokensFrom(s, i + 1)
  {
  }

  method CompareMigrationNames(a: string, b: string) returns (r: int)
    ensures r == CompareTokens(Tokens(a), Tokens(b))
  {
    var i, j := 0, 0;
    while i < |a| && j < |b|
      invariant 0 <= i <= |a| && 0 <= j <= |b|
      invariant CompareTokens(Tokens(a), Tokens(b)) == CompareTokens(TokensFrom(a, i), TokensFrom(b, j))
      decreases |a| - i
    {
      TokensStep(a, i);
      TokensStep(b, j);
      if IsDigit(a[i]) && IsDigit(b[j]) {
        var si, sj := i, j;
        i := DigitRun(a, i);
        j := DigitRun(b, j);
        var na, nb := RunValue(a[si..i]), RunValue(b[sj..j]);
        if na != nb { return if na < nb then -1 else 1; }
        continue;
      }
      if IsDigit(a[i]) != IsDigit(b[j]) { return if IsDigit(a[i]) then 1 else -1; }
      if a[i] != b[j] { return if a[i] < b[j] then -1 else 1; }
      i, j := i + 1, j + 1;
    }
    r := if |a| - i < |b| - j then -1 else if |a| - i > |b| - j then 1 else 0;
    if i < |a| { TokensStep(a, i); }
    if j < |b| { TokensStep(b, j); }
  }

  // ---- numbers go by their value ---------------------------------------------------------------

  ghost predicate NoDigitFirst(s: string) { s == "" || !IsDigit(s[0]) }

  lemma {:induction false} RunEndsAt(s: string, i: nat, e: nat)
    requires i <= e <= |s| && (forall k :: i <= k < e ==> IsDigit(s[k])) && (e < |s| ==> !IsDigit(s[e]))
    ensures RunEnd(s, i) == e
    decreases e - i
  {
    if i < e { RunEndsAt(s, i + 1, e); }
  }

  lemma FirstTokenIsTheNumber(p: string, n: nat, rest: string)
    requires NoDigitFirst(rest) && n <= MAX_INT
    ensures var s := p + Decimal(n) + rest; TokensFrom(s, |p|) != [] && TokensFrom(s, |p|)[0] == Number(n)
  {
    var s, d := p + Decimal(n) + rest, Decimal(n);
    assert forall k :: |p| <= k < |p| + |d| ==> s[k] == d[k - |p|];
    assert rest != "" ==> s[|p| + |d|] == rest[0];
    RunEndsAt(s, |p|, |p| + |d|);
    assert s[|p|..|p| + |d|] == d;
    DecimalRoundTrip(n);
    TokensStep(s, |p|);
  }

  /** After the same text without digits the smaller number comes first, however many digits either has: 2 before 10. */
  lemma {:induction false} NumbersGoByValue(p: string, m: nat, n: nat, r: string, q: string, i: nat)
    requires (forall k :: 0 <= k < |p| ==> !IsDigit(p[k])) && NoDigitFirst(r) && NoDigitFirst(q) && m < n <= MAX_INT && i <= |p|
    ensures CompareTokens(TokensFrom(p + Decimal(m) + r, i), TokensFrom(p + Decimal(n) + q, i)) == -1
    decreases |p| - i
  {
    var a, b := p + Decimal(m) + r, p + Decimal(n) + q;
    if i < |p| {
      TokensStep(a, i);
      TokensStep(b, i);
      assert a[i] == p[i] == b[i];
      NumbersGoByValue(p, m, n, r, q, i + 1);
    } else {
      FirstTokenIsTheNumber(p, m, r);
      FirstTokenIsTheNumber(p, n, q);
    }
  }

  // ---- it is a total preorder ------------------------------------------------------------------

  /** Negative exactly when the first name comes before the second, character by character and number by number. */
  lemma {:induction false} CompareIsLexicographic(a: seq<Token>, b: seq<Token>)
    ensures CompareTokens(a, b) < 0 <==> Before(a, b)
    ensures CompareTokens(a, b) == 0 <==> a == b
    ensures CompareTokens(a, b) > 0 <==> Before(b, a)
    decreases |a|
  {
    if a == [] || b == [] {
      if a == [] && b != [] { assert LessAt(a, b, 0); }
      if b == [] && a != [] { assert LessAt(b, a, 0); }
    } else {
      CompareIsLexicographic(a[1..], b[1..]);
      assert a == [a[0]] + a[1..] && b == [b[0]] + b[1..];
      BeforeByHead(a, b);
      BeforeByHead(b, a);
    }
  }

  lemma BeforeByHead(a: seq<Token>, b: seq<Token>)
    requires a != [] && b != []
    ensures Before(a, b) <==> TokenLess(a[0], b[0]) || (a[0] == b[0] && Before(a[1..], b[1..]))
  {
    if TokenLess(a[0], b[0]) { assert LessAt(a, b, 0); }
    if a[0] == b[0] && Before(a[1..], b[1..]) {
      var k: nat :| LessAt(a[1..], b[1..], k);
      assert a[..k + 1] == [a[0]] + a[1..][..k] && b[..k + 1] == [b[0]] + b[1..][..k];
      assert LessAt(a, b, k + 1);
    }
    if Before(a, b) {
      var k: nat :| LessAt(a, b, k);
      if k > 0 {
        assert a[..k][0] == b[..k][0];
        assert a[1..][..k - 1] == a[..k][1..] && b[1..][..k - 1] == b[..k][1..];
        assert LessAt(a[1..], b[1..], k - 1);
      }
    }
  }

  /** Any two names compare one way and back. */
  lemma {:induction false} CompareIsAntisymmetric(a: seq<Token>, b: seq<Token>)
    ensures CompareTokens(a, b) == -CompareTokens(b, a)
    decreases |a|
  {
    if a != [] && b != [] { CompareIsAntisymmetric(a[1..], b[1..]); }
  }

  lemma {:induction false} CompareIsTransitive(a: seq<Token>, b: seq<Token>, c: seq<Token>)
    requires CompareTokens(a, b) <= 0 && CompareTokens(b, c) <= 0
    ensures CompareTokens(a, c) <= 0
    decreases |a|
  {
    if a != [] && b != [] && c != [] && !TokenLess(a[0], b[0]) && !TokenLess(b[0], c[0]) && !TokenLess(b[0], a[0]) && !TokenLess(c[0], b[0]) {
      CompareIsTransitive(a[1..], b[1..], c[1..]);
    }
  }

  // ---- the sorted list of files -------------------------------------------------------------------

  predicate NotAfter(a: string, b: string) { CompareTokens(Tokens(a), Tokens(b)) <= 0 }

  ghost predicate InOrder(names: seq<string>) { forall i, j :: 0 <= i < j < |names| ==> NotAfter(names[i], names[j]) }

  const SQL := ".sql"

  predicate IsMigration(name: string) { |name| >= |SQL| && name[|name| - |SQL|..] == SQL }

  function Migrations(entries: seq<string>): seq<string>
  {
    if entries == [] then []
    else Migrations(entries[..|entries| - 1]) + (if IsMigration(entries[|entries| - 1]) then [entries[|entries| - 1]] else [])
  }

  method InsertName(names: seq<string>, name: string) returns (t: seq<string>)
    requires InOrder(names)
    ensures InOrder(t) && multiset(t) == multiset(names) + multiset{name}
  {
    var i := 0;
    while i < |names|
      invariant 0 <= i <= |names|
      invariant forall k :: 0 <= k < i ==> NotAfter(names[k], name)
    {
      var c := CompareMigrationNames(name, names[i]);
      CompareIsAntisymmetric(Tokens(name), Tokens(names[i]));
      if c < 0 { break; }
      i := i + 1;
    }
    t := names[..i] + [name] + names[i..];
    assert names == names[..i] + names[i..];
    forall k | i <= k < |names| ensures NotAfter(name, names[k]) {
      if k > i {
        assert NotAfter(names[i], names[k]);
        CompareIsTransitive(Tokens(name), Tokens(names[i]), Tokens(names[k]));
      }
    }
  }

  /** The embedded directory's migration files, in order. */
  method MigrationFileNames(entries: seq<string>) returns (names: seq<string>)
    ensures InOrder(names) && multiset(names) == multiset(Migrations(entries))
  {
    names := [];
    for i := 0 to |entries|
      invariant InOrder(names) && multiset(names) == multiset(Migrations(entries[..i]))
    {
      assert entries[..i + 1][..i] == entries[..i];
      if IsMigration(entries[i]) { names := InsertName(names, entries[i]); }
    }
    assert entries[..|entries|] == entries;
  }
}
