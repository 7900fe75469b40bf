/**
  The Code 128 patterns (engines/code128.go; clause 4 of ISO/IEC 15417): six widths of bars and spaces for each
  symbol value.
 */
module Code128Table {
  import opened Text

  /** Bar, space, bar, space, bar, space. */
  datatype Six = Six(a: nat, b: nat, c: nat, d: nat, e: nat, f: nat)

  function PatternA(v: nat): Six
    requires 0 <= v < 36
  {
    match v
    case 0 => Six(2, 1, 2, 2, 2, 2) case 1 => Six(2, 2, 2, 1, 2, 2) case 2 => Six(2, 2, 2, 2, 2, 1) case 3 => Six(1, 2, 1, 2, 2, 3)
    case 4 => Six(1, 2, 1, 3, 2, 2) case 5 => Six(1, 3, 1, 2, 2, 2) case 6 => Six(1, 2, 2, 2, 1, 3) case 7 => Six(1, 2, 2, 3, 1, 2)
    case 8 => Six(1, 3, 2, 2, 1, 2) case 9 => Six(2, 2, 1, 2, 1, 3) case 10 => Six(2, 2, 1, 3, 1, 2) case 11 => Six(2, 3, 1, 2, 1, 2)
    case 12 => Six(1, 1, 2, 2, 3, 2) case 13 => Six(1, 2, 2, 1, 3, 2) case 14 => Six(1, 2, 2, 2, 3, 1) case 15 => Six(1, 1, 3, 2, 2, 2)
    case 16 => Six(1, 2, 3, 1, 2, 2) case 17 => Six(1, 2, 3, 2, 2, 1) case 18 => Six(2, 2, 3, 2, 1, 1) case 19 => Six(2, 2, 1, 1, 3, 2)
    case 20 => Six(2, 2, 1, 2, 3, 1) case 21 => Six(2, 1, 3, 2, 1, 2) case 22 => Six(2, 2, 3, 1, 1, 2) case 23 => Six(3, 1, 2, 1, 3, 1)
    case 24 => Six(3, 1, 1, 2, 2, 2) case 25 => Six(3, 2, 1, 1, 2, 2) case 26 => Six(3, 2, 1, 2, 2, 1) case 27 => Six(3, 1, 2, 2, 1, 2)
    case 28 => Six(3, 2, 2, 1, 1, 2) case 29 => Six(3, 2, 2, 2, 1, 1) case 30 => Six(2, 1, 2, 1, 2, 3) case 31 => Six(2, 1, 2, 3, 2, 1)
    case 32 => Six(2, 3, 2, 1, 2, 1) case 33 => Six(1, 1, 1, 3, 2, 3) case 34 => Six(1, 3, 1, 1, 2, 3) case _ => Six(1, 3, 1, 3, 2, 1)
  }

  function PatternB(v: nat): Six
    requires 36 <= v < 72
  {
    match v
    case 36 => Six(1, 1, 2, 3, 1, 3) case 37 => Six(1, 3, 2, 1, 1, 3) case 38 => Six(1, 3, 2, 3, 1, 1) case 39 => Six(2, 1, 1, 3, 1, 3)
    case 40 => Six(2, 3, 1, 1, 1, 3) case 41 => Six(2, 3, 1, 3, 1, 1) case 42 => Six(1, 1, 2, 1, 3, 3) case 43 => Six(1, 1, 2, 3, 3, 1)
    case 44 => Six(1, 3, 2, 1, 3, 1) case 45 => Six(1, 1, 3, 1, 2, 3) case 46 => Six(1, 1, 3, 3, 2, 1) case 47 => Six(1, 3, 3, 1, 2, 1)
    case 48 => Six(3, 1, 3, 1, 2, 1) case 49 => Six(2, 1, 1, 3, 3, 1) case 50 => Six(2, 3, 1, 1, 3, 1) case 51 => Six(2, 1, 3, 1, 1, 3)
    case 52 => Six(2, 1, 3, 3, 1, 1) case 53 => Six(2, 1, 3, 1, 3, 1) case 54 => Six(3, 1, 1, 1, 2, 3) case 55 => Six(3, 1, 1, 3, 2, 1)
    case 56 => Six(3, 3, 1, 1, 2, 1) case 57 => Six(3, 1, 2, 1, 1, 3) case 58 => Six(3, 1, 2, 3, 1, 1) case 59 => Six(3, 3, 2, 1, 1, 1)
    case 60 => Six(3, 1, 4, 1, 1, 1) case 61 => Six(2, 2, 1, 4, 1, 1) case 62 => Six(4, 3, 1, 1, 1, 1) case 63 => Six(1, 1, 1, 2, 2, 4)
    case 64 => Six(1, 1, 1, 4, 2, 2) case 65 => Six(1, 2, 1, 1, 2, 4) case 66 => Six(1, 2, 1, 4, 2, 1) case 67 => Six(1, 4, 1, 1, 2, 2)
    case 68 => Six(1, 4, 1, 2, 2, 1) case 69 => Six(1, 1, 2, 2, 1, 4) case 70 => Six(1, 1, 2, 4, 1, 2) case _ => Six(1, 2, 2, 1, 1, 4)
  }

  function PatternC(v: nat): Six
    requires 72 <= v < 106
  {
    match v
    case 72 => Six(1, 2, 2, 4, 1, 1) case 73 => Six(1, 4, 2, 1, 1, 2) case 74 => Six(1, 4, 2, 2, 1, 1) case 75 => Six(2, 4, 1, 2, 1, 1)
    case 76 => Six(2, 2, 1, 1, 1, 4) case 77 => Six(4, 1, 3, 1, 1, 1) case 78 => Six(2, 4, 1, 1, 1, 2) case 79 => Six(1, 3, 4, 1, 1, 1)
    case 80 => Six(1, 1, 1, 2, 4, 2) case 81 => Six(1, 2, 1, 1, 4, 2) case 82 => Six(1, 2, 1, 2, 4, 1) case 83 => Six(1, 1, 4, 2, 1, 2)
    case 84 => Six(1, 2, 4, 1, 1, 2) case 85 => Six(1, 2, 4, 2, 1, 1) case 86 => Six(4, 1, 1, 2, 1, 2) case 87 => Six(4, 2, 1, 1, 1, 2)
    case 88 => Six(4, 2, 1, 2, 1, 1) case 89 => Six(2, 1, 2, 1, 4, 1) case 90 => Six(2, 1, 4, 1, 2, 1) case 91 => Six(4, 1, 2, 1, 2, 1)
    case 92 => Six(1, 1, 1, 1, 4, 3) case 93 => Six(1, 1, 1, 3, 4, 1) case 94 => Six(1, 3, 1, 1, 4, 1) case 95 => Six(1, 1, 4, 1, 1, 3)
    case 96 => Six(1, 1, 4, 3, 1, 1) case 97 => Six(4, 1, 1, 1, 1, 3) case 98 => Six(4, 1, 1, 3, 1, 1) case 99 => Six(1, 1, 3, 1, 4, 1)
    case 100 => Six(1, 1, 4, 1, 3, 1) case 101 => Six(3, 1, 1, 1, 4, 1) case 102 => Six(4, 1, 1, 1, 3, 1) case 103 => Six(2, 1, 1, 4, 1, 2)
    case 104 => Six(2, 1, 1, 2, 1, 4) case _ => Six(2, 1, 1, 2, 3, 2)
  }

  function Pattern(v: nat): Six
    requires v < 106
  {
    if v < 36 then PatternA(v) else if v < 72 then PatternB(v) else PatternC(v)
  }

  /** The six widths written as one number. */
  function Number(p: Six): int
  {
    p.a * 100_000 + p.b * 10_000 + p.c * 1000 + p.d * 100 + p.e * 10 + p.f
  }

  /** The symbol a pattern belongs to. */
  function Symbol(pattern: int): Option<nat>
  {
    match pattern
    case 212222 => Some(0) case 222122 => Some(1) case 222221 => Some(2) case 121223 => Some(3) case 121322 => Some(4) case 131222 => Some(5)
    case 122213 => Some(6) case 122312 => Some(7) case 132212 => Some(8) case 221213 => Some(9) case 221312 => Some(10) case 231212 => Some(11)
    case 112232 => Some(12) case 122132 => Some(13) case 122231 => Some(14) case 113222 => Some(15) case 123122 => Some(16) case 123221 => Some(17)
    case 223211 => Some(18) case 221132 => Some(19) case 221231 => Some(20) case 213212 => Some(21) case 223112 => Some(22) case 312131 => Some(23)
    case 311222 => Some(24) case 321122 => Some(25) case 321221 => Some(26) case 312212 => Some(27) case 322112 => Some(28) case 322211 => Some(29)
    case 212123 => Some(30) case 212321 => Some(31) case 232121 => Some(32) case 111323 => Some(33) case 131123 => Some(34) case 131321 => Some(35)
    case 112313 => Some(36) case 132113 => Some(37) case 132311 => Some(38) case 211313 => Some(39) case 231113 => Some(40) case 231311 => Some(41)
    case 112133 => Some(42) case 112331 => Some(43) case 132131 => Some(44) case 113123 => Some(45) case 113321 => Some(46) case 133121 => Some(47)
    case 313121 => Some(48) case 211331 => Some(49) case 231131 => Some(50) case 213113 => Some(51) case 213311 => Some(52) case 213131 => Some(53)
    case 311123 => Some(54) case 311321 => Some(55) case 331121 => Some(56) case 312113 => Some(57) case 312311 => Some(58) case 332111 => Some(59)
    case 314111 => Some(60) case 221411 => Some(61) case 431111 => Some(62) case 111224 => Some(63) case 111422 => Some(64) case 121124 => Some(65)
    case 121421 => Some(66) case 141122 => Some(67) case 141221 => Some(68) case 112214 => Some(69) case 112412 => Some(70) case 122114 => Some(71)
    case 122411 => Some(72) case 142112 => Some(73) case 142211 => Some(74) case 241211 => Some(75) case 221114 => Some(76) case 413111 => Some(77)
    case 241112 => Some(78) case 134111 => Some(79) case 111242 => Some(80) case 121142 => Some(81) case 121241 => Some(82) case 114212 => Some(83)
    case 124112 => Some(84) case 124211 => Some(85) case 411212 => Some(86) case 421112 => Some(87) case 421211 => Some(88) case 212141 => Some(89)
    case 214121 => Some(90) case 412121 => Some(91) case 111143 => Some(92) case 111341 => Some(93) case 131141 => Some(94) case 114113 => Some(95)
    case 114311 => Some(96) case 411113 => Some(97) case 411311 => Some(98) case 113141 => Some(99) case 114131 => Some(100) case 311141 => Some(101)
    case 411131 => Some(102) case 211412 => Some(103) case 211214 => Some(104) case 211232 => Some(105)
    case _ => None
  }

  /** Widths of one to four modules, eleven together. */
  predicate GoodPattern(p: Six)
  {
    && 1 <= p.a <= 4 && 1 <= p.b <= 4 && 1 <= p.c <= 4 && 1 <= p.d <= 4 && 1 <= p.e <= 4 && 1 <= p.f <= 4
    && p.a + p.b + p.c + p.d + p.e + p.f == 11
  }

  lemma PatternAIsGood(v: nat)
    requires 0 <= v < 36
    ensures GoodPattern(PatternA(v))
  {
  }

  lemma PatternBIsGood(v: nat)
    requires 36 <= v < 72
    ensures GoodPattern(PatternB(v))
  {
  }

  lemma PatternCIsGood(v: nat)
    requires 72 <= v < 106
    ensures GoodPattern(PatternC(v))
  {
  }

  lemma PatternIsGood(v: nat)
    requires v < 106
    ensures GoodPattern(Pattern(v))
  {
    if v < 36 { PatternAIsGood(v); } else if v < 72 { PatternBIsGood(v); } else { PatternCIsGood(v); }
  }

  lemma SymbolOfPattern0(v: nat)
    requires 0 <= v < 15
    ensures Symbol(Number(Pattern(v))) == Some(v)
  {
  }

  lemma SymbolOfPattern1(v: nat)
    requires 15 <= v < 30
    ensures Symbol(Number(Pattern(v))) == Some(v)
  {
  }

  lemma SymbolOfPattern2(v: nat)
    requires 30 <= v < 45
    ensures Symbol(Number(Pattern(v))) == Some(v)
  {
  }

  lemma SymbolOfPattern3(v: nat)
    requires 45 <= v < 60
    ensures Symbol(Number(Pattern(v))) == Some(v)
  {
  }

  lemma SymbolOfPattern4(v: nat)
    requires 60 <= v < 72
    ensures Symbol(Number(Pattern(v))) == Some(v)
  {
  }

  lemma SymbolOfPattern5(v: nat)
    requires 72 <= v < 81
    ensures Symbol(Number(Pattern(v))) == Some(v)
  {
  }

  lemma SymbolOfPattern6(v: nat)
    requires 81 <= v < 90
    ensures Symbol(Number(Pattern(v))) == Some(v)
  {
  }

  lemma SymbolOfPattern7(v: nat)
    requires 90 <= v < 98
    ensures Symbol(Number(Pattern(v))) == Some(v)
  {
  }

  lemma SymbolOfPattern8(v: nat)
    requires 98 <= v < 106
    ensures Symbol(Number(Pattern(v))) == Some(v)
  {
  }

  /** No pattern stands for two symbols. */
  lemma SymbolOfPattern(v: nat)
    requires v < 106
    ensures Symbol(Number(Pattern(v))) == Some(v)
  {
    if
    case v < 15 => SymbolOfPattern0(v);
    case 15 <= v < 30 => SymbolOfPattern1(v);
    case 30 <= v < 45 => SymbolOfPattern2(v);
    case 45 <= v < 60 => SymbolOfPattern3(v);
    case 60 <= v < 72 => SymbolOfPattern4(v);
    case 72 <= v < 81 => SymbolOfPattern5(v);
    case 81 <= v < 90 => SymbolOfPattern6(v);
    case 90 <= v < 98 => SymbolOfPattern7(v);
    case 98 <= v < 106 => SymbolOfPattern8(v);
  }
}
