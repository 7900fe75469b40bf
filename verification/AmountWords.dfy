/**
  Amounts in words, in the Indian system of thousands, lakhs and crores (engines/amount_words.go), and a reader
  of those words. The words themselves are a vocabulary; the engine's is EnglishWords.ENGLISH.
 */
module AmountWords {
  import opened Text

  datatype Vocabulary = Vocabulary(units: seq<string>, tens: seq<string>, hundred: string, thousand: string, lakh: string,
                                   crore: string, minus: string, rupees: string, and: string, paise: string, only: string)
  {
    /** Units to nineteen and tens to ninety, and no space inside a word. */
    ghost predicate Valid()
    {
      && |units| == 20 && |tens| == 10 && NoneContain(units, ' ') && NoneContain(tens, ' ')
      && NoneContain([hundred, thousand, lakh, crore, minus, rupees, and, paise, only], ' ')
    }
  }

  const CRORE := 10_000_000
  const LAKH := 100_000

  // ---- the words of a number ---------------------------------------------------------------

  function TwoDigit(v: Vocabulary, n: nat): (ws: seq<string>)
    requires n < 100 && |v.units| == 20 && |v.tens| == 10
    ensures ws != []
  {
    if n < 20 then [v.units[n]]
    else if n % 10 == 0 then [v.tens[n / 10]]
    else [v.tens[n / 10], v.units[n % 10]]
  }

  function ThreeDigit(v: Vocabulary, n: nat): (ws: seq<string>)
    requires n < 1000 && |v.units| == 20 && |v.tens| == 10
    ensures ws != []
  {
    if n < 100 then TwoDigit(v, n)
    else if n % 100 == 0 then [v.units[n / 100], v.hundred]
    else [v.units[n / 100], v.hundred] + TwoDigit(v, n % 100)
  }

  function Scaled(v: Vocabulary, n: nat, scale: string): seq<string>
    requires n < 100 && |v.units| == 20 && |v.tens| == 10
  {
    if n > 0 then TwoDigit(v, n) + [scale] else []
  }

  /** The groups below one crore; nothing for zero. */
  function Groups(v: Vocabulary, n: nat): seq<string>
    requires n < CRORE && |v.units| == 20 && |v.tens| == 10
  {
    Scaled(v, n / LAKH, v.lakh) + Scaled(v, n % LAKH / 1000, v.thousand)
    + (if n % 1000 > 0 then ThreeDigit(v, n % 1000) else [])
  }

  function Whole(v: Vocabulary, n: nat): seq<string>
    requires |v.units| == 20 && |v.tens| == 10
    decreases n, 0
  {
    if n == 0 then TwoDigit(v, 0)
    else if n < CRORE then Groups(v, n)
    else CroreCount(v, n / CRORE) + [v.crore] + Groups(v, n % CRORE)
  }

  /** integerWordsBelowCrore: the count of crores, itself in crores when it is large. */
  function CroreCount(v: Vocabulary, c: nat): seq<string>
    requires c > 0 && |v.units| == 20 && |v.tens| == 10
    decreases c, 1
  {
    if c < 1000 then ThreeDigit(v, c) else Whole(v, c)
  }

  function SignWords(v: Vocabulary, negative: bool): (ws: seq<string>)
    ensures ws != []
  {
    if negative then [v.minus, v.rupees] else [v.rupees]
  }

  function PaiseWords(v: Vocabulary, p: nat): (ws: seq<string>)
    requires p < 100 && |v.units| == 20 && |v.tens| == 10
    ensures ws != []
  {
    if p > 0 then [v.and] + TwoDigit(v, p) + [v.paise] + [v.only] else [v.only]
  }

  /** Every word of an amount, given in paise without its sign. */
  function AmountList(v: Vocabulary, negative: bool, paise: nat): seq<string>
    requires |v.units| == 20 && |v.tens| == 10
  {
    SignWords(v, negative) + Whole(v, paise / 100) + PaiseWords(v, paise % 100)
  }

  // ---- a reader of the words ------------------------------------------------------------------

  datatype Meaning = Units(n: nat) | Hundred | Scale(factor: nat) | Crore | Minus | And | Filler

  /** What a reader has so far: the sign, the rupees once "and" was read, the finished groups and the open one. */
  datatype Reading = Reading(negative: bool, rupees: Option<nat>, total: nat, group: nat)

  function Read(r: Reading, m: Meaning): Reading
  {
    match m
    case Units(n) => r.(group := r.group + n)
    case Hundred => r.(group := r.group * 100)
    case Scale(factor) => r.(total := r.total + r.group * factor, group := 0)
    case Crore => r.(total := (r.total + r.group) * CRORE, group := 0)
    case Minus => r.(negative := true)
    case And => Reading(r.negative, Some(r.total + r.group), 0, 0)
    case Filler => r
  }

  /** A reader's dictionary. */
  type Lexicon = string -> Meaning

  function ReadAll(mean: Lexicon, r: Reading, ws: seq<string>): Reading
    decreases |ws|
  {
    if ws == [] then r else ReadAll(mean, Read(r, mean(ws[0])), ws[1..])
  }

  const START := Reading(false, None, 0, 0)

  function ReadNumber(mean: Lexicon, ws: seq<string>): nat
  {
    var r := ReadAll(mean, START, ws);
    r.total + r.group
  }

  /** Sign, rupees and paise of a printed amount. */
  function ReadAmount(mean: Lexicon, ws: seq<string>): (bool, nat, nat) { AmountRead(ReadAll(mean, START, ws)) }

  function AmountRead(r: Reading): (bool, nat, nat)
  {
    match r.rupees
    case Some(rupees) => (r.negative, rupees, r.total + r.group)
    case None => (r.negative, r.total + r.group, 0)
  }

  /** What a reader has to know of the words. */
  ghost predicate Dictionary(v: Vocabulary, mean: Lexicon)
  {
    && v.Valid()
    && (forall n :: 0 <= n < 20 ==> mean(v.units[n]) == Units(n))
    && (forall d :: 2 <= d < 10 ==> mean(v.tens[d]) == Units(10 * d))
    && mean(v.hundred) == Hundred && mean(v.thousand) == Scale(1000) && mean(v.lakh) == Scale(LAKH)
    && mean(v.crore) == Crore && mean(v.minus) == Minus && mean(v.and) == And
    && mean(v.rupees) == Filler && mean(v.paise) == Filler && mean(v.only) == Filler
  }

  // ---- reading the printed words --------------------------------------------------------------------

  lemma {:induction false} ReadAllConcat(mean: Lexicon, r: Reading, a: seq<string>, b: seq<string>)
    ensures ReadAll(mean, r, a + b) == ReadAll(mean, ReadAll(mean, r, a), b)
    decreases |a|
  {
    if a == [] {
      assert a + b == b;
    } else {
      assert (a + b)[1..] == a[1..] + b;
      ReadAllConcat(mean, Read(r, mean(a[0])), a[1..], b);
    }
  }

  lemma ReadOne(mean: Lexicon, r: Reading, w: string)
    ensures ReadAll(mean, r, [w]) == Read(r, mean(w))
  {
    assert [w][1..] == [];
  }

  lemma ReadTwo(mean: Lexicon, r: Reading, w: string, x: string)
    ensures ReadAll(mean, r, [w, x]) == Read(Read(r, mean(w)), mean(x))
  {
    assert [w, x][1..] == [x];
    ReadOne(mean, Read(r, mean(w)), x);
  }

  lemma ReadTwoDigit(v: Vocabulary, mean: Lexicon, r: Reading, n: nat)
    requires n < 100 && Dictionary(v, mean)
    ensures ReadAll(mean, r, TwoDigit(v, n)) == r.(group := r.group + n)
  {
    if n < 20 { ReadOne(mean, r, v.units[n]); }
    else if n % 10 == 0 { ReadOne(mean, r, v.tens[n / 10]); }
    else { ReadTwo(mean, r, v.tens[n / 10], v.units[n % 10]); }
  }

  lemma ReadThreeDigit(v: Vocabulary, mean: Lexicon, r: Reading, n: nat)
    requires n < 1000 && r.group == 0 && Dictionary(v, mean)
    ensures ReadAll(mean, r, ThreeDigit(v, n)) == r.(group := n)
  {
    if n < 100 {
      ReadTwoDigit(v, mean, r, n);
    } else {
      var head := [v.units[n / 100], v.hundred];
      ReadTwo(mean, r, v.units[n / 100], v.hundred);
      if n % 100 != 0 {
        ReadAllConcat(mean, r, head, TwoDigit(v, n % 100));
        ReadTwoDigit(v, mean, ReadAll(mean, r, head), n % 100);
      }
    }
  }

  /** A group with its scale word adds itself times the scale. */
  lemma ReadGroup(v: Vocabulary, mean: Lexicon, r: Reading, n: nat, scale: string, factor: nat)
    requires n < 100 && r.group == 0 && Dictionary(v, mean) && mean(scale) == Scale(factor)
    ensures ReadAll(mean, r, Scaled(v, n, scale)) == r.(total := r.total + n * factor)
  {
    if n > 0 {
      ReadTwoDigit(v, mean, r, n);
      ReadAllConcat(mean, r, TwoDigit(v, n), [scale]);
      ReadOne(mean, ReadAll(mean, r, TwoDigit(v, n)), scale);
    }
  }

  lemma ReadGroups(v: Vocabulary, mean: Lexicon, r: Reading, n: nat)
    requires n < CRORE && r.group == 0 && Dictionary(v, mean)
    ensures var t := ReadAll(mean, r, Groups(v, n));
            t.total + t.group == r.total + n && t.negative == r.negative && t.rupees == r.rupees
  {
    var lakh, thousand, rest := n / LAKH, n % LAKH / 1000, n % 1000;
    assert n == lakh * LAKH + thousand * 1000 + rest;
    var a, b := Scaled(v, lakh, v.lakh), Scaled(v, thousand, v.thousand);
    var c := if rest > 0 then ThreeDigit(v, rest) else [];
    ReadAllConcat(mean, r, a + b, c);
    ReadAllConcat(mean, r, a, b);
    ReadGroup(v, mean, r, lakh, v.lakh, LAKH);
    var ra := ReadAll(mean, r, a);
    ReadGroup(v, mean, ra, thousand, v.thousand, 1000);
    if rest > 0 { ReadThreeDigit(v, mean, ReadAll(mean, ra, b), rest); }
  }

  /** The words of a number, the crores of crores included, read back as the number. */
  lemma {:induction false} ReadWhole(v: Vocabulary, mean: Lexicon, r: Reading, n: nat)
    requires Dictionary(v, mean) && r.total == 0 && r.group == 0
    ensures var t := ReadAll(mean, r, Whole(v, n)); t.total + t.group == n && t.negative == r.negative && t.rupees == r.rupees
    decreases n, 0
  {
    if n == 0 {
      ReadTwoDigit(v, mean, r, 0);
    } else if n < CRORE {
      ReadGroups(v, mean, r, n);
    } else {
      ReadCroreCount(v, mean, r, n / CRORE);
      ReadCroresAndGroups(v, mean, r, CroreCount(v, n / CRORE), n);
    }
  }

  lemma ReadCroresAndGroups(v: Vocabulary, mean: Lexicon, r: Reading, count: seq<string>, n: nat)
    requires Dictionary(v, mean)
    requires var t := ReadAll(mean, r, count); t.total + t.group == n / CRORE && t.negative == r.negative && t.rupees == r.rupees
    ensures var t := ReadAll(mean, r, count + [v.crore] + Groups(v, n % CRORE));
            t.total + t.group == n && t.negative == r.negative && t.rupees == r.rupees
  {
    var c := n / CRORE;
    assert c * CRORE + n % CRORE == n;
    ReadCrores(v, mean, r, count, c);
    ReadAllConcat(mean, r, count + [v.crore], Groups(v, n % CRORE));
    ReadGroups(v, mean, Reading(r.negative, r.rupees, c * CRORE, 0), n % CRORE);
  }

  /** "Crore" multiplies everything read before it. */
  lemma ReadCrores(v: Vocabulary, mean: Lexicon, r: Reading, count: seq<string>, c: nat)
    requires Dictionary(v, mean)
    requires var t := ReadAll(mean, r, count); t.total + t.group == c && t.negative == r.negative && t.rupees == r.rupees
    ensures ReadAll(mean, r, count + [v.crore]) == Reading(r.negative, r.rupees, c * CRORE, 0)
  {
    ReadAllConcat(mean, r, count, [v.crore]);
    ReadOne(mean, ReadAll(mean, r, count), v.crore);
  }

  lemma {:induction false} ReadCroreCount(v: Vocabulary, mean: Lexicon, r: Reading, c: nat)
    requires c > 0 && Dictionary(v, mean) && r.total == 0 && r.group == 0
    ensures var t := ReadAll(mean, r, CroreCount(v, c)); t.total + t.group == c && t.negative == r.negative && t.rupees == r.rupees
    decreases c, 1
  {
    if c < 1000 { ReadThreeDigit(v, mean, r, c); } else { ReadWhole(v, mean, r, c); }
  }

  lemma ReadSign(v: Vocabulary, mean: Lexicon, negative: bool)
    requires Dictionary(v, mean)
    ensures ReadAll(mean, START, SignWords(v, negative)) == START.(negative := negative)
  {
    if negative { ReadTwo(mean, START, v.minus, v.rupees); } else { ReadOne(mean, START, v.rupees); }
  }

  /** The end of an amount: the paise, if any, take the rupees read so far as finished. */
  lemma ReadPaise(v: Vocabulary, mean: Lexicon, r: Reading, p: nat)
    requires p < 100 && Dictionary(v, mean)
    ensures ReadAll(mean, r, PaiseWords(v, p)) == if p > 0 then Reading(r.negative, Some(r.total + r.group), 0, p) else r
  {
    if p == 0 {
      ReadOne(mean, r, v.only);
    } else {
      var words := [v.and] + TwoDigit(v, p);
      ReadAllConcat(mean, r, words + [v.paise], [v.only]);
      ReadAllConcat(mean, r, words, [v.paise]);
      ReadAllConcat(mean, r, [v.and], TwoDigit(v, p));
      ReadOne(mean, r, v.and);
      ReadTwoDigit(v, mean, Reading(r.negative, Some(r.total + r.group), 0, 0), p);
      ReadOne(mean, ReadAll(mean, r, words), v.paise);
      ReadOne(mean, ReadAll(mean, r, words + [v.paise]), v.only);
    }
  }

  lemma ReadAllThrice(mean: Lexicon, r: Reading, a: seq<string>, b: seq<string>, c: seq<string>)
    ensures ReadAll(mean, r, a + b + c) == ReadAll(mean, ReadAll(mean, ReadAll(mean, r, a), b), c)
  {
    ReadAllConcat(mean, r, a + b, c);
    ReadAllConcat(mean, r, a, b);
  }

  lemma ReadAmountList(v: Vocabulary, mean: Lexicon, negative: bool, paise: nat)
    requires Dictionary(v, mean)
    ensures ReadAmount(mean, AmountList(v, negative, paise)) == (negative, paise / 100, paise % 100)
  {
    ReadAllThrice(mean, START, SignWords(v, negative), Whole(v, paise / 100), PaiseWords(v, paise % 100));
    ReadSign(v, mean, negative);
    ReadRest(v, mean, START.(negative := negative), paise / 100, paise % 100);
  }

  /** After the sign come the rupees and the paise. */
  lemma ReadRest(v: Vocabulary, mean: Lexicon, signed: Reading, rupees: nat, p: nat)
    requires Dictionary(v, mean) && p < 100 && signed.total == 0 && signed.group == 0 && signed.rupees == None
    ensures AmountRead(ReadAll(mean, ReadAll(mean, signed, Whole(v, rupees)), PaiseWords(v, p))) == (signed.negative, rupees, p)
  {
    var read := ReadAll(mean, signed, Whole(v, rupees));
    ReadWhole(v, mean, signed, rupees);
    ReadPaise(v, mean, read, p);
    FinalReading(read, ReadAll(mean, read, PaiseWords(v, p)), rupees, p);
  }

  lemma FinalReading(r: Reading, t: Reading, rupees: nat, p: nat)
    requires r.total + r.group == rupees && r.rupees == None
    requires t == if p > 0 then Reading(r.negative, Some(r.total + r.group), 0, p) else r
    ensures AmountRead(t) == (r.negative, rupees, p)
  {
  }

  // ---- from words to text -----------------------------------------------------------------------------

  ghost predicate Words(ws: seq<string>) { ws != [] && NoneContain(ws, ' ') }

  /** The single words of a vocabulary hold no space. */
  lemma ScaleWords(v: Vocabulary)
    requires v.Valid()
    ensures ' ' !in v.hundred && ' ' !in v.thousand && ' ' !in v.lakh && ' ' !in v.crore && ' ' !in v.minus
    ensures ' ' !in v.rupees && ' ' !in v.and && ' ' !in v.paise && ' ' !in v.only
  {
    var ws := [v.hundred, v.thousand, v.lakh, v.crore, v.minus, v.rupees, v.and, v.paise, v.only];
    assert ws[0] == v.hundred && ws[1] == v.thousand && ws[2] == v.lakh && ws[3] == v.crore && ws[4] == v.minus;
    assert ws[5] == v.rupees && ws[6] == v.and && ws[7] == v.paise && ws[8] == v.only;
  }

  lemma ThreeDigitIsWords(v: Vocabulary, n: nat)
    requires n < 1000 && v.Valid()
    ensures Words(ThreeDigit(v, n))
  {
    ScaleWords(v);
  }

  lemma GroupsAreWords(v: Vocabulary, n: nat)
    requires n < CRORE && v.Valid()
    ensures NoneContain(Groups(v, n), ' ') && (n > 0 ==> Groups(v, n) != [])
  {
    ScaleWords(v);
    if n % 1000 > 0 { ThreeDigitIsWords(v, n % 1000); }
  }

  lemma {:induction false} WholeIsWords(v: Vocabulary, n: nat)
    requires v.Valid()
    ensures Words(Whole(v, n))
    decreases n, 0
  {
    ScaleWords(v);
    if 0 < n < CRORE { GroupsAreWords(v, n); }
    else if n > 0 { CroreCountIsWords(v, n / CRORE); GroupsAreWords(v, n % CRORE); }
  }

  lemma {:induction false} CroreCountIsWords(v: Vocabulary, c: nat)
    requires c > 0 && v.Valid()
    ensures Words(CroreCount(v, c))
    decreases c, 1
  {
    if c < 1000 { ThreeDigitIsWords(v, c); } else { WholeIsWords(v, c); }
  }

  lemma AmountIsWords(v: Vocabulary, negative: bool, paise: nat)
    requires v.Valid()
    ensures Words(AmountList(v, negative, paise))
  {
    ScaleWords(v);
    WholeIsWords(v, paise / 100);
  }

  /** integerWords' text. */
  function NumberText(v: Vocabulary, n: nat): string
    requires |v.units| == 20 && |v.tens| == 10
  {
    Join(Whole(v, n), ' ')
  }

  function AmountText(v: Vocabulary, negative: bool, paise: nat): string
    requires |v.units| == 20 && |v.tens| == 10
  {
    Join(AmountList(v, negative, paise), ' ')
  }

  /** Reading the printed number gives the number back. */
  lemma IntegerWordsRoundTrip(v: Vocabulary, mean: Lexicon, n: nat)
    requires Dictionary(v, mean)
    ensures ReadNumber(mean, Split(NumberText(v, n), ' ')) == n
  {
    WholeIsWords(v, n);
    SplitJoin(Whole(v, n), ' ');
    ReadWhole(v, mean, START, n);
  }

  /** The printed amount determines sign, rupees and paise. */
  lemma AmountRoundTrip(v: Vocabulary, mean: Lexicon, negative: bool, paise: nat)
    requires Dictionary(v, mean)
    ensures ReadAmount(mean, Split(AmountText(v, negative, paise), ' ')) == (negative, paise / 100, paise % 100)
  {
    AmountIsWords(v, negative, paise);
    SplitJoin(AmountList(v, negative, paise), ' ');
    ReadAmountList(v, mean, negative, paise);
  }

  lemma IntegerWordsDetermine(v: Vocabulary, mean: Lexicon, m: nat, n: nat)
    requires Dictionary(v, mean) && NumberText(v, m) == NumberText(v, n)
    ensures m == n
  {
    IntegerWordsRoundTrip(v, mean, m);
    IntegerWordsRoundTrip(v, mean, n);
  }

  lemma AmountTextDetermines(v: Vocabulary, mean: Lexicon, a: bool, m: nat, b: bool, n: nat)
    requires Dictionary(v, mean) && AmountText(v, a, m) == AmountText(v, b, n)
    ensures a == b && m == n
  {
    AmountRoundTrip(v, mean, a, m);
    AmountRoundTrip(v, mean, b, n);
  }
}
