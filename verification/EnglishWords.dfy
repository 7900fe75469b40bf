/** The engine's own words (engines/amount_words.go), and a dictionary that tells every one of them apart. */
module EnglishWords {
  import opened Text
  import opened AmountWords

  const UNDER20 := ["Zero", "One", "Two", "Three", "Four", "Five", "Six", "Seven", "Eight", "Nine", "Ten", "Eleven",
                    "Twelve", "Thirteen", "Fourteen", "Fifteen", "Sixteen", "Seventeen", "Eighteen", "Nineteen"]

  const TENS := ["", "", "Twenty", "Thirty", "Forty", "Fifty", "Sixty", "Seventy", "Eighty", "Ninety"]

  const ENGLISH := Vocabulary(UNDER20, TENS, "Hundred", "Thousand", "Lakh", "Crore", "Minus", "Rupees", "and", "Paise", "Only")

  /** Length, the first two letters and the last tell all the words apart. */
  function Code(w: string): int
  {
    if |w| < 2 then 0 else |w| * 1_000_000 + (w[0] as int) * 10_000 + (w[1] as int) * 100 + w[|w| - 1] as int
  }

  const UNDER20_CODES: seq<int> := [
    4910211, 3801101, 3852011, 5850501, 4711214, 4710601, 3840620, 5840210, 5700616, 4790601,
    3850210, 6700910, 6852001, 8850510, 8711210, 7710610, 7840610, 9840210, 8700610, 8790610]

  const TENS_CODES: seq<int> := [
    0, 0, 6852021, 6850521, 5711221, 5710621, 5840621, 7840221, 6700621, 6790621]

  function FirstAt(codes: seq<int>, c: int): (i: nat)
    ensures i <= |codes| && (i < |codes| ==> codes[i] == c) && forall j :: 0 <= j < i ==> codes[j] != c
  {
    if codes == [] || codes[0] == c then 0 else 1 + FirstAt(codes[1..], c)
  }

  function MeaningOf(w: string): Meaning { MeaningIn(UNDER20_CODES, TENS_CODES, w) }

  function MeaningIn(units: seq<int>, tens: seq<int>, w: string): Meaning
  {
    var c := Code(w);
    if c == 7731800 then Hundred
    else if c == 8850500 then Scale(1000)
    else if c == 4769804 then Scale(LAKH)
    else if c == 5681501 then Crore
    else if c == 5780615 then Minus
    else if c == 3981100 then And
    else if FirstAt(units, c) < |units| then Units(FirstAt(units, c))
    else if 2 <= FirstAt(tens, c) < |tens| then Units(10 * FirstAt(tens, c))
    else Filler
  }

  ghost predicate AllCoded(table: seq<string>, codes: seq<int>)
  {
    |table| == |codes| && forall i :: 0 <= i < |table| ==> Code(table[i]) == codes[i]
  }

  lemma UnderTwentyCoded()
    ensures AllCoded(UNDER20, UNDER20_CODES)
  {
  }

  lemma TensCoded()
    ensures AllCoded(TENS, TENS_CODES)
  {
  }

  lemma OthersCoded()
    ensures Code("Minus") == 5780615 && Code("Hundred") == 7731800 && Code("Thousand") == 8850500 && Code("Lakh") == 4769804
    ensures Code("Crore") == 5681501 && Code("and") == 3981100 && Code("Paise") == 5809801 && Code("Rupees") == 6831815 && Code("Only") == 4801121
  {
  }

  /** No code stands for two words. */
  lemma CodesDiffer(n: nat)
    requires n < 20
    ensures FirstAt(UNDER20_CODES, UNDER20_CODES[n]) == n
    ensures UNDER20_CODES[n] !in {7731800, 8850500, 4769804, 5681501, 5780615, 3981100}
  {
    assert forall j :: 0 <= j < n ==> UNDER20_CODES[j] != UNDER20_CODES[n];
  }

  lemma TensDiffer(d: nat)
    requires 2 <= d < 10
    ensures FirstAt(TENS_CODES, TENS_CODES[d]) == d && FirstAt(UNDER20_CODES, TENS_CODES[d]) == 20
    ensures TENS_CODES[d] !in {7731800, 8850500, 4769804, 5681501, 5780615, 3981100}
  {
    assert forall j :: 0 <= j < d ==> TENS_CODES[j] != TENS_CODES[d];
    assert forall j :: 0 <= j < 20 ==> UNDER20_CODES[j] != TENS_CODES[d];
  }

  lemma UnderTwentyMeans(n: nat)
    requires n < 20
    ensures MeaningOf(UNDER20[n]) == Units(n)
  {
    UnderTwentyCoded();
    CodesDiffer(n);
    assert Code(UNDER20[n]) == UNDER20_CODES[n];
  }

  lemma TensMean(d: nat)
    requires 2 <= d < 10
    ensures MeaningOf(TENS[d]) == Units(10 * d)
  {
    TensCoded();
    TensDiffer(d);
    assert Code(TENS[d]) == TENS_CODES[d];
  }

  lemma ScalesMean()
    ensures MeaningOf("Hundred") == Hundred && MeaningOf("Thousand") == Scale(1000) && MeaningOf("Lakh") == Scale(LAKH)
    ensures MeaningOf("Crore") == Crore && MeaningOf("Minus") == Minus && MeaningOf("and") == And
  {
    OthersCoded();
  }

  lemma NoNumber(c: int)
    requires c in {6831815, 5809801, 4801121}
    ensures forall j :: 0 <= j < 20 ==> UNDER20_CODES[j] != c
    ensures forall j :: 0 <= j < 10 ==> TENS_CODES[j] != c
  {
  }

  lemma FillerMeans(units: seq<int>, tens: seq<int>, w: string)
    requires Code(w) in {6831815, 5809801, 4801121}
    requires (forall j :: 0 <= j < |units| ==> units[j] != Code(w)) && (forall j :: 0 <= j < |tens| ==> tens[j] != Code(w))
    ensures MeaningIn(units, tens, w) == Filler
  {
  }

  lemma FillersMean()
    ensures MeaningOf("Rupees") == Filler && MeaningOf("Paise") == Filler && MeaningOf("Only") == Filler
  {
    OthersCoded();
    NoNumber(Code("Rupees"));
    FillerMeans(UNDER20_CODES, TENS_CODES, "Rupees");
    NoNumber(Code("Paise"));
    FillerMeans(UNDER20_CODES, TENS_CODES, "Paise");
    NoNumber(Code("Only"));
    FillerMeans(UNDER20_CODES, TENS_CODES, "Only");
  }

  lemma EnglishIsValid()
    ensures ENGLISH.Valid()
  {
    forall i | 0 <= i < 20 ensures ' ' !in UNDER20[i] { }
    forall i | 0 <= i < 10 ensures ' ' !in TENS[i] { }
  }

  lemma MeaningOfIsDictionary()
    ensures Dictionary(ENGLISH, MeaningOf)
  {
    EnglishIsValid();
    forall n | 0 <= n < 20 ensures MeaningOf(ENGLISH.units[n]) == Units(n) { UnderTwentyMeans(n); }
    forall d | 2 <= d < 10 ensures MeaningOf(ENGLISH.tens[d]) == Units(10 * d) { TensMean(d); }
    ScalesMean();
    FillersMean();
  }

  /** No two numbers print alike. */
  lemma IntegerWordsInjective(m: nat, n: nat)
    requires NumberText(ENGLISH, m) == NumberText(ENGLISH, n)
    ensures m == n
  {
    MeaningOfIsDictionary();
    IntegerWordsDetermine(ENGLISH, MeaningOf, m, n);
  }

  /** No two amounts print alike. */
  lemma AmountTextInjective(a: bool, m: nat, b: bool, n: nat)
    requires AmountText(ENGLISH, a, m) == AmountText(ENGLISH, b, n)
    ensures a == b && m == n
  {
    MeaningOfIsDictionary();
    AmountTextDetermines(ENGLISH, MeaningOf, a, m, b, n);
  }
}
