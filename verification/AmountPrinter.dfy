/** The amount printer step by step, building its text as the engine does (engines/amount_words.go). */
module AmountPrinter {
  import opened Text
  import opened AmountWords

  lemma {:induction false} JoinConcat(a: seq<string>, b: seq<string>)
    requires a != [] && b != []
    ensures Join(a + b, ' ') == Join(a, ' ') + " " + Join(b, ' ')
  {
    if |a| == 1 {
      assert (a + b)[1..] == b;
    } else {
      JoinConcat(a[1..], b);
      assert (a + b)[1..] == a[1..] + b;
      assert a[0] + [' '] + (Join(a[1..], ' ') + " " + Join(b, ' ')) == (a[0] + [' '] + Join(a[1..], ' ')) + " " + Join(b, ' ');
    }
  }

  lemma JoinTwo(w: string, x: string)
    ensures Join([w, x], ' ') == w + " " + x
  {
    JoinConcat([w], [x]);
    assert [w] + [x] == [w, x];
  }

  /** Parts joined with spaces are the words of all of them joined with spaces. */
  lemma AppendPart(parts: seq<string>, done: seq<string>, words: seq<string>)
    requires Join(parts, ' ') == Join(done, ' ') && (parts == [] <==> done == []) && words != []
    ensures Join(parts + [Join(words, ' ')], ' ') == Join(done + words, ' ')
  {
    if parts == [] {
      assert parts + [Join(words, ' ')] == [Join(words, ' ')] && done + words == words;
    } else {
      JoinConcat(parts, [Join(words, ' ')]);
      JoinConcat(done, words);
    }
  }

  method TwoDigitWords(v: Vocabulary, n: nat) returns (s: string)
    requires n < 100 && v.Valid()
    ensures s == Join(TwoDigit(v, n), ' ')
  {
    if n < 20 { return v.units[n]; }
    if n % 10 == 0 { return v.tens[n / 10]; }
    JoinTwo(v.tens[n / 10], v.units[n % 10]);
    s := v.tens[n / 10] + " " + v.units[n % 10];
  }

  method ThreeDigitWords(v: Vocabulary, n: nat) returns (s: string)
    requires n < 1000 && v.Valid()
    ensures s == Join(ThreeDigit(v, n), ' ')
  {
    if n < 100 {
      s := TwoDigitWords(v, n);
      return;
    }
    JoinTwo(v.units[n / 100], v.hundred);
    s := v.units[n / 100] + " " + v.hundred;
    if n % 100 != 0 {
      var rest := TwoDigitWords(v, n % 100);
      JoinConcat([v.units[n / 100], v.hundred], TwoDigit(v, n % 100));
      s := s + " " + rest;
    }
  }

  /** One scaled group, its words and its scale word, appended to the parts already there. */
  method AppendScaled(v: Vocabulary, parts: seq<string>, ghost done: seq<string>, n: nat, scale: string) returns (all: seq<string>)
    requires n < 100 && v.Valid() && Join(parts, ' ') == Join(done, ' ') && (parts == [] <==> done == [])
    ensures Join(all, ' ') == Join(done + Scaled(v, n, scale), ' ') && (all == [] <==> done + Scaled(v, n, scale) == [])
  {
    all := parts;
    if n > 0 {
      var words := TwoDigitWords(v, n);
      JoinConcat(TwoDigit(v, n), [scale]);
      AppendPart(parts, done, TwoDigit(v, n) + [scale]);
      all := all + [words + " " + scale];
    } else {
      assert done + [] == done;
    }
  }

  /** What the remainders leave for the next group. */
  lemma LeftOver(n: nat)
    requires n < CRORE
    ensures n / LAKH < 100 && n % LAKH / 1000 < 100 && n % LAKH % 1000 == n % 1000
  {
  }

  /** The groups below one crore, appended to the parts already there. */
  method AppendGroups(v: Vocabulary, parts: seq<string>, ghost done: seq<string>, n: nat) returns (all: seq<string>)
    requires n < CRORE && v.Valid() && Join(parts, ' ') == Join(done, ' ') && (parts == [] <==> done == [])
    ensures Join(all, ' ') == Join(done + Groups(v, n), ' ')
  {
    LeftOver(n);
    var left := n;
    ghost var lakhs := Scaled(v, n / LAKH, v.lakh);
    ghost var thousands := Scaled(v, n % LAKH / 1000, v.thousand);
    all := AppendScaled(v, parts, done, left / LAKH, v.lakh);
    left := left % LAKH;
    all := AppendScaled(v, all, done + lakhs, left / 1000, v.thousand);
    left := left % 1000;
    if left > 0 {
      var part := ThreeDigitWords(v, left);
      AppendPart(all, done + lakhs + thousands, ThreeDigit(v, left));
      all := all + [part];
      Regroup(done, lakhs, thousands, ThreeDigit(v, left));
    } else {
      Regroup(done, lakhs, thousands, []);
    }
  }

  lemma Regroup(a: seq<string>, b: seq<string>, c: seq<string>, d: seq<string>)
    ensures a + b + c + d == a + (b + c + d) && (d == [] ==> a + b + c == a + (b + c + d))
  {
  }

  method IntegerWords(v: Vocabulary, n: nat) returns (s: string)
    requires v.Valid()
    ensures s == AmountWords.NumberText(v, n)
    decreases n, 0
  {
    if n == 0 {
      s := TwoDigitWords(v, 0);
      return;
    }
    var parts: seq<string> := [];
    var left := n;
    ghost var done: seq<string> := [];
    if n >= CRORE {
      var count := WordsBelowCrore(v, n / CRORE);
      CroreCountIsWords(v, n / CRORE);
      done := CroreCount(v, n / CRORE) + [v.crore];
      JoinConcat(CroreCount(v, n / CRORE), [v.crore]);
      parts, left := [count + " " + v.crore], n % CRORE;
    }
    var all := AppendGroups(v, parts, done, left);
    assert [] + Groups(v, left) == Groups(v, left);
    s := Join(all, ' ');
  }

  method WordsBelowCrore(v: Vocabulary, c: nat) returns (s: string)
    requires c > 0 && v.Valid()
    ensures s == Join(CroreCount(v, c), ' ')
    decreases c, 1
  {
    if c < 1000 { s := ThreeDigitWords(v, c); } else { s := IntegerWords(v, c); }
  }

  function Magnitude(amount: real): real { if amount < 0.0 then -amount else amount }

  /** The paise of a rupee amount: half a paisa rounds away from zero. */
  function Paise(amount: real): nat { (Magnitude(amount) * 100.0 + 0.5).Floor }

  method AmountInWords(v: Vocabulary, amount: real) returns (s: string)
    requires v.Valid()
    ensures s == AmountText(v, amount < 0.0, Paise(amount))
  {
    var total := Paise(amount);
    var rupees, paise := total / 100, total % 100;
    var words := IntegerWords(v, rupees);
    WholeIsWords(v, rupees);
    var out := (if amount < 0.0 then v.minus + " " else "") + v.rupees + " " + words;
    SignText(v, amount < 0.0, Whole(v, rupees));
    if paise > 0 {
      var part := TwoDigitWords(v, paise);
      out := out + (" " + v.and + " " + part + " " + v.paise);
    }
    s := out + " " + v.only;
    PaiseText(v, SignWords(v, amount < 0.0) + Whole(v, rupees), paise);
  }

  lemma SignText(v: Vocabulary, negative: bool, words: seq<string>)
    requires words != []
    ensures Join(SignWords(v, negative) + words, ' ') ==
            (if negative then v.minus + " " else "") + v.rupees + " " + Join(words, ' ')
  {
    JoinConcat(SignWords(v, negative), words);
    if negative { JoinTwo(v.minus, v.rupees); }
  }

  lemma PaiseText(v: Vocabulary, words: seq<string>, p: nat)
    requires p < 100 && words != [] && v.Valid()
    ensures Join(words + PaiseWords(v, p), ' ') ==
            (if p > 0 then Join(words, ' ') + (" " + v.and + " " + Join(TwoDigit(v, p), ' ') + " " + v.paise)
             else Join(words, ' ')) + " " + v.only
  {
    if p > 0 {
      var part := [v.and] + TwoDigit(v, p) + [v.paise];
      JoinConcat([v.and], TwoDigit(v, p));
      JoinConcat([v.and] + TwoDigit(v, p), [v.paise]);
      JoinConcat(words, part);
      JoinConcat(words + part, [v.only]);
      assert words + PaiseWords(v, p) == words + part + [v.only];
      assert Join(words, ' ') + " " + Join(part, ' ')
             == Join(words, ' ') + (" " + v.and + " " + Join(TwoDigit(v, p), ' ') + " " + v.paise);
    } else {
      JoinConcat(words, [v.only]);
    }
  }
}
