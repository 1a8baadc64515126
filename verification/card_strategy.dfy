/** The card recommender of `src/lib/cardStrategy.ts`: given the points still
    missing for an award, its loyalty program and the value of a point, it
    lists the catalog cards whose sign-up bonus transfers to that program,
    best net gain first. */
module CardStrategy {
  import opened StableSort
  import opened Rounding

  datatype Option<T> = None | Some(value: T)

  /** A card one can apply for: its bank, sign-up bonus, annual fee, minimum
      spend and the loyalty programs its points transfer to. */
  datatype CreditCardProduct = CreditCardProduct(
    name: string,
    bank: string,
    signupBonus: int,
    annualFee: int,
    minSpend: int,
    transferPartners: seq<string>)

  /** A catalog card with the three fields the recommender adds: the net gain
      in dollars, whether the bonus alone covers the shortfall, and the
      percentage of the shortfall the bonus covers, the number the
      recommendation sentence is built around. */
  datatype CardRecommendation = CardRecommendation(
    card: CreditCardProduct,
    netGain: int,
    isViable: bool,
    coverage: Option<int>)

  /** The catalog the recommender draws on. */
  const AvailableCards: seq<CreditCardProduct> := [
    CreditCardProduct("Chase Sapphire Preferred", "Chase", 60000, 95, 4000, ["Aeroplan", "United MileagePlus"]),
    CreditCardProduct("Amex Business Gold", "Amex", 125000, 375, 10000, ["Aeroplan", "Avianca LifeMiles"])
  ]

  /** The catalog cards whose points transfer to `program`, in catalog order. */
  function Options(catalog: seq<CreditCardProduct>, program: string): (r: seq<CreditCardProduct>)
    ensures forall c :: c in r <==> c in catalog && program in c.transferPartners
    ensures |r| <= |catalog|
  {
    if catalog == [] then []
    else
      (if program in catalog[0].transferPartners then [catalog[0]] else [])
      + Options(catalog[1..], program)
  }

  /** The filter distributes over concatenation, so it keeps catalog order. */
  lemma {:induction false} OptionsAppend(a: seq<CreditCardProduct>, b: seq<CreditCardProduct>, program: string)
    ensures Options(a + b, program) == Options(a, program) + Options(b, program)
  {
    if a == [] {
      assert a + b == b;
    } else {
      var head := if program in a[0].transferPartners then [a[0]] else [];
      assert (a + b)[0] == a[0] && (a + b)[1..] == a[1..] + b;
      calc {
        Options(a + b, program);
        head + Options(a[1..] + b, program);
        { OptionsAppend(a[1..], b, program); }
        head + (Options(a[1..], program) + Options(b, program));
        (head + Options(a[1..], program)) + Options(b, program);
      }
    }
  }

  /** Filtering commutes with picking the cards of one key: the options of
      key `k` are the catalog's cards of key `k` that pass the filter, in
      catalog order. */
  lemma {:induction false} OptionsWithKey(catalog: seq<CreditCardProduct>, program: string, key: CreditCardProduct -> int, k: int)
    ensures WithKey(Options(catalog, program), key, k) == Options(WithKey(catalog, key, k), program)
  {
    if catalog != [] {
      var c, tail := catalog[0], catalog[1..];
      OptionsWithKey(tail, program, key, k);
      var head := if program in c.transferPartners then [c] else [];
      WithKeyAppend(head, Options(tail, program), key, k);
      var kept := if key(c) == k then [c] else [];
      OptionsAppend(kept, WithKey(tail, key, k), program);
      assert [c][1..] == [];
    }
  }

  /** No card transfers to `program`: nothing passes the filter. */
  lemma {:induction false} OptionsNone(catalog: seq<CreditCardProduct>, program: string)
    requires forall i :: 0 <= i < |catalog| ==> program !in catalog[i].transferPartners
    ensures Options(catalog, program) == []
  {
    if catalog != [] {
      OptionsNone(catalog[1..], program);
    }
  }

  /** The bonus's value at `cpp` cents a point, less the annual fee, rounded
      to whole dollars. */
  function NetGain(card: CreditCardProduct, cpp: real): (n: int)
    ensures var gain := card.signupBonus as real * (cpp / 100.0) - card.annualFee as real;
      gain - 0.5 < n as real <= gain + 0.5
  {
    Round(card.signupBonus as real * (cpp / 100.0) - card.annualFee as real)
  }

  /** The percentage of the shortfall the bonus covers, capped at 100. A zero
      shortfall divides by zero: a positive bonus then gives an infinite
      percentage, capped to 100, while a bonus of zero or less gives no
      number at all (not-a-number or minus infinity), which is `None`. */
  function Coverage(signupBonus: int, shortfall: int): (r: Option<int>)
    ensures r.Some? ==> r.value <= 100
    ensures r == None <==> shortfall == 0 && signupBonus <= 0
    ensures 0 < shortfall <= signupBonus ==> r == Some(100)
    ensures 0 < shortfall && 0 <= signupBonus ==> r.Some? && 0 <= r.value
    ensures 0 < shortfall && signupBonus < shortfall ==>
      var exact := signupBonus as real / shortfall as real * 100.0;
      r.Some? && exact - 0.5 < r.value as real <= exact + 0.5
  {
    if shortfall != 0 then
      var pct := Round(signupBonus as real / shortfall as real * 100.0);
      QuotientAtLeastOne(signupBonus, shortfall);
      Some(if 100 <= pct then 100 else pct)
    else if signupBonus > 0 then Some(100)
    else None
  }

  /** A quotient of integers with the divisor in (0, a] is at least 1. */
  lemma QuotientAtLeastOne(a: int, d: int)
    ensures 0 < d <= a ==> a as real / d as real >= 1.0
  {
    if 0 < d <= a {
      var q := a as real / d as real;
      assert q * d as real == a as real;
    }
  }

  /** One card's entry: the card unchanged, plus its net gain, viability and
      coverage. */
  function Evaluate(card: CreditCardProduct, shortfall: int, cpp: real): (r: CardRecommendation)
    ensures r.card == card
    ensures r.isViable <==> card.signupBonus >= shortfall
    ensures var gain := card.signupBonus as real * (cpp / 100.0) - card.annualFee as real;
      gain - 0.5 < r.netGain as real <= gain + 0.5
    ensures r.coverage == Coverage(card.signupBonus, shortfall)
  {
    CardRecommendation(card, NetGain(card, cpp), card.signupBonus >= shortfall, Coverage(card.signupBonus, shortfall))
  }

  /** `Evaluate` on every card, in order. */
  function EvaluateAll(cards: seq<CreditCardProduct>, shortfall: int, cpp: real): (r: seq<CardRecommendation>)
    ensures |r| == |cards|
    ensures forall i :: 0 <= i < |r| ==> r[i] == Evaluate(cards[i], shortfall, cpp)
  {
    if cards == [] then [] else [Evaluate(cards[0], shortfall, cpp)] + EvaluateAll(cards[1..], shortfall, cpp)
  }

  function ByNetGain(): CardRecommendation -> int {
    (r: CardRecommendation) => r.netGain
  }

  /** A card's net gain at `cpp` cents a point. */
  function GainKey(cpp: real): CreditCardProduct -> int {
    (c: CreditCardProduct) => NetGain(c, cpp)
  }

  /** The evaluations of net gain `g` are the evaluations of the cards whose
      net gain is `g`, in the cards' order. */
  lemma {:induction false} EvaluateAllWithKey(cards: seq<CreditCardProduct>, shortfall: int, cpp: real, g: int)
    ensures WithKey(EvaluateAll(cards, shortfall, cpp), ByNetGain(), g) == EvaluateAll(WithKey(cards, GainKey(cpp), g), shortfall, cpp)
  {
    if cards != [] {
      var c, tail := cards[0], cards[1..];
      EvaluateAllWithKey(tail, shortfall, cpp, g);
      var e := Evaluate(c, shortfall, cpp);
      WithKeyAppend([e], EvaluateAll(tail, shortfall, cpp), ByNetGain(), g);
      assert [e][1..] == [];
      var kept := WithKey(tail, GainKey(cpp), g);
      if NetGain(c, cpp) == g {
        assert WithKey(cards, GainKey(cpp), g) == [c] + kept;
        assert ([c] + kept)[0] == c && ([c] + kept)[1..] == kept;
      } else {
        assert WithKey(cards, GainKey(cpp), g) == kept;
      }
    }
  }

  /** `evaluateNewCardStrategy` over a given catalog: filter, evaluate, then
      stable-sort by descending net gain. Its properties are the lemmas
      below. */
  function EvaluateNewCardStrategy(catalog: seq<CreditCardProduct>, shortfall: int, targetProgram: string, cpp: real): (r: seq<CardRecommendation>)
    ensures multiset(r) == multiset(EvaluateAll(Options(catalog, targetProgram), shortfall, cpp))
  {
    SortDescPermutes(EvaluateAll(Options(catalog, targetProgram), shortfall, cpp), ByNetGain());
    SortDesc(EvaluateAll(Options(catalog, targetProgram), shortfall, cpp), ByNetGain())
  }

  /** The result is the evaluated options reordered by non-increasing net gain,
      options of equal net gain keeping their catalog order. */
  lemma StrategyIsStableSort(catalog: seq<CreditCardProduct>, shortfall: int, targetProgram: string, cpp: real)
    ensures var evaluated := EvaluateAll(Options(catalog, targetProgram), shortfall, cpp);
      var r := EvaluateNewCardStrategy(catalog, shortfall, targetProgram, cpp);
      multiset(r) == multiset(evaluated)
      && (forall i, j :: 0 <= i < j < |r| ==> r[i].netGain >= r[j].netGain)
      && (forall g :: WithKey(r, ByNetGain(), g) == WithKey(evaluated, ByNetGain(), g))
  {
    var evaluated := EvaluateAll(Options(catalog, targetProgram), shortfall, cpp);
    var r := SortDesc(evaluated, ByNetGain());
    SortDescPermutes(evaluated, ByNetGain());
    SortDescSorted(evaluated, ByNetGain());
    SortDescStable(evaluated, ByNetGain());
    assert forall i :: 0 <= i < |r| ==> ByNetGain()(r[i]) == r[i].netGain;
  }

  /** Entries of equal net gain keep catalog order: those of net gain `g` are
      the evaluations of the listing catalog cards of net gain `g`, in
      catalog order. */
  lemma StrategyKeepsCatalogOrder(catalog: seq<CreditCardProduct>, shortfall: int, targetProgram: string, cpp: real, g: int)
    ensures WithKey(EvaluateNewCardStrategy(catalog, shortfall, targetProgram, cpp), ByNetGain(), g)
      == EvaluateAll(Options(WithKey(catalog, GainKey(cpp), g), targetProgram), shortfall, cpp)
  {
    var options := Options(catalog, targetProgram);
    SortDescStable(EvaluateAll(options, shortfall, cpp), ByNetGain());
    EvaluateAllWithKey(options, shortfall, cpp, g);
    OptionsWithKey(catalog, targetProgram, GainKey(cpp), g);
  }

  /** An entry is in the result exactly when its card is a catalog card that
      transfers to the program and the entry is that card's evaluation. */
  lemma StrategyMembers(catalog: seq<CreditCardProduct>, shortfall: int, targetProgram: string, cpp: real, rec: CardRecommendation)
    ensures rec in EvaluateNewCardStrategy(catalog, shortfall, targetProgram, cpp)
      <==> rec.card in catalog && targetProgram in rec.card.transferPartners && rec == Evaluate(rec.card, shortfall, cpp)
  {
    var options := Options(catalog, targetProgram);
    var evaluated := EvaluateAll(options, shortfall, cpp);
    StrategyIsStableSort(catalog, shortfall, targetProgram, cpp);
    var r := EvaluateNewCardStrategy(catalog, shortfall, targetProgram, cpp);
    assert rec in r <==> rec in multiset(r);
    assert rec in evaluated <==> rec in multiset(evaluated);
    if rec in evaluated {
      var i :| 0 <= i < |evaluated| && evaluated[i] == rec;
      assert options[i] in options;
    }
    if rec.card in catalog && targetProgram in rec.card.transferPartners && rec == Evaluate(rec.card, shortfall, cpp) {
      var i :| 0 <= i < |options| && options[i] == rec.card;
      assert evaluated[i] == rec;
    }
  }

  /** One entry per catalog card that transfers to the program. */
  lemma StrategyLength(catalog: seq<CreditCardProduct>, shortfall: int, targetProgram: string, cpp: real)
    ensures |EvaluateNewCardStrategy(catalog, shortfall, targetProgram, cpp)| == |Options(catalog, targetProgram)|
  {
    StrategyIsStableSort(catalog, shortfall, targetProgram, cpp);
    var r := EvaluateNewCardStrategy(catalog, shortfall, targetProgram, cpp);
    assert |multiset(r)| == |r|;
  }

  /** A program no catalog card transfers to gets no recommendation. */
  lemma StrategyUnknownProgram(catalog: seq<CreditCardProduct>, shortfall: int, targetProgram: string, cpp: real)
    requires forall c :: c in catalog ==> targetProgram !in c.transferPartners
    ensures EvaluateNewCardStrategy(catalog, shortfall, targetProgram, cpp) == []
  {
    OptionsNone(catalog, targetProgram);
  }

  /** For the shipped catalog and an 80,000-point Aeroplan shortfall at 4.6
      cents a point: Amex Business Gold (net 5,375 dollars, covers the gap)
      ranks above Chase Sapphire Preferred (net 2,665 dollars, covers 75%). */
  lemma SampleRecommendation()
    ensures EvaluateNewCardStrategy(AvailableCards, 80000, "Aeroplan", 4.6) == [
      CardRecommendation(AvailableCards[1], 5375, true, Some(100)),
      CardRecommendation(AvailableCards[0], 2665, false, Some(75))]
  {
    var csp, amex := AvailableCards[0], AvailableCards[1];
    assert "Aeroplan" == csp.transferPartners[0] && "Aeroplan" == amex.transferPartners[0];
    assert AvailableCards[1..][1..] == [];
    assert Options(AvailableCards, "Aeroplan") == AvailableCards;
    var e := EvaluateAll(AvailableCards, 80000, 4.6);
    assert e[0] == CardRecommendation(csp, 2665, false, Some(75));
    assert e[1] == CardRecommendation(amex, 5375, true, Some(100));
    assert e[..1][..0] == [] && e[..2] == e;
    assert SortDesc(e[..1], ByNetGain()) == [e[0]];
    assert SortDesc(e, ByNetGain()) == Insert([e[0]], e[1], ByNetGain()) == [e[1], e[0]];
  }
}
