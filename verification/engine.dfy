/** The award-funding engine: given a portfolio of point balances and an award
    seat, decide which cards to transfer points from and judge the redemption.

    The pipeline is the one of `AwardEngine.optimize`: keep the cards that can
    transfer to the award's program (`Eligible`), order them by descending
    ecosystem weight (`Rank`), draw points greedily until the requirement is
    covered (`Allocate`, walked by the loop of `Transfer`), and value the seat in
    cents per point (`RawCpp`, `GetVerdict`). */
module Engine {
  import opened StableSort
  import opened Rounding

  /** A card in the user's portfolio and its point balance. */
  datatype Card = Card(name: string, points: int)

  /** An award seat: the miles it costs in its program, the taxes paid on
      top, and what the same seat costs in cash. */
  datatype AwardOption = AwardOption(
    airline: string,
    program: string,
    milesRequired: int,
    taxUsd: real,
    cashEquivalentUsd: real)

  /** One proposed transfer: how much to move out of a card and what is left. */
  datatype TransferResult = TransferResult(bank: string, transferAmount: int, remainingBalance: int)

  datatype OptimizationResult = OptimizationResult(
    isPossible: bool,
    shortfall: int,
    totalMiles: int,
    cpp: real,
    transfers: seq<TransferResult>,
    verdict: string)

  /** The transfers of a greedy walk and the miles still missing after it. */
  datatype Allocation = Allocation(transfers: seq<TransferResult>, shortfall: int)

  /** Loyalty program -> names of the cards that transfer into it (1:1). */
  type PartnerTable = map<string, seq<string>>

  /** Card name -> ecosystem weight; the higher the weight, the sooner the
      card's points are spent. */
  type WeightTable = map<string, int>

  const PartnerMap: PartnerTable := map[
    "Aeroplan" := ["Amex Gold", "Chase UR", "Capital One Venture X", "Bilt"],
    "Avianca LifeMiles" := ["Amex Gold", "Capital One Venture X", "Bilt"],
    "United MileagePlus" := ["Chase UR", "Bilt"]
  ]

  const EcosystemWeights: WeightTable := map[
    "Bilt" := 1,
    "Chase UR" := 2,
    "Amex Gold" := 3,
    "Capital One Venture X" := 4
  ]

  function Min(a: int, b: int): int {
    if a <= b then a else b
  }

  /** The positive part of `x`. */
  function Pos(x: int): int {
    if x >= 0 then x else 0
  }

  // ---------------------------------------------------------------------
  // Filter
  // ---------------------------------------------------------------------

  /** A card named `name` can transfer to `program`; a program with no entry
      in the table accepts no card. */
  predicate CanTransfer(partners: PartnerTable, program: string, name: string)
    ensures program !in partners ==> !CanTransfer(partners, program, name)
    ensures program in partners ==> (CanTransfer(partners, program, name) <==> name in partners[program])
  {
    program in partners && name in partners[program]
  }

  /** The portfolio cards that can transfer to `program`, in portfolio order. */
  function Eligible(partners: PartnerTable, program: string, portfolio: seq<Card>): (r: seq<Card>)
    ensures |r| <= |portfolio|
  {
    if portfolio == [] then []
    else
      (if CanTransfer(partners, program, portfolio[0].name) then [portfolio[0]] else [])
      + Eligible(partners, program, portfolio[1..])
  }

  /** A card passes the filter iff it is in the portfolio and can transfer
      to the program. */
  lemma {:induction false} EligibleMembers(partners: PartnerTable, program: string, portfolio: seq<Card>)
    ensures forall c :: c in Eligible(partners, program, portfolio) <==> c in portfolio && CanTransfer(partners, program, c.name)
  {
    if portfolio != [] {
      EligibleMembers(partners, program, portfolio[1..]);
      assert portfolio == [portfolio[0]] + portfolio[1..];
    }
  }

  /** A program missing from the partner table admits no card. */
  lemma {:induction false} EligibleUnknownProgram(partners: PartnerTable, program: string, portfolio: seq<Card>)
    requires program !in partners
    ensures Eligible(partners, program, portfolio) == []
  {
    if portfolio != [] {
      EligibleUnknownProgram(partners, program, portfolio[1..]);
    }
  }

  /** A portfolio whose every card reaches the program passes the filter whole. */
  lemma {:induction false} EligibleAll(partners: PartnerTable, program: string, portfolio: seq<Card>)
    requires forall i :: 0 <= i < |portfolio| ==> CanTransfer(partners, program, portfolio[i].name)
    ensures Eligible(partners, program, portfolio) == portfolio
  {
    if portfolio != [] {
      EligibleAll(partners, program, portfolio[1..]);
      assert portfolio == [portfolio[0]] + portfolio[1..];
    }
  }

  /** The filter distributes over concatenation, so it keeps the portfolio's
      order and every card's multiplicity. */
  lemma {:induction false} EligibleAppend(partners: PartnerTable, program: string, a: seq<Card>, b: seq<Card>)
    ensures Eligible(partners, program, a + b) == Eligible(partners, program, a) + Eligible(partners, program, b)
  {
    if a == [] {
      assert a + b == b;
    } else {
      var head := if CanTransfer(partners, program, a[0].name) then [a[0]] else [];
      assert (a + b)[0] == a[0] && (a + b)[1..] == a[1..] + b;
      calc {
        Eligible(partners, program, a + b);
        head + Eligible(partners, program, a[1..] + b);
        { EligibleAppend(partners, program, a[1..], b); }
        head + (Eligible(partners, program, a[1..]) + Eligible(partners, program, b));
        (head + Eligible(partners, program, a[1..])) + Eligible(partners, program, b);
      }
    }
  }

  /** Filtering commutes with picking the cards of one key: the eligible
      cards of key `k` are the portfolio's cards of key `k` that pass the
      filter, in portfolio order. */
  lemma {:induction false} EligibleWithKey(partners: PartnerTable, program: string, portfolio: seq<Card>, key: Card -> int, k: int)
    ensures WithKey(Eligible(partners, program, portfolio), key, k) == Eligible(partners, program, WithKey(portfolio, key, k))
  {
    if portfolio != [] {
      var c, tail := portfolio[0], portfolio[1..];
      EligibleWithKey(partners, program, tail, key, k);
      var head := if CanTransfer(partners, program, c.name) then [c] else [];
      WithKeyAppend(head, Eligible(partners, program, tail), key, k);
      var kept := if key(c) == k then [c] else [];
      EligibleAppend(partners, program, kept, WithKey(tail, key, k));
      assert [c][1..] == [];
    }
  }

  // ---------------------------------------------------------------------
  // Rank
  // ---------------------------------------------------------------------

  /** The weight a card name sorts by; a name missing from the table counts as 0. */
  function Weight(weights: WeightTable, name: string): (w: int)
    ensures name !in weights ==> w == 0
    ensures name in weights ==> w == weights[name]
  {
    if name in weights then weights[name] else 0
  }

  function RankKey(weights: WeightTable): Card -> int {
    (c: Card) => Weight(weights, c.name)
  }

  /** The cards sorted by the stable `sort` with comparator
      `weight(b) - weight(a)`. */
  function Rank(weights: WeightTable, cards: seq<Card>): (r: seq<Card>)
    ensures |r| == |cards|
  {
    SortDesc(cards, RankKey(weights))
  }

  /** Ranking keeps the cards, puts them in descending weight order, and
      keeps portfolio order among equal weights (missing names weigh 0). */
  lemma RankIsStableSort(weights: WeightTable, cards: seq<Card>)
    ensures multiset(Rank(weights, cards)) == multiset(cards)
    ensures var r := Rank(weights, cards);
      forall i, j :: 0 <= i < j < |r| ==> Weight(weights, r[i].name) >= Weight(weights, r[j].name)
    ensures forall w :: WithKey(Rank(weights, cards), RankKey(weights), w) == WithKey(cards, RankKey(weights), w)
  {
    var key := RankKey(weights);
    SortDescPermutes(cards, key);
    SortDescSorted(cards, key);
    SortDescStable(cards, key);
    var r := SortDesc(cards, key);
    assert forall i :: 0 <= i < |r| ==> key(r[i]) == Weight(weights, r[i].name);
  }

  /** Ranked cards of equal weight are the eligible portfolio cards of that
      weight, in portfolio order: the tie-break of the stable sort. */
  lemma RankKeepsPortfolioOrder(partners: PartnerTable, program: string, weights: WeightTable, portfolio: seq<Card>, w: int)
    ensures WithKey(Rank(weights, Eligible(partners, program, portfolio)), RankKey(weights), w)
      == Eligible(partners, program, WithKey(portfolio, RankKey(weights), w))
  {
    RankIsStableSort(weights, Eligible(partners, program, portfolio));
    EligibleWithKey(partners, program, portfolio, RankKey(weights), w);
  }

  // ---------------------------------------------------------------------
  // Allocate
  // ---------------------------------------------------------------------

  /** The total of the transfer amounts. */
  function Transferred(ts: seq<TransferResult>): int {
    if ts == [] then 0 else ts[0].transferAmount + Transferred(ts[1..])
  }

  /** The greedy walk of the allocation loop over ranked cards: stop once
      nothing is needed, otherwise take `min(points, needed)` from the next
      card when that is positive and move on. */
  function Allocate(cards: seq<Card>, needed: int): (a: Allocation)
    ensures Transferred(a.transfers) + a.shortfall == needed
    ensures 0 < needed ==> 0 <= a.shortfall <= needed
    ensures needed <= 0 ==> a.transfers == [] && a.shortfall == needed
  {
    if cards == [] || needed <= 0 then Allocation([], needed)
    else
      var card := cards[0];
      var contribution := Min(card.points, needed);
      if contribution > 0 then
        var rest := Allocate(cards[1..], needed - contribution);
        var step := TransferResult(card.name, contribution, card.points - contribution);
        assert ([step] + rest.transfers)[1..] == rest.transfers;
        Allocation([step] + rest.transfers, rest.shortfall)
      else
        Allocate(cards[1..], needed)
  }

  /** A transfer draws on a card: it names the card, moves a positive amount
      no larger than the balance, and reports the balance left. */
  predicate Draws(t: TransferResult, c: Card) {
    t.bank == c.name && 0 < t.transferAmount <= c.points && t.remainingBalance == c.points - t.transferAmount
  }

  /** The transfers draw on distinct cards of `cards`, in the cards' order. */
  predicate DrawnFrom(ts: seq<TransferResult>, cards: seq<Card>)
    decreases |cards|
  {
    if ts == [] then true
    else if cards == [] then false
    else (Draws(ts[0], cards[0]) && DrawnFrom(ts[1..], cards[1..])) || DrawnFrom(ts, cards[1..])
  }

  /** The points a sequence of cards can give at most: its positive balances. */
  function Available(cards: seq<Card>): (n: int)
    ensures 0 <= n
  {
    if cards == [] then 0 else Pos(cards[0].points) + Available(cards[1..])
  }

  /** Closed form of what the greedy walk takes from card `i`: its positive
      balance, capped by what is still missing once every earlier card has
      given all it holds. */
  function ShareOf(cards: seq<Card>, needed: int, i: int): int
    requires 0 <= i < |cards|
  {
    Min(Pos(cards[i].points), Pos(needed - Available(cards[..i])))
  }

  /** One transfer for every card from `i` on whose closed-form share is positive. */
  function StepsFrom(cards: seq<Card>, needed: int, i: int): seq<TransferResult>
    requires 0 <= i <= |cards|
    decreases |cards| - i
  {
    if i == |cards| then []
    else
      var share := ShareOf(cards, needed, i);
      (if share > 0 then [TransferResult(cards[i].name, share, cards[i].points - share)] else [])
      + StepsFrom(cards, needed, i + 1)
  }

  lemma {:induction false} StepsFromShift(cards: seq<Card>, needed: int, i: int)
    requires 0 <= i < |cards|
    ensures StepsFrom(cards, needed, i + 1) == StepsFrom(cards[1..], needed - Pos(cards[0].points), i)
    decreases |cards| - i
  {
    if i + 1 < |cards| {
      var tail := cards[1..];
      assert cards[..i + 1] == [cards[0]] + tail[..i];
      assert ([cards[0]] + tail[..i])[1..] == tail[..i];
      assert Available(cards[..i + 1]) == Pos(cards[0].points) + Available(tail[..i]);
      assert cards[i + 1] == tail[i];
      assert ShareOf(cards, needed, i + 1) == ShareOf(tail, needed - Pos(cards[0].points), i);
      StepsFromShift(cards, needed, i + 1);
    }
  }

  lemma {:induction false} StepsFromCovered(cards: seq<Card>, needed: int, i: int)
    requires needed <= 0 && 0 <= i <= |cards|
    ensures StepsFrom(cards, needed, i) == []
    decreases |cards| - i
  {
    if i < |cards| {
      assert ShareOf(cards, needed, i) == 0;
      StepsFromCovered(cards, needed, i + 1);
    }
  }

  /** The greedy walk falls short by exactly what the cards cannot hold: it
      succeeds precisely when the cards hold enough points in total. */
  lemma {:induction false} AllocateShortfall(cards: seq<Card>, needed: int)
    requires 0 < needed
    ensures Allocate(cards, needed).shortfall == Pos(needed - Available(cards))
  {
    if cards != [] {
      var tail, p := cards[1..], cards[0].points;
      assert Available(cards) == Pos(p) + Available(tail);
      if p >= needed {
        assert Allocate(cards, needed).shortfall == Allocate(tail, 0).shortfall == 0;
      } else if p > 0 {
        AllocateShortfall(tail, needed - p);
        assert Allocate(cards, needed).shortfall == Allocate(tail, needed - p).shortfall;
      } else {
        AllocateShortfall(tail, needed);
        assert Allocate(cards, needed) == Allocate(tail, needed);
      }
    }
  }

  /** The greedy walk agrees with the closed form: card by card it takes
      `ShareOf`. So a card is skipped only when it holds no points or the
      requirement is already covered. */
  lemma {:induction false} AllocateClosedForm(cards: seq<Card>, needed: int)
    requires 0 < needed
    ensures Allocate(cards, needed).transfers == StepsFrom(cards, needed, 0)
  {
    if cards != [] {
      var tail, p := cards[1..], cards[0].points;
      StepsFromShift(cards, needed, 0);
      AllocateFirst(cards, needed);
      if p >= needed {
        StepsFromCovered(tail, needed - p, 0);
        assert Allocate(tail, 0).transfers == [];
      } else {
        AllocateClosedForm(tail, needed - Pos(p));
      }
    }
  }

  /** The first card's share, followed by the walk over the rest. */
  lemma AllocateFirst(cards: seq<Card>, needed: int)
    requires cards != [] && 0 < needed
    ensures var share := ShareOf(cards, needed, 0);
      var head := if share > 0 then [TransferResult(cards[0].name, share, cards[0].points - share)] else [];
      Allocate(cards, needed).transfers == head + Allocate(cards[1..], needed - share).transfers
        && StepsFrom(cards, needed, 0) == head + StepsFrom(cards, needed, 1)
  {
    assert cards[..0] == [];
  }

  /** Each card contributes at most once, in the order given, and no transfer
      exceeds its card's balance. */
  lemma {:induction false} AllocateDrawnFrom(cards: seq<Card>, needed: int)
    ensures DrawnFrom(Allocate(cards, needed).transfers, cards)
  {
    if cards != [] && needed > 0 {
      var contribution := Min(cards[0].points, needed);
      if contribution > 0 {
        AllocateDrawnFrom(cards[1..], needed - contribution);
        var a := Allocate(cards, needed);
        assert a.transfers[1..] == Allocate(cards[1..], needed - contribution).transfers;
      } else {
        AllocateDrawnFrom(cards[1..], needed);
        var ts := Allocate(cards, needed).transfers;
        assert ts == [] || DrawnFrom(ts, cards[1..]);
      }
    }
  }

  /** One turn of the allocation loop at position `i`. */
  lemma AllocateUnfold(cards: seq<Card>, i: int, needed: int)
    requires 0 <= i < |cards| && 0 < needed
    ensures var card, contribution := cards[i], Min(cards[i].points, needed);
      Allocate(cards[i..], needed) ==
        if contribution > 0 then
          var rest := Allocate(cards[i + 1..], needed - contribution);
          Allocation([TransferResult(card.name, contribution, card.points - contribution)] + rest.transfers, rest.shortfall)
        else Allocate(cards[i + 1..], needed)
  {
    assert cards[i..][0] == cards[i];
    assert cards[i..][1..] == cards[i + 1..];
  }

  /** Every transfer but the last empties its card, and a transfer that
      leaves points on its card ends the walk with nothing missing. */
  ghost predicate DrainsBeforeLast(a: Allocation) {
    forall i :: 0 <= i < |a.transfers| && a.transfers[i].remainingBalance != 0 ==>
      i == |a.transfers| - 1 && a.shortfall == 0
  }

  /** The walk empties each card it draws on except possibly the last, and
      leaves points on a card only when that card covers the rest of the
      requirement: once nothing is needed, no further card is touched. */
  lemma {:induction false} AllocateDrainsBeforeLast(cards: seq<Card>, needed: int)
    ensures DrainsBeforeLast(Allocate(cards, needed))
  {
    if cards != [] && needed > 0 {
      var contribution := Min(cards[0].points, needed);
      var a := Allocate(cards, needed);
      if contribution > 0 {
        var rest := Allocate(cards[1..], needed - contribution);
        AllocateDrainsBeforeLast(cards[1..], needed - contribution);
        assert a.transfers == [a.transfers[0]] + rest.transfers && a.shortfall == rest.shortfall;
        if a.transfers[0].remainingBalance != 0 {
          assert rest == Allocation([], 0);
        }
        forall i | 0 < i < |a.transfers| && a.transfers[i].remainingBalance != 0
          ensures i == |a.transfers| - 1 && a.shortfall == 0
        {
          assert a.transfers[i] == rest.transfers[i - 1];
        }
      } else {
        AllocateDrainsBeforeLast(cards[1..], needed);
        assert a == Allocate(cards[1..], needed);
      }
    }
  }

  /** Every transfer drawn from `cards` draws on one of them. */
  lemma {:induction false} DrawnFromMembers(ts: seq<TransferResult>, cards: seq<Card>)
    requires DrawnFrom(ts, cards)
    ensures forall i :: 0 <= i < |ts| ==> exists c :: c in cards && Draws(ts[i], c)
    decreases |cards|
  {
    if ts != [] {
      if Draws(ts[0], cards[0]) && DrawnFrom(ts[1..], cards[1..]) {
        DrawnFromMembers(ts[1..], cards[1..]);
        forall i | 0 < i < |ts| ensures exists c :: c in cards && Draws(ts[i], c) {
          assert ts[i] == ts[1..][i - 1];
          var c :| c in cards[1..] && Draws(ts[1..][i - 1], c);
          assert c in cards;
        }
      } else {
        DrawnFromMembers(ts, cards[1..]);
        forall i | 0 <= i < |ts| ensures exists c :: c in cards && Draws(ts[i], c) {
          var c :| c in cards[1..] && Draws(ts[i], c);
          assert c in cards;
        }
      }
    }
  }

  /** Transfers drawn from cards ranked by descending weight come in
      descending weight order. */
  lemma {:induction false} DrawnFromOrdered(ts: seq<TransferResult>, cards: seq<Card>, weights: WeightTable)
    requires DrawnFrom(ts, cards)
    requires forall i, j :: 0 <= i < j < |cards| ==> Weight(weights, cards[i].name) >= Weight(weights, cards[j].name)
    ensures forall i, j :: 0 <= i < j < |ts| ==> Weight(weights, ts[i].bank) >= Weight(weights, ts[j].bank)
    decreases |cards|
  {
    if ts != [] {
      if Draws(ts[0], cards[0]) && DrawnFrom(ts[1..], cards[1..]) {
        DrawnFromOrdered(ts[1..], cards[1..], weights);
        DrawnFromMembers(ts[1..], cards[1..]);
        forall j | 0 < j < |ts| ensures Weight(weights, ts[0].bank) >= Weight(weights, ts[j].bank) {
          assert ts[j] == ts[1..][j - 1];
          var c :| c in cards[1..] && Draws(ts[1..][j - 1], c);
          var k :| 0 <= k < |cards[1..]| && cards[1..][k] == c;
          assert cards[k + 1] == c;
        }
        forall i, j | 0 < i < j < |ts| ensures Weight(weights, ts[i].bank) >= Weight(weights, ts[j].bank) {
          assert ts[i] == ts[1..][i - 1] && ts[j] == ts[1..][j - 1];
        }
      } else {
        DrawnFromOrdered(ts, cards[1..], weights);
      }
    }
  }

  /** The weight of the bank a transfer draws on. */
  function BankKey(weights: WeightTable): TransferResult -> int {
    (t: TransferResult) => Weight(weights, t.bank)
  }

  /** The transfers of weight `w` draw, in order, on cards of weight `w`. */
  lemma {:induction false} DrawnFromWithKey(ts: seq<TransferResult>, cards: seq<Card>, weights: WeightTable, w: int)
    requires DrawnFrom(ts, cards)
    ensures DrawnFrom(WithKey(ts, BankKey(weights), w), WithKey(cards, RankKey(weights), w))
    decreases |cards|
  {
    if ts != [] {
      var tk, ck := BankKey(weights), RankKey(weights);
      var rest := WithKey(cards[1..], ck, w);
      if Draws(ts[0], cards[0]) && DrawnFrom(ts[1..], cards[1..]) {
        DrawnFromWithKey(ts[1..], cards[1..], weights, w);
        assert tk(ts[0]) == ck(cards[0]);
        if ck(cards[0]) == w {
          var sub := WithKey(ts, tk, w);
          assert sub[0] == ts[0] && sub[1..] == WithKey(ts[1..], tk, w);
          var cs := WithKey(cards, ck, w);
          assert cs[0] == cards[0] && cs[1..] == rest;
        } else {
          assert WithKey(ts, tk, w) == WithKey(ts[1..], tk, w) && WithKey(cards, ck, w) == rest;
        }
      } else {
        DrawnFromWithKey(ts, cards[1..], weights, w);
        var cs := WithKey(cards, ck, w);
        if ck(cards[0]) == w {
          assert cs == [cards[0]] + rest && cs[1..] == rest;
        } else {
          assert cs == rest;
        }
      }
    }
  }

  lemma {:induction false} AvailableAppend(a: seq<Card>, b: seq<Card>)
    ensures Available(a + b) == Available(a) + Available(b)
  {
    if a == [] {
      assert a + b == b;
    } else {
      assert (a + b)[1..] == a[1..] + b;
      AvailableAppend(a[1..], b);
    }
  }

  lemma {:induction false} AvailableInsert(s: seq<Card>, x: Card, key: Card -> int)
    ensures Available(Insert(s, x, key)) == Available(s) + Pos(x.points)
  {
    if s != [] {
      if key(s[0]) >= key(x) {
        AvailableInsert(s[1..], x, key);
        assert Insert(s, x, key)[1..] == Insert(s[1..], x, key);
      } else {
        assert ([x] + s)[1..] == s;
      }
    }
  }

  /** Ranking moves cards around but keeps the points they hold. */
  lemma {:induction false} AvailableRank(weights: WeightTable, cards: seq<Card>)
    ensures Available(Rank(weights, cards)) == Available(cards)
  {
    AvailableSortDesc(cards, RankKey(weights));
  }

  lemma {:induction false} AvailableSortDesc(s: seq<Card>, key: Card -> int)
    ensures Available(SortDesc(s, key)) == Available(s)
  {
    if s != [] {
      var init, last := s[..|s| - 1], s[|s| - 1];
      assert s == init + [last];
      AvailableSortDesc(init, key);
      AvailableInsert(SortDesc(init, key), last, key);
      AvailableAppend(init, [last]);
      assert [last][1..] == [];
    }
  }

  // ---------------------------------------------------------------------
  // Value
  // ---------------------------------------------------------------------

  /** Cents per point before rounding: what the miles save over paying cash,
      net of taxes, per mile, in cents. */
  function RawCpp(cashEquivalentUsd: real, taxUsd: real, milesRequired: int): (cpp: real)
    requires milesRequired != 0
    ensures cpp * milesRequired as real == (cashEquivalentUsd - taxUsd) * 100.0
  {
    (cashEquivalentUsd - taxUsd) / milesRequired as real * 100.0
  }

  /** With the miles fixed, a dearer cash fare is worth more per point. */
  lemma CppIncreasesWithCash(cash1: real, cash2: real, taxUsd: real, milesRequired: int)
    requires 0 < milesRequired && cash1 <= cash2
    ensures RawCpp(cash1, taxUsd, milesRequired) <= RawCpp(cash2, taxUsd, milesRequired)
  {
    var m := milesRequired as real;
    assert (cash2 - taxUsd) / m - (cash1 - taxUsd) / m == (cash2 - cash1) / m;
  }

  /** With a fare worth more than its taxes, needing more miles makes each
      point worth less. */
  lemma CppDecreasesWithMiles(cashEquivalentUsd: real, taxUsd: real, miles1: int, miles2: int)
    requires 0 < miles1 <= miles2 && taxUsd <= cashEquivalentUsd
    ensures RawCpp(cashEquivalentUsd, taxUsd, miles2) <= RawCpp(cashEquivalentUsd, taxUsd, miles1)
  {
    var net, m1, m2 := cashEquivalentUsd - taxUsd, miles1 as real, miles2 as real;
    assert net / m2 * m2 == net;
    assert net / m1 * m1 == net;
    assert net / m2 * m1 <= net / m2 * m2;
  }

  datatype Verdict = PoorValue | UnbelievableDeal | GreatValue | AverageValue

  /** The verdict cascade, first match wins. The four bands it produces:
      below 1.5 poor, [1.5, 2.0] average, (2.0, 3.5] great, above 3.5
      unbelievable. `miles` is accepted and unused, as in the source. */
  function GetVerdict(cpp: real, miles: int): (v: Verdict)
    ensures v == PoorValue <==> cpp < 1.5
    ensures v == AverageValue <==> 1.5 <= cpp <= 2.0
    ensures v == GreatValue <==> 2.0 < cpp <= 3.5
    ensures v == UnbelievableDeal <==> 3.5 < cpp
  {
    if cpp < 1.5 then PoorValue
    else if cpp > 3.5 then UnbelievableDeal
    else if cpp > 2.0 then GreatValue
    else AverageValue
  }

  /** The verdict's name, in capitals, that opens its sentence. */
  function Headline(v: Verdict): string {
    match v
    case PoorValue => "POOR VALUE"
    case UnbelievableDeal => "UNBELIEVABLE DEAL"
    case GreatValue => "GREAT VALUE"
    case AverageValue => "AVERAGE VALUE"
  }

  /** The verdict's sentence: its name, a colon, then the advice. */
  function VerdictText(v: Verdict): (s: string)
    ensures Headline(v) + ": " <= s
  {
    match v
    case PoorValue => Headline(v) + ": " + "Consider paying cash instead."
    case UnbelievableDeal => Headline(v) + ": " + "Book immediately before space vanishes."
    case GreatValue => Headline(v) + ": " + "This is a solid redemption."
    case AverageValue => Headline(v) + ": " + "Monitor for a potential price drop."
  }

  /** Distinct verdicts read differently: the four sentences differ even
      in length. */
  lemma VerdictTextDistinct(v1: Verdict, v2: Verdict)
    requires v1 != v2
    ensures VerdictText(v1) != VerdictText(v2)
  {
    assert |VerdictText(v1)| != |VerdictText(v2)|;
  }

  /** The verdicts in order of merit. */
  function Merit(v: Verdict): nat {
    match v
    case PoorValue => 0
    case AverageValue => 1
    case GreatValue => 2
    case UnbelievableDeal => 3
  }

  /** A higher cents-per-point never earns a worse verdict. */
  lemma VerdictMonotone(cpp1: real, cpp2: real, miles: int)
    requires cpp1 <= cpp2
    ensures Merit(GetVerdict(cpp1, miles)) <= Merit(GetVerdict(cpp2, miles))
  {
  }

  /** The exact boundaries: the comparisons are strict, so 1.5 and 2.0 are
      average and 3.5 is great. */
  lemma VerdictBoundaries(miles: int)
    ensures GetVerdict(1.4, miles) == PoorValue
    ensures GetVerdict(1.5, miles) == AverageValue
    ensures GetVerdict(2.0, miles) == AverageValue
    ensures GetVerdict(2.1, miles) == GreatValue
    ensures GetVerdict(3.5, miles) == GreatValue
    ensures GetVerdict(3.6, miles) == UnbelievableDeal
  {
  }

  /** A cash fare below the taxes gives a negative value per point, judged poor. */
  lemma CashBelowTaxIsPoor(cashEquivalentUsd: real, taxUsd: real, milesRequired: int)
    requires 0 < milesRequired && cashEquivalentUsd < taxUsd
    ensures RawCpp(cashEquivalentUsd, taxUsd, milesRequired) < 0.0
    ensures GetVerdict(RawCpp(cashEquivalentUsd, taxUsd, milesRequired), milesRequired) == PoorValue
  {
    var m := milesRequired as real;
    assert (cashEquivalentUsd - taxUsd) / m < 0.0;
  }

  // ---------------------------------------------------------------------
  // The pipeline
  // ---------------------------------------------------------------------

  /** The allocation part of `optimize`: filter, rank, then walk greedily. */
  function Fund(portfolio: seq<Card>, program: string, partners: PartnerTable, weights: WeightTable, miles: int): (a: Allocation)
    ensures Transferred(a.transfers) + a.shortfall == miles
    ensures 0 < miles ==> 0 <= a.shortfall <= miles
    ensures miles <= 0 ==> a.transfers == [] && a.shortfall == miles
  {
    Allocate(Rank(weights, Eligible(partners, program, portfolio)), miles)
  }

  /** The funding falls short by exactly what the eligible cards cannot
      hold: it is possible precisely when they hold `miles` points in total. */
  lemma FundShortfall(portfolio: seq<Card>, program: string, partners: PartnerTable, weights: WeightTable, miles: int)
    requires 0 < miles
    ensures Fund(portfolio, program, partners, weights, miles).shortfall
      == Pos(miles - Available(Eligible(partners, program, portfolio)))
  {
    var eligible := Eligible(partners, program, portfolio);
    var ranked := Rank(weights, eligible);
    AllocateShortfall(ranked, miles);
    AvailableRank(weights, eligible);
    assert Fund(portfolio, program, partners, weights, miles) == Allocate(ranked, miles);
  }

  /** Each transfer is drawn from a card of the portfolio that can transfer
      to the program. */
  ghost predicate FromEligibleCards(ts: seq<TransferResult>, portfolio: seq<Card>, partners: PartnerTable, program: string) {
    forall i :: 0 <= i < |ts| ==> exists c :: c in portfolio && CanTransfer(partners, program, c.name) && Draws(ts[i], c)
  }

  /** The transfers come from banks of non-increasing ecosystem weight. */
  ghost predicate ByWeight(ts: seq<TransferResult>, weights: WeightTable) {
    forall i, j :: 0 <= i < j < |ts| ==> Weight(weights, ts[i].bank) >= Weight(weights, ts[j].bank)
  }

  /** Every transfer draws on a card of the portfolio that can transfer to
      the program, and transfers come in descending weight order. */
  lemma FundDrawsOnEligibleCards(portfolio: seq<Card>, program: string, partners: PartnerTable, weights: WeightTable, miles: int)
    ensures FromEligibleCards(Fund(portfolio, program, partners, weights, miles).transfers, portfolio, partners, program)
    ensures ByWeight(Fund(portfolio, program, partners, weights, miles).transfers, weights)
  {
    var eligible := Eligible(partners, program, portfolio);
    var ranked := Rank(weights, eligible);
    var ts := Allocate(ranked, miles).transfers;
    RankIsStableSort(weights, eligible);
    EligibleMembers(partners, program, portfolio);
    AllocateDrawnFrom(ranked, miles);
    DrawnFromOrdered(ts, ranked, weights);
    DrawnFromMembers(ts, ranked);
    forall k | 0 <= k < |ts|
      ensures exists c :: c in portfolio && CanTransfer(partners, program, c.name) && Draws(ts[k], c)
    {
      var c :| c in ranked && Draws(ts[k], c);
      assert c in multiset(ranked);
      assert c in eligible;
    }
  }

  /** Transfers of equal weight come in portfolio order: those of weight `w`
      draw on distinct eligible portfolio cards of weight `w`, in the order
      the portfolio lists them. */
  ghost predicate InPortfolioOrder(ts: seq<TransferResult>, portfolio: seq<Card>, partners: PartnerTable, program: string, weights: WeightTable) {
    forall w :: DrawnFrom(WithKey(ts, BankKey(weights), w), Eligible(partners, program, WithKey(portfolio, RankKey(weights), w)))
  }

  /** The pipeline breaks ties between cards of equal weight by portfolio order. */
  lemma FundKeepsPortfolioOrder(portfolio: seq<Card>, program: string, partners: PartnerTable, weights: WeightTable, miles: int)
    ensures InPortfolioOrder(Fund(portfolio, program, partners, weights, miles).transfers, portfolio, partners, program, weights)
  {
    var ranked := Rank(weights, Eligible(partners, program, portfolio));
    var ts := Allocate(ranked, miles).transfers;
    AllocateDrawnFrom(ranked, miles);
    forall w
      ensures DrawnFrom(WithKey(ts, BankKey(weights), w), Eligible(partners, program, WithKey(portfolio, RankKey(weights), w)))
    {
      DrawnFromWithKey(ts, ranked, weights, w);
      RankKeepsPortfolioOrder(partners, program, weights, portfolio, w);
    }
  }

  /** A program missing from the partner table admits no card, so nothing is
      transferred and the whole requirement is short. */
  lemma FundUnknownProgram(portfolio: seq<Card>, program: string, partners: PartnerTable, weights: WeightTable, miles: int)
    requires program !in partners
    ensures Fund(portfolio, program, partners, weights, miles) == Allocation([], miles)
  {
    EligibleUnknownProgram(partners, program, portfolio);
  }

  /** The loop of `optimize`: walks the ranked cards, moving from each as
      much as is still needed, until nothing more is needed or the cards run
      out; returns the transfers made and what is still needed. */
  method Transfer(sortedCards: seq<Card>, miles: int) returns (transfers: seq<TransferResult>, needed: int)
    ensures Allocation(transfers, needed) == Allocate(sortedCards, miles)
  {
    needed := miles;
    transfers := [];
    var i := 0;
    WalkStart(sortedCards, miles);
    while i < |sortedCards|
      invariant 0 <= i <= |sortedCards|
      invariant WalkedTo(sortedCards, miles, i, transfers, needed)
    {
      if needed <= 0 {
        break;
      }
      var card := sortedCards[i];
      var contribution := Min(card.points, needed);
      if contribution > 0 {
        var step := TransferResult(card.name, contribution, card.points - contribution);
        WalkTake(sortedCards, miles, i, transfers, needed, contribution, step);
        transfers := transfers + [step];
        needed := needed - contribution;
      } else {
        WalkSkip(sortedCards, miles, i, transfers, needed);
      }
      i := i + 1;
    }
    WalkDone(sortedCards, miles, i, transfers, needed);
  }

  /** The loop invariant of `Transfer`: the transfers made on the first `i`
      cards, followed by the walk over the rest with what is still needed,
      are the walk over all the cards. */
  ghost predicate WalkedTo(cards: seq<Card>, miles: int, i: int, transfers: seq<TransferResult>, needed: int)
    requires 0 <= i <= |cards|
  {
    var rest := Allocate(cards[i..], needed);
    Allocate(cards, miles) == Allocation(transfers + rest.transfers, rest.shortfall)
  }

  /** Before the loop, nothing is transferred and all the miles are needed. */
  lemma WalkStart(cards: seq<Card>, miles: int)
    ensures WalkedTo(cards, miles, 0, [], miles)
  {
    assert cards[0..] == cards;
    assert [] + Allocate(cards, miles).transfers == Allocate(cards, miles).transfers;
  }

  /** A turn of the loop that moves points keeps its invariant. */
  lemma WalkTake(cards: seq<Card>, miles: int, i: int, transfers: seq<TransferResult>, needed: int,
                 contribution: int, step: TransferResult)
    requires 0 <= i < |cards| && 0 < needed
    requires contribution == Min(cards[i].points, needed) && 0 < contribution
    requires step == TransferResult(cards[i].name, contribution, cards[i].points - contribution)
    requires WalkedTo(cards, miles, i, transfers, needed)
    ensures WalkedTo(cards, miles, i + 1, transfers + [step], needed - contribution)
  {
    AllocateUnfold(cards, i, needed);
    var after := Allocate(cards[i + 1..], needed - contribution);
    assert transfers + ([step] + after.transfers) == (transfers + [step]) + after.transfers;
  }

  /** A turn of the loop that skips a card with no points keeps its invariant. */
  lemma WalkSkip(cards: seq<Card>, miles: int, i: int, transfers: seq<TransferResult>, needed: int)
    requires 0 <= i < |cards| && 0 < needed && Min(cards[i].points, needed) <= 0
    requires WalkedTo(cards, miles, i, transfers, needed)
    ensures WalkedTo(cards, miles, i + 1, transfers, needed)
  {
    AllocateUnfold(cards, i, needed);
  }

  /** When the loop stops, by running out of cards or of need, it has done
      the whole walk. */
  lemma WalkDone(cards: seq<Card>, miles: int, i: int, transfers: seq<TransferResult>, needed: int)
    requires 0 <= i <= |cards| && (i == |cards| || needed <= 0)
    requires WalkedTo(cards, miles, i, transfers, needed)
    ensures Allocation(transfers, needed) == Allocate(cards, miles)
  {
    assert Allocate(cards[i..], needed) == Allocation([], needed);
    assert transfers + [] == transfers;
  }

  /** `AwardEngine.optimize` with the partner and weight tables passed in. */
  method Optimize(portfolio: seq<Card>, award: AwardOption, partners: PartnerTable, weights: WeightTable)
    returns (r: OptimizationResult)
    requires award.milesRequired != 0
    ensures var a := Fund(portfolio, award.program, partners, weights, award.milesRequired);
      r.transfers == a.transfers && r.shortfall == a.shortfall
    ensures r.totalMiles == award.milesRequired
    ensures Transferred(r.transfers) + r.shortfall == award.milesRequired
    ensures r.isPossible <==> r.shortfall <= 0
    ensures 0 < award.milesRequired ==> 0 <= r.shortfall <= award.milesRequired && (r.isPossible <==> r.shortfall == 0)
    ensures FromEligibleCards(r.transfers, portfolio, partners, award.program)
    ensures ByWeight(r.transfers, weights)
    ensures InPortfolioOrder(r.transfers, portfolio, partners, award.program, weights)
    ensures award.program !in partners ==> r.transfers == [] && r.shortfall == award.milesRequired
    ensures r.cpp == ToFixed2(RawCpp(award.cashEquivalentUsd, award.taxUsd, award.milesRequired))
    ensures r.verdict == VerdictText(GetVerdict(RawCpp(award.cashEquivalentUsd, award.taxUsd, award.milesRequired), award.milesRequired))
  {
    var miles := award.milesRequired;
    var validCards := Eligible(partners, award.program, portfolio);
    var sortedCards := Rank(weights, validCards);
    var transfers, needed := Transfer(sortedCards, miles);

    var cpp := RawCpp(award.cashEquivalentUsd, award.taxUsd, miles);
    r := OptimizationResult(
      needed <= 0,
      needed,
      miles,
      ToFixed2(cpp),
      transfers,
      VerdictText(GetVerdict(cpp, miles)));

    FundDrawsOnEligibleCards(portfolio, award.program, partners, weights, miles);
    FundKeepsPortfolioOrder(portfolio, award.program, partners, weights, miles);
    if award.program !in partners {
      FundUnknownProgram(portfolio, award.program, partners, weights, miles);
    }
  }

  // ---------------------------------------------------------------------
  // The dashboard's sample
  // ---------------------------------------------------------------------

  const SamplePortfolio: seq<Card> := [
    Card("Amex Gold", 175000),
    Card("Capital One Venture X", 60000),
    Card("Bilt", 22000),
    Card("Chase UR", 13000)
  ]

  const SampleAward: AwardOption := AwardOption("Air India", "Aeroplan", 90000, 60.0, 4200.0)

  /** The sample ranked for Aeroplan: every card reaches Aeroplan, and they
      come out as Venture X, Amex Gold, Chase UR, Bilt. */
  lemma SampleRank()
    ensures Rank(EcosystemWeights, Eligible(PartnerMap, "Aeroplan", SamplePortfolio))
      == [SamplePortfolio[1], SamplePortfolio[0], SamplePortfolio[3], SamplePortfolio[2]]
  {
    SampleEligible();
    var key := RankKey(EcosystemWeights);
    SampleKeys();
    SortSample(SamplePortfolio, key);
  }

  /** The sample cards' weights: Venture X 4, Amex Gold 3, Chase UR 2, Bilt 1. */
  lemma SampleKeys()
    ensures var key := RankKey(EcosystemWeights);
      key(SamplePortfolio[0]) == 3 && key(SamplePortfolio[1]) == 4 && key(SamplePortfolio[2]) == 1 && key(SamplePortfolio[3]) == 2
  {
  }

  /** Sorting four cards whose keys are 3, 4, 1, 2. */
  lemma SortSample(s: seq<Card>, key: Card -> int)
    requires |s| == 4
    requires key(s[0]) == 3 && key(s[1]) == 4 && key(s[2]) == 1 && key(s[3]) == 2
    ensures SortDesc(s, key) == [s[1], s[0], s[3], s[2]]
  {
    assert s[..0] == [] && s[..1][..0] == [];
    assert SortDesc(s[..1], key) == [s[0]];
    assert s[..2][..1] == s[..1];
    assert SortDesc(s[..2], key) == Insert([s[0]], s[1], key) == [s[1], s[0]];
    assert s[..3][..2] == s[..2];
    assert [s[1], s[0]][1..] == [s[0]];
    assert Insert([s[0]], s[2], key) == [s[0], s[2]];
    assert SortDesc(s[..3], key) == Insert([s[1], s[0]], s[2], key) == [s[1], s[0], s[2]];
    assert s[..4][..3] == s[..3];
    assert s[..4] == s;
    assert [s[1], s[0], s[2]][1..] == [s[0], s[2]];
    assert Insert([s[0], s[2]], s[3], key) == [s[0], s[3], s[2]];
    assert SortDesc(s, key) == Insert([s[1], s[0], s[2]], s[3], key) == [s[1], s[0], s[3], s[2]];
  }

  /** All four sample cards transfer to Aeroplan. */
  lemma SampleEligible()
    ensures Eligible(PartnerMap, "Aeroplan", SamplePortfolio) == SamplePortfolio
  {
    var aeroplan := PartnerMap["Aeroplan"];
    assert aeroplan[0] == "Amex Gold" && aeroplan[1] == "Chase UR";
    assert aeroplan[2] == "Capital One Venture X" && aeroplan[3] == "Bilt";
    EligibleAll(PartnerMap, "Aeroplan", SamplePortfolio);
  }

  /** The greedy walk over the ranked sample: all 60,000 Venture X points,
      then 30,000 of Amex Gold's 175,000, and nothing short. */
  lemma SampleAllocation()
    ensures Allocate([SamplePortfolio[1], SamplePortfolio[0], SamplePortfolio[3], SamplePortfolio[2]], 90000)
      == Allocation([TransferResult("Capital One Venture X", 60000, 0), TransferResult("Amex Gold", 30000, 145000)], 0)
  {
    var ranked := [SamplePortfolio[1], SamplePortfolio[0], SamplePortfolio[3], SamplePortfolio[2]];
    assert ranked[1..][1..] == [SamplePortfolio[3], SamplePortfolio[2]];
    assert Allocate(ranked[1..][1..], 0) == Allocation([], 0);
    assert Allocate(ranked[1..], 30000) == Allocation([TransferResult("Amex Gold", 30000, 145000)], 0);
  }

  /** The sample seat is worth 4.6 cents a point, an unbelievable deal. */
  lemma SampleValue()
    ensures RawCpp(4200.0, 60.0, 90000) == 4.6
    ensures ToFixed2(4.6) == 4.6
    ensures GetVerdict(4.6, 90000) == UnbelievableDeal
  {
  }

  /** The dashboard's call of the engine on its sample data. */
  method SampleStrategy() returns (r: OptimizationResult)
    ensures r == OptimizationResult(
      true, 0, 90000, 4.6,
      [TransferResult("Capital One Venture X", 60000, 0), TransferResult("Amex Gold", 30000, 145000)],
      VerdictText(UnbelievableDeal))
  {
    SampleRank();
    SampleAllocation();
    SampleValue();
    r := Optimize(SamplePortfolio, SampleAward, PartnerMap, EcosystemWeights);
  }
}
