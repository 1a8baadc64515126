# Award intelligence engine, verified model

This project models the decision logic of the award intelligence engine in Dafny and proves properties of it. That logic decides how to fund a frequent-flyer award seat from a portfolio of credit-card point balances, and which new card to open to close a gap.

- `Engine` models `AwardEngine.optimize` and `getVerdict` (`src/lib/engine.ts`) in four stages:
  - **filter:** keep the cards that transfer to the award's loyalty program, using the partner table;
  - **rank:** stable-sort those cards by descending ecosystem weight, where a name missing from the table weighs 0;
  - **allocate:** walk greedily, taking `min(points, needed)` from each card until nothing is needed;
  - **value:** compute cents per point and classify it into one of four verdicts.

  The walk is the loop of the method `Engine.Transfer`, which `Engine.Optimize` runs. Both are proved against the recursive specification `Engine.Allocate`. The lemmas then relate `Allocate` to the following:
  - a closed form (`StepsFrom`): a card gives its positive balance, capped by what the earlier cards left missing;
  - the total of positive balances (`Available`);
  - the cards it draws on (`DrawnFrom`).
- `CardStrategy` models `evaluateNewCardStrategy` (`src/lib/cardStrategy.ts`), in three steps:
  - filter the card catalog by transfer partner;
  - compute each card's net gain, viability and coverage percentage;
  - stable-sort the results by descending net gain.
- `StableSort` models JavaScript's `Array.prototype.sort` called with a comparator `(a, b) => key(b) - key(a)`. That sort is stable, and `SortDesc` is a stable insertion sort. `StableSortUnique` proves that any ordering that is sorted and stable equals `SortDesc`'s, so the result does not depend on the algorithm chosen.
- `Rounding` models `Math.round` and `parseFloat(x.toFixed(2))` on exact reals.

The partner table, the weight table and the card catalog are parameters, so the lemmas hold for every table. The constants `PartnerMap`, `EcosystemWeights` and `AvailableCards` mirror the source's tables and are used by the scenario lemmas.

## Model

| member | source | states |
|---|---|---|
| Engine.CanTransfer | src/lib/engine.ts:67 | a program missing from the partner table admits no card name (the optional chaining yields no list); for a listed program a card passes iff its name is in the program's list |
| Engine.Eligible | src/lib/engine.ts:66-68 | the filter never returns more cards than the portfolio holds; its order and multiplicity are stated by `EligibleAppend` and `EligibleWithKey` |
| Engine.EligibleAppend | src/lib/engine.ts:66-68 | the filter distributes over concatenation, so it keeps the portfolio's order and each card's multiplicity |
| Engine.EligibleWithKey | src/lib/engine.ts:66-68 | filtering commutes with picking the cards of one key: the eligible cards of key k are the portfolio's cards of key k that pass the filter, in portfolio order |
| Engine.EligibleMembers | src/lib/engine.ts:66-68 | a card passes the filter iff it is in the portfolio and its name is listed for the program |
| Engine.EligibleUnknownProgram | src/lib/engine.ts:67 | a program missing from the partner table admits no card (the optional chaining yields no list) |
| Engine.EligibleAll | src/lib/engine.ts:66-68 | when every card transfers to the program, the filter returns the portfolio unchanged |
| Engine.Weight | src/lib/engine.ts:74 | a card name's weight is its table entry, and 0 for a name missing from the table |
| Engine.Rank | src/lib/engine.ts:73-75 | ranking keeps the number of cards; which cards and in what order is `RankIsStableSort` |
| Engine.RankIsStableSort | src/lib/engine.ts:73-75 | the ranking keeps exactly the eligible cards (as a multiset), orders them by non-increasing weight (a missing name weighs 0), and keeps portfolio order among equal weights |
| Engine.RankKeepsPortfolioOrder | src/lib/engine.ts:66-75 | the ranked cards of weight w are exactly the eligible portfolio cards of weight w, in portfolio order: ties are broken by portfolio order |
| Engine.Allocate | src/lib/engine.ts:78-90 | the greedy walk conserves the requirement: transferred plus shortfall equals the miles needed; for a positive requirement the shortfall lies between 0 and the requirement; a requirement of 0 or less transfers nothing |
| Engine.Transfer | src/lib/engine.ts:78-90 | the loop (with its early `break` once nothing is needed) returns exactly the transfers and the remaining need of `Allocate` |
| Engine.WalkStart | src/lib/engine.ts:62-63 | before the loop, no transfers and the whole requirement still needed satisfy the loop invariant (made transfers followed by the walk over the remaining cards are the whole walk) |
| Engine.WalkTake | src/lib/engine.ts:81-88 | a turn that pushes a transfer of `min(points, needed)` and lowers `needed` keeps the invariant |
| Engine.WalkSkip | src/lib/engine.ts:81-82 | a turn that skips a card whose contribution is not positive keeps the invariant |
| Engine.WalkDone | src/lib/engine.ts:78-79 | when the cards run out or nothing is needed, the transfers made and the need left are the whole walk |
| Engine.AllocateShortfall | src/lib/engine.ts:78-90 | the shortfall is exactly what the cards' positive balances cannot cover, so funding succeeds iff they hold enough points |
| Engine.AllocateClosedForm | src/lib/engine.ts:78-90 | the walk's transfers equal the closed form: a card gives `min(its positive balance, what earlier cards left missing)`, and is skipped only when that is 0 |
| Engine.AllocateFirst | src/lib/engine.ts:81-89 | the first card contributes its closed-form share and the walk continues on the rest with the reduced need |
| Engine.StepsFromShift | src/lib/engine.ts:78-90 | the closed form from card i+1 equals the closed form of the tail with the first card's balance taken off the need |
| Engine.StepsFromCovered | src/lib/engine.ts:79 | once nothing is needed, the closed form transfers nothing more |
| Engine.AllocateDrawnFrom | src/lib/engine.ts:81-87 | each transfer names its card, moves an amount with 0 < amount <= balance, reports remaining = balance - amount, and the transfers use distinct cards in ranked order |
| Engine.AllocateUnfold | src/lib/engine.ts:79-89 | one turn of the loop at position i: take `min(points, needed)` if positive and go on with the reduced need, otherwise skip the card |
| Engine.AllocateDrainsBeforeLast | src/lib/engine.ts:79-89 | every transfer but the last empties its card, and a transfer that leaves points behind ends the walk with a shortfall of 0 |
| Engine.DrawnFromMembers | src/lib/engine.ts:83-86 | every transfer drawn from a list of cards draws on a member of that list |
| Engine.DrawnFromOrdered | src/lib/engine.ts:73-90 | transfers drawn from cards in non-increasing weight order come in non-increasing weight order |
| Engine.DrawnFromWithKey | src/lib/engine.ts:73-90 | transfers drawn in order from a list of cards: those of weight w are drawn in order from the list's cards of weight w |
| Engine.AvailableAppend | src/lib/engine.ts:78-90 | the points available from two lists of cards add up |
| Engine.AvailableInsert | src/lib/engine.ts:73-75 | inserting a card into the ranking adds exactly its positive balance |
| Engine.AvailableSortDesc | src/lib/engine.ts:73-75 | sorting keeps the total of positive balances |
| Engine.AvailableRank | src/lib/engine.ts:73-75 | ranking keeps the total of positive balances |
| Engine.RawCpp | src/lib/engine.ts:94 | cents per point times the miles required is 100 times the cash fare less the taxes: the saving per mile, in cents |
| Engine.CppIncreasesWithCash | src/lib/engine.ts:94 | for a fixed positive requirement, a higher cash fare never lowers the cents per point |
| Engine.CppDecreasesWithMiles | src/lib/engine.ts:94 | when the cash fare is at least the taxes, a larger requirement never raises the cents per point |
| Engine.GetVerdict | src/lib/engine.ts:109-114 | the cascade yields exactly four bands: poor iff cpp < 1.5, average iff 1.5 <= cpp <= 2.0, great iff 2.0 < cpp <= 3.5, unbelievable iff cpp > 3.5 |
| Engine.VerdictText | src/lib/engine.ts:110-113 | each verdict's sentence opens with the verdict's name in capitals followed by a colon |
| Engine.VerdictTextDistinct | src/lib/engine.ts:110-113 | distinct verdicts give distinct sentences, so the text identifies the verdict |
| Engine.VerdictMonotone | src/lib/engine.ts:109-114 | a higher cents per point never gets a worse verdict |
| Engine.VerdictBoundaries | src/lib/engine.ts:109-114 | the comparisons are strict: 1.5 and 2.0 are average, 3.5 is great, 1.4 is poor, 2.1 great, 3.6 unbelievable |
| Engine.CashBelowTaxIsPoor | src/lib/engine.ts:94 | a cash fare below the taxes gives a negative cents per point, judged poor |
| Engine.Fund | src/lib/engine.ts:62-90 | filter, rank and walk conserve the requirement: transferred plus shortfall equals the miles; for a positive requirement the shortfall lies between 0 and it; a requirement of 0 or less transfers nothing |
| Engine.FundShortfall | src/lib/engine.ts:61-98 | for a positive requirement, the pipeline's shortfall equals the requirement less the eligible cards' positive balances, floored at 0 |
| Engine.FundDrawsOnEligibleCards | src/lib/engine.ts:66-90 | every transfer draws on a portfolio card listed for the program, within its balance, and transfers come in non-increasing weight order |
| Engine.FundKeepsPortfolioOrder | src/lib/engine.ts:66-90 | transfers of equal weight come in portfolio order: those of weight w draw on distinct eligible portfolio cards of weight w, in the order the portfolio lists them |
| Engine.FundUnknownProgram | src/lib/engine.ts:66-68 | a program missing from the partner table admits no card: no transfers, and the shortfall is the whole requirement |
| Engine.Optimize | src/lib/engine.ts:61-104 | the result's transfers and shortfall are those of filter, rank and `Allocate` (`Fund`), whose closed-form shortfall is `FundShortfall`; transferred plus shortfall equals the requirement; `isPossible` iff shortfall <= 0, which for a positive requirement is iff shortfall == 0, with 0 <= shortfall <= requirement; every transfer draws on an eligible portfolio card within its balance; transfers come in weight order, and those of equal weight in portfolio order; an unknown program transfers nothing and leaves the whole requirement short; `cpp` is the raw value rounded to cents; the verdict is judged on the unrounded value |
| Engine.SampleEligible | src/app/page.tsx:8-21 | all four sample cards transfer to Aeroplan |
| Engine.SampleKeys | src/lib/engine.ts:51-56 | the sample cards weigh 3 (Amex Gold), 4 (Venture X), 1 (Bilt) and 2 (Chase UR) |
| Engine.SortSample | src/lib/engine.ts:73-75 | four cards of weights 3, 4, 1, 2 are ranked second, first, fourth, third |
| Engine.SampleRank | src/app/page.tsx:8-21 | the sample ranks as Venture X, Amex Gold, Chase UR, Bilt |
| Engine.SampleAllocation | src/app/page.tsx:8-21 | on the ranked sample the walk transfers 60,000 from Venture X (0 left) and 30,000 from Amex Gold (145,000 left), with no shortfall |
| Engine.SampleValue | src/app/page.tsx:15-21 | the sample seat is worth exactly 4.6 cents per point, still 4.6 after rounding to cents, and unbelievable |
| Engine.SampleStrategy | src/app/page.tsx:25 | the dashboard's call, with the tables `PartnerMap` and `EcosystemWeights` of src/lib/engine.ts:40-56, returns: possible, shortfall 0, 90,000 miles, 4.6 cpp, the two transfers above, and the "UNBELIEVABLE DEAL" verdict text |
| StableSort.Insert | src/lib/engine.ts:73-75 | insertion adds exactly one place; what it adds and where is `InsertPermutes`, `InsertSorted` and `InsertWithKey` |
| StableSort.SortDesc | src/lib/engine.ts:73-75 | the stable sort keeps the length; its content, order and stability are `SortDescPermutes`, `SortDescSorted` and `SortDescStable` |
| StableSort.SortDescPermutes | src/lib/engine.ts:73-75 | the sort keeps exactly the input's elements |
| StableSort.SortDescSorted | src/lib/engine.ts:73-75 | the sort's output is ordered by non-increasing key |
| StableSort.SortDescStable | src/lib/engine.ts:73-75 | the sort keeps input order among elements of equal key |
| StableSort.StableSortUnique | src/lib/engine.ts:73-75 | two sequences that are both sorted by non-increasing key and agree on each key's subsequence are equal |
| StableSort.SortDescIsTheStableSort | src/lib/cardStrategy.ts:48 | any sorted ordering that is stable with respect to the input is `SortDesc`'s output |
| StableSort.WithKey | src/lib/engine.ts:73-75 | a key's subsequence is no longer than the sequence |
| StableSort.WithKeyAppend | src/lib/engine.ts:73-75 | a key's subsequence of a concatenation is the concatenation of the subsequences |
| StableSort.WithKeyAbsent | src/lib/engine.ts:73-75 | a key larger than every element's key has an empty subsequence |
| StableSort.InsertPermutes | src/lib/engine.ts:73-75 | insertion adds exactly one element |
| StableSort.InsertFrom | src/lib/engine.ts:73-75 | insertion introduces no element other than the inserted one |
| StableSort.InsertSorted | src/lib/engine.ts:73-75 | insertion into a sorted sequence keeps it sorted |
| StableSort.InsertWithKey | src/lib/engine.ts:73-75 | insertion appends the element to its own key's subsequence and leaves the other keys' subsequences alone |
| StableSort.WithKeyHas | src/lib/engine.ts:73-75 | a non-empty key subsequence witnesses an element with that key |
| StableSort.WithKeyHead | src/lib/engine.ts:73-75 | the first element's key has a non-empty subsequence |
| Rounding.Round | src/lib/cardStrategy.ts:44 | `Math.round` gives the integer n with x - 1/2 < n <= x + 1/2, so ties go up |
| Rounding.RoundHalfAway | src/lib/engine.ts:100 | the nearest integer, with ties away from zero, on either side of 0 |
| Rounding.ToFixed2 | src/lib/engine.ts:100 | the rounded cpp lies within half a cent of the raw value and is a whole number of hundredths |
| CardStrategy.Options | src/lib/cardStrategy.ts:33-35 | a catalog card is kept iff its transfer partners include the program; its order is stated by `OptionsAppend` and `OptionsWithKey` |
| CardStrategy.OptionsAppend | src/lib/cardStrategy.ts:33-35 | the filter distributes over concatenation, so it keeps catalog order and each card's multiplicity |
| CardStrategy.OptionsWithKey | src/lib/cardStrategy.ts:33-35 | filtering commutes with picking the cards of one key: the options of key k are the catalog's cards of key k that pass the filter, in catalog order |
| CardStrategy.OptionsNone | src/lib/cardStrategy.ts:33-35 | when no card lists the program, nothing is kept |
| CardStrategy.NetGain | src/lib/cardStrategy.ts:39-44 | the net gain is within half a dollar of bonus × cpp / 100 − annual fee |
| CardStrategy.Coverage | src/lib/cardStrategy.ts:46 | the coverage is never above 100; it is 100 when the bonus covers a positive shortfall; it is non-negative for a positive shortfall and a non-negative bonus; below full cover it is within one half of bonus / shortfall × 100; it has no value exactly when the shortfall is 0 and the bonus is not positive |
| CardStrategy.Evaluate | src/lib/cardStrategy.ts:37-47 | an entry carries its card's fields unchanged; its net gain is within half a dollar of bonus × cpp / 100 − annual fee; it is viable iff the bonus is at least the shortfall; its coverage is `Coverage` of the bonus and the shortfall |
| CardStrategy.EvaluateAll | src/lib/cardStrategy.ts:37-47 | one entry per option, in order, each that option's evaluation |
| CardStrategy.EvaluateAllWithKey | src/lib/cardStrategy.ts:37-47 | the evaluations of net gain g are the evaluations of the cards whose net gain is g, in the cards' order |
| CardStrategy.EvaluateNewCardStrategy | src/lib/cardStrategy.ts:31-49 | the result holds exactly the evaluations of the listing catalog cards, as a multiset; order and membership are the lemmas below |
| CardStrategy.StrategyIsStableSort | src/lib/cardStrategy.ts:48 | the result is a permutation of the evaluated options, ordered by non-increasing net gain, and each net gain's entries keep their order among the options |
| CardStrategy.StrategyKeepsCatalogOrder | src/lib/cardStrategy.ts:33-48 | entries of equal net gain keep catalog order: those of net gain g are the evaluations of the listing catalog cards of net gain g, in catalog order |
| CardStrategy.StrategyMembers | src/lib/cardStrategy.ts:31-49 | an entry is in the result iff its card is in the catalog, lists the program, and the entry is that card's evaluation |
| CardStrategy.StrategyLength | src/lib/cardStrategy.ts:33-48 | there is exactly one entry per catalog card that lists the program |
| CardStrategy.StrategyUnknownProgram | src/lib/cardStrategy.ts:33-35 | a program no card lists gets an empty list |
| CardStrategy.SampleRecommendation | src/lib/cardStrategy.ts:12-49 | with the shipped catalog (`AvailableCards`, src/lib/cardStrategy.ts:12-29), an 80,000-point Aeroplan gap at 4.6 cpp gives Amex Business Gold first (net 5,375, viable, covers 100%) and then Chase Sapphire Preferred (net 2,665, not viable, covers 75%) |

## Left out

- Floating point: amounts, taxes, cents per point and gains are exact reals. IEEE-754 binary effects are not modelled; for example, `toFixed` rounds the binary value, which can differ from rounding the decimal at a tie.
- Optimize: its contract ties the result to `Fund`. The closed-form shortfall (the requirement less the eligible balances, floored at 0) is stated about `Fund` by `FundShortfall`, not repeated on the method.
- Optimize: requires a non-zero requirement. With 0 miles, JavaScript computes a non-finite cents per point (NaN or ±Infinity), and the model does not represent those values.
- CardStrategy.Coverage: models the coverage percentage, not the `recommendation` sentence built around it. When the shortfall is 0 and the bonus is 0 or less, JavaScript prints `NaN` or `-Infinity`; the model gives `None`.
- Lookups in the partner and weight tables see only the tables' own entries. In JavaScript these are object literals, so a program or card name such as `constructor` would reach an inherited property. That makes the JavaScript code throw or compare with NaN.
- Point balances and requirements are unbounded integers. Fractional or non-finite numbers from the JavaScript side are not modelled.
- `AwardOption.program` is any string in the model, not only the three programs the TypeScript type allows; the lemmas cover the wider case.
- `AwardEngine` has no mutable state: its two tables are read-only. So `Optimize` is a method on values, not a class. The portfolio is passed by value, so the source's rule that the sort works on a copy holds by construction.
- Card balances may be zero or negative: the source has no check on them, and such cards are skipped by the walk.
- The constants `PartnerMap`, `EcosystemWeights` (src/lib/engine.ts:40-56) and `AvailableCards` (src/lib/cardStrategy.ts:12-29) have no rows of their own: they are values, not operations. They are stated through `SampleEligible`, `SampleKeys`, `SampleStrategy` and `SampleRecommendation`.
- The dashboard rendering (`src/app/page.tsx`, apart from its sample data), `src/lib/TrendChart.tsx`, the scraper (`scraper.py`) and the price-alert route (`src/app/api/check-alerts/route.ts`) are input/output glue and are not part of this model.
