# Bagi rata settlement engine, modelled in Dafny

The repository splits a shared bill evenly. Each participant has an id, a name and the
amount they paid. `calculateExpenseSplit` takes that list and returns a summary:

- the total;
- the equal share per person;
- the participants, unchanged;
- a list of payments from those who paid too little to those who paid too much.

The engine works in four steps:

1. It sums the amounts and divides by the number of participants.
2. It gives everybody a signed balance (paid minus share).
3. It splits the balances, keeping input order, into **debtors** (negative balance, owing its
   magnitude) and **creditors** (positive balance, owed it).
4. A greedy two-cursor loop matches them. Each round:
   - moves the smaller of the two amounts under the cursors;
   - records one payment, rounded to a whole currency unit;
   - advances every cursor whose party is left with exactly nothing outstanding.

Files:

- `types.dfy` (module `Types`) holds the three records of the source: `Participant`,
  `DebtTransaction` and `ExpenseSummary`.
- `calculator.dfy` (module `Calculator`) holds the engine.
  - The pure steps are functions: `Total`, `Average`, `Balances`, `Debtors`, `Creditors`.
  - The matching loop is the method `MatchDebts`. It lowers two arrays of outstanding
    amounts in place.
  - `MatchDebts` is proved against `Run`, a recursive description of the same loop. `Run`
    records each round as a `Step`: the debtor position, the creditor position and the
    exact amount moved. The transactions are those steps with names looked up and
    amounts rounded (`Render`).
  - `CalculateExpenseSplit` is the whole engine as a method, proved equal to the function
    `ExpenseSplit`.
- `calculator_properties.dfy` (module `CalculatorProperties`) proves what the engine
  guarantees:
  - the partition;
  - cursor movement and ordering;
  - that no outstanding amount goes negative;
  - that amounts are conserved;
  - that with exact arithmetic everybody ends at exactly zero.
- `calculator_examples.dfy` (module `CalculatorExamples`) works through concrete
  settlements.

Amounts are exact reals. JavaScript's `Math.round` is `Floor(x + 0.5)`, which gives an
integer. It is applied only where the source applies it: to the total, to the share and
to each payment.

## Model

| member | source | states |
|---|---|---|
| `Calculator.Round` | src/utils/calculator.ts:47 | the reported value is the nearest integer to the exact amount, with a half going up: `x - 0.5 < r <= x + 0.5` |
| `Calculator.Abs` | src/utils/calculator.ts:25 | `Math.abs`: the magnitude is never negative and is the value or its negation |
| `Calculator.Total` | src/utils/calculator.ts:13 | the `reduce` sum of the amounts; the definition is the reference, characterised by `Calculator.Average`, `CalculatorProperties.BalancesSum`, `CalculatorProperties.DebtsMatchCredits` and `CalculatorProperties.TotalNonNegative` |
| `Calculator.Average` | src/utils/calculator.ts:14 | the share times the number of participants is exactly the total; `CalculatorProperties.DebtsMatchCredits` shows that against this share the debts match the credits |
| `Calculator.Balances` | src/utils/calculator.ts:17-20 | one balance per participant, in input order, with that participant's name, such that the share plus the balance is what they paid; `CalculatorProperties.BalancesSum` gives their sum |
| `Calculator.Min` | src/utils/calculator.ts:42 | the amount moved in a round is no more than either side's outstanding amount, and is one of them |
| `Calculator.Debtors` | src/utils/calculator.ts:23-26 | the debtor list is no longer than the balance list, and every debtor owes a strictly positive amount |
| `Calculator.Creditors` | src/utils/calculator.ts:28-31 | the creditor list is no longer than the balance list, and every creditor is owed a strictly positive amount |
| `Calculator.Amounts` | src/utils/calculator.ts:23-31 | the outstanding amounts come one per debtor or creditor |
| `Calculator.Run` | src/utils/calculator.ts:38-55 | the loop keeps one outstanding amount per debtor and per creditor, and every round is at a debtor and a creditor position inside the lists and at or after the starting cursors |
| `Calculator.Render` | src/utils/calculator.ts:44-48 | one payment per round, in round order, from the debtor under the round's debtor cursor to the creditor under its creditor cursor, for the round's amount to within half a unit; `CalculatorProperties.TransactionsFollowRounds` characterises the payments of a whole settlement |
| `Calculator.Settle` | src/utils/calculator.ts:34-38 | the loop started with both cursors at 0 keeps one outstanding amount per debtor and per creditor, and every round is at a position inside both lists; `CalculatorProperties.SettleRounds` and `CalculatorProperties.ExactSettlement` state how it ends |
| `Calculator.ExpenseSplit` | src/utils/calculator.ts:3-63 | the whole computation as a value, and the reference for `CalculateExpenseSplit`: the participants come back unchanged, empty input gives the all-empty summary, otherwise the total and the share are the rounded exact sum and average; `CalculatorProperties.ExactSettlement` states what its payments settle |
| `Calculator.MatchDebts` | src/utils/calculator.ts:33-55 | the in-place loop over the two arrays pushes exactly the payments of `Run` from cursors 0, 0: per round, the debtor's and creditor's names and the rounded amount, in round order |
| `Calculator.CalculateExpenseSplit` | src/utils/calculator.ts:3-63 | empty input gives total 0, share 0, no participants and no payments; otherwise the total and the share are the rounded exact sum and average, the participants come back unchanged, and the whole summary is `ExpenseSplit` |
| `CalculatorProperties.RunCursors` | src/utils/calculator.ts:38-55 | each round advances at least one cursor; the loop ends with one list exhausted, after no more rounds than the cursors advanced; when it exhausts both lists, the last round advanced both cursors together |
| `CalculatorProperties.RunOrdered` | src/utils/calculator.ts:38-48 | the first round is at the cursors; payments go through debtors in non-decreasing position and, independently, through creditors in non-decreasing position |
| `CalculatorProperties.RunFrame` | src/utils/calculator.ts:50-54 | a debtor or creditor behind its cursor is never changed again |
| `CalculatorProperties.RunWithin` | src/utils/calculator.ts:42-51 | every round moves a strictly positive amount that is at most what its debtor owed and its creditor was owed when the loop started |
| `CalculatorProperties.RunPositive` | src/utils/calculator.ts:50-54 | no outstanding amount goes negative: every party the loop passed is left at exactly zero, and every party it did not reach is still positive |
| `CalculatorProperties.RunConservesDebts` | src/utils/calculator.ts:42-50 | what each debtor pays in all is exactly how much their outstanding amount went down |
| `CalculatorProperties.RunConservesCredits` | src/utils/calculator.ts:42-51 | what each creditor receives in all is exactly how much their outstanding amount went down |
| `CalculatorProperties.RunMovesDebts` | src/utils/calculator.ts:42-50 | the total moved is how much the debtors' outstanding sum went down |
| `CalculatorProperties.RunMovesCredits` | src/utils/calculator.ts:42-51 | the total moved is how much the creditors' outstanding sum went down |
| `CalculatorProperties.SettleRounds` | src/utils/calculator.ts:38-55 | for any lists, the loop ends with the debtors or the creditors exhausted, after at most as many rounds as there are debtors and creditors |
| `CalculatorProperties.SettleExhausts` | src/utils/calculator.ts:38-55 | if the debtors' amounts sum to the creditors' amounts, the loop exhausts both lists; every debtor pays exactly what they owed; every creditor receives exactly what they were owed; everyone ends at zero; there are at most debtors + creditors - 1 rounds |
| `CalculatorProperties.UnderpaidIncreasing` | src/utils/calculator.ts:23 | the positions of the participants below the share are listed in increasing (input) order |
| `CalculatorProperties.UnderpaidMembers` | src/utils/calculator.ts:23 | a position is listed exactly when that participant paid less than the share |
| `CalculatorProperties.DebtorsFrom` | src/utils/calculator.ts:17-26 | the debtors are those listed participants, in that order, each owing the share minus what they paid |
| `CalculatorProperties.OverpaidIncreasing` | src/utils/calculator.ts:28 | the positions of the participants above the share are listed in increasing (input) order |
| `CalculatorProperties.OverpaidMembers` | src/utils/calculator.ts:28 | a position is listed exactly when that participant paid more than the share |
| `CalculatorProperties.CreditorsFrom` | src/utils/calculator.ts:17-31 | the creditors are those listed participants, in that order, each owed what they paid minus the share |
| `CalculatorProperties.DebtorsAreUnderpaid` | src/utils/calculator.ts:17-26 | the debtors are exactly the participants who paid less than the share, in input order, each owing the share minus what they paid |
| `CalculatorProperties.CreditorsAreOverpaid` | src/utils/calculator.ts:17-31 | the creditors are exactly the participants who paid more than the share, in input order, each owed what they paid minus the share; someone exactly at the share is in neither list |
| `CalculatorProperties.PartitionSize` | src/utils/calculator.ts:23-31 | nobody is both a debtor and a creditor, so the two lists together are no longer than the participant list |
| `CalculatorProperties.PartitionSum` | src/utils/calculator.ts:23-31 | what the creditors are owed minus what the debtors owe is the sum of all signed balances |
| `CalculatorProperties.TotalNonNegative` | src/utils/calculator.ts:13 | when nobody paid a negative amount, the total is not negative |
| `CalculatorProperties.BalancesSum` | src/utils/calculator.ts:17-20 | the balances sum to the total minus the number of participants times the share |
| `CalculatorProperties.DebtsMatchCredits` | src/utils/calculator.ts:13-31 | against the exact share, what the debtors owe in all is exactly what the creditors are owed in all |
| `CalculatorProperties.ExactSettlement` | src/utils/calculator.ts:13-55 | for any non-empty input, both cursors run to the end; every debtor pays and every creditor receives exactly their balance; there are as many payments as rounds, at most one fewer than there are participants |
| `CalculatorProperties.TransactionsFollowRounds` | src/utils/calculator.ts:38-48 | every payment is from the debtor and to the creditor under the cursors of its round, and carries that round's amount rounded, which is never negative; the rounds move positive amounts within both sides' outstanding amounts and go through both lists in order |
| `CalculatorExamples.TwoPeople` | src/utils/calculator.ts:3-63 | 100000 and 0 give total 100000, share 50000 and the single payment Budi to Ana of 50000 |
| `CalculatorExamples.AlreadyEven` | src/utils/calculator.ts:3-63 | three people who paid 100 each give total 300, share 100 and no payments |
| `CalculatorExamples.TrioAverage` | src/utils/calculator.ts:13-14 | when one of three paid p and the others nothing, the share is p/3 |
| `CalculatorExamples.TrioPartition` | src/utils/calculator.ts:17-31 | against the share p/3, the two who paid nothing are debtors of p/3 and the payer is a creditor of 2p/3 |
| `CalculatorExamples.TrioSettle` | src/utils/calculator.ts:38-55 | one creditor of 2x and two debtors of x settle in two rounds of x, both to that creditor |
| `CalculatorExamples.OnePaidForThree` | src/utils/calculator.ts:3-63 | when one of three paid p, each of the two others pays them round(p/3), in input order |
| `CalculatorExamples.ThreeHundredForThree` | src/utils/calculator.ts:3-63 | 300, 0 and 0 give the payments Budi to Ana of 100 and Citra to Ana of 100 |
| `CalculatorExamples.ThirdsRoundToZero` | src/utils/calculator.ts:47 | 1, 0 and 0 give two payments, each of a rounded 0 |

## Left out

- IEEE-754 doubles are not modelled; amounts are exact reals. Under floating point,
  `debtor.amount -= amount` (src/utils/calculator.ts:50-51) can leave a tiny non-zero
  residue. The `=== 0` tests at lines 53-54 then fail to advance a cursor, and extra
  near-zero payments can follow. Even so, `Math.min` returns one of its two arguments and
  `x - x` is exactly 0 in floating point, so the side whose amount equals the minimum drops
  to exactly 0. At least one cursor therefore still advances each round and the loop
  still terminates; only the other side can keep a residue. Every "exactly zero" result
  above holds for exact arithmetic only.
- The total is a right-to-left sum; the source's `reduce` sums left to right. Over exact
  reals the two are equal.
- The two cursor tests at src/utils/calculator.ts:53-54 are written as one simultaneous
  assignment. Both read the amounts after the subtraction and are independent, so the
  effect is the same.
- The `id` field of a participant is carried through unchanged and used nowhere else,
  as in the source.
- `Calculator.Run`'s own contract only bounds its shape. Its behaviour is stated by the
  `CalculatorProperties` lemmas listed above.
- `Math.round` at src/utils/calculator.ts:47 reports a round that moves less than half a
  unit as a payment of 0; `ThirdsRoundToZero` exhibits such a case. The exact amount of
  every round is positive (`RunWithin`).
- Conservation is proved for the exact amounts of the rounds, not for the rounded
  payments (`RunConservesDebts`, `RunConservesCredits`, `SettleExhausts`).
- Outside the engine, none of the following is part of this model:
  - the React components;
  - input validation and drafts;
  - `src/utils/storage.ts`;
  - `src/hooks/useToast.ts`;
  - currency formatting and share text;
  - `tailwind.config.js`.

  They are user interface, browser storage, timers and presentation. They are not
  settlement logic.
