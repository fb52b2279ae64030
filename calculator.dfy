/** The settlement engine: from what everybody paid, the equal share and the list of
    debtor-to-creditor payments that brings everybody to that share.

    Amounts are exact reals. Only the three values the engine reports (the total, the
    share and each payment) are rounded; every balance in between stays exact. */
module Calculator {
  import opened Types

  /** JavaScript's Math.round: the nearest integer, a half rounded up. */
  function Round(x: real): (r: int)
    ensures x - 0.5 < r as real <= x + 0.5
  {
    (x + 0.5).Floor
  }

  /** JavaScript's Math.abs. */
  function Abs(x: real): (r: real)
    ensures r >= 0.0 && (r == x || r == -x)
  {
    if x < 0.0 then -x else x
  }

  /** JavaScript's Math.min. */
  function Min(a: real, b: real): (r: real)
    ensures r <= a && r <= b
    ensures r == a || r == b
  {
    if a < b then a else b
  }

  /** The sum of all amounts paid. */
  function Total(ps: seq<Participant>): real {
    if ps == [] then 0.0 else ps[0].amount + Total(ps[1..])
  }

  /** The equal share: the total divided by the number of participants. */
  function Average(ps: seq<Participant>): (r: real)
    requires |ps| > 0
    ensures (|ps| as real) * r == Total(ps)
  {
    Total(ps) / (|ps| as real)
  }

  /** A participant's signed position: positive when they paid more than the share. */
  datatype Debt = Debt(name: string, balance: real)

  function Balances(ps: seq<Participant>, average: real): (r: seq<Debt>)
    ensures |r| == |ps|
    ensures forall k :: 0 <= k < |ps| ==> r[k].name == ps[k].name && ps[k].amount == average + r[k].balance
  {
    seq(|ps|, k requires 0 <= k < |ps| => Debt(ps[k].name, ps[k].amount - average))
  }

  /** A debtor or creditor together with what is still outstanding for them. */
  datatype Party = Party(name: string, amount: real)

  /** The participants below the share, in input order, with what they owe. */
  function Debtors(debts: seq<Debt>): (r: seq<Party>)
    ensures |r| <= |debts|
    ensures forall k :: 0 <= k < |r| ==> r[k].amount > 0.0
  {
    if debts == [] then []
    else
      (if debts[0].balance < 0.0 then [Party(debts[0].name, Abs(debts[0].balance))] else [])
      + Debtors(debts[1..])
  }

  /** The participants above the share, in input order, with what they are owed. */
  function Creditors(debts: seq<Debt>): (r: seq<Party>)
    ensures |r| <= |debts|
    ensures forall k :: 0 <= k < |r| ==> r[k].amount > 0.0
  {
    if debts == [] then []
    else
      (if debts[0].balance > 0.0 then [Party(debts[0].name, debts[0].balance)] else [])
      + Creditors(debts[1..])
  }

  /** The outstanding amounts of a list of debtors or creditors. */
  function Amounts(ps: seq<Party>): (r: seq<real>)
    ensures |r| == |ps|
  {
    seq(|ps|, k requires 0 <= k < |ps| => ps[k].amount)
  }

  /** One round of the matching loop: the two cursor positions and the exact amount moved. */
  datatype Step = Step(debtor: nat, creditor: nat, amount: real)

  /** Where the matching loop stops: the rounds it made, what is left outstanding for each
      debtor and each creditor, and the two cursors. */
  datatype Outcome = Outcome(
    steps: seq<Step>,
    debts: seq<real>,
    credits: seq<real>,
    debtorIndex: nat,
    creditorIndex: nat)

  /** The matching loop, run from the state (d, c, di, ci) until one cursor runs off its
      list: d and c hold what each debtor and creditor still has outstanding, di and ci
      are the cursors. Each round moves the smaller of the two amounts under the cursors
      and advances every cursor whose party is left with exactly nothing outstanding. */
  function Run(d: seq<real>, c: seq<real>, di: nat, ci: nat): (r: Outcome)
    requires di <= |d| && ci <= |c|
    ensures |r.debts| == |d| && |r.credits| == |c|
    ensures forall k :: 0 <= k < |r.steps| ==>
              di <= r.steps[k].debtor < |d| && ci <= r.steps[k].creditor < |c|
    decreases |d| - di + |c| - ci
  {
    if di < |d| && ci < |c| then
      var amount := Min(d[di], c[ci]);
      var d', c' := d[di := d[di] - amount], c[ci := c[ci] - amount];
      var rest := Run(d', c', if d'[di] == 0.0 then di + 1 else di, if c'[ci] == 0.0 then ci + 1 else ci);
      rest.(steps := [Step(di, ci, amount)] + rest.steps)
    else
      Outcome([], d, c, di, ci)
  }

  /** The payment instructions for a list of rounds: names from the cursor positions,
      the amount rounded. */
  function Render(ds: seq<Party>, cs: seq<Party>, steps: seq<Step>): (r: seq<DebtTransaction>)
    requires forall k :: 0 <= k < |steps| ==> steps[k].debtor < |ds| && steps[k].creditor < |cs|
    ensures |r| == |steps|
    ensures forall k :: 0 <= k < |steps| ==>
              && r[k].from == ds[steps[k].debtor].name && r[k].to == cs[steps[k].creditor].name
              && steps[k].amount - 0.5 < r[k].amount as real <= steps[k].amount + 0.5
  {
    seq(|steps|, k requires 0 <= k < |steps| =>
      DebtTransaction(ds[steps[k].debtor].name, cs[steps[k].creditor].name, Round(steps[k].amount)))
  }

  /** The matching loop's rounds for the debtor and creditor lists of a partition. */
  function Settle(ds: seq<Party>, cs: seq<Party>): (r: Outcome)
    ensures |r.debts| == |ds| && |r.credits| == |cs|
    ensures forall k :: 0 <= k < |r.steps| ==> r.steps[k].debtor < |ds| && r.steps[k].creditor < |cs|
  {
    Run(Amounts(ds), Amounts(cs), 0, 0)
  }

  /** The whole computation as a value: what CalculateExpenseSplit returns. */
  function ExpenseSplit(ps: seq<Participant>): (r: ExpenseSummary)
    ensures r.participants == ps
    ensures |ps| == 0 ==> r == ExpenseSummary(0, 0, [], [])
    ensures |ps| > 0 ==> r.totalExpense == Round(Total(ps)) && r.averagePerPerson == Round(Average(ps))
  {
    if |ps| == 0 then
      ExpenseSummary(0, 0, [], [])
    else
      var average := Average(ps);
      var debts := Balances(ps, average);
      var ds, cs := Debtors(debts), Creditors(debts);
      ExpenseSummary(Round(Total(ps)), Round(average), ps, Render(ds, cs, Settle(ds, cs).steps))
  }

  /** Run(d, c, di, ci) with the given rounds put in front of its own. */
  function After(done: seq<Step>, r: Outcome): Outcome {
    r.(steps := done + r.steps)
  }

  /** What holds of the matching loop's state (d, c, di, ci) after the rounds in done,
      when it is to end in final. */
  ghost predicate Matching(d: seq<real>, c: seq<real>, di: nat, ci: nat, done: seq<Step>, final: Outcome)
  {
    && di <= |d| && ci <= |c|
    && final == After(done, Run(d, c, di, ci))
    && (forall k :: 0 <= k < |done| ==> done[k].debtor < |d| && done[k].creditor < |c|)
    // the parties at and after each cursor still have something outstanding
    && (forall k :: di <= k < |d| ==> d[k] > 0.0)
    && (forall k :: ci <= k < |c| ==> c[k] > 0.0)
  }

  /** One round of the loop keeps Matching. */
  lemma MatchingStep(d: seq<real>, c: seq<real>, di: nat, ci: nat, done: seq<Step>, final: Outcome,
                     amount: real, d': seq<real>, c': seq<real>, di': nat, ci': nat)
    requires Matching(d, c, di, ci, done, final)
    requires di < |d| && ci < |c|
    requires amount == Min(d[di], c[ci])
    requires d' == d[di := d[di] - amount] && c' == c[ci := c[ci] - amount]
    requires di' == (if d'[di] == 0.0 then di + 1 else di)
    requires ci' == (if c'[ci] == 0.0 then ci + 1 else ci)
    ensures Matching(d', c', di', ci', done + [Step(di, ci, amount)], final)
  {
    AfterAfter(done, Step(di, ci, amount), Run(d', c', di', ci'));
  }

  /** The matching loop. The arrays hold what each debtor and creditor still has
      outstanding; the loop lowers them in place. */
  method MatchDebts(owing: seq<Party>, owed: seq<Party>) returns (transactions: seq<DebtTransaction>)
    requires forall k :: 0 <= k < |owing| ==> owing[k].amount > 0.0
    requires forall k :: 0 <= k < |owed| ==> owed[k].amount > 0.0
    ensures transactions == Render(owing, owed, Settle(owing, owed).steps)
  {
    var debtors := new real[|owing|](k requires 0 <= k < |owing| => owing[k].amount);
    var creditors := new real[|owed|](k requires 0 <= k < |owed| => owed[k].amount);
    assert debtors[..] == Amounts(owing) && creditors[..] == Amounts(owed);

    transactions := [];
    var debtorIndex, creditorIndex := 0, 0;
    ghost var final := Settle(owing, owed);
    ghost var done: seq<Step> := [];
    ghost var d, c := debtors[..], creditors[..];
    while debtorIndex < debtors.Length && creditorIndex < creditors.Length
      invariant debtors[..] == d && creditors[..] == c
      invariant |d| == |owing| && |c| == |owed|
      invariant Matching(d, c, debtorIndex, creditorIndex, done, final)
      invariant transactions == Render(owing, owed, done)
      decreases debtors.Length - debtorIndex + creditors.Length - creditorIndex
    {
      var amount := Min(debtors[debtorIndex], creditors[creditorIndex]);
      assert amount > 0.0;
      RenderSnoc(owing, owed, done, Step(debtorIndex, creditorIndex, amount));
      transactions := transactions + [DebtTransaction(owing[debtorIndex].name, owed[creditorIndex].name, Round(amount))];

      debtors[debtorIndex] := debtors[debtorIndex] - amount;
      creditors[creditorIndex] := creditors[creditorIndex] - amount;
      ghost var d', c' := d[debtorIndex := d[debtorIndex] - amount], c[creditorIndex := c[creditorIndex] - amount];

      ghost var di, ci := debtorIndex, creditorIndex;
      debtorIndex, creditorIndex :=
        if debtors[debtorIndex] == 0.0 then debtorIndex + 1 else debtorIndex,
        if creditors[creditorIndex] == 0.0 then creditorIndex + 1 else creditorIndex;
      MatchingStep(d, c, di, ci, done, final, amount, d', c', debtorIndex, creditorIndex);
      d, c, done := d', c', done + [Step(di, ci, amount)];
    }
  }

  lemma AfterAfter(done: seq<Step>, s: Step, r: Outcome)
    ensures After(done, After([s], r)) == After(done + [s], r)
  {
    assert done + ([s] + r.steps) == (done + [s]) + r.steps;
  }

  lemma RenderSnoc(ds: seq<Party>, cs: seq<Party>, steps: seq<Step>, s: Step)
    requires forall k :: 0 <= k < |steps| ==> steps[k].debtor < |ds| && steps[k].creditor < |cs|
    requires s.debtor < |ds| && s.creditor < |cs|
    ensures Render(ds, cs, steps + [s]) ==
            Render(ds, cs, steps) + [DebtTransaction(ds[s.debtor].name, cs[s.creditor].name, Round(s.amount))]
  {
  }

  /** The engine: share, balances and partition as values, then the matching loop. */
  method CalculateExpenseSplit(participants: seq<Participant>) returns (summary: ExpenseSummary)
    ensures summary == ExpenseSplit(participants)
    ensures summary.participants == participants
    ensures |participants| == 0 ==> summary == ExpenseSummary(0, 0, [], [])
    ensures |participants| > 0 ==>
              summary.totalExpense == Round(Total(participants)) &&
              summary.averagePerPerson == Round(Total(participants) / (|participants| as real))
  {
    if |participants| == 0 {
      return ExpenseSummary(0, 0, [], []);
    }
    var totalExpense := Total(participants);
    var averagePerPerson := totalExpense / (|participants| as real);
    var debts := Balances(participants, averagePerPerson);
    var transactions := MatchDebts(Debtors(debts), Creditors(debts));
    summary := ExpenseSummary(Round(totalExpense), Round(averagePerPerson), participants, transactions);
  }
}
