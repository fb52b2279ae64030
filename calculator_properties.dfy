/** What the settlement engine guarantees, proved about the functions of module Calculator:
    how the participants split into debtors and creditors, how the matching loop moves its
    cursors, that no outstanding amount ever goes negative, that every amount moved is
    accounted for, and that with exact arithmetic everybody ends up settled. */
module CalculatorProperties {
  import opened Types
  import opened Calculator

  /** The sum of a list of amounts. */
  ghost function Sum(xs: seq<real>): real {
    if xs == [] then 0.0 else xs[0] + Sum(xs[1..])
  }

  /** Everything moved by a list of rounds. */
  ghost function Moved(steps: seq<Step>): real {
    if steps == [] then 0.0 else steps[0].amount + Moved(steps[1..])
  }

  /** What the debtor at position k pays over a list of rounds. */
  ghost function Paid(steps: seq<Step>, k: nat): real {
    if steps == [] then 0.0
    else (if steps[0].debtor == k then steps[0].amount else 0.0) + Paid(steps[1..], k)
  }

  /** What the creditor at position k receives over a list of rounds. */
  ghost function Received(steps: seq<Step>, k: nat): real {
    if steps == [] then 0.0
    else (if steps[0].creditor == k then steps[0].amount else 0.0) + Received(steps[1..], k)
  }

  /** The positions, from `from` on and in increasing order, of those who paid less than the share. */
  ghost function Underpaid(ps: seq<Participant>, average: real, from: nat): (r: seq<nat>)
    requires from <= |ps|
    ensures forall k :: 0 <= k < |r| ==> from <= r[k] < |ps|
    decreases |ps| - from
  {
    if from == |ps| then []
    else (if ps[from].amount < average then [from] else []) + Underpaid(ps, average, from + 1)
  }

  /** The positions, from `from` on and in increasing order, of those who paid more than the share. */
  ghost function Overpaid(ps: seq<Participant>, average: real, from: nat): (r: seq<nat>)
    requires from <= |ps|
    ensures forall k :: 0 <= k < |r| ==> from <= r[k] < |ps|
    decreases |ps| - from
  {
    if from == |ps| then []
    else (if ps[from].amount > average then [from] else []) + Overpaid(ps, average, from + 1)
  }

  /** A list of positions in strictly increasing order. */
  ghost predicate Increasing(ix: seq<nat>) {
    forall k, l :: 0 <= k < l < |ix| ==> ix[k] < ix[l]
  }

  /** The sum of the signed balances. */
  ghost function BalanceSum(debts: seq<Debt>): real {
    if debts == [] then 0.0 else debts[0].balance + BalanceSum(debts[1..])
  }

  // ---------------------------------------------------------------------------
  // Sums

  lemma {:induction false} SumUpdate(xs: seq<real>, i: nat, v: real)
    requires i < |xs|
    ensures Sum(xs[i := v]) == Sum(xs) - xs[i] + v
  {
    if i == 0 {
      assert xs[i := v][1..] == xs[1..];
    } else {
      assert xs[i := v][1..] == xs[1..][i - 1 := v];
      SumUpdate(xs[1..], i - 1, v);
    }
  }

  /** A list whose entries from position `from` on are positive and are zero before it
      has a positive sum exactly when `from` is inside the list. */
  lemma {:induction false} SumZeroThenPositive(xs: seq<real>, from: nat)
    requires from <= |xs|
    requires ZeroThenPositive(xs, 0, from)
    ensures from == |xs| <==> Sum(xs) == 0.0
    ensures from < |xs| <==> Sum(xs) > 0.0
  {
    if xs != [] {
      SumZeroThenPositive(xs[1..], if from == 0 then 0 else from - 1);
    }
  }

  lemma SumAmountsCons(p: Party, rest: seq<Party>)
    ensures Sum(Amounts([p] + rest)) == p.amount + Sum(Amounts(rest))
  {
    assert Amounts([p] + rest)[1..] == Amounts(rest);
  }

  // ---------------------------------------------------------------------------
  // The matching loop

  /** One round of the matching loop, unfolded. */
  lemma RunStep(d: seq<real>, c: seq<real>, di: nat, ci: nat)
    requires di < |d| && ci < |c|
    ensures var amount := Min(d[di], c[ci]);
      var d', c' := d[di := d[di] - amount], c[ci := c[ci] - amount];
      var rest := Run(d', c', if d'[di] == 0.0 then di + 1 else di, if c'[ci] == 0.0 then ci + 1 else ci);
      && Run(d, c, di, ci).steps == [Step(di, ci, amount)] + rest.steps
      && Run(d, c, di, ci).debts == rest.debts && Run(d, c, di, ci).credits == rest.credits
  {
  }

  /** Each round advances at least one cursor, so the loop stops with one list exhausted
      after at most as many rounds as the cursors advanced; when both lists end exhausted,
      the last round advanced both cursors at once. */
  lemma {:induction false} RunCursors(d: seq<real>, c: seq<real>, di: nat, ci: nat)
    requires di <= |d| && ci <= |c|
    ensures var r := Run(d, c, di, ci);
      && di <= r.debtorIndex <= |d| && ci <= r.creditorIndex <= |c|
      && (r.debtorIndex == |d| || r.creditorIndex == |c|)
      && |r.steps| <= (r.debtorIndex - di) + (r.creditorIndex - ci)
      && (di < |d| && ci < |c| && r.debtorIndex == |d| && r.creditorIndex == |c| ==>
            |r.steps| < (|d| - di) + (|c| - ci))
    decreases |d| - di + |c| - ci
  {
    if di < |d| && ci < |c| {
      var amount := Min(d[di], c[ci]);
      var d', c' := d[di := d[di] - amount], c[ci := c[ci] - amount];
      var di' := if d'[di] == 0.0 then di + 1 else di;
      var ci' := if c'[ci] == 0.0 then ci + 1 else ci;
      assert di' + ci' > di + ci;
      RunCursors(d', c', di', ci');
    }
  }

  /** Rounds that visit debtors in non-decreasing order and, independently, creditors in
      non-decreasing order. */
  ghost predicate InOrder(steps: seq<Step>) {
    forall k, l :: 0 <= k < l < |steps| ==>
      steps[k].debtor <= steps[l].debtor && steps[k].creditor <= steps[l].creditor
  }

  /** The rounds start at the cursors and go through both lists in order. */
  lemma {:induction false} RunOrdered(d: seq<real>, c: seq<real>, di: nat, ci: nat)
    requires di <= |d| && ci <= |c|
    ensures |Run(d, c, di, ci).steps| > 0 ==>
              Run(d, c, di, ci).steps[0].debtor == di && Run(d, c, di, ci).steps[0].creditor == ci
    ensures InOrder(Run(d, c, di, ci).steps)
    decreases |d| - di + |c| - ci
  {
    if di < |d| && ci < |c| {
      var amount := Min(d[di], c[ci]);
      var d', c' := d[di := d[di] - amount], c[ci := c[ci] - amount];
      var di' := if d'[di] == 0.0 then di + 1 else di;
      var ci' := if c'[ci] == 0.0 then ci + 1 else ci;
      RunOrdered(d', c', di', ci');
      var rest := Run(d', c', di', ci').steps;
      var steps := Run(d, c, di, ci).steps;
      assert steps == [Step(di, ci, amount)] + rest;
      forall k, l | 0 <= k < l < |steps|
        ensures steps[k].debtor <= steps[l].debtor && steps[k].creditor <= steps[l].creditor
      {
        assert steps[l] == rest[l - 1];
        if k > 0 {
          assert steps[k] == rest[k - 1];
        }
      }
    }
  }

  /** The loop never touches a party behind a cursor. */
  lemma {:induction false} RunFrame(d: seq<real>, c: seq<real>, di: nat, ci: nat)
    requires di <= |d| && ci <= |c|
    ensures forall k :: 0 <= k < di ==> Run(d, c, di, ci).debts[k] == d[k]
    ensures forall k :: 0 <= k < ci ==> Run(d, c, di, ci).credits[k] == c[k]
    decreases |d| - di + |c| - ci
  {
    if di < |d| && ci < |c| {
      var amount := Min(d[di], c[ci]);
      var d', c' := d[di := d[di] - amount], c[ci := c[ci] - amount];
      RunFrame(d', c', if d'[di] == 0.0 then di + 1 else di, if c'[ci] == 0.0 then ci + 1 else ci);
    }
  }

  /** Every round moves a positive amount that is at most what its debtor had outstanding
      in d and at most what its creditor had outstanding in c. */
  ghost predicate Within(steps: seq<Step>, d: seq<real>, c: seq<real>) {
    forall k :: 0 <= k < |steps| ==>
      && steps[k].debtor < |d| && steps[k].creditor < |c|
      && 0.0 < steps[k].amount <= d[steps[k].debtor]
      && steps[k].amount <= c[steps[k].creditor]
  }

  /** From position `from` on, the entries before position `to` are zero and the rest positive. */
  ghost predicate ZeroThenPositive(xs: seq<real>, from: nat, to: nat) {
    forall k :: from <= k < |xs| ==> if k < to then xs[k] == 0.0 else xs[k] > 0.0
  }

  /** When everything outstanding at and after the cursors is positive, every round moves
      a positive amount that is at most what its debtor and its creditor had outstanding. */
  lemma {:induction false} RunWithin(d: seq<real>, c: seq<real>, di: nat, ci: nat)
    requires di <= |d| && ci <= |c|
    requires ZeroThenPositive(d, di, di) && ZeroThenPositive(c, ci, ci)
    ensures Within(Run(d, c, di, ci).steps, d, c)
    decreases |d| - di + |c| - ci
  {
    if di < |d| && ci < |c| {
      var amount := Min(d[di], c[ci]);
      var d', c' := d[di := d[di] - amount], c[ci := c[ci] - amount];
      var di' := if d'[di] == 0.0 then di + 1 else di;
      var ci' := if c'[ci] == 0.0 then ci + 1 else ci;
      RunWithin(d', c', di', ci');
      var rest := Run(d', c', di', ci').steps;
      var steps := Run(d, c, di, ci).steps;
      assert steps == [Step(di, ci, amount)] + rest;
      forall k | 0 < k < |steps|
        ensures 0.0 < steps[k].amount <= d[steps[k].debtor] && steps[k].amount <= c[steps[k].creditor]
      {
        assert steps[k] == rest[k - 1];
      }
    }
  }

  /** When everything outstanding at and after the cursors is positive, the loop leaves
      every party it passed at exactly zero and every party it did not reach still positive,
      so no outstanding amount ever goes negative. */
  lemma {:induction false} RunPositive(d: seq<real>, c: seq<real>, di: nat, ci: nat)
    requires di <= |d| && ci <= |c|
    requires ZeroThenPositive(d, di, di) && ZeroThenPositive(c, ci, ci)
    ensures ZeroThenPositive(Run(d, c, di, ci).debts, di, Run(d, c, di, ci).debtorIndex)
    ensures ZeroThenPositive(Run(d, c, di, ci).credits, ci, Run(d, c, di, ci).creditorIndex)
    decreases |d| - di + |c| - ci
  {
    if di < |d| && ci < |c| {
      var amount := Min(d[di], c[ci]);
      var d', c' := d[di := d[di] - amount], c[ci := c[ci] - amount];
      var di' := if d'[di] == 0.0 then di + 1 else di;
      var ci' := if c'[ci] == 0.0 then ci + 1 else ci;
      RunPositive(d', c', di', ci');
      RunFrame(d', c', di', ci');
      RunCursors(d', c', di', ci');
    }
  }

  /** Every amount a debtor pays is taken off what they owe. */
  lemma {:induction false} RunConservesDebts(d: seq<real>, c: seq<real>, di: nat, ci: nat)
    requires di <= |d| && ci <= |c|
    ensures forall k :: 0 <= k < |d| ==> Paid(Run(d, c, di, ci).steps, k) == d[k] - Run(d, c, di, ci).debts[k]
    decreases |d| - di + |c| - ci
  {
    if di < |d| && ci < |c| {
      var amount := Min(d[di], c[ci]);
      var d', c' := d[di := d[di] - amount], c[ci := c[ci] - amount];
      var di' := if d'[di] == 0.0 then di + 1 else di;
      var ci' := if c'[ci] == 0.0 then ci + 1 else ci;
      RunConservesDebts(d', c', di', ci');
      var rest := Run(d', c', di', ci');
      var r := Run(d, c, di, ci);
      assert r.steps == [Step(di, ci, amount)] + rest.steps;
      assert r.debts == rest.debts;
      forall k | 0 <= k < |d|
        ensures Paid(r.steps, k) == d[k] - r.debts[k]
      {
        assert r.steps[1..] == rest.steps;
        assert Paid(r.steps, k) == (if di == k then amount else 0.0) + Paid(rest.steps, k);
      }
    }
  }

  /** Every amount a creditor receives is taken off what they are owed. */
  lemma {:induction false} RunConservesCredits(d: seq<real>, c: seq<real>, di: nat, ci: nat)
    requires di <= |d| && ci <= |c|
    ensures forall k :: 0 <= k < |c| ==> Received(Run(d, c, di, ci).steps, k) == c[k] - Run(d, c, di, ci).credits[k]
    decreases |d| - di + |c| - ci
  {
    if di < |d| && ci < |c| {
      var amount := Min(d[di], c[ci]);
      var d', c' := d[di := d[di] - amount], c[ci := c[ci] - amount];
      var di' := if d'[di] == 0.0 then di + 1 else di;
      var ci' := if c'[ci] == 0.0 then ci + 1 else ci;
      RunConservesCredits(d', c', di', ci');
      var rest := Run(d', c', di', ci');
      var r := Run(d, c, di, ci);
      assert r.steps == [Step(di, ci, amount)] + rest.steps;
      assert r.credits == rest.credits;
      forall k | 0 <= k < |c|
        ensures Received(r.steps, k) == c[k] - r.credits[k]
      {
        assert r.steps[1..] == rest.steps;
        assert Received(r.steps, k) == (if ci == k then amount else 0.0) + Received(rest.steps, k);
      }
    }
  }

  /** The total moved is what the debtors' outstanding amounts go down by in all. */
  lemma {:induction false} RunMovesDebts(d: seq<real>, c: seq<real>, di: nat, ci: nat)
    requires di <= |d| && ci <= |c|
    ensures Moved(Run(d, c, di, ci).steps) == Sum(d) - Sum(Run(d, c, di, ci).debts)
    decreases |d| - di + |c| - ci
  {
    if di < |d| && ci < |c| {
      var amount := Min(d[di], c[ci]);
      var d', c' := d[di := d[di] - amount], c[ci := c[ci] - amount];
      var di' := if d'[di] == 0.0 then di + 1 else di;
      var ci' := if c'[ci] == 0.0 then ci + 1 else ci;
      RunMovesDebts(d', c', di', ci');
      SumUpdate(d, di, d[di] - amount);
      RunStep(d, c, di, ci);
      var rest := Run(d', c', di', ci');
      var r := Run(d, c, di, ci);
      assert r.steps[1..] == rest.steps;
      assert Moved(r.steps) == amount + Moved(rest.steps);
    }
  }

  /** The total moved is what the creditors' outstanding amounts go down by in all. */
  lemma {:induction false} RunMovesCredits(d: seq<real>, c: seq<real>, di: nat, ci: nat)
    requires di <= |d| && ci <= |c|
    ensures Moved(Run(d, c, di, ci).steps) == Sum(c) - Sum(Run(d, c, di, ci).credits)
    decreases |d| - di + |c| - ci
  {
    if di < |d| && ci < |c| {
      var amount := Min(d[di], c[ci]);
      var d', c' := d[di := d[di] - amount], c[ci := c[ci] - amount];
      var di' := if d'[di] == 0.0 then di + 1 else di;
      var ci' := if c'[ci] == 0.0 then ci + 1 else ci;
      RunMovesCredits(d', c', di', ci');
      SumUpdate(c, ci, c[ci] - amount);
      RunStep(d, c, di, ci);
      var rest := Run(d', c', di', ci');
      var r := Run(d, c, di, ci);
      assert r.steps[1..] == rest.steps;
      assert Moved(r.steps) == amount + Moved(rest.steps);
    }
  }

  /** Whatever the amounts, the matching loop stops with the debtor list or the creditor
      list exhausted, after at most as many rounds as there are debtors and creditors. */
  lemma SettleRounds(ds: seq<Party>, cs: seq<Party>)
    ensures Settle(ds, cs).debtorIndex == |ds| || Settle(ds, cs).creditorIndex == |cs|
    ensures |Settle(ds, cs).steps| <= |ds| + |cs|
  {
    RunCursors(Amounts(ds), Amounts(cs), 0, 0);
  }

  /** With exact arithmetic, when debtors owe in all exactly what creditors are owed, the
      loop runs both lists to the end, leaves everybody at exactly zero, has every debtor
      pay and every creditor receive exactly their amount, and makes at most one round
      fewer than there are debtors and creditors. */
  lemma SettleExhausts(d: seq<real>, c: seq<real>)
    requires forall k :: 0 <= k < |d| ==> d[k] > 0.0
    requires forall k :: 0 <= k < |c| ==> c[k] > 0.0
    requires Sum(d) == Sum(c)
    ensures Run(d, c, 0, 0).debtorIndex == |d| && Run(d, c, 0, 0).creditorIndex == |c|
    ensures forall k :: 0 <= k < |d| ==> Run(d, c, 0, 0).debts[k] == 0.0 && Paid(Run(d, c, 0, 0).steps, k) == d[k]
    ensures forall k :: 0 <= k < |c| ==> Run(d, c, 0, 0).credits[k] == 0.0 && Received(Run(d, c, 0, 0).steps, k) == c[k]
    ensures |d| > 0 && |c| > 0 ==> |Run(d, c, 0, 0).steps| <= |d| + |c| - 1
  {
    var r := Run(d, c, 0, 0);
    assert ZeroThenPositive(d, 0, 0) && ZeroThenPositive(c, 0, 0);
    RunCursors(d, c, 0, 0);
    RunPositive(d, c, 0, 0);
    RunMovesDebts(d, c, 0, 0);
    RunMovesCredits(d, c, 0, 0);
    SumZeroThenPositive(r.debts, r.debtorIndex);
    SumZeroThenPositive(r.credits, r.creditorIndex);
    // what both sides moved is the same amount, so both lists end at zero together
    assert r.debtorIndex == |d| && r.creditorIndex == |c|;
    RunConservesDebts(d, c, 0, 0);
    RunConservesCredits(d, c, 0, 0);
  }

  // ---------------------------------------------------------------------------
  // Balances and the partition

  /** The positions Underpaid lists are increasing. */
  lemma {:induction false} UnderpaidIncreasing(ps: seq<Participant>, average: real, from: nat)
    requires from <= |ps|
    ensures Increasing(Underpaid(ps, average, from))
    decreases |ps| - from
  {
    if from < |ps| {
      UnderpaidIncreasing(ps, average, from + 1);
      var ix, ix' := Underpaid(ps, average, from), Underpaid(ps, average, from + 1);
      if ps[from].amount < average {
        assert ix == [from] + ix';
        forall k, l | 0 <= k < l < |ix|
          ensures ix[k] < ix[l]
        {
          assert ix[l] == ix'[l - 1];
          if k > 0 {
            assert ix[k] == ix'[k - 1];
          }
        }
      } else {
        assert ix == ix';
      }
    }
  }

  /** Underpaid lists exactly the positions, from `from` on, of those below the share. */
  lemma {:induction false} UnderpaidMembers(ps: seq<Participant>, average: real, from: nat)
    requires from <= |ps|
    ensures forall i :: from <= i < |ps| ==> (i in Underpaid(ps, average, from) <==> ps[i].amount < average)
    decreases |ps| - from
  {
    if from < |ps| {
      UnderpaidMembers(ps, average, from + 1);
    }
  }

  /** The debtors taken from the balances at `from` on are the participants Underpaid lists,
      in that order. */
  lemma {:induction false} DebtorsFrom(ps: seq<Participant>, average: real, from: nat)
    requires from <= |ps|
    ensures var ds, ix := Debtors(Balances(ps, average)[from..]), Underpaid(ps, average, from);
      && |ds| == |ix|
      && forall k :: 0 <= k < |ix| ==> ds[k] == Party(ps[ix[k]].name, average - ps[ix[k]].amount)
    decreases |ps| - from
  {
    var bs := Balances(ps, average)[from..];
    if from < |ps| {
      assert bs[0] == Debt(ps[from].name, ps[from].amount - average);
      assert bs[1..] == Balances(ps, average)[from + 1..];
      DebtorsFrom(ps, average, from + 1);
    } else {
      assert bs == [];
    }
  }

  /** The positions Overpaid lists are increasing. */
  lemma {:induction false} OverpaidIncreasing(ps: seq<Participant>, average: real, from: nat)
    requires from <= |ps|
    ensures Increasing(Overpaid(ps, average, from))
    decreases |ps| - from
  {
    if from < |ps| {
      OverpaidIncreasing(ps, average, from + 1);
      var ix, ix' := Overpaid(ps, average, from), Overpaid(ps, average, from + 1);
      if ps[from].amount > average {
        assert ix == [from] + ix';
        forall k, l | 0 <= k < l < |ix|
          ensures ix[k] < ix[l]
        {
          assert ix[l] == ix'[l - 1];
          if k > 0 {
            assert ix[k] == ix'[k - 1];
          }
        }
      } else {
        assert ix == ix';
      }
    }
  }

  /** Overpaid lists exactly the positions, from `from` on, of those above the share. */
  lemma {:induction false} OverpaidMembers(ps: seq<Participant>, average: real, from: nat)
    requires from <= |ps|
    ensures forall i :: from <= i < |ps| ==> (i in Overpaid(ps, average, from) <==> ps[i].amount > average)
    decreases |ps| - from
  {
    if from < |ps| {
      OverpaidMembers(ps, average, from + 1);
    }
  }

  /** The creditors taken from the balances at `from` on are the participants Overpaid lists,
      in that order. */
  lemma {:induction false} CreditorsFrom(ps: seq<Participant>, average: real, from: nat)
    requires from <= |ps|
    ensures var cs, ix := Creditors(Balances(ps, average)[from..]), Overpaid(ps, average, from);
      && |cs| == |ix|
      && forall k :: 0 <= k < |ix| ==> cs[k] == Party(ps[ix[k]].name, ps[ix[k]].amount - average)
    decreases |ps| - from
  {
    var bs := Balances(ps, average)[from..];
    if from < |ps| {
      assert bs[0] == Debt(ps[from].name, ps[from].amount - average);
      assert bs[1..] == Balances(ps, average)[from + 1..];
      CreditorsFrom(ps, average, from + 1);
    } else {
      assert bs == [];
    }
  }

  /** The debtors are exactly the participants who paid less than the share, in input
      order, each owing the share minus what they paid. */
  lemma DebtorsAreUnderpaid(ps: seq<Participant>, average: real)
    ensures var ds, ix := Debtors(Balances(ps, average)), Underpaid(ps, average, 0);
      && |ds| == |ix|
      && (forall k :: 0 <= k < |ix| ==>
            ix[k] < |ps| && ds[k] == Party(ps[ix[k]].name, average - ps[ix[k]].amount))
      && (forall k, l :: 0 <= k < l < |ix| ==> ix[k] < ix[l])
      && (forall i :: 0 <= i < |ps| ==> (i in ix <==> ps[i].amount < average))
  {
    assert Balances(ps, average)[0..] == Balances(ps, average);
    DebtorsFrom(ps, average, 0);
    UnderpaidIncreasing(ps, average, 0);
    UnderpaidMembers(ps, average, 0);
  }

  /** The creditors are exactly the participants who paid more than the share, in input
      order, each owed what they paid minus the share. */
  lemma CreditorsAreOverpaid(ps: seq<Participant>, average: real)
    ensures var cs, ix := Creditors(Balances(ps, average)), Overpaid(ps, average, 0);
      && |cs| == |ix|
      && (forall k :: 0 <= k < |ix| ==>
            ix[k] < |ps| && cs[k] == Party(ps[ix[k]].name, ps[ix[k]].amount - average))
      && (forall k, l :: 0 <= k < l < |ix| ==> ix[k] < ix[l])
      && (forall i :: 0 <= i < |ps| ==> (i in ix <==> ps[i].amount > average))
  {
    assert Balances(ps, average)[0..] == Balances(ps, average);
    CreditorsFrom(ps, average, 0);
    OverpaidIncreasing(ps, average, 0);
    OverpaidMembers(ps, average, 0);
  }

  /** Nobody is both a debtor and a creditor, so the two lists together are no longer
      than the participant list. */
  lemma {:induction false} PartitionSize(debts: seq<Debt>)
    ensures |Debtors(debts)| + |Creditors(debts)| <= |debts|
  {
    if debts != [] {
      PartitionSize(debts[1..]);
    }
  }

  /** What the creditors are owed minus what the debtors owe is the sum of all balances. */
  lemma {:induction false} PartitionSum(debts: seq<Debt>)
    ensures Sum(Amounts(Creditors(debts))) - Sum(Amounts(Debtors(debts))) == BalanceSum(debts)
  {
    if debts != [] {
      PartitionSum(debts[1..]);
      var b := debts[0];
      if b.balance < 0.0 {
        assert Debtors(debts) == [Party(b.name, -b.balance)] + Debtors(debts[1..]);
        assert Creditors(debts) == Creditors(debts[1..]);
        SumAmountsCons(Party(b.name, -b.balance), Debtors(debts[1..]));
      } else if b.balance > 0.0 {
        assert Debtors(debts) == Debtors(debts[1..]);
        assert Creditors(debts) == [Party(b.name, b.balance)] + Creditors(debts[1..]);
        SumAmountsCons(Party(b.name, b.balance), Creditors(debts[1..]));
      } else {
        assert Debtors(debts) == Debtors(debts[1..]);
        assert Creditors(debts) == Creditors(debts[1..]);
      }
    }
  }

  /** When nobody paid a negative amount, the total is not negative. */
  lemma {:induction false} TotalNonNegative(ps: seq<Participant>)
    requires forall k :: 0 <= k < |ps| ==> ps[k].amount >= 0.0
    ensures Total(ps) >= 0.0
  {
    if ps != [] {
      TotalNonNegative(ps[1..]);
    }
  }

  lemma {:induction false} BalancesSum(ps: seq<Participant>, average: real)
    ensures BalanceSum(Balances(ps, average)) == Total(ps) - (|ps| as real) * average
  {
    if ps != [] {
      var bs, rest := Balances(ps, average), Balances(ps[1..], average);
      assert bs[1..] == rest;
      assert BalanceSum(bs) == ps[0].amount - average + BalanceSum(rest);
      BalancesSum(ps[1..], average);
      var n := |ps[1..]| as real;
      assert Total(ps) == ps[0].amount + Total(ps[1..]);
      assert (|ps| as real) * average == n * average + average by {
        assert |ps| as real == n + 1.0;
      }
    } else {
      assert Balances(ps, average) == [];
      assert (|ps| as real) * average == 0.0 by {
        assert |ps| as real == 0.0;
      }
    }
  }

  /** Against the exact share, the balances sum to zero, so what the debtors owe in all is
      exactly what the creditors are owed in all. */
  lemma DebtsMatchCredits(ps: seq<Participant>)
    requires |ps| > 0
    ensures var debts := Balances(ps, Average(ps));
      Sum(Amounts(Debtors(debts))) == Sum(Amounts(Creditors(debts)))
  {
    var total, n := Total(ps), |ps| as real;
    var average := Average(ps);
    assert average == total / n;
    var debts := Balances(ps, average);
    BalancesSum(ps, average);
    ShareTimesCount(total, n);
    assert BalanceSum(debts) == 0.0;
    PartitionSum(debts);
  }

  lemma ShareTimesCount(total: real, n: real)
    requires n > 0.0
    ensures n * (total / n) == total
  {
  }

  // ---------------------------------------------------------------------------
  // The whole computation

  /** With exact arithmetic every debtor pays exactly what they owe, every creditor
      receives exactly what they are owed, both cursors run to the end of their lists,
      and there is at least one transaction fewer than there are participants. */
  lemma ExactSettlement(ps: seq<Participant>)
    requires |ps| > 0
    ensures var debts := Balances(ps, Average(ps));
      var ds, cs := Debtors(debts), Creditors(debts);
      var r := Settle(ds, cs);
      && r.debtorIndex == |ds| && r.creditorIndex == |cs|
      && (forall k :: 0 <= k < |ds| ==> Paid(r.steps, k) == ds[k].amount)
      && (forall k :: 0 <= k < |cs| ==> Received(r.steps, k) == cs[k].amount)
      && |ExpenseSplit(ps).transactions| == |r.steps| <= |ps| - 1
  {
    var debts := Balances(ps, Average(ps));
    var ds, cs := Debtors(debts), Creditors(debts);
    DebtsMatchCredits(ps);
    SettleExhausts(Amounts(ds), Amounts(cs));
    PartitionSize(debts);
  }

  /** Every transaction names the debtor under the debtor cursor and the creditor under the
      creditor cursor of its round, and carries that round's amount rounded; the rounds,
      and so the transactions, go through debtors and creditors in list order, each moving
      a positive amount no larger than its debtor's debt or its creditor's credit. */
  lemma TransactionsFollowRounds(ps: seq<Participant>)
    requires |ps| > 0
    ensures var debts := Balances(ps, Average(ps));
      var ds, cs := Debtors(debts), Creditors(debts);
      var steps, ts := Settle(ds, cs).steps, ExpenseSplit(ps).transactions;
      && |ts| == |steps|
      && Within(steps, Amounts(ds), Amounts(cs))
      && InOrder(steps)
      && (forall k :: 0 <= k < |ts| ==>
            && ts[k].from == ds[steps[k].debtor].name && ts[k].to == cs[steps[k].creditor].name
            && ts[k].amount == Round(steps[k].amount) && ts[k].amount >= 0)
  {
    var debts := Balances(ps, Average(ps));
    var ds, cs := Debtors(debts), Creditors(debts);
    assert ZeroThenPositive(Amounts(ds), 0, 0) && ZeroThenPositive(Amounts(cs), 0, 0);
    RunWithin(Amounts(ds), Amounts(cs), 0, 0);
    RunOrdered(Amounts(ds), Amounts(cs), 0, 0);
  }
}
