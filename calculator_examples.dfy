/** Worked settlements, computed from the definitions of module Calculator. */
module CalculatorExamples {
  import opened Types
  import opened Calculator

  /** Two people, one paid for everything: the other pays back half. */
  lemma TwoPeople()
    ensures ExpenseSplit([Participant("1", "Ana", 100000.0), Participant("2", "Budi", 0.0)])
         == ExpenseSummary(100000, 50000,
              [Participant("1", "Ana", 100000.0), Participant("2", "Budi", 0.0)],
              [DebtTransaction("Budi", "Ana", 50000)])
  {
    var ps := [Participant("1", "Ana", 100000.0), Participant("2", "Budi", 0.0)];
    assert Total(ps[1..]) == 0.0;
    assert Total(ps) == 100000.0;
    assert Average(ps) == 50000.0;
    var debts := Balances(ps, 50000.0);
    assert debts == [Debt("Ana", 50000.0), Debt("Budi", -50000.0)];
    assert Debtors(debts[1..]) == [Party("Budi", 50000.0)];
    var ds := Debtors(debts);
    assert ds == [Party("Budi", 50000.0)];
    var cs := Creditors(debts);
    assert Creditors(debts[1..]) == [];
    assert cs == [Party("Ana", 50000.0)];
    assert Amounts(ds) == [50000.0] && Amounts(cs) == [50000.0];
    assert Run([0.0], [0.0], 1, 1).steps == [];
    var steps := Run([50000.0], [50000.0], 0, 0).steps;
    assert steps == [Step(0, 0, 50000.0)];
    assert Round(100000.0) == 100000 && Round(50000.0) == 50000;
  }

  /** Everybody paid the same: nobody owes anything and there is nothing to pay. */
  lemma AlreadyEven()
    ensures ExpenseSplit([Participant("1", "Ana", 100.0), Participant("2", "Budi", 100.0), Participant("3", "Citra", 100.0)])
         == ExpenseSummary(300, 100,
              [Participant("1", "Ana", 100.0), Participant("2", "Budi", 100.0), Participant("3", "Citra", 100.0)],
              [])
  {
    var ps := [Participant("1", "Ana", 100.0), Participant("2", "Budi", 100.0), Participant("3", "Citra", 100.0)];
    assert Total(ps[2..]) == 100.0;
    assert Total(ps[1..]) == 200.0;
    assert Total(ps) == 300.0;
    assert Average(ps) == 100.0;
    var debts := Balances(ps, 100.0);
    assert debts == [Debt("Ana", 0.0), Debt("Budi", 0.0), Debt("Citra", 0.0)];
    assert debts[1..][1..][1..] == [];
    assert Debtors(debts[1..][1..]) == [] && Creditors(debts[1..][1..]) == [];
    assert Debtors(debts[1..]) == [] && Creditors(debts[1..]) == [];
    assert Debtors(debts) == [] && Creditors(debts) == [];
    assert Round(300.0) == 300 && Round(100.0) == 100;
  }

  /** The three people of the next examples: Ana paid `paid`, the other two nothing. */
  function Trio(paid: real): seq<Participant> {
    [Participant("1", "Ana", paid), Participant("2", "Budi", 0.0), Participant("3", "Citra", 0.0)]
  }

  lemma TrioAverage(paid: real)
    ensures Average(Trio(paid)) == paid / 3.0
  {
    var ps := Trio(paid);
    assert Total(ps[2..]) == 0.0;
    assert Total(ps[1..]) == 0.0;
    assert Total(ps) == paid;
  }

  lemma TrioPartition(paid: real)
    requires paid > 0.0
    ensures Debtors(Balances(Trio(paid), paid / 3.0)) == [Party("Budi", paid / 3.0), Party("Citra", paid / 3.0)]
    ensures Creditors(Balances(Trio(paid), paid / 3.0)) == [Party("Ana", paid - paid / 3.0)]
  {
    var ps, x := Trio(paid), paid / 3.0;
    var debts := Balances(ps, x);
    assert debts == [Debt("Ana", paid - x), Debt("Budi", -x), Debt("Citra", -x)];
    assert debts[1..][1..] == [Debt("Citra", -x)];
    assert Debtors(debts[1..][1..]) == [Party("Citra", x)];
    assert Debtors(debts[1..]) == [Party("Budi", x)] + Debtors(debts[1..][1..]);
    assert Creditors(debts[1..][1..]) == [];
    assert Creditors(debts[1..]) == [];
  }

  lemma TrioSettle(x: real)
    requires x > 0.0
    ensures Settle([Party("Budi", x), Party("Citra", x)], [Party("Ana", 2.0 * x)]).steps
         == [Step(0, 0, x), Step(1, 0, x)]
  {
    assert Amounts([Party("Budi", x), Party("Citra", x)]) == [x, x];
    assert Amounts([Party("Ana", 2.0 * x)]) == [2.0 * x];
    assert Run([0.0, 0.0], [0.0], 2, 1).steps == [];
    assert [0.0, x][1 := x - x] == [0.0, 0.0] && [x][0 := x - x] == [0.0];
    assert Run([0.0, x], [x], 1, 0).steps == [Step(1, 0, x)];
    assert Min(x, 2.0 * x) == x;
    assert [x, x][0 := x - x] == [0.0, x] && [2.0 * x][0 := 2.0 * x - x] == [x];
  }

  /** One person paid for three: each of the other two pays them a third, rounded. */
  lemma OnePaidForThree(paid: real)
    requires paid > 0.0
    ensures ExpenseSplit(Trio(paid)).transactions
         == [DebtTransaction("Budi", "Ana", Round(paid / 3.0)), DebtTransaction("Citra", "Ana", Round(paid / 3.0))]
  {
    var x := paid / 3.0;
    TrioAverage(paid);
    TrioPartition(paid);
    assert paid - x == 2.0 * x;
    var ds, cs := [Party("Budi", x), Party("Citra", x)], [Party("Ana", 2.0 * x)];
    TrioSettle(x);
    assert Render(ds, cs, [Step(0, 0, x), Step(1, 0, x)])
        == [DebtTransaction("Budi", "Ana", Round(x)), DebtTransaction("Citra", "Ana", Round(x))];
  }

  /** 300 paid for three: Budi and Citra each pay Ana 100. */
  lemma ThreeHundredForThree()
    ensures ExpenseSplit(Trio(300.0)).transactions
         == [DebtTransaction("Budi", "Ana", 100), DebtTransaction("Citra", "Ana", 100)]
  {
    OnePaidForThree(300.0);
    assert Round(300.0 / 3.0) == 100;
  }

  /** 1 paid for three: each of the other two owes a third, which is reported rounded to a
      transfer of 0. */
  lemma ThirdsRoundToZero()
    ensures ExpenseSplit(Trio(1.0)).transactions
         == [DebtTransaction("Budi", "Ana", 0), DebtTransaction("Citra", "Ana", 0)]
  {
    OnePaidForThree(1.0);
    assert Round(1.0 / 3.0) == 0;
  }
}
