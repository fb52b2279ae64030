/** The records exchanged between the input layer, the settlement engine and the results view. */
module Types {

  /** One person's contribution: a display name and the amount they paid.
      The identifier is carried along untouched by the engine. */
  datatype Participant = Participant(id: string, name: string, amount: real)

  /** One payment instruction from a debtor to a creditor. Its amount is always the
      result of rounding to the nearest whole currency unit, hence an integer. */
  datatype DebtTransaction = DebtTransaction(from: string, to: string, amount: int)

  /** What the engine hands back: the rounded total and share, the participants as
      given, and the payment instructions in the order they were produced. */
  datatype ExpenseSummary = ExpenseSummary(
    totalExpense: int,
    averagePerPerson: int,
    participants: seq<Participant>,
    transactions: seq<DebtTransaction>)
}
