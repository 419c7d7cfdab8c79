/** The worked examples of the ledger, each run against the objects and
    proved to end in the stated balances. */
module Scenarios {
  import opened Accounts
  import opened Bank

  /** A regular account for Alice opened with 50.0 and credited 25.0 holds
      75.0. */
  method RegularDeposit() returns (balance: real)
    ensures balance == 75.0
  {
    var bank := new BankService();
    var alice := bank.CreateAccount("Alice", false, 50.0);
    var ok := alice.Deposit(25.0);
    balance := alice.GetBalance();
  }

  /** A savings account for Bob opened with 500.0 (above the minimum, so set
      directly) receives five deposits of 10.0; the fifth credits 2% interest
      on 550.0, giving 561.0. */
  method FifthDepositEarnsInterest() returns (opening: real, balance: real)
    ensures opening == 500.0
    ensures balance == 561.0
  {
    var bank := new BankService();
    var bob := bank.CreateAccount("Bob", true, 500.0);
    opening := bob.GetBalance();
    var ok := bob.Deposit(10.0);
    ok := bob.Deposit(10.0);
    ok := bob.Deposit(10.0);
    ok := bob.Deposit(10.0);
    assert bob.balance == 540.0 && bob.kind == Savings(4);
    ok := bob.Deposit(10.0);
    balance := bob.GetBalance();
  }

  /** A savings account for Carol at the minimum refuses a withdrawal of
      1.0 and keeps its 100.0. */
  method WithdrawalBelowMinimumRefused() returns (ok: bool, balance: real)
    ensures !ok
    ensures balance == 100.0
  {
    var bank := new BankService();
    var carol := bank.CreateAccount("Carol", true, 100.0);
    ok := carol.Withdraw(1.0);
    balance := carol.GetBalance();
  }
}
