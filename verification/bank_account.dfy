/** The `BankAccount` class from the ES6 page's classes demo: a balance with
    `deposit`, `withdraw` (which refuses to overdraw by throwing) and
    `getBalance`. Amounts are integers. */
module BankAccount {
  import opened Js

  datatype Account = Account(balance: int)

  /** The error message a refused withdrawal throws. */
  const InsufficientFunds: string := "Insufficient funds"

  /** The account after a call, and how the call ended: returning the new
      balance, or throwing. */
  datatype Step = Step(account: Account, end: Completion)

  /** `deposit(amount)`: always adds, and returns the new balance. */
  function Deposit(a: Account, amount: int): (r: Step)
    ensures r.account.balance - a.balance == amount
    ensures r.end == Return(Num(r.account.balance))
  {
    var b := a.balance + amount;
    Step(Account(b), Return(Num(b)))
  }

  /** `withdraw(amount)`: succeeds exactly when `amount` does not exceed the
      balance, lowering it by exactly `amount`; otherwise throws
      `Insufficient funds` and leaves the account as it was. */
  function Withdraw(a: Account, amount: int): (r: Step)
    ensures r.end.Return? <==> amount <= a.balance
    ensures r.end.Return? ==> a.balance - r.account.balance == amount && r.end.value == Num(r.account.balance)
    ensures r.end.Throw? ==> r.account == a && r.end.message == Str(InsufficientFunds)
  {
    if amount <= a.balance then
      var b := a.balance - amount;
      Step(Account(b), Return(Num(b)))
    else Step(a, Throw(Str(InsufficientFunds)))
  }

  /** `getBalance()`. */
  function GetBalance(a: Account): int {
    a.balance
  }

  /** Withdrawing what was just deposited restores the balance, and it is
      allowed exactly when the balance was not negative to begin with. */
  lemma DepositThenWithdraw(a: Account, amount: int)
    ensures var w := Withdraw(Deposit(a, amount).account, amount);
      (w.end.Return? <==> a.balance >= 0) && (w.end.Return? ==> w.account == a)
  {
  }

  /** A successful withdrawal never leaves a negative balance, and a
      refused one changes nothing, so no withdrawal takes a non-negative
      balance below zero. */
  lemma WithdrawKeepsSolvent(a: Account, amount: int)
    requires a.balance >= 0
    ensures Withdraw(a, amount).account.balance >= 0
  {
  }

  /** One call in a session on the account. */
  datatype Op = DepositOp(amount: int) | WithdrawOp(amount: int)

  /** The account after a session; every call runs whatever the earlier
      ones did, since a refused withdrawal only throws. */
  function Replay(a: Account, ops: seq<Op>): Account
    decreases |ops|
  {
    if ops == [] then a
    else
      var s := match ops[0]
        case DepositOp(x) => Deposit(a, x)
        case WithdrawOp(x) => Withdraw(a, x);
      Replay(s.account, ops[1..])
  }

  /** A session that only ever deposits non-negative amounts keeps a
      non-negative balance non-negative, whatever it tries to withdraw. */
  lemma {:induction false} ReplayKeepsSolvent(a: Account, ops: seq<Op>)
    requires a.balance >= 0
    requires forall k :: 0 <= k < |ops| && ops[k].DepositOp? ==> ops[k].amount >= 0
    ensures Replay(a, ops).balance >= 0
    decreases |ops|
  {
    if ops != [] {
      var s := match ops[0]
        case DepositOp(x) => Deposit(a, x)
        case WithdrawOp(x) => Withdraw(a, x);
      assert s.account.balance >= 0;
      ReplayKeepsSolvent(s.account, ops[1..]);
    }
  }

  /** The page's own run: opening with 100, depositing 50 and withdrawing
      30 reports 150 and then 120. */
  lemma DemoSession()
    ensures Deposit(Account(100), 50).end == Return(Num(150))
    ensures Withdraw(Deposit(Account(100), 50).account, 30).end == Return(Num(120))
  {
  }
}
