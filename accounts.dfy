/** The two account variants of the ledger.

    `Account` is one class for both variants: its `kind` field says whether
    it is a regular account or a savings account, and for a savings account
    it carries the deposit counter. Each operation dispatches on `kind`
    where the source overrides a method; the `Base...` methods are the
    regular-account behaviour that the savings variant reaches through
    `super()`.

    Every method is specified by a pure function of the account's value
    (`Snapshot`), and the properties of the operations are stated and proved
    about those functions. */
module Accounts {

  /** Lowest balance a savings account may hold. */
  const Minimum: real := 100.0
  /** Interest rate credited to a savings account. */
  const Rate: real := 0.02
  /** Interest is credited on every `InterestPeriod`-th successful deposit. */
  const InterestPeriod: nat := 5

  datatype Kind = Regular | Savings(depositCount: nat)

  /** The value of an account at one moment. */
  datatype Snapshot = Snapshot(name: string, balance: real, kind: Kind)

  /** What a deposit or a withdrawal reports, and the account after it. */
  datatype Outcome = Outcome(ok: bool, after: Snapshot)

  function Max(a: real, b: real): real {
    if a >= b then a else b
  }

  /** The lowest balance the variant allows. */
  function Floor(k: Kind): real {
    if k.Savings? then Minimum else 0.0
  }

  /** The account invariant: a regular account is never negative, a savings
      account never below `Minimum`. */
  predicate Invariant(s: Snapshot) {
    s.balance >= Floor(s.kind)
  }

  // ---------------------------------------------------------------------
  // Regular-account behaviour (also what the savings variant calls via super)

  /** `Account.set_balance`: a negative value is replaced by 0. */
  function BaseWithBalance(s: Snapshot, value: real): (r: Snapshot)
    ensures r.name == s.name && r.kind == s.kind
    ensures r.balance == Max(value, 0.0) && r.balance >= 0.0
  {
    if value >= 0.0 then s.(balance := value) else s.(balance := 0.0)
  }

  /** `Account.deposit`: accepted exactly for a positive amount, which is
      added; a deposit never lowers the balance. */
  function BaseDeposited(s: Snapshot, amount: real): (r: Outcome)
    ensures r.ok <==> amount > 0.0
    ensures r.after.name == s.name && r.after.kind == s.kind
    ensures r.after.balance >= s.balance
    ensures r.ok ==> r.after.balance == s.balance + amount
    ensures !r.ok ==> r.after == s
  {
    if amount > 0.0 then Outcome(true, s.(balance := s.balance + amount))
    else Outcome(false, s)
  }

  /** `Account.withdraw`: accepted exactly when the amount is positive and
      covered by the balance, so a non-negative balance never goes negative. */
  function BaseWithdrawn(s: Snapshot, amount: real): (r: Outcome)
    ensures r.ok <==> 0.0 < amount <= s.balance
    ensures r.after.name == s.name && r.after.kind == s.kind
    ensures r.after.balance <= s.balance
    ensures s.balance >= 0.0 ==> r.after.balance >= 0.0
    ensures r.ok ==> r.after.balance == s.balance - amount
    ensures !r.ok ==> r.after == s
  {
    if 0.0 < amount <= s.balance then Outcome(true, s.(balance := s.balance - amount))
    else Outcome(false, s)
  }

  // ---------------------------------------------------------------------
  // The operations, dispatched on the variant

  /** `set_balance`: a value below the variant's floor is raised to the
      floor; the name and the variant are untouched. */
  function WithBalance(s: Snapshot, value: real): (r: Snapshot)
    ensures r.name == s.name && r.kind == s.kind
    ensures r.balance == Max(value, Floor(s.kind))
    ensures Invariant(r)
  {
    match s.kind
    case Regular => BaseWithBalance(s, value)
    case Savings(_) => BaseWithBalance(s, if value < Minimum then Minimum else value)
  }

  /** `apply_interest` of a savings account: the balance grows by `Rate`
      times itself; it never decreases and the result keeps the invariant. */
  function WithInterest(s: Snapshot): (r: Snapshot)
    requires s.kind.Savings?
    ensures r.name == s.name && r.kind == s.kind
    ensures Invariant(s) ==> r.balance == s.balance * (1.0 + Rate)
    ensures r.balance >= s.balance && Invariant(r)
  {
    var interest := s.balance * Rate;
    WithBalance(s, s.balance + interest)
  }

  /** `deposit`: accepted exactly when the amount is positive. A regular
      account adds the amount. A savings account adds it, counts the
      deposit, and on every `InterestPeriod`-th one also credits interest on
      the new balance. A rejected deposit changes nothing. */
  function Deposited(s: Snapshot, amount: real): (r: Outcome)
    ensures r.ok <==> amount > 0.0
    ensures !r.ok ==> r.after == s
    ensures r.after.name == s.name
    ensures s.kind.Regular? ==> r.after.kind == Regular
    ensures s.kind.Regular? && r.ok ==> r.after.balance == s.balance + amount
    ensures s.kind.Savings? && r.ok ==> r.after.kind == Savings(s.kind.depositCount + 1)
    ensures s.kind.Savings? && r.ok && Invariant(s) ==>
      r.after.balance ==
        if r.after.kind.depositCount % InterestPeriod == 0
        then (s.balance + amount) * (1.0 + Rate)
        else s.balance + amount
    ensures Invariant(s) ==> Invariant(r.after)
  {
    match s.kind
    case Regular => BaseDeposited(s, amount)
    case Savings(count) =>
      if amount > 0.0 then
        var deposited := BaseDeposited(s, amount).after.(kind := Savings(count + 1));
        if (count + 1) % InterestPeriod == 0 then Outcome(true, WithInterest(deposited))
        else Outcome(true, deposited)
      else
        Outcome(false, s)
  }

  /** `withdraw`: accepted exactly when the amount is positive and the
      balance left is not below the variant's floor (for a regular account,
      `0 < amount <= balance`). An accepted withdrawal subtracts the amount
      and nothing else; a rejected one changes nothing. */
  function Withdrawn(s: Snapshot, amount: real): (r: Outcome)
    ensures r.ok <==> 0.0 < amount && s.balance - amount >= Floor(s.kind)
    ensures r.after == if r.ok then s.(balance := s.balance - amount) else s
  {
    match s.kind
    case Regular => BaseWithdrawn(s, amount)
    case Savings(_) =>
      if amount > 0.0 && s.balance - amount >= Minimum then
        Outcome(true, BaseWithdrawn(s, amount).after)
      else
        Outcome(false, s)
  }

  /** `Account(name, balance)`: the balance is clamped at zero. */
  function NewAccount(name: string, initial: real): (r: Snapshot)
    ensures r == Snapshot(name, Max(initial, 0.0), Regular)
  {
    WithBalance(Snapshot(name, 0.0, Regular), initial)
  }

  /** `SavingAccount(name)`: the base constructor sets the balance through
      the overriding `set_balance`, to `Minimum`, and the counter starts at 0. */
  function NewSaving(name: string): (r: Snapshot)
    ensures r == Snapshot(name, Minimum, Savings(0))
  {
    WithBalance(Snapshot(name, 0.0, Savings(0)), Minimum)
  }

  // ---------------------------------------------------------------------
  // Sequences of operations

  /** The operations a caller may apply to an account handle. */
  datatype Op =
    | DepositOp(amount: real)
    | WithdrawOp(amount: real)
    | SetBalanceOp(value: real)
    | SetNameOp(newName: string)

  function Apply(s: Snapshot, op: Op): Snapshot {
    match op
    case DepositOp(a) => Deposited(s, a).after
    case WithdrawOp(a) => Withdrawn(s, a).after
    case SetBalanceOp(v) => WithBalance(s, v)
    case SetNameOp(n) => s.(name := n)
  }

  /** The account after applying `ops` in order. */
  function Run(s: Snapshot, ops: seq<Op>): Snapshot
    decreases |ops|
  {
    if ops == [] then s else Run(Apply(s, ops[0]), ops[1..])
  }

  /** Whatever a caller does with an account, it stays the variant it was
      created as and keeps its invariant: a regular account never goes
      negative and a savings account never drops below `Minimum`. */
  lemma {:induction false} RunKeepsInvariant(s: Snapshot, ops: seq<Op>)
    requires Invariant(s)
    ensures Invariant(Run(s, ops))
    ensures Run(s, ops).kind.Savings? == s.kind.Savings?
    decreases |ops|
  {
    if ops != [] {
      RunKeepsInvariant(Apply(s, ops[0]), ops[1..]);
    }
  }

  /** Only `SetNameOp` touches the name: a run without one keeps it. */
  lemma {:induction false} RunKeepsName(s: Snapshot, ops: seq<Op>)
    requires forall i :: 0 <= i < |ops| ==> !ops[i].SetNameOp?
    ensures Run(s, ops).name == s.name
    decreases |ops|
  {
    if ops != [] {
      RunKeepsName(Apply(s, ops[0]), ops[1..]);
    }
  }

  /** A savings account's counter counts exactly the accepted deposits. */
  lemma {:induction false} RunCountsDeposits(s: Snapshot, ops: seq<Op>)
    requires s.kind.Savings?
    ensures Run(s, ops).kind == Savings(s.kind.depositCount + AcceptedDeposits(ops))
    decreases |ops|
  {
    if ops != [] {
      RunCountsDeposits(Apply(s, ops[0]), ops[1..]);
    }
  }

  /** How many of the operations are deposits of a positive amount. */
  function AcceptedDeposits(ops: seq<Op>): nat {
    if ops == [] then 0
    else (if ops[0].DepositOp? && ops[0].amount > 0.0 then 1 else 0) + AcceptedDeposits(ops[1..])
  }

  // ---------------------------------------------------------------------
  // The object

  class Account {
    var name: string
    var balance: real
    var kind: Kind

    ghost function State(): Snapshot
      reads this
    {
      Snapshot(name, balance, kind)
    }

    ghost predicate Valid()
      reads this
    {
      Invariant(State())
    }

    /** `Account(name, balance)`. */
    constructor (name: string, initial: real)
      ensures State() == NewAccount(name, initial)
      ensures Valid()
    {
      this.name := name;
      this.balance := 0.0;
      this.kind := Regular;
      new;
      SetBalance(initial);
    }

    /** `SavingAccount(name)`. */
    constructor Saving(name: string)
      ensures State() == NewSaving(name)
      ensures Valid()
    {
      this.name := name;
      this.balance := 0.0;
      this.kind := Savings(0);
      new;
      SetBalance(Minimum);
    }

    /** `Account.deposit`. */
    method BaseDeposit(amount: real) returns (ok: bool)
      modifies this
      ensures Outcome(ok, State()) == BaseDeposited(old(State()), amount)
    {
      if amount > 0.0 {
        balance := balance + amount;
        return true;
      }
      return false;
    }

    /** `Account.withdraw`. */
    method BaseWithdraw(amount: real) returns (ok: bool)
      modifies this
      ensures Outcome(ok, State()) == BaseWithdrawn(old(State()), amount)
    {
      if 0.0 < amount <= balance {
        balance := balance - amount;
        return true;
      }
      return false;
    }

    /** `Account.set_balance`. */
    method BaseSetBalance(value: real)
      modifies this
      ensures State() == BaseWithBalance(old(State()), value)
    {
      if value >= 0.0 {
        balance := value;
      } else {
        balance := 0.0;
      }
    }

    /** `deposit`, overridden by the savings variant. */
    method Deposit(amount: real) returns (ok: bool)
      modifies this
      ensures Outcome(ok, State()) == Deposited(old(State()), amount)
      ensures old(Valid()) ==> Valid()
    {
      match kind
      case Regular =>
        ok := BaseDeposit(amount);
      case Savings(count) =>
        if amount > 0.0 {
          var _ := BaseDeposit(amount);
          kind := Savings(count + 1);
          if kind.depositCount % InterestPeriod == 0 {
            ApplyInterest();
          }
          return true;
        }
        return false;
    }

    /** `withdraw`, overridden by the savings variant. */
    method Withdraw(amount: real) returns (ok: bool)
      modifies this
      ensures Outcome(ok, State()) == Withdrawn(old(State()), amount)
      ensures old(Valid()) ==> Valid()
    {
      match kind
      case Regular =>
        ok := BaseWithdraw(amount);
      case Savings(_) =>
        var current := GetBalance();
        if amount > 0.0 && current - amount >= Minimum {
          var _ := BaseWithdraw(amount);
          return true;
        }
        return false;
    }

    /** `set_balance`, overridden by the savings variant. */
    method SetBalance(value: real)
      modifies this
      ensures State() == WithBalance(old(State()), value)
      ensures Valid()
    {
      match kind
      case Regular =>
        BaseSetBalance(value);
      case Savings(_) =>
        if value < Minimum {
          BaseSetBalance(Minimum);
        } else {
          BaseSetBalance(value);
        }
    }

    /** `SavingAccount.apply_interest`. */
    method ApplyInterest()
      requires kind.Savings?
      modifies this
      ensures State() == WithInterest(old(State()))
      ensures Valid()
    {
      var current := GetBalance();
      var interest := current * Rate;
      SetBalance(current + interest);
    }

    method GetBalance() returns (b: real)
      ensures b == balance
    {
      return balance;
    }

    method GetName() returns (n: string)
      ensures n == name
    {
      return name;
    }

    /** `set_name`: only the name changes. */
    method SetName(value: string)
      modifies this
      ensures State() == old(State()).(name := value)
    {
      name := value;
    }
  }
}
