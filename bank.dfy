/** The account registry: an append-only, ordered list of accounts that
    creates accounts of either variant and totals their balances. */
module Bank {
  import opened Accounts

  /** The account `create_account(name, isSavings, initial)` produces. A
      savings account starts at `Minimum` and is raised through
      `set_balance` (not a deposit, so no interest and a zero counter) only
      when `initial` exceeds `Minimum`; a regular account is clamped at 0. */
  function Created(name: string, isSavings: bool, initial: real): (r: Snapshot)
    ensures r.name == name && Invariant(r)
    ensures isSavings ==> r.kind == Savings(0) && r.balance == Max(initial, Minimum)
    ensures !isSavings ==> r.kind == Regular && r.balance == Max(initial, 0.0)
  {
    if isSavings then
      var s := NewSaving(name);
      if initial > Minimum then WithBalance(s, initial) else s
    else
      NewAccount(name, initial)
  }

  /** The sum of the balances, first to last. */
  function SumBalances(ls: seq<Snapshot>): real {
    if ls == [] then 0.0 else ls[0].balance + SumBalances(ls[1..])
  }

  /** Adding an account at the end adds its balance to the total. */
  lemma {:induction false} SumBalancesAppend(ls: seq<Snapshot>, s: Snapshot)
    ensures SumBalances(ls + [s]) == SumBalances(ls) + s.balance
  {
    if ls != [] {
      assert (ls + [s])[1..] == ls[1..] + [s];
      SumBalancesAppend(ls[1..], s);
    }
  }

  /** The number of savings accounts. */
  function CountSavings(ls: seq<Snapshot>): nat {
    if ls == [] then 0 else (if ls[0].kind.Savings? then 1 else 0) + CountSavings(ls[1..])
  }

  /** When every account keeps its invariant, the total is never negative;
      indeed each savings account contributes at least `Minimum`. */
  lemma {:induction false} SumBalancesAtLeastFloors(ls: seq<Snapshot>)
    requires forall i :: 0 <= i < |ls| ==> Invariant(ls[i])
    ensures SumBalances(ls) >= Minimum * CountSavings(ls) as real >= 0.0
  {
    if ls != [] {
      SumBalancesAtLeastFloors(ls[1..]);
    }
  }

  class BankService {
    var accounts: seq<Account>

    /** Every account held keeps its own invariant. */
    ghost predicate Valid()
      reads this, accounts
    {
      forall i :: 0 <= i < |accounts| ==> accounts[i].Valid()
    }

    /** The values of the accounts held, in creation order. */
    ghost function Ledger(): (r: seq<Snapshot>)
      reads this, accounts
      ensures |r| == |accounts|
      ensures forall i :: 0 <= i < |accounts| ==> r[i] == accounts[i].State()
    {
      seq(|accounts|, i reads this, accounts requires 0 <= i < |accounts| => accounts[i].State())
    }

    /** `BankService()`: no accounts yet. */
    constructor ()
      ensures accounts == [] && Ledger() == []
      ensures Valid()
    {
      accounts := [];
    }

    /** `create_account`: one new account at the end, returned to the
        caller; the accounts already held and their order are unchanged. */
    method CreateAccount(name: string, isSavings: bool, initial: real) returns (a: Account)
      modifies this
      ensures fresh(a) && a.State() == Created(name, isSavings, initial)
      ensures accounts == old(accounts) + [a]
      ensures Ledger() == old(Ledger()) + [Created(name, isSavings, initial)]
      ensures old(Valid()) ==> Valid()
    {
      if isSavings {
        a := new Account.Saving(name);
        if initial > Minimum {
          a.SetBalance(initial);
        }
      } else {
        a := new Account(name, initial);
      }
      accounts := accounts + [a];
    }

    /** `get_all_accounts`: the accounts themselves, in creation order, so
        that a deposit through a returned handle is seen by the service. */
    method GetAllAccounts() returns (r: seq<Account>)
      ensures r == accounts
    {
      return accounts;
    }

    /** `get_bank_total`: the sum of all balances, 0 with no accounts and
        never negative while the accounts keep their invariants. */
    method GetBankTotal() returns (total: real)
      ensures total == SumBalances(Ledger())
      ensures Valid() ==> total >= 0.0
    {
      total := 0.0;
      for i := 0 to |accounts|
        invariant total == SumBalances(Ledger()[..i])
      {
        assert Ledger()[..i + 1] == Ledger()[..i] + [accounts[i].State()];
        SumBalancesAppend(Ledger()[..i], accounts[i].State());
        var b := accounts[i].GetBalance();
        total := total + b;
      }
      assert Ledger()[..|accounts|] == Ledger();
      if Valid() {
        SumBalancesAtLeastFloors(Ledger());
      }
    }
  }
}
