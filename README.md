# Bank ledger core in Dafny

A model of the ledger behind a small desktop banking tool, with proofs about it:

- **Account variants.** A regular account never goes negative. A savings account never drops below a minimum of 100.0 and credits 2% interest on every fifth successful deposit.
- **Registry.** An append-only registry creates accounts and totals their balances.
- **CSV persistence.** Load decodes rows into `create_account` calls. Save encodes every account as a record.

Files:

- `accounts.dfy` (module `Accounts`): one class `Account` with the fields `name`, `balance` and `kind`.
  - `kind` is `Regular` or `Savings(depositCount)`. The methods dispatch on it where the savings variant overrides a method.
  - The `Base...` methods are the regular behaviour that the savings variant reaches through `super()`.
  - Every method is specified by a pure function of the account's value (`Snapshot`), such as `Deposited` or `Withdrawn`.
  - The properties are proved about those functions, and about any sequence of operations (`Run`).
- `bank.dfy` (module `Bank`): class `BankService`, holding a sequence of account references.
  - `Ledger()` gives the accounts' values in creation order.
  - `GetBankTotal` is the summing loop, proved against the recursive `SumBalances`.
- `storage.dfy` (module `Storage`): load and save.
  - A row decodes to an optional `create_account` request (`DecodeRow`). Loading folds `create_account` over the kept rows in file order (`Loaded`, `Load`).
  - An account encodes to a record (`Encode`), and saving writes the header and then one record per account (`Save`).
  - Round-trip lemmas connect the two directions. `SaveThenLoad` runs save and then load on the objects.
- `text.dfy` (module `Text`): the parts of Python's string handling that persistence relies on.
  - `str.strip()`, over the characters for which `str.isspace()` holds.
  - `str.upper()` as far as a comparison with "SAVINGS" can observe it.
  - `float()` on plain decimal text.
  - The `"%.2f"` formatter.
- `wrappers.dfy`: `Option`, standing for Python's `None`.
- `scenarios.dfy`: worked examples run against the objects.

Balances are mathematical reals, so `0.02` and `100.0` are exact. `"%.2f"` is modelled as rounding the exact value to hundredths, with ties going to the even neighbour.

Two choices of the source shape the file format:

- Save writes the tag `"SAVINGS"` for a savings account and `"ACCOUNT"` for every other account (storage_accounts.py:69-72).
- Load makes a savings account only for a tag that strips and upper-cases to `"SAVINGS"`. Any other tag, including a missing one, gives a regular account, and the row is not skipped (storage_accounts.py:45-48).

A whitespace-only balance field deserves a note. `(" " or "0")` is `" "`, which strips to `""`, and `float("")` fails. Such a row is therefore skipped rather than read as 0 (`BlankBalanceSkipped`).

## Model

| member | source | states |
|---|---|---|
| Accounts.NewAccount | accounts_model.py:12-14 | a new regular account holds the initial balance clamped at 0 |
| Accounts.Account.constructor | accounts_model.py:12-14 | the constructed object's value is `NewAccount(name, initial)` and it keeps the invariant |
| Accounts.BaseDeposited | accounts_model.py:16-21 | accepted iff the amount is positive, which is then added; a deposit never lowers the balance; name and variant kept; a rejected one changes nothing |
| Accounts.Account.BaseDeposit | accounts_model.py:16-21 | a positive amount is added and reported true; otherwise nothing changes and false is reported |
| Accounts.BaseWithdrawn | accounts_model.py:23-28 | accepted iff `0 < amount <= balance`, which subtracts the amount; never raises the balance, never takes a non-negative balance below 0; a rejected one changes nothing |
| Accounts.Account.BaseWithdraw | accounts_model.py:23-28 | accepted exactly when `0 < amount <= balance`, subtracting the amount; otherwise nothing changes |
| Accounts.Account.GetBalance | accounts_model.py:30-32 | returns the balance field |
| Accounts.Account.GetName | accounts_model.py:34-36 | returns the name field |
| Accounts.BaseWithBalance | accounts_model.py:38-43 | the balance becomes `max(value, 0)`, never negative; name and variant kept |
| Accounts.Account.BaseSetBalance | accounts_model.py:38-43 | the balance becomes the value when it is at least 0, else 0; name and variant untouched |
| Accounts.Account.SetName | accounts_model.py:45-47 | only the name changes |
| Accounts.NewSaving | accounts_model.py:66-68 | a new savings account holds exactly `Minimum` (100.0) with a deposit counter of 0, because the base constructor goes through the overriding `set_balance` |
| Accounts.Account.Saving | accounts_model.py:66-68 | the constructed object's value is `NewSaving(name)` and it keeps the invariant |
| Accounts.WithInterest | accounts_model.py:70-73 | the balance grows to `balance * 1.02`, never decreases and stays at or above the minimum; name and counter untouched |
| Accounts.Account.ApplyInterest | accounts_model.py:70-73 | the new value is `WithInterest` of the old one, and the invariant holds after |
| Accounts.Deposited | accounts_model.py:75-83 | accepted iff `amount > 0`; a rejected deposit changes nothing; a regular account adds the amount; a savings account adds it, increments the counter and, when the new count is a multiple of 5, multiplies `(old + amount)` by 1.02; the name never changes; the invariant is preserved |
| Accounts.Account.Deposit | accounts_model.py:75-83 | outcome and new value are `Deposited(old value, amount)`; the invariant is kept |
| Accounts.Withdrawn | accounts_model.py:85-90 | accepted iff `0 < amount` and `balance - amount` is not below the variant's floor (0 or 100.0); on acceptance exactly the amount is subtracted, otherwise nothing changes |
| Accounts.Account.Withdraw | accounts_model.py:85-90 | outcome and new value are `Withdrawn(old value, amount)`; the invariant is kept |
| Accounts.WithBalance | accounts_model.py:92-97 | the balance becomes `max(value, floor)` (floor 0 regular, 100.0 savings); name and variant untouched; the invariant holds |
| Accounts.Account.SetBalance | accounts_model.py:92-97 | the new value is `WithBalance(old value, value)`; the invariant holds after |
| Accounts.RunKeepsInvariant | accounts_model.py:16-97 | after any sequence of deposits, withdrawals, `set_balance` and `set_name` calls, an account that kept its invariant still keeps it and is still the same variant |
| Accounts.RunKeepsName | accounts_model.py:16-47 | a sequence of calls without `set_name` never changes the name |
| Accounts.RunCountsDeposits | accounts_model.py:75-83 | a savings account's counter grows by exactly the number of deposits with a positive amount |
| Bank.BankService.constructor | bank_service.py:8-10 | a new service holds no accounts |
| Bank.Created | bank_service.py:22-28 | savings: counter 0 and balance `max(initial, 100.0)` (raised through `set_balance`, no interest); regular: balance `max(initial, 0)`; the name is kept and the invariant holds |
| Bank.BankService.CreateAccount | bank_service.py:12-31 | exactly one fresh account, with value `Created(...)`, is appended and returned; the earlier accounts, their order and their values are unchanged; validity is kept |
| Bank.BankService.GetAllAccounts | bank_service.py:33-35 | returns the held account references themselves, in creation order |
| Bank.SumBalancesAppend | bank_service.py:37-42 | adding an account at the end adds its balance to the sum |
| Bank.SumBalancesAtLeastFloors | bank_service.py:37-42 | when every account keeps its invariant, the sum is at least 100.0 times the number of savings accounts, hence never negative |
| Bank.BankService.GetBankTotal | bank_service.py:37-42 | the loop's total is the sum of all balances (0 with no accounts) and is non-negative while the accounts are valid |
| Text.Strip | storage_accounts.py:33-35 | the stripped text is no longer than the input and starts and ends with a non-whitespace character |
| Text.StripFixedPoint | storage_accounts.py:33-35 | `strip` leaves a text unchanged iff it neither starts nor ends with whitespace; `strip` is idempotent |
| Text.StripPadded | storage_accounts.py:33-35 | `strip` removes exactly any whitespace padding around a text that neither starts nor ends with whitespace |
| Text.StripKeeps | storage_accounts.py:33-35 | `strip` keeps every character that is not whitespace, and gives where it ends up |
| Text.StripBlank | storage_accounts.py:33-37 | `strip` yields the empty text iff every character is whitespace |
| Text.ParseDecimal | storage_accounts.py:40-43 | the model's `float()`: the empty text fails, and a negative value comes only from a leading minus (which never gives a positive value) |
| Text.ParseDecimalRejects | storage_accounts.py:40-43 | the model's `float()` fails on text holding a character that is not an ASCII digit, a point or a sign |
| Text.ParseDecimalEmptyAndZero | storage_accounts.py:35-41 | `float("")` fails and `float("0")` is 0 |
| Text.Hundredths | storage_accounts.py:77 | the hundredths `"%.2f"` prints lie within half a hundredth of the magnitude |
| Text.RoundHalfEven | storage_accounts.py:77 | the result is within 0.5 of the input, and a tie goes to the even neighbour |
| Text.Rounded2 | storage_accounts.py:77 | the value `"%.2f"` denotes is within 0.005 of the input |
| Text.NatToDigits | storage_accounts.py:77 | digits only, denoting the number, and no leading zero except for 0 itself |
| Text.FormatParseRoundTrip | storage_accounts.py:41-77 | `float("%.2f" % x)` is `x` rounded to two decimals, for every `x` including negatives |
| Text.Upper | storage_accounts.py:45 | same length as the input, and no lower-case ASCII letter is left |
| Text.FormatFixed2 | storage_accounts.py:77 | the `"%.2f"` text is non-empty and starts with a minus sign exactly when the value is negative |
| Text.FormatFixed2TwoDecimals | storage_accounts.py:77 | the `"%.2f"` text ends with a point and exactly two digits |
| Text.FormatFixed2Stripped | storage_accounts.py:35-77 | the `"%.2f"` text is non-empty and is left unchanged by `strip` |
| Text.Rounded2KeepsFloor | storage_accounts.py:77 | rounding to two decimals never takes a balance below a whole-number floor it was at (0 or 100) |
| Text.Rounded2Stable | storage_accounts.py:77 | formatting a balance that was already rounded to two decimals prints the same text as the original |
| Storage.OrElse | storage_accounts.py:33-35 | Python's `field or default`: the result is empty only when the default is, and it is either the default or the field's own text |
| Storage.IsSavingsTag | storage_accounts.py:45 | a savings tag has exactly seven characters between its whitespace padding |
| Storage.DecodeRow | storage_accounts.py:32-48 | a kept row yields a non-empty name that `strip` leaves unchanged |
| Storage.DecodeRowSkips | storage_accounts.py:33-43 | a row is skipped iff its name field is missing or entirely whitespace, or its stripped balance text (with "0" for a missing or empty field) is not a number |
| Storage.MissingBalanceIsZero | storage_accounts.py:35-41 | a missing or empty balance field, with a non-blank name, loads as balance 0 |
| Storage.BlankBalanceSkipped | storage_accounts.py:35-43 | a non-empty, whitespace-only balance field causes the row to be skipped |
| Storage.UnparsableBalanceSkipped | storage_accounts.py:35-43 | with the model's `float()`, a balance field such as "abc" (holding a character that is not whitespace, an ASCII digit, a point or a sign) causes the row to be skipped |
| Storage.MissingTagIsRegular | storage_accounts.py:34-48 | a missing or empty tag creates a regular account |
| Storage.SavingsTagAnyCaseAndPadding | storage_accounts.py:34-46 | any text that upper-cases to "SAVINGS", with any surrounding whitespace, is a savings tag |
| Storage.LoadedConcat | storage_accounts.py:32-48 | the accounts loaded from two files in a row are those of the first followed by those of the second |
| Storage.LoadedRow | storage_accounts.py:32-48 | one row adds at most one account |
| Storage.LoadedRowAccount | storage_accounts.py:37-48 | a row adds an account exactly when it is kept; that account keeps its invariant, has a clean name, and is regular or savings with the deposit counter at 0 |
| Storage.Loaded | storage_accounts.py:32-48 | the accounts the loop creates, in file order, at most one per row |
| Storage.SkippedRowIgnored | storage_accounts.py:37-43 | a skipped row anywhere in the file leaves the accounts loaded from the other rows unchanged |
| Storage.Load | storage_accounts.py:18-48 | no file leaves the service unchanged; otherwise each kept row appends one account `Created(name, tag test, balance)` in file order after the existing, unchanged accounts; every appended account is a new object and no two of them are the same; validity is kept |
| Storage.LoadRows | storage_accounts.py:32-48 | the loop over the rows: the ledger grows by `Loaded(rows)`; the accounts appended are returned, each a new object and no two the same |
| Storage.LoadRow | storage_accounts.py:32-48 | a skipped row leaves the accounts as they were; a kept row appends exactly one new object, which is returned, with the value `LoadedRow` gives |
| Storage.TagsDecode | storage_accounts.py:69-72 | the tag written for a savings account ("SAVINGS") reads back as savings, and the other ("ACCOUNT") as regular |
| Storage.EncodeDecodes | storage_accounts.py:68-78 | the record written for an account with a clean name decodes to a request with the same name and variant and the balance rounded to two decimals |
| Storage.Encode | storage_accounts.py:69-78 | the record keeps the account's name exactly as it is (tag and balance read back as shown by `Storage.EncodeDecodes`) |
| Storage.Save | storage_accounts.py:51-78 | not writable: nothing is written; otherwise the header, then exactly one record per account in list order with the name as is, "SAVINGS"/"ACCOUNT" and the `"%.2f"` balance |
| Storage.CreatedReloaded | bank_service.py:22-28 | recreating an account from its rounded balance involves no clamping, so it gives the same account with the deposit counter at 0 |
| Storage.RecordRoundTrip | storage_accounts.py:68-78 | saving one valid, cleanly named account and loading its record recreates it with the balance rounded and the counter at 0 |
| Storage.LoadEncoded | storage_accounts.py:32-48 | loading the rows written for valid, cleanly named accounts recreates each one in order |
| Storage.SaveLoadRoundTrip | storage_accounts.py:18-78 | save, then load into an empty service: the same sequence of (name, variant, balance to two decimals), in the same order |
| Storage.SaveLoadSave | storage_accounts.py:68-78 | saving the reloaded accounts writes exactly the records that were loaded, so the file is a fixed point |
| Storage.SaveThenLoad | storage_accounts.py:18-78 | on the objects: a fresh service loaded from what `Save` wrote holds the reloaded values of the original accounts, in order, each in a new object distinct from the others (and so from the originals) |
| Scenarios.RegularDeposit | accounts_model.py:16-21 | a regular account opened with 50.0 and credited 25.0 holds 75.0 |
| Scenarios.FifthDepositEarnsInterest | accounts_model.py:75-83 | a savings account opened with 500.0 holds 561.0 after five deposits of 10.0 |
| Scenarios.WithdrawalBelowMinimumRefused | accounts_model.py:85-90 | a savings account at 100.0 refuses to withdraw 1.0 and keeps 100.0 |

## Left out

- The PyQt window (`main_gui.py`) is not part of this model. It holds the UI-side `float()` parsing and empty-name checks.
- File handling is not modelled: `open`, `FileNotFoundError` and the catch-all on save, and `with`.
  - A missing file on load is the input `None`.
  - A file that cannot be opened for writing is the parameter `writable == false`, and the result `None`.
- The `csv` module is not modelled: quoting and escaping, and `DictReader`'s mapping of header names to keys, including its handling of the header row.
  - Rows arrive already split into `name`, `account_type` and `balance`, with a missing field as `None`.
  - `ReadBack` covers only a file whose first record is the header written by `Save`.
- IEEE-754 arithmetic is not modelled: `+=`, `-=`, the interest multiplication and sums are exact on reals.
  - `"%.2f"` rounds the exact real, ties to even. Python rounds the binary double nearest to it, which can differ on values that are not representable.
- `Text.ParseDecimal`: models `float()` only on an optional sign followed by ASCII digits with at most one point and at least one digit ("7", "7.", ".5", "-7.25"). Python also accepts exponents ("1e5"), `inf`/`nan`, digit-group underscores ("1_0") and every Unicode decimal digit ("１２", "٣"). The model skips rows with such balances, which Python would load.
- `Text.ParseDecimalRejects`: states that the model's `float()` rejects any character other than an ASCII digit, a point or a sign. Python's `float()` accepts some such text ("1e5", "inf", "nan", "1_0", non-ASCII digits), so this holds for the model only.
- `Storage.UnparsableBalanceSkipped`: skips a row whose balance holds such a character. Python loads a row whose balance uses an exponent, `inf`/`nan`, underscores or non-ASCII digits.
- `Text.UpperChar`: maps ASCII letters, U+017F and U+0131. Other non-ASCII characters are left as they are.
  - Python also changes those characters and can lengthen the text.
  - No other character upper-cases to a text that could equal "SAVINGS", so the tag test is unaffected.
- `__str__` of both classes is presentation only.
- Default argument values (`balance=0.0`, `initial_balance=0.0`) are not modelled; callers pass every argument.
- Aliasing of the list returned by `get_all_accounts` is not modelled: a caller appending to it would change the service. The model returns the references as a sequence value. Mutating the accounts through those references is modelled.
- `apply_interest` is not one of the operations of `Accounts.Run`, because it exists only on savings accounts. `Accounts.WithInterest` proves on its own that it keeps the invariant.
- `Storage.SaveThenLoad`, `Storage.SaveLoadRoundTrip`, `Storage.RecordRoundTrip`: these require account names that are non-empty and not padded with whitespace. The source saves such names as they are, and loading strips or skips them, so there is no round trip for them to state.
