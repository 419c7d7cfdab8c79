/** CSV persistence of the registry, with the file handling taken away.

    A file is read as the sequence of data rows `csv.DictReader` yields after
    the header (`None` when the file does not exist), each row already split
    into its `name`, `account_type` and `balance` fields. A file is written
    as the sequence of records `csv.DictWriter` emits, header first (`None`
    when the file cannot be opened for writing). */
module Storage {
  import opened Wrappers
  import opened Text
  import opened Accounts
  import opened Bank

  /** A data row as read: a field missing from a short row is `None`. */
  datatype Row = Row(name: Option<string>, accountType: Option<string>, balance: Option<string>)

  /** A record as written. */
  datatype Record = Record(name: string, accountType: string, balance: string)

  const Header: Record := Record("name", "account_type", "balance")
  const SavingsTag: string := "SAVINGS"
  const AccountTag: string := "ACCOUNT"

  /** Python's `field or default`: `None` and the empty text both give way
      to the default, so the result is empty only when the default is. */
  function OrElse(field: Option<string>, default: string): (r: string)
    ensures r == "" ==> default == ""
    ensures r == default || field == Some(r)
  {
    if field.Some? && field.value != "" then field.value else default
  }

  /** The tag test of the loader: the stripped tag equals "SAVINGS" once
      upper-cased, so exactly seven characters lie between its padding. */
  predicate IsSavingsTag(tag: string)
    ensures IsSavingsTag(tag) ==> |Strip(tag)| == |SavingsTag|
  {
    Upper(Strip(tag)) == SavingsTag
  }

  /** A name the loader keeps exactly as it is: not blank and not padded. */
  predicate CleanName(name: string) {
    name != "" && Strip(name) == name
  }

  /** An account the saver writes in a form the loader reads back as the
      same account: it keeps its invariant and its name is clean. */
  predicate Storable(s: Snapshot) {
    Invariant(s) && CleanName(s.name)
  }

  /** The arguments of one `create_account` call. */
  datatype Request = Request(name: string, isSavings: bool, balance: real)

  // ---------------------------------------------------------------------
  // Loading

  /** One row of `load_accounts_from_csv`: the stripped name, the tag
      test, and the stripped balance text with "0" standing in for a
      missing or empty field; `None` when the row is skipped. */
  function DecodeRow(row: Row): (r: Option<Request>)
    ensures r.Some? ==> CleanName(r.value.name)
  {
    var name := Strip(OrElse(row.name, ""));
    var balanceText := Strip(OrElse(row.balance, "0"));
    if name == "" then
      None
    else
      match ParseDecimal(balanceText)
      case None => None
      case Some(balance) =>
        StripFixedPoint(OrElse(row.name, ""));
        Some(Request(name, IsSavingsTag(OrElse(row.accountType, "")), balance))
  }

  /** A row is skipped exactly when its name field is missing or blank
      (every character whitespace), or when its balance text, stripped and
      with "0" standing in for a missing or empty field, is not a number. */
  lemma DecodeRowSkips(row: Row)
    ensures DecodeRow(row).None? <==>
      (forall i :: 0 <= i < |OrElse(row.name, "")| ==> IsSpace(OrElse(row.name, "")[i]))
      || ParseDecimal(Strip(OrElse(row.balance, "0"))).None?
  {
    StripBlank(OrElse(row.name, ""));
  }

  /** A missing or empty balance field reads as 0. */
  lemma MissingBalanceIsZero(row: Row)
    requires row.balance == None || row.balance == Some("")
    requires exists i :: 0 <= i < |OrElse(row.name, "")| && !IsSpace(OrElse(row.name, "")[i])
    ensures DecodeRow(row).Some? && DecodeRow(row).value.balance == 0.0
  {
    var zero := OrElse(row.balance, "0");
    assert zero == "0";
    StripUnchanged(zero);
    ParseDecimalEmptyAndZero(zero);
    StripBlank(OrElse(row.name, ""));
  }

  /** A balance field made only of whitespace is not missing: it stays,
      strips to the empty text, does not parse, and the row is skipped. */
  lemma BlankBalanceSkipped(row: Row)
    requires row.balance.Some? && row.balance.value != ""
    requires forall i :: 0 <= i < |row.balance.value| ==> IsSpace(row.balance.value[i])
    ensures DecodeRow(row) == None
  {
    StripBlank(row.balance.value);
    ParseDecimalEmptyAndZero("0");
  }

  /** A balance field holding a character that is neither whitespace, an
      ASCII digit, a point nor a sign (such as "abc" or "12,50") skips the
      row: stripping keeps that character, and the model's `float()`
      refuses it. */
  lemma UnparsableBalanceSkipped(row: Row, j: nat)
    requires row.balance.Some? && j < |row.balance.value|
    requires !IsSpace(row.balance.value[j]) && !IsDigit(row.balance.value[j])
    requires row.balance.value[j] != '.' && row.balance.value[j] != '+' && row.balance.value[j] != '-'
    ensures DecodeRow(row) == None
  {
    var field := row.balance.value;
    assert OrElse(row.balance, "0") == field;
    var k := StripKeeps(field, j);
    ParseDecimalRejects(Strip(field), k);
  }

  /** A missing or empty tag, like any text that is not "savings" in some
      case and padding, makes a regular account. */
  lemma MissingTagIsRegular(row: Row)
    requires row.accountType == None || row.accountType == Some("")
    ensures DecodeRow(row).Some? ==> !DecodeRow(row).value.isSavings
  {
    StripUnchanged("");
  }

  /** The accounts one row adds: at most one. */
  function LoadedRow(row: Row): (r: seq<Snapshot>)
    ensures |r| <= 1
  {
    match DecodeRow(row)
    case None => []
    case Some(q) => [Created(q.name, q.isSavings, q.balance)]
  }

  /** A row adds an account exactly when it is kept, and that account keeps
      its invariant, has a clean name and starts a savings account's
      deposit counter at 0. */
  lemma LoadedRowAccount(row: Row)
    ensures |LoadedRow(row)| == 1 <==> DecodeRow(row).Some?
    ensures forall k :: 0 <= k < |LoadedRow(row)| ==>
      Storable(LoadedRow(row)[k]) && (LoadedRow(row)[k].kind == Regular || LoadedRow(row)[k].kind == Savings(0))
  {
  }

  /** The accounts a sequence of rows adds, in file order: at most one per
      row. */
  function Loaded(rows: seq<Row>): (r: seq<Snapshot>)
    ensures |r| <= |rows|
  {
    if rows == [] then [] else LoadedRow(rows[0]) + Loaded(rows[1..])
  }

  lemma {:induction false} LoadedAppend(rows: seq<Row>, row: Row)
    ensures Loaded(rows + [row]) == Loaded(rows) + LoadedRow(row)
  {
    if rows != [] {
      assert (rows + [row])[1..] == rows[1..] + [row];
      LoadedAppend(rows[1..], row);
    }
  }

  lemma LoadedPrefix(rows: seq<Row>, i: nat)
    requires i < |rows|
    ensures Loaded(rows[..i + 1]) == Loaded(rows[..i]) + LoadedRow(rows[i])
  {
    assert rows[..i + 1] == rows[..i] + [rows[i]];
    LoadedAppend(rows[..i], rows[i]);
  }

  /** Loading is compositional: the rows of two files loaded one after
      the other add what each adds. */
  lemma {:induction false} LoadedConcat(a: seq<Row>, b: seq<Row>)
    ensures Loaded(a + b) == Loaded(a) + Loaded(b)
  {
    if a == [] {
      assert a + b == b;
    } else {
      assert (a + b)[0] == a[0] && (a + b)[1..] == a[1..] + b;
      LoadedConcat(a[1..], b);
      Associative(LoadedRow(a[0]), Loaded(a[1..]), Loaded(b));
    }
  }

  /** A skipped row, wherever it stands in the file, changes nothing: the
      other rows load as if it were not there. */
  lemma SkippedRowIgnored(before: seq<Row>, row: Row, after: seq<Row>)
    ensures DecodeRow(row).None? ==> Loaded(before + [row] + after) == Loaded(before + after)
  {
    if DecodeRow(row).None? {
      LoadedConcat(before + [row], after);
      LoadedAppend(before, row);
      assert LoadedRow(row) == [];
      assert Loaded(before) + [] == Loaded(before);
      LoadedConcat(before, after);
    }
  }

  /** `load_accounts_from_csv`: with no file the service is left as it
      was; otherwise each valid row, in file order, creates one account
      after those the service already holds. */
  method Load(file: Option<seq<Row>>, service: BankService)
    modifies service
    ensures file.None? ==> service.accounts == old(service.accounts)
    ensures |service.accounts| >= old(|service.accounts|)
    ensures service.accounts[..old(|service.accounts|)] == old(service.accounts)
    ensures service.Ledger() == old(service.Ledger()) + (if file.Some? then Loaded(file.value) else [])
    ensures forall a :: a in service.accounts[old(|service.accounts|)..] ==> fresh(a)
    ensures Distinct(service.accounts[old(|service.accounts|)..])
    ensures old(service.Valid()) ==> service.Valid()
  {
    if file.None? {
      assert service.accounts[old(|service.accounts|)..] == [];
      return;
    }
    var added := LoadRows(file.value, service);
    PartsOfAppend(old(service.accounts), added);
  }

  /** The loop of the loader: every row in file order, each kept one
      appending one new account. The accounts appended are returned. */
  method LoadRows(rows: seq<Row>, service: BankService) returns (added: seq<Account>)
    modifies service
    ensures service.accounts == old(service.accounts) + added
    ensures service.Ledger() == old(service.Ledger()) + Loaded(rows)
    ensures forall a :: a in added ==> fresh(a)
    ensures Distinct(added)
    ensures old(service.Valid()) ==> service.Valid()
  {
    added := [];
    for i := 0 to |rows|
      invariant service.accounts == old(service.accounts) + added
      invariant service.Ledger() == old(service.Ledger()) + Loaded(rows[..i])
      invariant forall a :: a in added ==> fresh(a)
      invariant Distinct(added)
      invariant old(service.Valid()) ==> service.Valid()
    {
      LoadedPrefix(rows, i);
      var created := LoadRow(rows[i], service);
      if created.Some? {
        Associative(old(service.accounts), added, [created.value]);
        DistinctAppend(added, created.value);
        added := added + [created.value];
      }
      Associative(old(service.Ledger()), Loaded(rows[..i]), LoadedRow(rows[i]));
    }
    assert rows[..|rows|] == rows;
  }

  /** No element occurs twice. */
  predicate Distinct<T(==)>(s: seq<T>) {
    forall k, l :: 0 <= k < l < |s| ==> s[k] != s[l]
  }

  lemma DistinctAppend<T>(s: seq<T>, x: T)
    requires Distinct(s) && x !in s
    ensures Distinct(s + [x])
  {
  }

  lemma PartsOfAppend<T>(p: seq<T>, q: seq<T>)
    ensures (p + q)[..|p|] == p && (p + q)[|p|..] == q
  {
  }

  lemma Associative<T>(a: seq<T>, b: seq<T>, c: seq<T>)
    ensures (a + b) + c == a + (b + c)
  {
  }

  /** The body of the loader's loop: one row, skipped or added at the end
      as a new account, which is returned. */
  method LoadRow(row: Row, service: BankService) returns (created: Option<Account>)
    modifies service
    ensures created.None? ==> service.accounts == old(service.accounts)
    ensures created.Some? ==> fresh(created.value) && service.accounts == old(service.accounts) + [created.value]
    ensures service.Ledger() == old(service.Ledger()) + LoadedRow(row)
    ensures old(service.Valid()) ==> service.Valid()
  {
    match DecodeRow(row)
    case None =>
      created := None;
    case Some(q) =>
      var a := service.CreateAccount(q.name, q.isSavings, q.balance);
      created := Some(a);
  }

  // ---------------------------------------------------------------------
  // Saving

  /** The record `save_accounts_to_csv` writes for one account: its name
      as it is, "SAVINGS" for a savings account and "ACCOUNT" otherwise,
      and the balance printed with two decimals. */
  function Encode(s: Snapshot): (r: Record)
    ensures r.name == s.name
  {
    Record(s.name, if s.kind.Savings? then SavingsTag else AccountTag, FormatFixed2(s.balance))
  }

  /** The loader reads the tag the saver wrote back as the same variant:
      "SAVINGS" is a savings tag and "ACCOUNT" is not. */
  lemma TagsDecode()
    ensures IsSavingsTag(SavingsTag)
    ensures !IsSavingsTag(AccountTag)
  {
    SavingsTagDecodes(SavingsTag);
    AccountTagDecodes(AccountTag);
  }

  lemma SavingsTagDecodes(t: string)
    requires t == SavingsTag
    ensures IsSavingsTag(t)
  {
    StripUnchanged(t);
    assert Upper(t) == t;
  }

  lemma AccountTagDecodes(t: string)
    requires t == AccountTag
    ensures !IsSavingsTag(t)
  {
    StripUnchanged(t);
    assert Upper(t)[0] != SavingsTag[0];
  }

  /** The tag test ignores case and surrounding whitespace: any text that
      upper-cases to "SAVINGS" ("savings", "Savings", ...), padded with any
      whitespace, is a savings tag. */
  lemma SavingsTagAnyCaseAndPadding(pre: string, t: string, post: string)
    requires forall i :: 0 <= i < |pre| ==> IsSpace(pre[i])
    requires forall i :: 0 <= i < |post| ==> IsSpace(post[i])
    requires Upper(t) == SavingsTag
    ensures IsSavingsTag(pre + t + post)
  {
    assert |t| == |SavingsTag|;
    assert UpperChar(t[0]) == Upper(t)[0] == 'S';
    assert UpperChar(t[|t| - 1]) == Upper(t)[|t| - 1] == 'S';
    StripPadded(pre, t, post);
  }

  /** The loader reads the record of an account back as a request for the
      same name and variant, with the balance rounded to two decimals. */
  lemma EncodeDecodes(s: Snapshot)
    requires CleanName(s.name)
    ensures DecodeRow(EncodedRow(s)) == Some(Request(s.name, s.kind.Savings?, Rounded2(s.balance)))
  {
    var r := Encode(s);
    TagsDecode();
    assert IsSavingsTag(r.accountType) == s.kind.Savings?;
    FormatFixed2Stripped(s.balance);
    FormatParseRoundTrip(s.balance);
    DecodeCleanRow(r.name, r.accountType, r.balance, Rounded2(s.balance));
  }

  lemma DecodeCleanRow(name: string, tag: string, text: string, v: real)
    ensures CleanName(name) && text != "" && Strip(text) == text && ParseDecimal(text) == Some(v) ==>
              DecodeRow(Row(Some(name), Some(tag), Some(text))) == Some(Request(name, IsSavingsTag(tag), v))
  {
    if CleanName(name) && text != "" && Strip(text) == text && ParseDecimal(text) == Some(v) {
      var row := Row(Some(name), Some(tag), Some(text));
      assert OrElse(row.name, "") == name;
      assert OrElse(row.balance, "0") == text;
      assert OrElse(row.accountType, "") == tag;
    }
  }

  function EncodeAll(ls: seq<Snapshot>): seq<Record> {
    seq(|ls|, i requires 0 <= i < |ls| => Encode(ls[i]))
  }

  /** `save_accounts_to_csv`: nothing when the file cannot be opened;
      otherwise the header, then one record per account in list order. */
  method Save(service: BankService, writable: bool) returns (file: Option<seq<Record>>)
    ensures !writable ==> file == None
    ensures writable ==> file == Some([Header] + EncodeAll(service.Ledger()))
  {
    if !writable {
      return None;
    }
    var table := [Header];
    var all := service.GetAllAccounts();
    for i := 0 to |all|
      invariant |table| == i + 1 && table[0] == Header
      invariant forall k :: 0 <= k < i ==> table[k + 1] == Encode(all[k].State())
    {
      var account := all[i];
      var name := account.GetName();
      var balance := account.GetBalance();
      var record := Encode(Snapshot(name, balance, account.kind));
      assert Snapshot(name, balance, account.kind) == account.State();
      table := table + [record];
    }
    HeaderThenRecords(table, service.Ledger());
    return Some(table);
  }

  lemma HeaderThenRecords(table: seq<Record>, ls: seq<Snapshot>)
    requires |table| == |ls| + 1 && table[0] == Header
    requires forall k :: 0 <= k < |ls| ==> table[k + 1] == Encode(ls[k])
    ensures table == [Header] + EncodeAll(ls)
  {
  }

  // ---------------------------------------------------------------------
  // Round trip

  /** The rows a reader yields for a file whose first record is the header. */
  function ReadBack(table: seq<Record>): seq<Row>
    requires table != [] && table[0] == Header
  {
    seq(|table| - 1, i requires 0 <= i < |table| - 1 =>
      Row(Some(table[i + 1].name), Some(table[i + 1].accountType), Some(table[i + 1].balance)))
  }

  /** An account as it comes back from a save and a load: same name and
      variant, balance rounded to two decimals, deposit counter restarted. */
  function Reloaded(s: Snapshot): (r: Snapshot)
    ensures r.name == s.name && r.kind.Savings? == s.kind.Savings?
    ensures Abs(r.balance - s.balance) <= 0.005
  {
    Snapshot(s.name, Rounded2(s.balance), if s.kind.Savings? then Savings(0) else Regular)
  }

  function ReloadedAll(ls: seq<Snapshot>): seq<Snapshot> {
    if ls == [] then [] else [Reloaded(ls[0])] + ReloadedAll(ls[1..])
  }

  /** The row the reader yields for the record of `s`. */
  function EncodedRow(s: Snapshot): Row {
    Row(Some(Encode(s).name), Some(Encode(s).accountType), Some(Encode(s).balance))
  }

  /** The rows the reader yields for the records of `ls`. */
  function EncodedRows(ls: seq<Snapshot>): seq<Row> {
    if ls == [] then [] else [EncodedRow(ls[0])] + EncodedRows(ls[1..])
  }

  lemma {:induction false} EncodedRowsAt(ls: seq<Snapshot>)
    ensures |EncodedRows(ls)| == |ls|
    ensures forall i :: 0 <= i < |ls| ==> EncodedRows(ls)[i] == EncodedRow(ls[i])
  {
    if ls != [] {
      EncodedRowsAt(ls[1..]);
    }
  }

  /** Saving one account and loading its record recreates it, rounded. */
  lemma RecordRoundTrip(s: Snapshot)
    requires Storable(s)
    ensures LoadedRow(EncodedRow(s)) == [Reloaded(s)]
  {
    EncodeDecodes(s);
    LoadedDecoded(EncodedRow(s));
    CreatedReloaded(s);
  }

  lemma LoadedDecoded(row: Row)
    ensures DecodeRow(row).Some? ==>
      var q := DecodeRow(row).value;
      LoadedRow(row) == [Created(q.name, q.isSavings, q.balance)]
  {
  }

  /** Creating an account from the rounded balance of an account that keeps
      its invariant gives the reloaded account: rounding never takes the
      balance below the variant's floor, so no clamping happens. */
  lemma CreatedReloaded(s: Snapshot)
    requires Invariant(s)
    ensures Created(s.name, s.kind.Savings?, Rounded2(s.balance)) == Reloaded(s)
  {
    if s.kind.Savings? {
      Rounded2KeepsFloor(s.balance, 100);
    } else {
      Rounded2KeepsFloor(s.balance, 0);
    }
  }

  /** Rows each of which recreates one account load as those accounts. */
  lemma {:induction false} LoadedEach(rows: seq<Row>, ls: seq<Snapshot>)
    requires |rows| == |ls|
    requires forall i :: 0 <= i < |rows| ==> LoadedRow(rows[i]) == [Reloaded(ls[i])]
    ensures Loaded(rows) == ReloadedAll(ls)
  {
    if rows != [] {
      LoadedEach(rows[1..], ls[1..]);
    }
  }

  /** Loading the rows written for accounts that keep their invariant and
      have clean names recreates each of them, rounded, in order. */
  lemma LoadEncoded(ls: seq<Snapshot>)
    requires forall i :: 0 <= i < |ls| ==> Storable(ls[i])
    ensures Loaded(EncodedRows(ls)) == ReloadedAll(ls)
  {
    EncodedRowsEach(ls);
    LoadedEach(EncodedRows(ls), ls);
  }

  lemma EncodedRowsEach(ls: seq<Snapshot>)
    requires forall i :: 0 <= i < |ls| ==> Storable(ls[i])
    ensures |EncodedRows(ls)| == |ls|
    ensures forall i :: 0 <= i < |ls| ==> LoadedRow(EncodedRows(ls)[i]) == [Reloaded(ls[i])]
  {
    EncodedRowsAt(ls);
    forall i | 0 <= i < |ls|
      ensures LoadedRow(EncodedRows(ls)[i]) == [Reloaded(ls[i])]
    {
      LoadEncodedAt(ls, i);
    }
  }

  lemma LoadEncodedAt(ls: seq<Snapshot>, i: nat)
    requires i < |ls| && Storable(ls[i])
    ensures i < |EncodedRows(ls)| && LoadedRow(EncodedRows(ls)[i]) == [Reloaded(ls[i])]
  {
    EncodedRowsAt(ls);
    RecordRoundTrip(ls[i]);
  }

  /** Save then load into an empty service reproduces the accounts in the
      same order, with the same names and variants and the balances
      rounded to two decimals; the deposit counters restart at 0. */
  lemma SaveLoadRoundTrip(ls: seq<Snapshot>)
    requires forall i :: 0 <= i < |ls| ==> Storable(ls[i])
    ensures Loaded(ReadBack([Header] + EncodeAll(ls))) == ReloadedAll(ls)
  {
    ReadBackSaved(ls);
    LoadEncoded(ls);
  }

  /** The header followed by the records of `ls` reads back as the rows
      of those records. */
  lemma ReadBackSaved(ls: seq<Snapshot>)
    ensures ReadBack([Header] + EncodeAll(ls)) == EncodedRows(ls)
  {
    var table := [Header] + EncodeAll(ls);
    EncodedRowsAt(ls);
    forall i | 0 <= i < |ls|
      ensures ReadBack(table)[i] == EncodedRows(ls)[i]
    {
      assert table[i + 1] == Encode(ls[i]);
    }
  }

  /** Saving again after a save and a load writes the same records: the
      file is a fixed point of the round trip. */
  lemma SaveLoadSave(ls: seq<Snapshot>)
    requires forall i :: 0 <= i < |ls| ==> Invariant(ls[i])
    ensures EncodeAll(ReloadedAll(ls)) == EncodeAll(ls)
  {
    EncodeReloadedEach(ls);
    EncodeAllPointwise(ReloadedAll(ls), ls);
  }

  lemma EncodeAllPointwise(a: seq<Snapshot>, b: seq<Snapshot>)
    requires |a| == |b|
    requires forall i :: 0 <= i < |a| ==> Encode(a[i]) == Encode(b[i])
    ensures EncodeAll(a) == EncodeAll(b)
  {
    assert forall i :: 0 <= i < |a| ==> EncodeAll(a)[i] == EncodeAll(b)[i];
  }

  lemma EncodeReloadedEach(ls: seq<Snapshot>)
    requires forall i :: 0 <= i < |ls| ==> Invariant(ls[i])
    ensures |ReloadedAll(ls)| == |ls|
    ensures forall i :: 0 <= i < |ls| ==> Encode(ReloadedAll(ls)[i]) == Encode(ls[i])
  {
    ReloadedAllAt(ls);
    forall i | 0 <= i < |ls|
      ensures Encode(ReloadedAll(ls)[i]) == Encode(ls[i])
    {
      EncodeReloadedAt(ls, i);
    }
  }

  lemma EncodeReloadedAt(ls: seq<Snapshot>, i: nat)
    requires i < |ls| && Invariant(ls[i])
    ensures i < |ReloadedAll(ls)| && Encode(ReloadedAll(ls)[i]) == Encode(ls[i])
  {
    ReloadedAllAt(ls);
    EncodeReloaded(ls[i]);
  }

  lemma EncodeReloaded(s: Snapshot)
    requires Invariant(s)
    ensures Encode(Reloaded(s)) == Encode(s)
  {
    Rounded2Stable(s.balance);
  }

  lemma {:induction false} ReloadedAllAt(ls: seq<Snapshot>)
    ensures |ReloadedAll(ls)| == |ls|
    ensures forall i :: 0 <= i < |ls| ==> ReloadedAll(ls)[i] == Reloaded(ls[i])
  {
    if ls != [] {
      ReloadedAllAt(ls[1..]);
    }
  }

  /** A shutdown followed by a start-up: the accounts of `service` are
      saved, and a new service loads the file written. */
  method SaveThenLoad(service: BankService) returns (restored: BankService)
    requires service.Valid()
    requires forall i :: 0 <= i < |service.accounts| ==> CleanName(service.accounts[i].name)
    ensures fresh(restored)
    ensures restored.Ledger() == ReloadedAll(old(service.Ledger()))
    ensures forall a :: a in restored.accounts ==> fresh(a)
    ensures Distinct(restored.accounts)
  {
    ghost var ls := service.Ledger();
    assert forall i :: 0 <= i < |ls| ==> Storable(ls[i]);
    var file := Save(service, true);
    assert file.value == [Header] + EncodeAll(ls);
    var rows := ReadBack(file.value);
    SaveLoadRoundTrip(ls);
    assert Loaded(rows) == ReloadedAll(ls);
    restored := new BankService();
    Load(Some(rows), restored);
    assert restored.Ledger() == [] + Loaded(rows);
    assert [] + Loaded(rows) == Loaded(rows);
    assert restored.accounts[0..] == restored.accounts;
  }
}
