/** The local account registry: an ordered list of (name, box name) records,
    persisted one `name|box` line per account (SaveAccounts, Program.cs
    lines 1190-1209) and read back by splitting each line on `|`
    (LoadAccounts, lines 1163-1188).
 */
module AccountStore {
  import opened Strings
  import opened TextFile

  /** `ViberAccount` (lines 1223-1227). */
  datatype Account = Account(name: string, sandboxName: string)

  /** The field separator of a registry line. */
  const Delimiter: char := '|'

  /** The registry line of one account (line 1200). */
  function RecordLine(account: Account): string {
    account.name + [Delimiter] + account.sandboxName
  }

  /** SaveAccounts (lines 1197-1203): one line per account, in order. */
  function SaveAccounts(accounts: seq<Account>): (lines: seq<string>)
    ensures |lines| == |accounts|
    ensures forall i :: 0 <= i < |accounts| ==> Delimiter in lines[i]
  {
    if |accounts| == 0 then []
    else [RecordLine(accounts[0])] + SaveAccounts(accounts[1..])
  }

  /** LoadAccounts (lines 1169-1181): a line with fewer than two `|`-separated
      fields is skipped; otherwise the first two fields become an account and
      any further fields are ignored. */
  function LoadAccounts(lines: seq<string>): (accounts: seq<Account>)
    ensures |accounts| <= |lines|
  {
    if |lines| == 0 then []
    else
      var parts := Split(lines[0], Delimiter);
      (if |parts| >= 2 then [Account(parts[0], parts[1])] else []) + LoadAccounts(lines[1..])
  }

  /** A field that survives the registry file: no separator, no line break. */
  predicate IsCleanField(s: string) {
    Delimiter !in s && HasNoLineBreak(s)
  }

  predicate IsCleanAccount(account: Account) {
    IsCleanField(account.name) && IsCleanField(account.sandboxName)
  }

  predicate AllClean(accounts: seq<Account>) {
    forall i :: 0 <= i < |accounts| ==> IsCleanAccount(accounts[i])
  }

  /** Loading what was saved gives back the same accounts, in the same order,
      as long as no field contains the separator. */
  lemma {:induction false} LoadAfterSave(accounts: seq<Account>)
    requires forall i :: 0 <= i < |accounts| ==>
               Delimiter !in accounts[i].name && Delimiter !in accounts[i].sandboxName
    ensures LoadAccounts(SaveAccounts(accounts)) == accounts
  {
    if |accounts| > 0 {
      var a := accounts[0];
      SplitPair(a.name, a.sandboxName, Delimiter);
      var lines := SaveAccounts(accounts);
      assert lines[0] == RecordLine(a);
      assert lines[1..] == SaveAccounts(accounts[1..]);
      LoadAfterSave(accounts[1..]);
      assert accounts == [a] + accounts[1..];
    }
  }

  /** A registry line with exactly two fields. */
  predicate IsWellFormedLine(line: string) {
    |Split(line, Delimiter)| == 2
  }

  /** Saving what was loaded from well-formed lines reproduces the lines. */
  lemma {:induction false} SaveAfterLoad(lines: seq<string>)
    requires forall i :: 0 <= i < |lines| ==> IsWellFormedLine(lines[i])
    ensures SaveAccounts(LoadAccounts(lines)) == lines
  {
    if |lines| > 0 {
      var parts := Split(lines[0], Delimiter);
      JoinSplit(lines[0], Delimiter);
      assert parts[1..] == [parts[1]];
      assert lines[0] == parts[0] + [Delimiter] + parts[1];
      SaveAfterLoad(lines[1..]);
      var loaded := LoadAccounts(lines);
      assert loaded == [Account(parts[0], parts[1])] + LoadAccounts(lines[1..]);
      assert loaded[1..] == LoadAccounts(lines[1..]);
      assert lines == [lines[0]] + lines[1..];
    }
  }

  /** A line without the separator is skipped. */
  lemma SkipsLineWithoutDelimiter(line: string, rest: seq<string>)
    requires Delimiter !in line
    ensures LoadAccounts([line] + rest) == LoadAccounts(rest)
  {
    SplitPieces(line, Delimiter);
    assert ([line] + rest)[1..] == rest;
  }

  /** Fields after the second are ignored. */
  lemma IgnoresExtraFields(name: string, box: string, extra: string)
    requires Delimiter !in name && Delimiter !in box
    ensures LoadAccounts([name + [Delimiter] + box + [Delimiter] + extra]) == [Account(name, box)]
  {
    var line := name + [Delimiter] + box + [Delimiter] + extra;
    var tail := [Delimiter] + box + [Delimiter] + extra;
    assert line == name + tail;
    SplitPrefix(name, tail, Delimiter);
    var rest := box + [Delimiter] + extra;
    assert tail[1..] == rest;
    SplitPrefix(box, [Delimiter] + extra, Delimiter);
    assert rest == box + ([Delimiter] + extra);
    assert name + "" == name;
    assert box + "" == box;
  }

  /** Every saved line is break-free when the fields are. */
  lemma SavedLinesHaveNoBreaks(accounts: seq<Account>)
    requires AllClean(accounts)
    ensures forall i :: 0 <= i < |accounts| ==> HasNoLineBreak(SaveAccounts(accounts)[i])
  {
  }

  lemma {:induction false} SavedLine(accounts: seq<Account>, i: nat)
    requires i < |accounts|
    ensures SaveAccounts(accounts)[i] == RecordLine(accounts[i])
  {
    if i > 0 {
      SavedLine(accounts[1..], i - 1);
    }
  }

  /** The whole trip through the registry file: save, write the text, read
      the text back, load. */
  lemma RegistryFileRoundTrip(accounts: seq<Account>)
    requires AllClean(accounts)
    ensures LoadAccounts(ReadAllLines(WriteAllLines(SaveAccounts(accounts)))) == accounts
  {
    SavedLinesHaveNoBreaks(accounts);
    ReadAfterWrite(SaveAccounts(accounts));
    LoadAfterSave(accounts);
  }

  /** The duplicate test of line 702: some account has this name, ignoring case. */
  predicate NameTaken(accounts: seq<Account>, name: string) {
    exists i :: 0 <= i < |accounts| && EqualsIgnoreCase(accounts[i].name, name)
  }

  /** No two accounts share a name, ignoring case. */
  predicate UniqueNames(accounts: seq<Account>) {
    forall i, j :: 0 <= i < j < |accounts| ==> !EqualsIgnoreCase(accounts[i].name, accounts[j].name)
  }
}
