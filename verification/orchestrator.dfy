/** The three operations of the account manager that touch both stores, as
    state transitions: AddAccount (Program.cs lines 684-841), LaunchAccount
    (lines 867-1038) and DeleteAccount (lines 1040-1161).

    The state is the in-memory account list, the registry file, and the
    Sandboxie.ini files that exist at the locations the program looks at.
    What the program learns from the console (the typed name, the typed
    number, the confirmation) and what the outside world does (whether
    `Start.exe /reload` and the process starts succeed, the GUID fragment)
    are parameters.
 */
module Orchestrator {
  import opened Strings
  import opened TextFile
  import opened SandboxNames
  import opened IniConfig
  import opened AccountStore

  datatype Option<T> = None | Some(value: T)

  /** The places a Sandboxie.ini is looked for: next to Start.exe, in the
      current directory, under Program Files\Sandboxie, in the Windows
      directory. */
  datatype Location = StartExeDir | CurrentDir | ProgramFilesSandboxie | WindowsDir

  /** The ini files that exist, each as its lines. */
  type IniFiles = map<Location, seq<string>>

  /** The account list in memory, the lines of the registry file, and the
      ini files. */
  datatype State = State(accounts: seq<Account>, registry: seq<string>, ini: IniFiles)

  /** The registry file holds exactly the accounts in memory. */
  predicate Persisted(s: State) {
    s.registry == SaveAccounts(s.accounts)
  }

  /** What the external processes do: the path of Start.exe, the Viber
      executable, and whether the reload and the two ways of starting the
      sandboxed Viber succeed. */
  datatype Host = Host(
    startExe: string,
    viberPath: string,
    reloadSucceeds: bool,
    directStartSucceeds: bool,
    shellStartSucceeds: bool)

  datatype Step<O> = Step(state: State, outcome: O)

  // ---------------------------------------------------------------------
  // Locating the ini file

  /** The position of a location in the search of lines 726-756. */
  function Rank(loc: Location): nat {
    match loc
    case StartExeDir => 0
    case CurrentDir => 1
    case ProgramFilesSandboxie => 2
    case WindowsDir => 3
  }

  /** The search AddAccount makes (lines 726-756): the best-ranked location
      that has a file; none when no location has one. */
  function AddLocation(files: IniFiles): (r: Option<Location>)
    ensures r.None? <==> forall l: Location :: l !in files
    ensures r.Some? ==> r.value in files && forall l :: l in files ==> Rank(r.value) <= Rank(l)
  {
    if StartExeDir in files then Some(StartExeDir)
    else if CurrentDir in files then Some(CurrentDir)
    else if ProgramFilesSandboxie in files then Some(ProgramFilesSandboxie)
    else if WindowsDir in files then Some(WindowsDir)
    else
      assert forall l: Location :: l !in files by {
        forall l: Location
          ensures l !in files
        {
          assert l == StartExeDir || l == CurrentDir || l == ProgramFilesSandboxie || l == WindowsDir;
        }
      }
      None
  }

  /** The file LaunchAccount and DeleteAccount read and write (lines 910-916,
      1092-1098): the one next to Start.exe if it exists, otherwise the one
      in the current directory, whether or not that exists. */
  function EditLocation(files: IniFiles): (loc: Location)
    ensures loc == StartExeDir <==> StartExeDir in files
    ensures loc == StartExeDir || loc == CurrentDir
  {
    if StartExeDir in files then StartExeDir else CurrentDir
  }

  /** When a file exists next to Start.exe or in the current directory, Add
      picks the same file that Launch and Delete edit; only beyond those two
      can they part. */
  lemma EditAgreesWithAdd(files: IniFiles)
    requires StartExeDir in files || CurrentDir in files
    ensures AddLocation(files) == Some(EditLocation(files))
  {
  }

  /** The lines of the file at `loc`; a missing file reads as no lines. */
  function LinesAt(files: IniFiles, loc: Location): seq<string> {
    if loc in files then files[loc] else []
  }

  /** `files` and `files'` agree everywhere except possibly at `loc`. */
  predicate OnlyChanged(files: IniFiles, files': IniFiles, loc: Location) {
    && files'.Keys - {loc} == files.Keys - {loc}
    && forall l :: l in files && l != loc ==> l in files' && files'[l] == files[l]
  }

  // ---------------------------------------------------------------------
  // Add

  datatype AddOutcome =
    | EmptyName
    | DuplicateName
    | IniNotFound
    | Added(sandboxName: string, sectionCreated: bool, reloadFailed: bool)

  /** AddAccount. `answer` is the line typed for the name and `token` the GUID
      fragment used when the name has no letter or digit. A blank or
      case-insensitively taken name, or no ini file anywhere, changes nothing.
      Otherwise the box section is made sure to exist in the first ini file
      found, and exactly one account is appended and saved. A failed reload
      is only a warning. */
  function Add(s: State, answer: string, token: string, reloadSucceeds: bool): (r: Step<AddOutcome>)
    requires IsFallbackToken(token)
    ensures !r.outcome.Added? ==> r.state == s
    ensures r.outcome == EmptyName <==> IsBlank(answer)
    ensures r.outcome == DuplicateName <==> !IsBlank(answer) && NameTaken(s.accounts, Trim(answer))
    ensures r.outcome == IniNotFound <==>
              && !IsBlank(answer) && !NameTaken(s.accounts, Trim(answer))
              && forall l: Location :: l !in s.ini
    ensures r.outcome.Added? ==>
              var box := r.outcome.sandboxName;
              var loc := AddLocation(s.ini).value;
              && AddLocation(s.ini).Some?
              && box == DeriveSandboxName(Trim(answer), token)
              && r.state.accounts == s.accounts + [Account(Trim(answer), box)]
              && r.state.registry == SaveAccounts(r.state.accounts)
              && r.state.ini == s.ini[loc := AppendSection(s.ini[loc], box)]
              && loc in r.state.ini
              && s.ini[loc] <= r.state.ini[loc]
              && SectionExists(r.state.ini[loc], box)
              && HeaderCount(r.state.ini[loc], box) == (if r.outcome.sectionCreated then 1 else HeaderCount(s.ini[loc], box))
              && (r.outcome.sectionCreated <==> !SectionExists(s.ini[loc], box))
              && (r.outcome.reloadFailed <==> r.outcome.sectionCreated && !reloadSucceeds)
              && OnlyChanged(s.ini, r.state.ini, loc)
    ensures UniqueNames(s.accounts) ==> UniqueNames(r.state.accounts)
  {
    var name := Trim(answer);
    TrimSpec(answer);
    if IsBlank(name) then Step(s, EmptyName)
    else if NameTaken(s.accounts, name) then Step(s, DuplicateName)
    else
      var box := DeriveSandboxName(name, token);
      match AddLocation(s.ini)
      case None => Step(s, IniNotFound)
      case Some(loc) =>
        var lines := s.ini[loc];
        var created := !SectionExists(lines, box);
        var accounts := s.accounts + [Account(name, box)];
        var ini := s.ini[loc := AppendSection(lines, box)];
        Step(State(accounts, SaveAccounts(accounts), ini), Added(box, created, created && !reloadSucceeds))
  }

  // ---------------------------------------------------------------------
  // Choosing an account by number (Launch and Delete)

  datatype Pick = NoAccounts | Cancelled | InvalidSelection | Picked(index: nat)

  /** The selection of lines 873-900 and 1046-1073. `number` is what
      `int.TryParse` leaves, which is 0 when the answer is not a number: 0
      cancels silently, any other number out of 1..count is reported. */
  function PickAccount(count: nat, number: int): (p: Pick)
    ensures p.Picked? <==> 1 <= number <= count
    ensures p.Picked? ==> p.index == number - 1 && p.index < count
    ensures p == NoAccounts <==> count == 0
    ensures p == Cancelled <==> count > 0 && number == 0
  {
    if count == 0 then NoAccounts
    else if number < 1 || number > count then
      if number != 0 then InvalidSelection else Cancelled
    else Picked(number - 1)
  }

  // ---------------------------------------------------------------------
  // Launch

  datatype Command = Command(program: string, arguments: string)

  datatype LaunchRoute =
    | Direct(command: Command)
    | ViaShell(command: Command)
    | NotStarted

  datatype LaunchOutcome =
    | LaunchNotPicked(pick: Pick)
    | LaunchAborted
    | Launched(healed: bool, route: LaunchRoute)

  /** `Start.exe /box:<box> "<viber>"`, with the box name filtered again
      (lines 981-997). The box word runs from `/box:` to the first space, and
      it is exactly the filtered name, which has no space or quote of its own. */
  function DirectCommand(box: string, host: Host): (c: Command)
    ensures c.program == host.startExe
    ensures var b := SafeBoxName(box);
      && |c.arguments| > 5 + |b|
      && c.arguments[..5] == "/box:"
      && c.arguments[5..5 + |b|] == b
      && c.arguments[5 + |b|] == ' '
      && ' ' !in b && '"' !in b
  {
    var b := SafeBoxName(box);
    var c := Command(host.startExe, "/box:" + b + " \"" + host.viberPath + "\"");
    assert c.arguments == "/box:" + b + (" \"" + host.viberPath + "\"");
    c
  }

  /** The length of `/c ""<start.exe>" /box:`, where the shell command's box
      word starts. */
  function ShellBoxOffset(host: Host): nat {
    |"/c \"\""| + |host.startExe| + |"\" /box:"|
  }

  /** The `cmd.exe` fallback of lines 1009-1018. It passes the stored box name
      as it is, without the filter of line 981. */
  function ShellCommand(box: string, host: Host): (c: Command)
    ensures c.program == "cmd.exe"
    ensures |c.arguments| > ShellBoxOffset(host) + |box|
    ensures c.arguments[ShellBoxOffset(host)..ShellBoxOffset(host) + |box|] == box
  {
    var head := "/c \"\"" + host.startExe + "\" /box:";
    var c := Command("cmd.exe", head + box + " \"" + host.viberPath + "\"\"");
    assert c.arguments == head + box + (" \"" + host.viberPath + "\"\"");
    c
  }

  /** Lines 978-1026: the direct start, else the shell start, else nothing;
      the operation reports success in all three cases (line 1028). */
  function StartRoute(box: string, host: Host): (r: LaunchRoute)
    ensures r.Direct? <==> host.directStartSucceeds
    ensures r.ViaShell? <==> !host.directStartSucceeds && host.shellStartSucceeds
    ensures r.NotStarted? <==> !host.directStartSucceeds && !host.shellStartSucceeds
    ensures r.Direct? ==> r.command == DirectCommand(box, host)
    ensures r.ViaShell? ==> r.command == ShellCommand(box, host)
  {
    if host.directStartSucceeds then Direct(DirectCommand(box, host))
    else if host.shellStartSucceeds then ViaShell(ShellCommand(box, host))
    else NotStarted
  }

  /** A box name edited into the registry by hand, such as `A B`, reaches the
      shell command with its space, while the direct command gets `AB`. */
  lemma ShellFallbackSkipsFilter(host: Host)
    ensures SafeBoxName("A B") == "AB"
    ensures var c := ShellCommand("A B", host);
      c.arguments[ShellBoxOffset(host)..ShellBoxOffset(host) + 3] == "A B"
    ensures var c := DirectCommand("A B", host);
      c.arguments[5..7] == "AB" && c.arguments[7] == ' '
  {
    assert SafeBoxName("A B") == "AB";
  }

  /** The box of account `i` has no header in the file Launch looks at. */
  predicate Drifted(s: State, i: nat)
    requires i < |s.accounts|
  {
    !SectionExists(LinesAt(s.ini, EditLocation(s.ini)), s.accounts[i].sandboxName)
  }

  /** LaunchAccount. Outside 1..count nothing changes. Otherwise the box
      section is re-created (creating the file if need be) when it is
      missing, so it exists afterwards whatever else happens; a failed reload
      after that ends the operation before anything is started. */
  function Launch(s: State, number: int, host: Host): (r: Step<LaunchOutcome>)
    ensures r.state.accounts == s.accounts && r.state.registry == s.registry
    ensures r.outcome.LaunchNotPicked? <==> !(1 <= number <= |s.accounts|)
    ensures r.outcome.LaunchNotPicked? ==> r.state == s
    ensures 1 <= number <= |s.accounts| ==>
              var i := number - 1;
              var box := s.accounts[i].sandboxName;
              var loc := EditLocation(s.ini);
              && loc in r.state.ini
              && SectionExists(r.state.ini[loc], box)
              && LinesAt(s.ini, loc) <= r.state.ini[loc]
              && OnlyChanged(s.ini, r.state.ini, loc)
              && (!Drifted(s, i) ==> r.state == s && r.outcome == Launched(false, StartRoute(box, host)))
              && (Drifted(s, i) ==>
                    && r.state.ini[loc] == LinesAt(s.ini, loc) + SectionBlock(box)
                    && r.outcome == (if host.reloadSucceeds then Launched(true, StartRoute(box, host)) else LaunchAborted))
  {
    match PickAccount(|s.accounts|, number)
    case Picked(i) =>
      var account := s.accounts[i];
      var loc := EditLocation(s.ini);
      var lines := LinesAt(s.ini, loc);
      if SectionExists(lines, account.sandboxName) then
        Step(s, Launched(false, StartRoute(account.sandboxName, host)))
      else
        var healed := s.(ini := s.ini[loc := AppendSection(lines, account.sandboxName)]);
        if host.reloadSucceeds then
          Step(healed, Launched(true, StartRoute(account.sandboxName, host)))
        else
          Step(healed, LaunchAborted)
    case other => Step(s, LaunchNotPicked(other))
  }

  // ---------------------------------------------------------------------
  // Delete

  datatype DeleteOutcome =
    | DeleteNotPicked(pick: Pick)
    | NotConfirmed
    | DeleteAborted
    | Deleted(account: Account)

  /** The confirmation test of lines 1079-1081: the answer, trimmed and
      lower-cased, is `y`. */
  predicate Confirms(answer: string) {
    ToLower(Trim(answer)) == "y"
  }

  /** Exactly `y` or `Y`, possibly padded with white space, confirms. */
  lemma ConfirmsExactly(answer: string)
    ensures Confirms(answer) <==> Trim(answer) == "y" || Trim(answer) == "Y"
  {
  }

  /** The account list without its `i`-th entry. */
  function RemoveAt(accounts: seq<Account>, i: nat): (r: seq<Account>)
    requires i < |accounts|
    ensures |r| == |accounts| - 1
    ensures forall j :: 0 <= j < i ==> r[j] == accounts[j]
    ensures forall j :: i <= j < |r| ==> r[j] == accounts[j + 1]
  {
    accounts[..i] + accounts[i + 1..]
  }

  /** DeleteAccount. Outside 1..count, or without a `y`, nothing changes.
      Otherwise the box section is removed from the ini file if that file
      exists, then the account is removed and the registry saved. A failed
      reload after the ini rewrite ends the operation with the account kept;
      with no ini file the account is removed all the same. */
  function Delete(s: State, number: int, confirmation: string, reloadSucceeds: bool): (r: Step<DeleteOutcome>)
    ensures r.outcome.DeleteNotPicked? <==> !(1 <= number <= |s.accounts|)
    ensures r.outcome == NotConfirmed <==> 1 <= number <= |s.accounts| && !Confirms(confirmation)
    ensures r.outcome.DeleteNotPicked? || r.outcome == NotConfirmed ==> r.state == s
    ensures 1 <= number <= |s.accounts| && Confirms(confirmation) ==>
              var i := number - 1;
              var box := s.accounts[i].sandboxName;
              var loc := EditLocation(s.ini);
              && (loc in s.ini ==>
                    && r.state.ini == s.ini[loc := RemoveSection(s.ini[loc], box)]
                    && !SectionExists(r.state.ini[loc], box)
                    && IsSubsequence(r.state.ini[loc], s.ini[loc])
                    && OnlyChanged(s.ini, r.state.ini, loc))
              && (loc !in s.ini ==> r.state.ini == s.ini)
              && (r.outcome == DeleteAborted <==> loc in s.ini && !reloadSucceeds)
              && (r.outcome == DeleteAborted ==>
                    r.state.accounts == s.accounts && r.state.registry == s.registry)
              && (r.outcome != DeleteAborted ==>
                    && r.outcome == Deleted(s.accounts[i])
                    && r.state.accounts == RemoveAt(s.accounts, i)
                    && r.state.registry == SaveAccounts(r.state.accounts))
  {
    match PickAccount(|s.accounts|, number)
    case Picked(i) =>
      if !Confirms(confirmation) then Step(s, NotConfirmed)
      else
        var box := s.accounts[i].sandboxName;
        var loc := EditLocation(s.ini);
        if loc in s.ini then
          var cleaned := s.(ini := s.ini[loc := RemoveSection(s.ini[loc], box)]);
          if reloadSucceeds then Forget(cleaned, i) else Step(cleaned, DeleteAborted)
        else
          Forget(s, i)
    case other => Step(s, DeleteNotPicked(other))
  }

  /** Lines 1146-1150: drop the record and save the registry. */
  function Forget(s: State, i: nat): (r: Step<DeleteOutcome>)
    requires i < |s.accounts|
    ensures r.state.ini == s.ini
  {
    var accounts := RemoveAt(s.accounts, i);
    Step(State(accounts, SaveAccounts(accounts), s.ini), Deleted(s.accounts[i]))
  }

  // ---------------------------------------------------------------------
  // Properties across operations

  /** Removing an entry keeps the names of the others distinct. */
  lemma RemoveAtKeepsUniqueNames(accounts: seq<Account>, i: nat)
    requires i < |accounts|
    requires UniqueNames(accounts)
    ensures UniqueNames(RemoveAt(accounts, i))
  {
  }

  /** Every operation keeps the registry file equal to the saved account list
      and the account names distinct. */
  lemma OperationsKeepInvariants(s: State, answer: string, token: string, number: int, confirmation: string, host: Host)
    requires IsFallbackToken(token)
    requires Persisted(s) && UniqueNames(s.accounts)
    ensures var r := Add(s, answer, token, host.reloadSucceeds).state;
      Persisted(r) && UniqueNames(r.accounts)
    ensures var r := Launch(s, number, host).state;
      Persisted(r) && UniqueNames(r.accounts)
    ensures var r := Delete(s, number, confirmation, host.reloadSucceeds).state;
      Persisted(r) && UniqueNames(r.accounts)
  {
    if 1 <= number <= |s.accounts| {
      RemoveAtKeepsUniqueNames(s.accounts, number - 1);
    }
  }

  /** After an account is added, any name equal to it ignoring case is
      refused. */
  lemma AddRejectsCaseVariant(s: State, first: string, second: string, t1: string, t2: string, reload1: bool, reload2: bool)
    requires IsFallbackToken(t1) && IsFallbackToken(t2)
    requires Add(s, first, t1, reload1).outcome.Added?
    requires EqualsIgnoreCase(Trim(first), Trim(second))
    ensures Add(Add(s, first, t1, reload1).state, second, t2, reload2).outcome == DuplicateName
  {
    var s' := Add(s, first, t1, reload1).state;
    var last := |s'.accounts| - 1;
    assert EqualsIgnoreCase(s'.accounts[last].name, Trim(second));
    TrimSpec(first);
    TrimSpec(second);
    assert |Trim(first)| > 0;
    assert |ToLower(Trim(second))| == |ToLower(Trim(first))|;
  }

  /** A record that came from a typed line with no `|` loads back unchanged:
      the registry file still describes the accounts in memory after Add. */
  lemma AddKeepsRegistryLoadable(s: State, answer: string, token: string, reloadSucceeds: bool)
    requires IsFallbackToken(token)
    requires AllClean(s.accounts)
    requires Delimiter !in answer && HasNoLineBreak(answer)
    ensures var r := Add(s, answer, token, reloadSucceeds).state;
      AllClean(r.accounts) && (Persisted(r) ==> LoadAccounts(ReadAllLines(WriteAllLines(r.registry))) == r.accounts)
  {
    var r := Add(s, answer, token, reloadSucceeds);
    if r.outcome.Added? {
      var name := Trim(answer);
      TrimSpec(answer);
      assert IsCleanField(name) by {
        forall k | 0 <= k < |name|
          ensures !IsLineBreak(name[k])
        {
          assert name[k] in name;
        }
      }
      var box := r.outcome.sandboxName;
      DerivedNameIsToken(box);
      assert IsCleanField(box) by {
        forall k | 0 <= k < |box|
          ensures !IsLineBreak(box[k])
        {
          assert IsBoxNameChar(box[k]);
        }
      }
      assert r.state.accounts[|s.accounts|] == Account(name, box);
    }
    RegistryFileRoundTrip(r.state.accounts);
  }

  /** The launched box is the registered box: for a derived name the filter
      of line 981 changes nothing, and the arguments are
      `/box:<box> "<viber>"`. */
  lemma LaunchUsesRegisteredBox(s: State, number: int, host: Host)
    requires 1 <= number <= |s.accounts|
    requires IsDerivedName(s.accounts[number - 1].sandboxName)
    requires host.directStartSucceeds
    ensures var r := Launch(s, number, host);
      var box := s.accounts[number - 1].sandboxName;
      r.outcome.Launched? ==>
        r.outcome.route == Direct(Command(host.startExe, "/box:" + box + " \"" + host.viberPath + "\""))
  {
    SafeBoxNameKeepsDerived(s.accounts[number - 1].sandboxName);
  }

  /** An account whose section was removed behind the program's back is healed
      by Launch: the section exists again afterwards, with the template. */
  lemma LaunchHealsRemovedSection(s: State, number: int, host: Host)
    requires 1 <= number <= |s.accounts|
    requires EditLocation(s.ini) in s.ini
    ensures var box := s.accounts[number - 1].sandboxName;
      var loc := EditLocation(s.ini);
      var drifted := s.(ini := s.ini[loc := RemoveSection(s.ini[loc], box)]);
      var r := Launch(drifted, number, host);
      && SectionExists(r.state.ini[loc], box)
      && r.state.ini[loc] == RemoveSection(s.ini[loc], box) + SectionBlock(box)
      && r.outcome == (if host.reloadSucceeds then Launched(true, StartRoute(box, host)) else LaunchAborted)
  {
  }

  /** Deleting the last account of a state whose ini file at `loc` got that
      account's section appended undoes both changes. */
  lemma DeleteLastAfterAppend(t: State, before: IniFiles, accounts: seq<Account>, loc: Location, account: Account)
    requires loc in before && !SectionExists(before[loc], account.sandboxName)
    requires t.accounts == accounts + [account]
    requires t.ini == before[loc := AppendSection(before[loc], account.sandboxName)]
    requires EditLocation(t.ini) == loc
    ensures var r := Delete(t, |t.accounts|, "y", true);
      && r.outcome == Deleted(account)
      && r.state.accounts == accounts
      && r.state.ini == before[loc := before[loc] + [""]]
  {
    TrimUnpadded("y");
    assert Confirms("y");
    RemoveAfterAppend(before[loc], account.sandboxName);
    assert RemoveAt(t.accounts, |accounts|) == accounts;
  }

  /** Adding an account whose section is created in the file Delete looks at,
      then deleting that account, restores the account list and leaves the
      ini file as before plus one blank line. */
  lemma DeleteUndoesAdd(s: State, answer: string, token: string)
    requires IsFallbackToken(token)
    requires !IsBlank(answer) && !NameTaken(s.accounts, Trim(answer))
    requires StartExeDir in s.ini || CurrentDir in s.ini
    requires !SectionExists(s.ini[EditLocation(s.ini)], DeriveSandboxName(Trim(answer), token))
    ensures var added := Add(s, answer, token, true).state;
      var loc := EditLocation(s.ini);
      var r := Delete(added, |added.accounts|, "y", true);
      && r.outcome.Deleted?
      && r.state.accounts == s.accounts
      && r.state.ini == s.ini[loc := s.ini[loc] + [""]]
  {
    var step := Add(s, answer, token, true);
    var loc := EditLocation(s.ini);
    assert AddLocation(s.ini) == Some(loc);
    var account := Account(Trim(answer), step.outcome.sandboxName);
    assert EditLocation(step.state.ini) == loc;
    DeleteLastAfterAppend(step.state, s.ini, s.accounts, loc, account);
  }

  /** Adding a new name whose box already has a section in the file found
      writes nothing to the ini file and never needs a reload. */
  lemma AddReusesExistingSection(t: State, answer: string, token: string, reload: bool)
    requires IsFallbackToken(token)
    requires !IsBlank(answer) && !NameTaken(t.accounts, Trim(answer))
    requires AddLocation(t.ini).Some?
    requires SectionExists(t.ini[AddLocation(t.ini).value], DeriveSandboxName(Trim(answer), token))
    ensures var r := Add(t, answer, token, reload);
      && r.outcome == Added(DeriveSandboxName(Trim(answer), token), false, false)
      && r.state.ini == t.ini
  {
  }

  /** Two names that differ even ignoring case, but only in characters that
      are not letters or digits, are both accepted and share one box: the
      second Add finds the section already there and creates nothing. */
  lemma DistinctNamesCanShareBox(s: State, first: string, second: string, token: string, reload: bool)
    requires IsFallbackToken(token)
    requires Add(s, first, token, reload).outcome.Added?
    requires HasLetterOrDigit(Trim(first))
    requires Filter(Trim(first), IsLetterOrDigit) == Filter(Trim(second), IsLetterOrDigit)
    requires !NameTaken(s.accounts, Trim(second)) && !EqualsIgnoreCase(Trim(first), Trim(second))
    ensures var s1 := Add(s, first, token, reload).state;
      var r := Add(s1, second, token, reload);
      && r.outcome.Added?
      && !r.outcome.sectionCreated
      && r.outcome.sandboxName == s1.accounts[|s1.accounts| - 1].sandboxName
  {
    var step := Add(s, first, token, reload);
    var s1 := step.state;
    var box := step.outcome.sandboxName;
    var loc := AddLocation(s.ini).value;
    SecondNameHasLetter(Trim(first), Trim(second));
    TrimSpec(second);
    assert box == DeriveSandboxName(Trim(second), token);
    NotTakenAfterAppend(s.accounts, Account(Trim(first), box), Trim(second));
    assert AddLocation(s1.ini) == Some(loc);
    AddReusesExistingSection(s1, second, token, reload);
  }

  lemma SecondNameHasLetter(a: string, b: string)
    requires HasLetterOrDigit(a)
    requires Filter(a, IsLetterOrDigit) == Filter(b, IsLetterOrDigit)
    ensures HasLetterOrDigit(b)
  {
  }

  lemma NotTakenAfterAppend(accounts: seq<Account>, account: Account, name: string)
    requires !NameTaken(accounts, name) && !EqualsIgnoreCase(account.name, name)
    ensures !NameTaken(accounts + [account], name)
  {
  }

  /** "Al ice" and "Alice" are such a pair: both become `Viber_Alice`. */
  lemma SpacedNameSharesBox(token: string)
    requires IsFallbackToken(token)
    ensures !EqualsIgnoreCase("Al ice", "Alice")
    ensures Filter("Al ice", IsLetterOrDigit) == Filter("Alice", IsLetterOrDigit) == "Alice"
    ensures DeriveSandboxName("Al ice", token) == DeriveSandboxName("Alice", token) == "Viber_Alice"
  {
    SpacedNameDiffers();
    SpacedNameLetters();
    DeriveAlice(token);
    DeriveSpacedAlice(token);
  }

  lemma SpacedNameDiffers()
    ensures !EqualsIgnoreCase("Al ice", "Alice")
  {
    assert |ToLower("Al ice")| != |ToLower("Alice")|;
  }

  lemma SpacedNameLetters()
    ensures Filter("Al ice", IsLetterOrDigit) == "Alice"
    ensures Filter("Alice", IsLetterOrDigit) == "Alice"
  {
  }

  /** A name whose letters and digits are the non-empty `kept` derives
      `Viber_` followed by `kept`. */
  lemma DeriveFromLetters(name: string, token: string, kept: string)
    requires IsFallbackToken(token)
    requires Filter(name, IsLetterOrDigit) == kept && |kept| > 0
    ensures DeriveSandboxName(name, token) == Prefix + kept
  {
    FilterMembers(name, IsLetterOrDigit);
    assert kept[0] in name;
    var i :| 0 <= i < |name| && name[i] == kept[0];
    assert HasLetterOrDigit(name);
  }

  lemma PrefixAlice()
    ensures Prefix + "Alice" == "Viber_Alice"
  {
  }

  lemma DeriveAlice(token: string)
    requires IsFallbackToken(token)
    ensures DeriveSandboxName("Alice", token) == "Viber_Alice"
  {
    SpacedNameLetters();
    DeriveFromLetters("Alice", token, "Alice");
    PrefixAlice();
  }

  lemma DeriveSpacedAlice(token: string)
    requires IsFallbackToken(token)
    ensures DeriveSandboxName("Al ice", token) == "Viber_Alice"
  {
    SpacedNameLetters();
    DeriveFromLetters("Al ice", token, "Alice");
    PrefixAlice();
  }

  lemma DelimiterNameLetters()
    ensures Filter("a|b", IsLetterOrDigit) == "ab"
    ensures Prefix + "ab" == "Viber_ab"
  {
  }

  lemma DelimiterRecordLine()
    ensures RecordLine(Account("a|b", "Viber_ab")) == "a|b|Viber_ab"
  {
  }

  /** The line `a|b|Viber_ab` loads as the account `a` with the box `b`. */
  lemma DelimiterLineLoads()
    ensures LoadAccounts(["a|b|Viber_ab"]) == [Account("a", "b")]
  {
    IgnoresExtraFields("a", "b", "Viber_ab");
    assert "a" + [Delimiter] + "b" + [Delimiter] + "Viber_ab" == "a|b|Viber_ab";
  }

  /** A successful Add puts the new account, and its registry line, after
      all the old ones. */
  lemma AddedRecord(s: State, answer: string, token: string, reload: bool)
    requires IsFallbackToken(token)
    requires Add(s, answer, token, reload).outcome.Added?
    ensures var r := Add(s, answer, token, reload);
      var account := Account(Trim(answer), r.outcome.sandboxName);
      && |s.accounts| < |r.state.accounts|
      && r.state.accounts[|s.accounts|] == account
      && r.state.registry[|s.accounts|] == RecordLine(account)
  {
    var r := Add(s, answer, token, reload);
    SavedLine(r.state.accounts, |s.accounts|);
  }

  lemma AddDelimiterOutcome(s: State, token: string, reload: bool)
    requires IsFallbackToken(token)
    requires !NameTaken(s.accounts, "a|b") && AddLocation(s.ini).Some?
    ensures var r := Add(s, "a|b", token, reload);
      && r.outcome.Added?
      && r.outcome.sandboxName == "Viber_ab"
      && Trim("a|b") == "a|b"
  {
    TrimUnpadded("a|b");
    DelimiterNameLetters();
    DeriveFromLetters("a|b", token, "ab");
  }

  /** Add does not reject a name holding the registry's separator. The name
      `a|b` is saved as the line `a|b|Viber_ab`, which loads back as the
      account `a` with the box `b`. */
  lemma AddAcceptsDelimiter(s: State, token: string, reload: bool)
    requires IsFallbackToken(token)
    requires !NameTaken(s.accounts, "a|b") && AddLocation(s.ini).Some?
    ensures var r := Add(s, "a|b", token, reload);
      && r.outcome.Added?
      && r.outcome.sandboxName == "Viber_ab"
      && r.state.accounts[|s.accounts|] == Account("a|b", "Viber_ab")
      && r.state.registry[|s.accounts|] == "a|b|Viber_ab"
      && LoadAccounts(["a|b|Viber_ab"]) == [Account("a", "b")]
  {
    AddDelimiterOutcome(s, token, reload);
    AddedRecord(s, "a|b", token, reload);
    DelimiterRecordLine();
    DelimiterLineLoads();
  }

  /** Delete finds sections by box name only (line 1113). When two accounts
      share a box, deleting one of them removes the section the other one
      still names. */
  lemma DeleteDropsSharedSection(s: State, number: int, j: nat)
    requires 1 <= number <= |s.accounts| && j < |s.accounts| && j != number - 1
    requires s.accounts[j].sandboxName == s.accounts[number - 1].sandboxName
    requires EditLocation(s.ini) in s.ini
    ensures var r := Delete(s, number, "y", true);
      var k := if j < number - 1 then j else j - 1;
      && r.outcome.Deleted?
      && k < |r.state.accounts|
      && r.state.accounts[k] == s.accounts[j]
      && !SectionExists(r.state.ini[EditLocation(s.ini)], s.accounts[j].sandboxName)
  {
    TrimUnpadded("y");
    assert Confirms("y");
  }

  /** The code looks for the ini file in four places when adding but in only
      two when launching or deleting. When the only file is in the Windows
      directory, Add writes its box into that file, Delete never removes it,
      and Launch creates a second file in the current directory instead of
      finding it. The requires rule out the program running from the Windows
      directory, where the current directory would hold that same file. */
  lemma AddAndDeleteCanUseDifferentFiles(s: State, number: int, confirmation: string, host: Host)
    requires StartExeDir !in s.ini && CurrentDir !in s.ini && ProgramFilesSandboxie !in s.ini
    requires WindowsDir in s.ini
    ensures AddLocation(s.ini) == Some(WindowsDir)
    ensures EditLocation(s.ini) == CurrentDir
    ensures Delete(s, number, confirmation, host.reloadSucceeds).state.ini == s.ini
    ensures 1 <= number <= |s.accounts| ==>
              Launch(s, number, host).state.ini[WindowsDir] == s.ini[WindowsDir]
  {
  }
}
