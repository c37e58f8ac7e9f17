# Multi-account Viber manager for Sandboxie, modelled in Dafny

`SandboxieTest/Program.cs` is a console tool that keeps one Sandboxie box per
Viber account. Each box holds its own Viber profile. The tool keeps two stores
in step:

- a local registry of `name|box` lines;
- the `[box]` sections of Sandboxie's `Sandboxie.ini`.

It offers three operations over them: Add, Launch and Delete.

This project models that core as pure functions over immutable data and proves
what the code guarantees, and what it does not.

| module | file | what it models |
|---|---|---|
| `Strings` | `strings.dfy` | the .NET string operations the code relies on: `Trim`, `IsNullOrWhiteSpace`, `char.IsLetterOrDigit`, ordinal case-insensitive comparison, `Split` |
| `TextFile` | `text_file.dfy` | `File.WriteAllLines` / `File.ReadAllLines`, which is why both stores can be treated as sequences of lines |
| `SandboxNames` | `sandbox_names.dfy` | deriving the box name from an account name, with the random fallback, and the launch-time filter of the box name |
| `IniConfig` | `ini_config.dfy` | the header search, the 13-line section template and its append, and the section-removal scanner, together with a section-layout view of the file that explains what removal does |
| `AccountStore` | `account_store.dfy` | saving and loading the account registry, and the case-insensitive name predicates |
| `Orchestrator` | `orchestrator.dfy` | Add, Launch and Delete as state transitions over the account list, the registry lines and the ini files at the locations the code probes |

The outside world enters only as parameters:

- the line the user typed;
- the number `int.TryParse` leaves;
- the confirmation answer;
- the GUID fragment used as the fallback box name;
- whether `Start.exe /reload` succeeds;
- whether the direct start and the `cmd.exe` start succeed.

An ini file is a map entry from one of four locations to its lines:

- next to Start.exe;
- the current directory;
- Program Files\Sandboxie;
- the Windows directory.

The locations are named by how the code reaches them, so several keys can
name one folder, depending on where the program runs and where Start.exe was
found:

- The current directory can be any folder, Program Files\Sandboxie and the
  Windows directory included.
- Start.exe is looked for in the current directory first and under Program
  Files\Sandboxie last (`Program.cs:598-626`). So the folder next to Start.exe
  can be the current directory, and through it any folder the program runs
  from, or Program Files\Sandboxie.
- Program Files\Sandboxie and the Windows directory are never one folder.

A file in a shared folder then sits under each of its keys. Every operation
uses the first-ranked key that has a file. "Next to Start.exe" ranks first and
the current directory second in every operation, and any two keys that can
coincide include one of those two. A shared folder is therefore read and
written through the same key by every operation.

## Behaviour of the code

The lemmas named below state each of these facts about the code.

- **Which ini file is used.** The operations probe different locations:
  - Add looks in four places (`Program.cs:726-756`).
  - Launch and Delete look only next to Start.exe, otherwise in the current
    directory (`910-916`, `1092-1098`).
  - When a file exists in one of those two places, all three operations use
    the same file (`Orchestrator.EditAgreesWithAdd`).
  - Suppose the only file is in the Windows directory, and the current
    directory is a different folder. Then Add writes the box into that file,
    but Delete leaves the box in place, and Launch writes a fresh copy into
    the current directory (`Orchestrator.AddAndDeleteCanUseDifferentFiles`).
    The same holds for a file under Program Files\Sandboxie when Start.exe
    was found somewhere else.
- **Failed reloads.** Only Add catches a failed reload, as a warning
  (`814-818`).
  - In Launch, a failure after a self-heal ends the operation before Viber is
    started.
  - In Delete, a failure after the ini rewrite ends the operation with the
    account record kept.
- **Shared box names.** Box names derived from different accounts can
  coincide. `Alice` and `Al ice` both give `Viber_Alice`. The two names
  differ even ignoring case, so Add accepts both, and both accounts share one
  box (`Orchestrator.DistinctNamesCanShareBox`, `Orchestrator.SpacedNameSharesBox`).
- **Reported success.** Launch reports success even when both ways of
  starting Viber fail (`1028`). The model's launch outcome records which route
  was taken, possibly none.
- **Separator in a name.** Add does not check the typed name for the
  registry's `|` separator (`693-708`). The name `a|b` is saved as the line
  `a|b|Viber_ab`, which the next load reads as the account `a` with the box
  `b` (`Orchestrator.AddAcceptsDelimiter`). Add writes no section other than
  `[Viber_ab]`, so `b` has a section only if the ini file already held one.
- **Deleting a shared box.** Delete finds sections by box name only (`1113`).
  When two accounts share a box, deleting one removes the section the other
  one still names (`Orchestrator.DeleteDropsSharedSection`). The next Launch
  of the other account heals it with a fresh template.
- **Unfiltered fallback.** The `cmd.exe` fallback passes the stored box name
  without the filter the direct start applies (`1014`,
  `Orchestrator.ShellFallbackSkipsFilter`).

## Model

| member | source | states |
|---|---|---|
| Strings.TrimSpec | SandboxieTest/Program.cs:691-693 | the trimmed name has no white space at either end, uses only characters of the typed line, and is empty exactly when the typed line is blank (the `IsNullOrWhiteSpace` test) |
| Strings.SplitPieces | SandboxieTest/Program.cs:1171-1172 | splitting on the pipe separator yields at least two fields exactly when the line contains the separator |
| Strings.SplitPair | SandboxieTest/Program.cs:1171-1172 | splitting two fields joined by the pipe separator gives back the two fields when neither contains the separator |
| Strings.JoinSplit | SandboxieTest/Program.cs:1171 | joining the pieces of a split with the separator gives back the line |
| TextFile.ReadAfterWrite | SandboxieTest/Program.cs:1169-1203 | reading back a file written with `WriteAllLines` gives the same lines, for lines without line breaks |
| SandboxNames.DeriveSandboxName | SandboxieTest/Program.cs:712-718 | the result is always `Viber_` followed by at least one letter or digit; it is `Viber_` plus the letters and digits of the name when there are any, and `Viber_` plus the GUID fragment exactly when there are none |
| SandboxNames.DeriveIsDeterministic | SandboxieTest/Program.cs:712-718 | a name with a letter or digit gets the same box whatever the random fragment |
| SandboxNames.DerivedNameIsToken | SandboxieTest/Program.cs:712-718 | a derived name contains only letters, digits and `_`, so it has no white space, brackets or path separators |
| SandboxNames.FilterMembers | SandboxieTest/Program.cs:712 | `Where(keep)` keeps exactly the characters that pass `keep` |
| SandboxNames.SafeBoxName | SandboxieTest/Program.cs:981 | the launch-time name holds only letters, digits and `_`, all taken from the stored box name |
| SandboxNames.SafeBoxNameKeepsDerived | SandboxieTest/Program.cs:981 | the launch-time filter leaves a derived box name unchanged |
| IniConfig.ScanForSection | SandboxieTest/Program.cs:762-771 | the search loop finds a header exactly when some line, trimmed, equals `[box]` ignoring case |
| IniConfig.HeaderCountPositive | SandboxieTest/Program.cs:919-931 | the box has a header somewhere exactly when its header count is positive |
| IniConfig.HeaderIsSectionLine | SandboxieTest/Program.cs:1108-1111 | a line that matches the target header is also seen as a section line by the removal scanner |
| IniConfig.SectionBlockHeaders | SandboxieTest/Program.cs:776-789 | the appended block holds exactly one header line for the box |
| IniConfig.AppendSection | SandboxieTest/Program.cs:774-790 | the old lines stay an exact prefix and the box exists afterwards; an existing box leaves the file unchanged; otherwise exactly 13 lines are added (a blank line, `[box]`, the 11 template settings) and the box has a single header |
| IniConfig.RemoveSection | SandboxieTest/Program.cs:1105-1126 | removal only drops lines, never adds or reorders them, and no header of the box is left |
| IniConfig.KeepOutside | SandboxieTest/Program.cs:1105-1126 | the scanner only drops lines: from either starting flag, its output is an order-preserving subsequence of its input |
| IniConfig.KeepOutsideDropsHeaders | SandboxieTest/Program.cs:1108-1117 | from either starting flag, no header of the box survives the scanner |
| IniConfig.RemoveSectionLines | SandboxieTest/Program.cs:1100-1129 | the `foreach` loop with its `inTargetSection` flag computes exactly the removal function |
| IniConfig.RemoveAbsentSection | SandboxieTest/Program.cs:1105-1126 | removing a box that has no header changes nothing |
| IniConfig.RemoveSectionTwice | SandboxieTest/Program.cs:1105-1126 | removing a box twice is the same as removing it once |
| IniConfig.RemoveAfterAppend | SandboxieTest/Program.cs:774-790 | appending a new box and then removing it restores the file, apart from the blank separator line |
| IniConfig.FlattenParse | SandboxieTest/Program.cs:1105-1126 | cutting a file into preamble and sections loses nothing |
| IniConfig.ParseFlatten | SandboxieTest/Program.cs:1105-1126 | a well-formed layout is recovered from its lines |
| IniConfig.DropSection | SandboxieTest/Program.cs:1105-1126 | leaving out the box's sections keeps the preamble and a well-formed layout |
| IniConfig.OtherSections | SandboxieTest/Program.cs:1105-1126 | the kept sections are the input sections whose header is not the box's, as an order-preserving subsequence of the input |
| IniConfig.OtherSectionsCount | SandboxieTest/Program.cs:1105-1126 | each section that is not the box's is kept exactly as many times as it occurs, and every section of the box is dropped |
| IniConfig.RemoveSectionByLayout | SandboxieTest/Program.cs:1105-1126 | the scanner's result is the file with every section of the box cut out and the preamble and all other sections kept as they were |
| AccountStore.SaveAccounts | SandboxieTest/Program.cs:1197-1203 | one line per account, each containing the separator; `AccountStore.SavedLine` states which account each line holds |
| AccountStore.LoadAccounts | SandboxieTest/Program.cs:1169-1181 | loading never yields more accounts than there are lines |
| AccountStore.LoadAfterSave | SandboxieTest/Program.cs:1169-1203 | loading the saved lines gives back the same accounts in the same order when no field contains the pipe separator |
| AccountStore.SaveAfterLoad | SandboxieTest/Program.cs:1169-1203 | saving what was loaded from lines with exactly two fields reproduces the lines |
| AccountStore.SkipsLineWithoutDelimiter | SandboxieTest/Program.cs:1171-1173 | a line with fewer than two fields is skipped |
| AccountStore.IgnoresExtraFields | SandboxieTest/Program.cs:1171-1178 | fields after the second are ignored |
| AccountStore.SavedLine | SandboxieTest/Program.cs:1198-1201 | line `i` of the saved registry is the name and the box joined by the pipe separator of account `i` |
| AccountStore.RegistryFileRoundTrip | SandboxieTest/Program.cs:1169-1203 | saving, writing the file, reading it and loading gives back the accounts, for fields without the pipe separator or line breaks |
| Orchestrator.AddLocation | SandboxieTest/Program.cs:726-756 | Add uses the first location, in probe order, that has an ini file, and reports none exactly when no location has one |
| Orchestrator.EditLocation | SandboxieTest/Program.cs:910-916 | Launch and Delete use the file next to Start.exe exactly when it exists, and otherwise the current-directory file, whether or not that exists (the same test as lines 1092-1098) |
| Orchestrator.EditAgreesWithAdd | SandboxieTest/Program.cs:725-731 | when a file exists next to Start.exe or in the current directory, Add picks the same file that Launch and Delete use |
| Orchestrator.PickAccount | SandboxieTest/Program.cs:890-900 | an account is picked exactly when the number is in 1..count, and it is account `number - 1`; 0 cancels; an empty list is refused first |
| Orchestrator.Add | SandboxieTest/Program.cs:691-829 | see the Add entry after this table |
| Orchestrator.Launch | SandboxieTest/Program.cs:903-1028 | see the Launch entry after this table |
| Orchestrator.DirectCommand | SandboxieTest/Program.cs:981-994 | the direct start runs Start.exe, and its arguments start with `/box:` and the filtered box name, which has no space or quote, followed by a space |
| Orchestrator.ShellCommand | SandboxieTest/Program.cs:1009-1018 | the fallback runs `cmd.exe` and passes the stored box name as it is, without the filter of line 981 (line 1014) |
| Orchestrator.StartRoute | SandboxieTest/Program.cs:978-1026 | the route is direct exactly when the direct start succeeds, via the shell exactly when only the shell start succeeds, and none exactly when both fail; each route carries its own command |
| Orchestrator.ShellFallbackSkipsFilter | SandboxieTest/Program.cs:1009-1018 | a box name `A B` edited into the registry reaches the shell command with its space, while the direct command gets `AB` |
| Orchestrator.ConfirmsExactly | SandboxieTest/Program.cs:1079-1081 | the answer confirms exactly when, trimmed, it is `y` or `Y` |
| Orchestrator.RemoveAt | SandboxieTest/Program.cs:1147 | `RemoveAt(i)` removes exactly entry `i` and keeps the others in order |
| Orchestrator.Delete | SandboxieTest/Program.cs:1063-1150 | see the Delete entry after this table |
| Orchestrator.RemoveAtKeepsUniqueNames | SandboxieTest/Program.cs:1147 | removing an account keeps the remaining names distinct |
| Orchestrator.OperationsKeepInvariants | SandboxieTest/Program.cs:822-829 | after every operation the registry lines equal the saved account list, and the names are distinct ignoring case |
| Orchestrator.AddRejectsCaseVariant | SandboxieTest/Program.cs:702 | once a name is added, every name equal to it ignoring case is refused |
| Orchestrator.AddKeepsRegistryLoadable | SandboxieTest/Program.cs:822-829 | an account added from a typed line without the pipe separator or line breaks survives a save and a load |
| Orchestrator.LaunchUsesRegisteredBox | SandboxieTest/Program.cs:981-999 | the direct start runs `Start.exe /box:<box> "<viber>"` with the registered box name itself |
| Orchestrator.LaunchHealsRemovedSection | SandboxieTest/Program.cs:933-975 | if the box's section was removed from outside, Launch appends it again; a failed reload then aborts |
| Orchestrator.DeleteLastAfterAppend | SandboxieTest/Program.cs:1100-1150 | deleting the last account, whose section was the last one appended, restores the list and the file, apart from one blank line |
| Orchestrator.DeleteUndoesAdd | SandboxieTest/Program.cs:1100-1150 | Add followed by a confirmed Delete of the new account restores the account list, and the ini file apart from one blank line, when both use the same file |
| Orchestrator.AddReusesExistingSection | SandboxieTest/Program.cs:774-819 | if the box already has a section, Add writes nothing to the ini file and does not reload |
| Orchestrator.DistinctNamesCanShareBox | SandboxieTest/Program.cs:712-718 | two names that differ ignoring case, but only outside letters and digits, are both accepted into one box; the second Add creates no section |
| Orchestrator.SpacedNameSharesBox | SandboxieTest/Program.cs:712-718 | `Al ice` and `Alice` are different names that both derive `Viber_Alice` |
| Orchestrator.DeriveFromLetters | SandboxieTest/Program.cs:712-718 | a name whose letters and digits form a non-empty string `kept` gets the box `Viber_` followed by `kept` |
| Orchestrator.AddedRecord | SandboxieTest/Program.cs:822-829 | a successful Add places the new account, and its registry line, right after all the old ones |
| Orchestrator.AddAcceptsDelimiter | SandboxieTest/Program.cs:693-708 | a name made of `a`, the pipe separator and `b` passes both checks of Add and is saved with its box `Viber_ab` as a line that loads back as account `a` with box `b` |
| Orchestrator.DeleteDropsSharedSection | SandboxieTest/Program.cs:1105-1126 | deleting one of two accounts that share a box leaves the other account in the list but removes every section of its box |
| Orchestrator.AddAndDeleteCanUseDifferentFiles | SandboxieTest/Program.cs:722-756 | with the ini file only in the Windows directory, Add uses it, but Delete does not touch it and Launch does not change it |

The three operation rows state the following.

- **Orchestrator.Add.**
  - A blank name, a name already taken ignoring case, or no ini file anywhere changes nothing, and each is reported as such.
  - Otherwise exactly one account is appended: the trimmed name with its derived box.
  - The registry is re-saved.
  - The box exists in the first ini file found, which keeps its old lines as a prefix, and no other file changes.
  - The names stay distinct.
  - A failed reload is only a warning, and only when a section was written.
- **Orchestrator.Launch.**
  - Accounts and registry never change.
  - Outside 1..count nothing changes.
  - Otherwise the box exists in the file Launch uses afterwards, and that file keeps its old lines as a prefix.
  - An intact box changes nothing.
  - A missing box gets the template appended, and the file is created if need be.
  - The start route is direct, else via `cmd.exe`, else none.
  - A failed reload after a heal aborts the operation.
- **Orchestrator.Delete.**
  - Nothing changes without a valid number and a `y`.
  - Otherwise every section of the box is removed from the file Delete uses, if it exists.
  - Then exactly entry `number - 1` is removed, order is kept, and the registry is re-saved.
  - With no ini file the account is removed all the same.
  - A failed reload after the ini rewrite keeps the account.

## Left out

- The console menu, screen output and key waits are left out; they do not change state.
- ListAccounts is left out because it only prints.
- Not modelled: the environment checks, the installer and service start-up, and the deployment batch script. They are set-up around the core, not part of it.
- Finding Start.exe and the Viber executable is left out. Their paths enter as the `Host` parameter.
- SaveViberPath is left out. It stores the Viber path outside the two stores modelled here.
- `Guid.NewGuid` is left out. The fragment is a free parameter limited to 8 lower-case hex digits, so the model cannot state that two names without letters or digits get different fragments.
- `Thread.Sleep` and waiting for the reload process are left out. They take time, but the model has no clock.
- Process starts are left out. Each start is a success or failure flag, and the launched Viber is not modelled.
- File I/O exceptions are not modelled, apart from the reload failure. These include a failing `ReadAllLines`/`WriteAllLines` on the ini file and a failing save of the registry, which the code reports and swallows.
- A null `ReadLine` at the end of input is left out. Add treats it as an empty name and Delete as a refusal, which is what an empty answer gives in the model.
- Loading a missing registry file is left out. It yields no accounts, which is `LoadAccounts([])`.
- SandboxNames.DeriveSandboxName: `char.IsLetterOrDigit` is modelled for ASCII letters and digits only. A non-ASCII letter, which .NET keeps, is dropped in the model.
- Strings.EqualsIgnoreCase: `OrdinalIgnoreCase` and `ToLower` are modelled as folding ASCII `A`-`Z` only. This matters for `AccountStore.NameTaken` (line 702), where .NET treats `É` and `é` as one name and the model does not. It also matters for `IniConfig.IsHeaderFor` (lines 766, 925 and 1113), where the same holds for box names in headers.
- SandboxNames.SafeBoxName: the launch-time filter of line 981 uses the same ASCII class as the derivation. A non-ASCII letter in a stored box name is kept by .NET and dropped by the model.
- Strings.TrimSpec: white space is the fixed list of code points `char.IsWhiteSpace` accepts. It is not derived from Unicode data.
- IniConfig.IsSectionLine: the `[` and `]` tests of line 1110 compare the first and last character exactly. .NET's culture-sensitive `StartsWith(string)` and `EndsWith(string)` skip zero-weight characters such as the soft hyphen U+00AD. A line such as U+00AD followed by `[B]` therefore starts a section in the program but not in the model.
- TextFile.WriteAllLines: file encodings are not modelled, and a file is a sequence of characters. `File.WriteAllLines` (lines 792, 960 and 1129) writes UTF-8 without a byte-order mark, whatever encoding `ReadAllLines` detected, so an ini file in another encoding is re-encoded by every write.
