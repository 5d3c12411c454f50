# OxideComposer, modelled in Dafny

OxideComposer (`ocomposer`) manages the Oxide plugins of a Rust game server. A
manifest, `ocomposer.json`, lists the wanted plugins and whether each may take
major releases. A ledger, `composer/installed.json`, records the version and the
first-install time of each installed plugin. The tool installs one plugin on
request (`install <id>`). It also checks every listed plugin against the
plugin site (`update`), backs the server folder up with `zip`, and writes the
newer releases into the server's `plugins/` folder.

The model covers three pieces of decision logic:

- **`Utils`** (`utils.dfy`): the substring test `contains`, and the version
  classifier `isGreater`, which answers not greater, minor bump or major bump.
  A remote version is a sequence of numbers. An installed version may hold the
  wildcard `x`.
- **`OxideComposer`** (`composer.dfy`, with the facts in `composer_facts.dfy`):
  - the constructor's checks;
  - `install`, `update` and `installPlugin`;
  - the path helpers.

  The plugin site, the file system, `zip` and the clock are inputs collected in
  `Env`. `install` and `update` record each call they make on the site, on a
  plugin file, on `zip` or on a saved JSON file, in order, as an `Effect`.
  The constructor's checks are not effects: `Open` reads them from a `Disk`
  value. A trace
  can therefore state facts such as "the backup comes before any write",
  "nothing is written when everything is up to date" and "the ledger is saved
  last, and only after every plugin succeeded".
- **`CommandLine`** (`cli.dfy`): covers four things:
  - the default command;
  - stripping one leading option (`-d` turns on exception traces);
  - the dispatch table;
  - the way the `validate`, `install` and `update` handlers report a failure.

Failures the source throws as exceptions are `Failure(error)` values, one
`Error` constructor per message. `results.dfy` holds `Option` and `Result`.

## Model

| member | source | states |
|---|---|---|
| `Utils.Strpos` | src/Utils.php:11-17 | The position found is an occurrence of the needle with no earlier occurrence; `None` means the needle occurs nowhere (an empty needle is found at 0). |
| `Utils.Contains` | src/Utils.php:11-17 | True exactly when the needle occurs somewhere in the haystack. |
| `Utils.ContainsAgreesWithStrpos` | src/Utils.php:13-16 | Testing `strpos` against `false` gives the same answer as the substring test, and a true answer has a witness position. |
| `Utils.IsGreater` | src/Utils.php:25-54 | A major answer is backed by a remote component before the last one that is above the installed component at its position. A minor answer is backed by the last remote component being above the installed one. |
| `Utils.Walk` | src/Utils.php:35-53 | The loop from position `k` answers major only for a larger remote component at or after `k` and before the last position, and minor only when `k` has not passed the end and the last remote component is larger. |
| `Utils.EarlyExitAgreesWithLoop` | src/Utils.php:27-53 | The textual-equality shortcut never changes the answer: the component loop alone classifies the same way. |
| `Utils.IsGreaterAtFirstDifference` | src/Utils.php:35-51 | At the first position where the versions differ, a smaller remote component gives not greater; a larger one gives major before the last remote position and minor at it. |
| `Utils.IsGreaterWhenAllAgree` | src/Utils.php:35-53 | When every remote component equals the installed one at the same position, the result is not greater, even if the installed version has more components. |
| `Utils.IsGreaterMatchesReference` | src/Utils.php:25-54 | On every input the classifier equals a declarative definition stated through the first difference and its position relative to the last remote component. |
| `Utils.WildcardReadsAsZero` | src/Utils.php:38-40 | Replacing an installed component by `x` or by `0` never changes the classification. |
| `Utils.NotGreaterBothWaysIffEqual` | src/Utils.php:25-54 | Two numeric versions are each not greater than the other exactly when they are the same version. |
| `Utils.NoMutualBump` | src/Utils.php:25-54 | If one numeric version is greater than another, the second is not greater than the first. |
| `Utils.DocumentedExamples` | src/Utils.php:19-25 | Concrete classifications: equal versions, a last-component bump, an earlier-component bump, an older remote, and a wildcard installed version. |
| `OxideComposer.Message` | src/OxideComposer.php:14-304 | Each exception text names what the error is about: the manifest, the composer folder, the ledger path, the path that could not be saved, written or backed up, or the plugin id (the plugin-site texts of src/Oxide.php:51-69 included). |
| `OxideComposer.ReadLedger` | src/OxideComposer.php:85-100 | A missing ledger reads as empty. Reading fails exactly when the file is unparsable, and then with the invalid-ledger error. |
| `OxideComposer.SignInWith` | src/OxideComposer.php:159-174 | Sign-in succeeds exactly when login, user and password are all set and the site accepts them. With one of them missing it fails with the missing-login error and makes no call. Otherwise it makes one sign-in call, and a rejection is the login-failed error. |
| `OxideComposer.Record` | src/OxideComposer.php:307-313 | The ledger gains the plugin's id and no other key. The plugin's entry takes the remote version and keeps its first-install time, or gets the current time if it is new. Every other entry is unchanged. |
| `OxideComposer.Select` | src/OxideComposer.php:212-235 | The selection makes only site fetches, at most one per manifest plugin. On success it fetched every one of them and selected at most that many. |
| `OxideComposer.Apply` | src/OxideComposer.php:260-270 | Each candidate costs at most two calls, its download and its write. A successful loop made exactly two calls per candidate. |
| `OxideComposer.CheckForUpdates` | src/OxideComposer.php:205-235 | The site is asked about plugins only after a successful sign-in. |
| `OxideComposer.BackupAndApply` | src/OxideComposer.php:246-274 | The second half of an update succeeds only when `zip` printed at least three lines, and then reports exactly the candidates' ids. |
| `OxideComposer.Update` | src/OxideComposer.php:203-275 | An up-to-date result means the update made only the calls of its check. A reported update names at least one plugin. |
| `OxideComposer.InstalledFilePath` | src/OxideComposer.php:67-69 | The ledger lives at `composer/installed.json`. |
| `OxideComposer.BackupFilePath` | src/OxideComposer.php:76-78 | The backup path is the backups folder, then the date unchanged, then `.zip`. |
| `OxideComposer.PluginFilePath` | src/OxideComposer.php:298 | A plugin file goes under the server folder's `plugins/` with the downloaded file name unchanged. |
| `OxideComposer.Open` | src/OxideComposer.php:12-37 | Loading succeeds exactly when the manifest exists and parses, the composer folder exists or can be made, `zip` is present and the ledger is absent or parses. A missing ledger loads as empty. The checks run in source order: a missing manifest fails with not-found; then a folder that neither exists nor can be made fails with the folder error; then a missing `zip` fails with the dependency error; and only then are the manifest and the ledger parsed. |
| `OxideComposer.InstallPlugin` | src/OxideComposer.php:282-314 | Succeeds exactly when the download has a non-empty body and file name and the target is writable. An empty download fails with no write. On success only the plugin's own entry changes: its version becomes the remote one, and its time is kept if the entry existed, else set to now. |
| `OxideComposer.Install` | src/OxideComposer.php:181-185 | An id the manifest already lists is refused with no call on any collaborator. |
| `ComposerFacts.InstallSequence` | src/OxideComposer.php:181-196 | A successful install signs in, fetches, downloads, writes, saves the manifest with `id -> false` appended, and then saves a ledger recording the plugin; these six calls, in that order. |
| `ComposerFacts.InstallSavesAfterWrite` | src/OxideComposer.php:187-194 | In any install, the manifest is saved only right after the plugin file was written, and the ledger only right after the manifest. |
| `ComposerFacts.InstallSavesOnlyAfterSuccess` | src/OxideComposer.php:187-194 | The manifest is saved only if the site described the plugin and installing it succeeded. The ledger is saved only if the manifest could be written. |
| `ComposerFacts.InstallKeepsLedgerWithinManifest` | src/OxideComposer.php:187-194 | If the ledger only names manifest plugins before an install, the saved ledger only names plugins of the saved manifest, which still has unique ids. |
| `ComposerFacts.SelectFetchesInOrder` | src/OxideComposer.php:214-218 | The selection fetches the manifest's plugins in file order and stops at the first one the site cannot describe. |
| `ComposerFacts.SelectSucceedsIffAllFound` | src/OxideComposer.php:214-218 | The selection succeeds exactly when the site describes every manifest plugin. |
| `ComposerFacts.SelectSound` | src/OxideComposer.php:214-235 | Every selected plugin is the site's description of a manifest plugin that is wanted. |
| `ComposerFacts.SelectComplete` | src/OxideComposer.php:214-235 | Every wanted manifest plugin is selected. |
| `ComposerFacts.SelectKeepsManifestOrder` | src/OxideComposer.php:214-234 | With unique manifest ids, the candidates appear in manifest order. |
| `ComposerFacts.SelectDistinct` | src/OxideComposer.php:214-234 | With unique manifest ids, no plugin is selected twice. |
| `ComposerFacts.UnrecordedPluginIsCandidate` | src/OxideComposer.php:220-223 | A manifest plugin with no ledger entry is always a candidate. |
| `ComposerFacts.CandidateIsWanted` | src/OxideComposer.php:225-234 | A selected plugin is the site's description of its manifest entry and passes the candidacy rule for that entry's flag. |
| `ComposerFacts.CandidateIffWanted` | src/OxideComposer.php:220-234 | A manifest plugin is selected exactly when it passes the candidacy rule. |
| `ComposerFacts.RecordedPluginCandidacy` | src/OxideComposer.php:225-234 | A plugin with a ledger entry is a candidate exactly when the classifier says minor, or major with its manifest flag set. |
| `ComposerFacts.SelectedWithinManifest` | src/OxideComposer.php:214-235 | Only manifest plugins are selected. |
| `ComposerFacts.CheckReadsOnly` | src/OxideComposer.php:205-235 | Signing in and selecting make only read calls. They succeed exactly when both steps do, and then yield the selection. |
| `ComposerFacts.UpdateHalves` | src/OxideComposer.php:237-240 | An update is its check followed by backup-and-apply. Without candidates it stops after the check, and its result is up-to-date or the check's failure. |
| `ComposerFacts.UpdateUpToDateTouchesNothing` | src/OxideComposer.php:237-240 | An update reports up-to-date exactly when sign-in works and nothing is selected; then it only read. |
| `ComposerFacts.InstallPluginIds` | src/OxideComposer.php:282-305 | Installing one plugin downloads it once and writes it at most once, and only when the download is usable. |
| `ComposerFacts.ApplyOnlyInstalls` | src/OxideComposer.php:260-270 | The apply loop only downloads and writes plugin files. |
| `ComposerFacts.ApplyDownloadsPrefix` | src/OxideComposer.php:260-270 | The plugins the apply loop downloads are a prefix of the candidates. |
| `ComposerFacts.ApplyWritesPrefix` | src/OxideComposer.php:260-270 | The plugins the apply loop writes are a prefix of the ones it downloads. |
| `ComposerFacts.ApplyTouchesPrefix` | src/OxideComposer.php:260-270 | The plugins written are a prefix of those downloaded, and those are a prefix of the candidates. |
| `ComposerFacts.ApplyWritesAll` | src/OxideComposer.php:260-270 | A successful apply loop writes exactly the candidates, in order. |
| `ComposerFacts.ApplyFailureNamesLast` | src/OxideComposer.php:260-270 | A failed apply loop fails at the last plugin it downloaded, with that plugin's download error or a write error. |
| `ComposerFacts.ApplySucceedsIffAllInstallable` | src/OxideComposer.php:260-270 | The apply loop succeeds exactly when every candidate can be downloaded and its file written. |
| `ComposerFacts.ApplyFailsAtUninstallable` | src/OxideComposer.php:260-270 | A failed apply loop failed at the last plugin it downloaded, and that plugin cannot be installed. |
| `ComposerFacts.ApplyEarlierInstallable` | src/OxideComposer.php:260-270 | Every candidate the apply loop downloaded before the last one can be installed. |
| `ComposerFacts.ApplyWritesAllButLast` | src/OxideComposer.php:260-270 | Every plugin the apply loop downloads is also written, except possibly the last one. |
| `ComposerFacts.ApplyFailsFast` | src/OxideComposer.php:260-270 | The apply loop installs the candidates in order and stops at the first one that fails. Every earlier candidate could be installed and was written. The failing one cannot be installed and is named by a download or write error. No later candidate was touched. On success every candidate was written. |
| `ComposerFacts.ApplyKeepsOthers` | src/OxideComposer.php:308-313 | A successful apply loop leaves the ledger entries of non-candidates unchanged. |
| `ComposerFacts.ApplyRecordsEach` | src/OxideComposer.php:308-313 | With distinct candidates, each one ends with the remote version, its time kept if it had an entry, else now. |
| `ComposerFacts.ApplyRecordsCandidates` | src/OxideComposer.php:260-270 | With distinct candidates, the ledger after a successful apply records every candidate and keeps everything else. |
| `ComposerFacts.ApplyKeys` | src/OxideComposer.php:308-313 | A successful apply loop adds exactly the candidates to the ledger's keys. |
| `ComposerFacts.BackupAndApplyShape` | src/OxideComposer.php:246-272 | The second half of an update starts with the backup, touches only plugin files and the ledger after it, and saves the ledger last, as the applied ledger. |
| `ComposerFacts.BackupAndApplyOutcome` | src/OxideComposer.php:250-274 | Fewer than three lines from `zip` fail with the backup error after the backup call alone. Any other failure except a failed ledger write leaves no ledger save. Success reports the candidates' ids and ends with saving the applied ledger. |
| `ComposerFacts.BackupAndApplyWrites` | src/OxideComposer.php:260-270 | The second half of an update writes a prefix of the candidates, and all of them on success. |
| `ComposerFacts.BackupAndApplyBacksUpFirst` | src/OxideComposer.php:246-270 | The second half of an update makes exactly one backup, before any change. |
| `ComposerFacts.UpdateBacksUpFirst` | src/OxideComposer.php:237-270 | An update backs up at most once, before any change. It backs up exactly when sign-in and selection succeed with at least one candidate. |
| `ComposerFacts.UpdateBackupGate` | src/OxideComposer.php:250-254 | When `zip` prints fewer than three lines, the update changes nothing. If it got as far as the backup, it fails with the backup error right there. |
| `ComposerFacts.UpdateWritesCandidatePrefix` | src/OxideComposer.php:260-270 | An update writes a prefix of its candidates, nothing if the check failed. A reported update wrote exactly the candidates and names them. |
| `ComposerFacts.UpdateSavesLedgerLast` | src/OxideComposer.php:272 | A ledger save is the update's last call, happens only after every candidate succeeded, and saves the applied ledger. Any failure other than that save leaves no ledger save. |
| `ComposerFacts.UpdateSavesAppliedLedger` | src/OxideComposer.php:260-272 | A reported update ends by saving a ledger that records every candidate and keeps every other entry. |
| `ComposerFacts.UpdateKeepsLedgerWithinManifest` | src/OxideComposer.php:260-272 | If the ledger only names manifest plugins, so does every ledger an update saves. |
| `ComposerFacts.BackupPathsDistinct` | src/OxideComposer.php:76-78 | Different dates give different backup paths, and no backup path is the ledger or the manifest. |
| `ComposerFacts.PluginPathsDistinct` | src/OxideComposer.php:298 | Different file names give different plugin paths in the same server folder. |
| `CommandLine.WithDefault` | src/CommandLine.php:28-30 | With no command word the command becomes `help`; otherwise the arguments are unchanged. |
| `CommandLine.ParseOptions` | src/CommandLine.php:58-75 | A leading word starting with `-` is removed and the rest shift down by one; any other leading word leaves the arguments unchanged. Debugging is on exactly for `-d`. |
| `CommandLine.Lookup` | src/CommandLine.php:34-51 | Each of the four command words selects its handler; `install` takes the next word as its id when there is one; any other word, or none, selects help. |
| `CommandLine.Init` | src/CommandLine.php:26-52 | Debugging is on exactly when the first word is `-d`; with no words at all the help page is chosen. |
| `CommandLine.InitReadsCommandLine` | src/CommandLine.php:26-75 | Every invocation is reachable: the command line built from it is parsed back to exactly it. |
| `CommandLine.OptionIsStripped` | src/CommandLine.php:58-75 | A leading option is invisible to dispatch, which picks what it would pick without the option. Only `-d` has an effect: it turns debugging on. |
| `CommandLine.SecondOptionIsHelp` | src/CommandLine.php:58-75 | Only one option is stripped: a second one is taken as the command word and selects help. |
| `CommandLine.UnknownWordIsHelp` | src/CommandLine.php:49-51 | A first word outside the table selects help without debugging. |
| `CommandLine.Report` | src/CommandLine.php:87-91 | With debugging a failure shows its full trace. Without it, the failure is always displayed, as its message inside a red tag, from which the message can be recovered. |
| `CommandLine.Conclude` | src/CommandLine.php:104-115 | A handler shows nothing more on success, and on failure shows the report of the very error the operation raised. |
| `CommandLine.Execute` | src/CommandLine.php:80-142 | Help and about only print. `validate` shows the green confirmation exactly when the manager loads. A manager that fails to load is reported with no call made. Otherwise `install` and `update` run and their failure is reported. |
| `CommandLine.DebugOnlyChangesReport` | src/CommandLine.php:80-135 | The debug flag changes neither the calls made nor success. It only changes a failure's presentation from the red message to the trace. |

## Left out

- Output through `Utils::p` and `display` is not modelled. This covers the progress lines ("Checking ...", "Updating ...", "Done") and the colour-code replacement on tagged text. `Output.Display` carries the text before colouring.
- The help banner is the `HelpPage` constructor; its text is not reproduced.
- The `__toString` form of an exception (class, file, line, stack) is `Output.Trace(error)`.
- `exit` after a reported failure is implicit: a handler does nothing after reporting.
- The `.zip` branch of `installPlugin` (src/OxideComposer.php:293-296) is not modelled. It compares the array `pathinfo` returns with the string `"zip"`, which PHP never finds equal. The branch is therefore unreachable, and every download is written as-is, as the model does.
- `cleanTmpFolder` (src/OxideComposer.php:54-61) is not modelled. It removes and re-creates `composer/tmp/` with PHP's `rmdir` and `mkdir`, a folder only the unreachable `.zip` branch would use.
- `runCommand` is not modelled. It runs `zip` through the shell; the backup's outcome is the `zipLines` input.
- The constructor's file-system calls are not effects. These are `file_exists`, `is_dir`, `mkdir` of the composer folder and of its `backups` folder, `which zip`, and the JSON reads. `Open` sees their outcomes as the fields of `Disk`. The `backups` folder's creation, whose result the source ignores, is not modelled at all.
- The clock is read once per run, as `Env.now` (and `Env.stamp` for the backup name). The source calls `date()` on each new ledger entry (src/OxideComposer.php:310), so in the model all plugins newly recorded by one update share one time.
- `json_encode`/`json_decode` and file contents are not modelled. A JSON file is missing, unparsable (including PHP's `empty` result) or parsed; a save succeeds unless its path is unwritable.
- The internals of `Oxide` (src/Oxide.php) are not modelled: HTTP, the cookie-based login cache, the HTML scraping and the header callback. `getPlugin`'s three outcomes come from the `pages` input, the download from `payloads`, and login from `loginAccepted`.
- PHP's loose `<`/`>` between numeric strings is modelled as comparison of naturals. Remote versions match `[0-9.]+`, so their components are digit strings. An empty remote component (as in `1..2`) is not modelled.
- The installed version's components are a number or `x`. Other text in the ledger is not modelled.
- The early exit of `isGreater` compares the two version strings. The model compares the installed version with the remote one written in ledger form. Leading zeros and PHP's numeric-string equality are not modelled.
- `Utils.Contains`: an empty needle is found, as in PHP 8; PHP 7's `strpos` returns `false` for it.
- A missing install id is PHP null. The manager is then run with the empty string, which is what null becomes as a property name and in string interpolation.
- The `about` text is modelled as a constant; `help` only as `HelpPage`.
- The order in which PHP objects keep their properties is modelled as the manifest's sequence order. Duplicate manifest ids, which a JSON object cannot hold after decoding, are excluded by `UniqueIds` where it matters.
