# CloudTest plug-in for Jenkins: a Dafny model of its build steps

This project models the decision logic of two build steps of the SOASTA CloudTest plug-in for
Jenkins, and proves properties of that model.

**"Play Composition(s)" (`TestCompositionRunner`).** The composition field is expanded with the
build's environment and split into composition names on runs of CR and LF. Each name is played
with SCommand: the play command line is the SCommand connection arguments, then `cmd=play`,
`wait`, `format=junitxml` and `name=<composition>`, then one `validation=` token per transaction
threshold, then the user's extra option tokens, then the CSV directory when plot CSVs are
wanted. Its JUnit XML output goes to the path `<results dir>/<composition>.xml`, with one leading `/`
removed from the composition, where the results directory is
`.com.soasta.jenkins.TestCompositionRunner`. An empty result file ends
the whole step at once. After a non-empty one the composition's old results are deleted
(`cmd=delete type=result path=<c> maxage=<days>`) when cleanup is on. When every composition
was played, the results directory is handed to the JUnit archiver with the pattern
`<results dir>/**/*.xml`.

The configuration record is modelled too:
- the setter that keeps the three delete-old-results fields consistent;
- the one-time migration of configurations saved by older versions, which named the server by
  URL (`readResolve`);
- the two form checks;
- the autocompletion of composition names from the output of `scommand list`.

**"Make App TouchTestable" (`MakeAppTouchTestable`).** The server is looked up by URL; a missing
server aborts the step. Otherwise the tool is run with Java (the project's JDK, or `java` from
the path), in this order:
- `-jar <jar> -overwriteapp -project <p> -url <url> -username <u> -password <pw>`, with the
  password masked;
- `-target` and `-launchURL` when they are given;
- the user's options.

The step succeeds exactly when the tool exits with 0.

Each step is a pure function. Its inputs are the configuration, a context record holding the
library calls it makes, and an oracle for whatever it observes from the outside world: which
result files came out empty, the exit code, the listing output. Its output describes what it
does: the sequence of launches with their command lines and result files, whether it archived,
and how it ended.

Modules (one file each):
- `Wrappers`: `Option` and `Result`.
- `JavaStrings`: `trim()`, `Integer.parseInt` and the decimal text of an `int`.
- `JavaLines`: `String.split("[\r\n]+")` and `BufferedReader.readLine`.
- `ArgumentList`: command-line tokens, masked or not.
- `CloudTestServers`: the server registry, modelled as an abstract lookup.
- `TestCompositionRunner`: the configuration record, its setters and `readResolve`.
- `CompositionPlay`: `perform`.
- `CompositionDescriptor`: the form checks and the autocompletion.
- `MakeAppTouchTestable`.
- `Scenarios`: concrete runs.

Two behaviours of the code that a reader might not expect:
- **Option order.** The user's option tokens come before the `outputthresholdcsvdir=` token
  (`TestCompositionRunner.java:195-201`).
- **Leading line break.** `split` keeps a leading empty piece, so a composition field that
  starts with a line break plays a composition with the empty name first
  (`Scenarios.LeadingBreakGivesEmptyName`). The number of plays is therefore the number of
  pieces `split` yields, not the number of non-empty lines.

## Model

| member | source | states |
|---|---|---|
| JavaStrings.TrimKeepsMiddle | src/main/java/com/soasta/jenkins/TestCompositionRunner.java:283 | `trim()` keeps one contiguous slice of the string, which starts and ends above U+0020 when it is not empty |
| JavaStrings.TrimDropsOnlyBlanks | src/main/java/com/soasta/jenkins/TestCompositionRunner.java:283 | what `trim()` removes lies only before and after that slice and consists only of characters at most U+0020 |
| JavaStrings.BlankIff | src/main/java/com/soasta/jenkins/TestCompositionRunner.java:283 | `value.trim().isEmpty()` holds exactly when every character of the value is at most U+0020 |
| JavaStrings.ParseInt | src/main/java/com/soasta/jenkins/TestCompositionRunner.java:300 | `Integer.parseInt` accepts a string exactly when it is an optional `+` or `-` followed by one or more ASCII digits whose value fits in an `int`, and returns that value |
| JavaStrings.SignAndZerosKeepValue | src/main/java/com/soasta/jenkins/TestCompositionRunner.java:300 | a `+` sign and leading zeros are accepted and do not change the value: `+7`, `007` and `7` parse alike, and so do `-007` and `-7` |
| JavaStrings.IntToString | src/main/java/com/soasta/jenkins/TestCompositionRunner.java:223 | the text an `int` concatenates to is a `-` exactly for a negative number, then the decimal digits of its magnitude with no leading zero (`0` alone for zero), so `7` gives `7` and never `+7` or `07` |
| JavaStrings.IntRoundTrip | src/main/java/com/soasta/jenkins/TestCompositionRunner.java:223 | the decimal text Java writes for an `int` parses back to that `int` |
| JavaStrings.ParsedIsNotBlank | src/main/java/com/soasta/jenkins/TestCompositionRunner.java:296-300 | a string `parseInt` accepts is never blank, so a number never reaches the "required" error |
| JavaLines.SplitLines | src/main/java/com/soasta/jenkins/TestCompositionRunner.java:157 | no composition name contains CR or LF, and only the first one can be empty |
| JavaLines.SplitOfJoinWith | src/main/java/com/soasta/jenkins/TestCompositionRunner.java:157 | names separated by any runs of CR and LF (CRLF, blank lines) and followed by an optional run split back into exactly those names, except that a text of breaks only gives no name |
| JavaLines.SplitLinesKeepsText | src/main/java/com/soasta/jenkins/TestCompositionRunner.java:157 | splitting loses nothing but the line breaks: the names put together are the field with CR and LF removed |
| JavaLines.SplitLinesEmptyIff | src/main/java/com/soasta/jenkins/TestCompositionRunner.java:157 | the split is empty exactly when the field is non-empty and made only of line breaks (`""` gives one empty name) |
| JavaLines.ReadLines | src/main/java/com/soasta/jenkins/TestCompositionRunner.java:328-331 | no line read contains CR or LF, and there are no more lines than characters |
| JavaLines.ReadLinesOfTerminated | src/main/java/com/soasta/jenkins/TestCompositionRunner.java:328-331 | lines each ended by its own LF, CR or CRLF, then an optional unterminated last line, are read back exactly, provided no lone CR is followed by an empty line ended by LF (those two would read as one CRLF); an empty last line adds no line |
| TestCompositionRunner.NewRunner | src/main/java/com/soasta/jenkins/TestCompositionRunner.java:60-64 | the data-bound constructor sets the ID and composition and leaves every other field at its Java default |
| TestCompositionRunner.SetDeleteOldResultsSettings | src/main/java/com/soasta/jenkins/TestCompositionRunner.java:108-114 | cleanup is on exactly when a settings block is given, the age is the block's or 0, the three fields agree, and no other field changes |
| TestCompositionRunner.SetThresholds | src/main/java/com/soasta/jenkins/TestCompositionRunner.java:70-74 | stores the threshold list and changes no other field |
| TestCompositionRunner.SetAdditionalOptions | src/main/java/com/soasta/jenkins/TestCompositionRunner.java:92-96 | stores the options field and changes no other field |
| TestCompositionRunner.SetGeneratePlotCSV | src/main/java/com/soasta/jenkins/TestCompositionRunner.java:102-106 | stores the CSV flag and changes no other field |
| TestCompositionRunner.SetUrl | src/main/java/com/soasta/jenkins/TestCompositionRunner.java:142-145 | stores the URL and changes no other field |
| TestCompositionRunner.ReadResolve | src/main/java/com/soasta/jenkins/TestCompositionRunner.java:121-147 | a runner with an ID is kept; a legacy one gets the ID of the server its URL names and keeps its composition, options, thresholds, CSV flag, URL and cleanup setting (with its age when on); an unknown URL is an error |
| TestCompositionRunner.ReadResolveIdempotent | src/main/java/com/soasta/jenkins/TestCompositionRunner.java:121-123 | migrating a migrated runner changes nothing |
| TestCompositionRunner.ConfiguredRunnerIsConsistent | src/main/java/com/soasta/jenkins/TestCompositionRunner.java:60-114 | a runner bound by the constructor and the setters holds every value given and keeps the delete fields consistent |
| CompositionPlay.ValidationTokens | src/main/java/com/soasta/jenkins/TestCompositionRunner.java:170-176 | one `validation=` token per threshold, in list order, and none when the list is `null` |
| CompositionPlay.PlayFrom | src/main/java/com/soasta/jenkins/TestCompositionRunner.java:163-215 | the loop launches nothing without compositions, and otherwise begins with the play of the first one |
| CompositionPlay.PerformOnBuild | src/main/java/com/soasta/jenkins/TestCompositionRunner.java:247-256 | without a workspace nothing is launched and the step fails; with one it runs the step there and succeeds |
| CompositionPlay.FirstEmpty | src/main/java/com/soasta/jenkins/TestCompositionRunner.java:211-215 | the count of compositions played before the first empty result: all before it are non-empty, and the one at the count is empty |
| CompositionPlay.PlayFromPlays | src/main/java/com/soasta/jenkins/TestCompositionRunner.java:163-215 | the compositions played are the names in order, duplicates kept, up to and including the first empty result |
| CompositionPlay.PlayFromDeletes | src/main/java/com/soasta/jenkins/TestCompositionRunner.java:211-232 | old results are deleted, in order, for exactly the compositions before the first empty result, and only when cleanup is on |
| CompositionPlay.PlayFromStops | src/main/java/com/soasta/jenkins/TestCompositionRunner.java:211-215 | the loop stops early exactly when some play is empty, and then its last launch is that play |
| CompositionPlay.PlayFromDeletesFollowPlays | src/main/java/com/soasta/jenkins/TestCompositionRunner.java:211-232 | every delete directly follows the play of the same composition |
| CompositionPlay.PlayFromLaunchedBy | src/main/java/com/soasta/jenkins/TestCompositionRunner.java:163-231 | every launch of the loop is the play of its own composition or one of that composition's cleanup launches |
| CompositionPlay.PlayFromAgree | src/main/java/com/soasta/jenkins/TestCompositionRunner.java:163-233 | the loop depends on the runner only through how it plays and cleans up each composition |
| CompositionPlay.PlayFromStopsAt | src/main/java/com/soasta/jenkins/TestCompositionRunner.java:211-215 | when the k-th play is the first empty one, the loop plays the first k+1 names, cleans up after the first k when on, and ends early on that play |
| CompositionPlay.PerformPlaysEveryComposition | src/main/java/com/soasta/jenkins/TestCompositionRunner.java:157-244 | `Perform`: with no empty result, every name is played once in order, each followed by a delete exactly when cleanup is on, and the results are archived |
| CompositionPlay.PerformStopsAtFirstEmptyOutput | src/main/java/com/soasta/jenkins/TestCompositionRunner.java:211-215 | when the k-th play is the first empty one, only the first k+1 names are played, deletes follow only the first k, the empty play is the last launch, and nothing is archived |
| CompositionPlay.PerformArchivesIff | src/main/java/com/soasta/jenkins/TestCompositionRunner.java:237-244 | archiving happens exactly when no play is empty, and always with the `/**/*.xml` pattern under the results directory |
| CompositionPlay.PerformInvocationsWellFormed | src/main/java/com/soasta/jenkins/TestCompositionRunner.java:163-233 | every launch of the step has its composition's command line, and every delete follows its composition's play |
| CompositionPlay.PerformOnlyLineBreaks | src/main/java/com/soasta/jenkins/TestCompositionRunner.java:157-163 | a field of line breaks only plays nothing and still archives |
| CompositionPlay.PlayArgsShape | src/main/java/com/soasta/jenkins/TestCompositionRunner.java:164-201 | `PlayArgs`, the play command line, is the SCommand arguments, then exactly `cmd=play`, `wait`, `format=junitxml`, `name=<c>`, then one token per threshold and per option, then `outputthresholdcsvdir=<workspace>` as the last token when plot CSVs are wanted; nothing after the SCommand arguments is masked |
| CompositionPlay.PlayArgsValidation | src/main/java/com/soasta/jenkins/TestCompositionRunner.java:170-176 | counting from 0, the `i`-th token after `name=<c>` is `validation=` followed by the `i`-th threshold's SCommand rendering, so the validations follow the threshold list in order |
| CompositionPlay.PlayArgsOption | src/main/java/com/soasta/jenkins/TestCompositionRunner.java:195-197 | the user's `i`-th option token comes right after the validations, at offset `i`, unchanged and unmasked |
| CompositionPlay.DeleteArgsShape | src/main/java/com/soasta/jenkins/TestCompositionRunner.java:219-223 | `DeleteArgs`, the delete command line, is the SCommand arguments, `cmd=delete`, `type=result`, `path=c` and a `maxage=` token whose number reads back as the configured age |
| CompositionPlay.ResultFileShape | src/main/java/com/soasta/jenkins/TestCompositionRunner.java:178-187 | `ResultFile` is the results directory, the separator, the composition with one leading `/` removed, then `.xml` (appending `.xml` before stripping changes nothing) |
| CompositionPlay.ResultFileInResultsDir | src/main/java/com/soasta/jenkins/TestCompositionRunner.java:153-187 | every result path, as a string, starts with the results directory and the separator and ends in `.xml` |
| CompositionPlay.ResultFileSameIff | src/main/java/com/soasta/jenkins/TestCompositionRunner.java:178-187 | the result paths of two compositions, as strings, coincide exactly when the names are equal once one leading `/` is removed |
| CompositionPlay.ResultFileStripsOnce | src/main/java/com/soasta/jenkins/TestCompositionRunner.java:182-184 | only one leading `/` is removed: `//x` is stored as `/x.xml` |
| CompositionPlay.MigrationKeepsExecution | src/main/java/com/soasta/jenkins/TestCompositionRunner.java:121-147 | given the same SCommand connection arguments, a legacy configuration and its migrated form launch and archive the same way |
| CompositionDescriptor.CheckComposition | src/main/java/com/soasta/jenkins/TestCompositionRunner.java:282-288 | the check fails, with "Composition name is required.", exactly when the value is `null` or blank |
| CompositionDescriptor.CheckMaxDaysOfResults | src/main/java/com/soasta/jenkins/TestCompositionRunner.java:295-311 | the check passes exactly on a positive `int`; it says "required" exactly for `null` or blank, "numeric" exactly for other text `parseInt` refuses, and "> 0" exactly for a parsed value of 0 or less |
| CompositionDescriptor.PaddedNumberIsNotNumeric | src/main/java/com/soasta/jenkins/TestCompositionRunner.java:296-308 | a number with a leading blank is reported as not numeric, because the untrimmed value is parsed |
| CompositionDescriptor.SmallNumbers | src/main/java/com/soasta/jenkins/TestCompositionRunner.java:300-306 | `5` passes and `0` is refused as not positive |
| CompositionDescriptor.ListArgs | src/main/java/com/soasta/jenkins/TestCompositionRunner.java:316-323 | the listing command is the SCommand path, `list`, `type=composition`, `url=<url>`, `username=<user>`, then a masked `password=<pw>` exactly when the server has a password; that token is the only masked one |
| CompositionDescriptor.ListArgsNameServer | src/main/java/com/soasta/jenkins/TestCompositionRunner.java:316-323 | two servers get the same listing command exactly when they agree on URL, user name and password |
| CompositionDescriptor.DropSummariesCounts | src/main/java/com/soasta/jenkins/TestCompositionRunner.java:331-334 | every listing line not ending in `object(s) found.` is kept as often as it occurs, and no line ending in it is kept |
| CompositionDescriptor.DropSummariesInOrder | src/main/java/com/soasta/jenkins/TestCompositionRunner.java:331-334 | the kept lines appear in the order the listing gives them |
| CompositionDescriptor.DropOnlySummaries | src/main/java/com/soasta/jenkins/TestCompositionRunner.java:331-334 | names followed by summary lines filter down to exactly the names |
| CompositionDescriptor.Candidates | src/main/java/com/soasta/jenkins/TestCompositionRunner.java:326-337 | a non-zero exit offers nothing; exit 0 offers the lines read from the output without the summary lines |
| CompositionDescriptor.AutoCompleteComposition | src/main/java/com/soasta/jenkins/TestCompositionRunner.java:313-338 | an unknown server ID fails; otherwise the listing is launched for that server and its candidates are returned |
| CompositionDescriptor.CandidatesOfListing | src/main/java/com/soasta/jenkins/TestCompositionRunner.java:328-335 | a listing of names and then summary lines, each ended by LF, CR or CRLF, then an optional unterminated last line, offers exactly the names in order, plus the last line when it is neither empty nor a summary |
| MakeAppTouchTestable.JavaCommand | src/main/java/com/soasta/jenkins/MakeAppTouchTestable.java:70-74 | the launcher is `<JDK home>/bin/java` when the project has a JDK, else `java` |
| MakeAppTouchTestable.OptionalPair | src/main/java/com/soasta/jenkins/MakeAppTouchTestable.java:91-94 | a flag and its expanded value are added exactly when the field is neither `null` nor blank, and neither is masked |
| MakeAppTouchTestable.Perform | src/main/java/com/soasta/jenkins/MakeAppTouchTestable.java:68-100 | the step aborts exactly when no server has its URL; it dereferences `null` exactly when that server has no password; otherwise it launches the tool with the server's credentials and succeeds exactly on exit code 0 |
| MakeAppTouchTestable.FixedArgsShape | src/main/java/com/soasta/jenkins/MakeAppTouchTestable.java:69-89 | the first twelve tokens are the launcher, `-jar` and the jar, `-overwriteapp`, `-project` and the expanded project, `-url`, `-username` and `-password` with the server's values |
| MakeAppTouchTestable.TrailingArgsShape | src/main/java/com/soasta/jenkins/MakeAppTouchTestable.java:91-96 | next come the `-target` pair if given, then the `-launchURL` pair if given, then the option tokens, none masked |
| MakeAppTouchTestable.ToolArgsShape | src/main/java/com/soasta/jenkins/MakeAppTouchTestable.java:84-96 | `ToolArgs`, the command line, is the twelve fixed tokens followed by the trailing ones, and the password is its only masked token |
| MakeAppTouchTestable.PasswordOnlyMasked | src/main/java/com/soasta/jenkins/MakeAppTouchTestable.java:89 | whenever the tool is launched, the server's password is the twelfth token, masked, and no other token is masked |
| Scenarios.TwoLinesSplit | src/main/java/com/soasta/jenkins/TestCompositionRunner.java:157 | `Folder/CompA` and `Folder/CompB` on two lines split into those two names |
| Scenarios.CrLfSplit | src/main/java/com/soasta/jenkins/TestCompositionRunner.java:157 | `Folder/CompA` and `Folder/CompB` separated by CRLF split into those two names, with or without trailing blank lines |
| Scenarios.TwoCompositionsWithCleanup | src/main/java/com/soasta/jenkins/TestCompositionRunner.java:157-244 | with those two names, cleanup on and no empty result, both are played and cleaned up in order and the results are archived |
| Scenarios.LeadingBreakGivesEmptyName | src/main/java/com/soasta/jenkins/TestCompositionRunner.java:157 | a field beginning with a line break yields an empty first name |
| Scenarios.DeleteAfterThirtyDays | src/main/java/com/soasta/jenkins/TestCompositionRunner.java:221-223 | a 30-day limit gives the token `maxage=30` |
| Scenarios.LeadingSlashResultFile | src/main/java/com/soasta/jenkins/TestCompositionRunner.java:178-187 | `/Folder/CompA` is stored as `Folder/CompA.xml` in the results directory |
| Scenarios.ListingOffersNames | src/main/java/com/soasta/jenkins/TestCompositionRunner.java:328-335 | two names ended by CRLF and LF, then an unterminated summary line, offer the two names |

## Left out

- Process launching, output redirection, `FilePath` writes and `mkdirs`. The model records each launch and its result file instead. Whether a result file is empty is an oracle `emptyOutput` indexed by the composition's position. The tool's exit codes and the listing's output are parameters.
- The JUnit archiver, `SCommandInstaller`, `MakeAppTouchTestableInstaller` and the internals of `CloudTestServer`. The archiver is recorded as the pattern it is given. The installed SCommand path and the installed tool directory are parameters. The registry is an abstract map from ID, and from URL, to a server. `CloudTestServer.get(url)` is taken to look a server up by URL, as `getByURL` does.
- `EnvVars.expand`, `QuotedStringTokenizer`, `getSCommandArgs` (in `AbstractSCommandBuilder`, which is not part of this model) and `TransactionThreshold.toScommandString`. Each is an uninterpreted function in the context record. `File.separator` and the workspace's printed path are parameters too.
- The threshold table printed to the build log (`TestCompositionRunner.java:258-267`), the logger, `getDisplayName`, the descriptor registration and the `synchronized` modifier on `install`: they affect only the log, the UI or concurrency.
- `getClass().getName()` is taken to be `com.soasta.jenkins.TestCompositionRunner`. A subclass would use its own name for the results directory.
- `InterruptedException` and `IOException` from the launches and file operations are not modelled. The steps are modelled as completing.
- A `null` composition field, and a `null` project file or options field in `MakeAppTouchTestable`, are outside the model. Those fields are plain strings here.
- `Util.fixEmptyAndTrim` in `getAdditionalOptions`. `perform` reads the field itself, and so does the model.
- The autocompletion's password token is `"password=" + s.getPassword()`. The model takes `Secret`'s string form to be the password text. Both the output charset and the `Secret` encoding are outside the model.
- JavaStrings.ParseInt: Java's `Integer.parseInt` also accepts non-ASCII Unicode decimal digits. The model accepts ASCII digits only, so CheckMaxDaysOfResults reports such input as not numeric.
- MakeAppTouchTestable.JavaCommand: a JDK whose home is `null` would give `null/bin/java`. The model takes a configured JDK to have a home.
- TestCompositionRunner.ReadResolve: the parent constructor (`AbstractSCommandBuilder`, not part of this model) is taken to leave the URL `null`. The migrated runner then gets the legacy URL back only when that URL is not `null`, which gives the same result.
- ReadResolveIdempotent and ConfiguredRunnerIsConsistent follow from the contracts of ReadResolve and the setters without further proof.
- CompositionPlay.ResultFileSameIff: compares result paths as strings. `FilePath` and the file system collapse repeated separators, so `//A` (path `<dir>//A.xml`) and `A` write the same file although their path strings differ.
- CompositionPlay.ResultFileInResultsDir: states a string prefix, not containment in the directory. Paths are not normalised, so a composition such as `../x` gives `<results dir>/../x.xml`, which names a file outside the results directory that the `<results dir>/**/*.xml` pattern does not archive.
- CompositionPlay.MigrationKeepsExecution: `getSCommandArgs` (in `AbstractSCommandBuilder`, not part of this model) is one context value shared by every runner, so the lemma does not say which server the connection arguments of either runner name.
