# asf: a verified model of the Azure Key Vault secret picker

asf is a terminal tool. It lists the key vaults of an Azure subscription and lets the
user pick vaults with the fuzzy finder fzf. It then lists the secrets in those vaults,
lets the user pick secrets and an operation, and runs that operation. The operations
are: list versions, fetch passwords, both of these, edit metadata, and delete. The
output of listing versions, fetching passwords, or both, becomes the next list of
secrets to pick from; edit metadata starts nothing, and delete ends the program. The
repository holds two snapshots of this program:

- the `internal/` package driven by `asf.go`;
- the older `src/` command, with `fzf.go` and `tableformatter.go` beside it.

This project models the decision and transformation rules of both snapshots in Dafny
and proves what they promise:

- **Operations** (`internal/operation.go`): the operation enum and its name and
  description table, the picker line of an operation, and the lookup by name.
- **Selector** (`internal/selector.go`): the vault, secret and operation pickers, the
  menu-visibility rule over the operation stack, and the matching of picked lines back
  to records.
- **Selection, Vaults, Secrets** (`internal/vault.go`, `internal/secret.go`): vault and
  secret records, their picker lines, the selection filters, and the streaming stages.
  The stages are GetSecrets, GetVersions, GetSecretPasswords and
  GetSecretPasswordsStream, modelled as loops that append to an output sequence.
- **Remote**: the Azure SDK as the code sees it. A `Directory` object answers every
  pager and every GetSecret call from fixed data. It keeps a ghost count of the pages
  fetched and a ghost log of the value requests.
- **Session** (`asf.go`): the interactive loop as a state machine. The operator's picker
  answers are inputs, one per round. The secret picker is `SelectSecrets` as written: it
  keeps every secret whose line matches a committed line.
- **Fzf, AsfFzf** (`fzf.go`, `src/fzf.go`): how an fzf run ended, and the parser of its
  output.
- **AsfVaults, AsfRun** (`src/vault.go`, `src/asf.go`): the nested-loop vault filter, the
  vault listing, FzfSelectOrExit, the accumulation of versions in the "list" branch, and
  the per-secret menu chosen by the number of picked secrets.
- **Table** (`tableformatter.go`): column widths in an array, a 2-D array of cells, and
  left-justified, tab-joined lines.
- **Text**: the Go `strings` functions the code relies on, namely `TrimSpace`, `Split`
  and `Join`, and the first field of a line.

Channels are modelled as the sequences they carry. A picker run is modelled by the
positions of the lines it committed (for `internal/`), or by the exit status and standard
output of the fzf process (for `fzf.go` and `src/`). `os.Exit` and `log.Fatalf` become
terminal outcomes that carry an exit status: 2 for `fzf.ExitError`, 1 for `log.Fatalf`.

## Model

| member | source | states |
|---|---|---|
| Operations.Ordinal | internal/operation.go:23-29 | every enumerated operation has an entry in the constant table `allOperations`, at its declaration position |
| Operations.TableComplete | internal/operation.go:10-33 | `Data` is defined for all five operations, each name is non-empty, and the five names are pairwise distinct |
| Operations.Lookup | internal/operation.go:41-46 | the search over the table returns an operation of the given name if one exists, and none if no operation has that name |
| Operations.GetOperationByName | internal/operation.go:39-47 | on success, the returned operation's name is the text before the first delimiter; on failure, the error carries that text and no operation has that name |
| Operations.FormatFZF | internal/operation.go:35-37 | an operation's picker line starts with its name followed by the delimiter; with Operations.RoundTrip, the line parses back to the operation |
| Operations.RoundTrip | internal/operation.go:35-47 | parsing `FormatFZF(Data(op), d)` with a non-empty `d` gives back `op` when `d` does not occur in the name part of the line |
| Operations.RoundTripSingleChar | internal/operation.go:35-47 | the round trip holds for every one-character delimiter that does not occur in the operation's name |
| Operations.DashDelimiterBreaksRoundTrip | internal/operation.go:35-47 | with the delimiter "-", the line of list-versions parses to the error "unknown operation list" |
| Operations.IgnoresRest | internal/operation.go:40 | only the text before the first delimiter is compared; whatever follows it does not change the result |
| Operations.LookupName | internal/operation.go:41-45 | looking up the name of any operation in the table finds that operation |
| Operations.NoBarInName | internal/operation.go:23-29 | no operation name contains the picker delimiter "\|" |
| Operations.NameLookup | internal/selector.go:127-139 | a bare menu entry (an operation's name) parses back to that operation with the delimiter "\|" |
| Text.TrimSpace | fzf.go:46 | the result has no white space at either end and is no longer than the input |
| Text.TrimSpaceFixesTrimmed | fzf.go:46 | trimming a string without surrounding white space leaves it unchanged |
| Text.TrimSpaceIdempotent | fzf.go:73-75 | trimming twice gives the same string as trimming once |
| Text.TrimSpaceEmptyIff | fzf.go:46-49 | the trimmed text is empty exactly when every character is white space |
| Text.IndexOfFirst | internal/operation.go:40 | the search finds the first occurrence of the separator, or reports that there is none |
| Text.Split | fzf.go:50 | a non-empty separator yields at least one part; the empty separator yields one part per character |
| Text.SplitStep | internal/vault.go:72 | splitting cuts at the first occurrence of the separator and splits the rest again, or returns the whole string when the separator is absent |
| Text.JoinSplit | fzf.go:65-77 | joining the parts of a split with the same separator restores the string |
| Text.SplitJoin | tableformatter.go:49-57 | splitting a join of parts that avoid a one-character separator gives the parts back |
| Text.FirstField | internal/vault.go:72 | `strings.Split(s, d)[0]`: the prefix of `s` up to the first occurrence of `d`, or all of `s` when `d` does not occur |
| Text.FirstFieldOfJoined | internal/vault.go:66-72 | the first field of `x + d + y` is `x` when `d` starts nowhere inside `x` |
| Text.FirstFieldSingleChar | internal/secret.go:179-185 | the first field of `x + d + y` is `x` for a one-character `d` that does not occur in `x` |
| Remote.Items | internal/vault.go:25-42 | a pager loop yields the items of every page in page order, and yields them exactly when no page fails |
| Remote.PagesRead | internal/vault.go:25-29 | a pager loop reads every page when none fails; otherwise it stops at the first failing page, which it has read |
| Remote.ItemsAppend | src/vault.go:35-43 | listing two runs of pages gives the items of the first run followed by those of the second, and fails when either run fails |
| Remote.Delivered | internal/secret.go:87-111 | the items a pager loop hands on before it ends: all of them when no page fails, those of the pages before the first failing one otherwise |
| Remote.DeliveredAppend | internal/secret.go:87-111 | over two runs of pages, the second run's items are handed on only when the first run has no failing page |
| Remote.PageStep | internal/vault.go:25-42 | one NextPage call either ends the loop with a failure or adds that page's items after those already gathered |
| Remote.Directory.constructor | internal/vault.go:23 | a fresh service answers from the given pages and values and has logged no calls |
| Remote.Directory.NextPage | internal/vault.go:26 | a NextPage call returns the next page and adds one to the page count |
| Remote.Directory.GetSecret | internal/secret.go:130 | a GetSecret call returns the stored value for the request and appends the request to the call log |
| Remote.Directory.Drain | src/vault.go:35-43 | draining a pager returns exactly the listing of its pages, together with the items read before a failing page, and fetches exactly the pages the loop reads |
| Selection.SelectedIds | internal/vault.go:70-74 | the first field of every selection line is among the selected IDs |
| Selection.SelectedIdsMember | internal/vault.go:70-74 | an ID is selected if and only if it is the first field of some selection line |
| Selection.FilterBySelection | internal/vault.go:69-83 | the loop keeps exactly the records whose ID is selected, in their original order |
| Selection.KeepIdsMembers | internal/vault.go:76-82 | a record is kept if and only if it is one of the input records and its ID is selected |
| Selection.KeepIdsCount | internal/vault.go:76-82 | a kept record occurs as often as it does in the input, so repeated selections do not duplicate it; a record that is not selected never occurs |
| Selection.KeepIdsOrder | internal/vault.go:76-82 | the kept records are an order-preserving subsequence of the input |
| Selection.SelectionRoundTrip | internal/vault.go:66-82 | with unique IDs, lines whose first field is the ID of a chosen record select exactly the chosen records |
| Vaults.CopyTags | internal/vault.go:34-39 | the copied tags are exactly the entries whose value pointer is not nil, each with its dereferenced value |
| Vaults.ListedVaults | internal/vault.go:33-41 | one Vault per listed item, in listing order, built from that item |
| Vaults.GetVaults | internal/vault.go:15-44 | the result is the concatenated page items converted to Vaults, or the failure when a page fails; the pages read are counted |
| Vaults.VaultsOfAppend | internal/vault.go:25-42 | listing two runs of pages gives the Vaults of the first run followed by those of the second |
| Vaults.LineNamesVault | internal/vault.go:66-72 | the first field of a vault's picker line is its ID when the delimiter does not occur in the ID |
| Vaults.FormatFZF | internal/vault.go:60-67 | a vault's picker line starts with its ID followed by the delimiter; with Vaults.LineNamesVault and Vaults.VaultSelectionRoundTrip, picking the lines of some vaults selects exactly those vaults |
| Vaults.FilterVaultsBySelection | internal/vault.go:69-83 | keeps, in listing order, exactly the vaults whose ID is the first field of some selection |
| Vaults.VaultSelectionRoundTrip | internal/vault.go:60-83 | filtering by the picker lines of some chosen vaults gives back exactly those vaults, given unique IDs free of the delimiter |
| Secrets.ListedSecrets | internal/secret.go:44-70 | one Secret per listed item, in page order, with the vault's ID, name and version composed into its ID, and "latest" for an empty version |
| Secrets.ListedVersions | internal/secret.go:92-111 | one Secret per listed version, in page order, with its ID composed from the vault, name and version |
| Secrets.SecretsOfStops | internal/secret.go:39-43 | once listing a vault fails, no later vault changes the result or the page count |
| Secrets.ListVault | internal/secret.go:44-70 | the loop over one page emits exactly the listed secrets of that page |
| Secrets.GetSecrets | internal/secret.go:28-72 | emits the secrets vault by vault, then page by page, then item by item, or the first listing failure; the pages fetched are counted |
| Secrets.SecretsOfShape | internal/secret.go:45-61 | every emitted secret has the composite ID, comes from one of the given vaults, has no value yet, and has a non-empty version |
| Secrets.SecretsOfAppend | internal/secret.go:33 | listing two runs of vaults gives the secrets of the first run followed by those of the second |
| Secrets.VersionsOfStops | internal/secret.go:87-91 | once listing versions fails, no later secret changes the result, the page count or the secrets already handed over |
| Secrets.VersionsSentOk | internal/secret.go:74-117 | when no version listing fails, the secrets handed over are exactly the secrets the stage carries |
| Secrets.LatestSentBeforeFailure | internal/secret.go:80-91 | a "latest" input is handed over before its version pager is read, so it is handed over even when the first version page fails |
| Secrets.ListVersions | internal/secret.go:92-112 | the loop over one version page emits exactly the listed versions |
| Secrets.GetVersions | internal/secret.go:74-117 | emits, per input secret, the secret itself when its version is "latest" and then all its listed versions; the pages fetched are counted; when a version page fails, the secrets handed over before `log.Fatalf` are returned beside the failure |
| Secrets.VersionsKeepLatest | internal/secret.go:80-82 | every input whose version is "latest" appears unchanged in the output |
| Secrets.VersionsValuesFromInput | internal/secret.go:79-113 | any output that carries a value is a re-emitted "latest" input; listed versions carry no value |
| Secrets.VersionRunValues | internal/secret.go:80-112 | within one secret's versions, only the re-emitted "latest" secret can carry a value |
| Secrets.VersionsWellFormed | internal/secret.go:103 | when every input has the composite ID, so does every output |
| Secrets.PasswordsOfStops | internal/secret.go:131-133 | once a fetch fails, no later secret changes the result or the request log |
| Secrets.GetSecretPasswords | internal/secret.go:119-140 | emits the inputs in order, each with its value fetched when it had none; the GetSecret requests made are logged in order |
| Secrets.GetSecretPasswordsStream | internal/secret.go:142-163 | every secret the upstream stage handed over is processed as by GetSecretPasswords, with its GetSecret request logged; an upstream failure ends the stage afterwards unless a fetch here failed first |
| Secrets.PasswordsOfShape | internal/secret.go:124-137 | one output per input, in order, with only the value possibly changed; a secret that already has a value comes out unchanged |
| Secrets.RequestsOfCount | internal/secret.go:125-135 | exactly one fetch per secret without a value, and "latest" is never sent as a version (it is sent as "") |
| Secrets.PasswordsSecondPass | internal/secret.go:129 | running the password stage on its own output fetches nothing again when every value is filled, and then returns that output unchanged |
| Secrets.FilledFixed | internal/secret.go:129-136 | secrets that all have values pass through with no fetch; a secret without a value causes at least one fetch |
| Secrets.RequestsNonEmptyAfterFailure | internal/secret.go:130-133 | a failure of the stage is always preceded by a GetSecret call |
| Secrets.LastDot | internal/secret.go:58 | a string of the form `p.q` with a dot-free `q` has only one such split |
| Secrets.SecretIdInjective | internal/secret.go:58 | names and versions without dots make the composite ID determine the vault ID, the name and the version |
| Secrets.Masked | internal/secret.go:172-175 | the shown password is never empty and is the value itself whenever there is one |
| Secrets.LineNamesSecret | internal/secret.go:179-185 | the first field of a secret's picker line is its ID when the delimiter does not occur in the ID |
| Secrets.FormatFZF | internal/secret.go:165-180 | a secret's picker line starts with its ID followed by the delimiter; with Secrets.LineNamesSecret and Secrets.SecretSelectionRoundTrip, picking the lines of some secrets selects exactly those secrets |
| Secrets.FilterSecretsBySelection | internal/secret.go:182-196 | keeps, in input order, exactly the secrets whose ID is the first field of some selection |
| Secrets.SecretSelectionRoundTrip | internal/secret.go:165-196 | filtering by the picker lines of chosen secrets gives back exactly those secrets, given unique IDs free of the delimiter |
| Selector.ValidIndices | internal/selector.go:90-94 | the positions kept are exactly those given that name an input line |
| Selector.Echo | internal/selector.go:90-94 | the picker outputs the lines at the committed positions, in commit order |
| Selector.EchoMember | internal/selector.go:90-94 | a line is output if and only if it sits at a committed position |
| Selector.VaultLines | internal/selector.go:36-38 | one picker line per vault, in arrival order, each the vault's FormatFZF line |
| Selector.SelectVaults | internal/selector.go:16-56 | a failed picker exits with `fzf.ExitError`; otherwise the result is the filter of all arrived vaults by the committed lines |
| Selector.OfferVaults | internal/selector.go:32-40 | the feed loop gathers every batch in arrival order and offers each vault's line |
| Selector.ChosenVaultsExact | internal/selector.go:34-55 | with unique IDs free of "\|", exactly the vaults at the committed positions are selected |
| Selector.SecretLines | internal/selector.go:58-64 | one `name \| version \| password` line per arrived secret, in arrival order |
| Selector.SecretLineShape | internal/selector.go:58-64 | a secret's line (`SecretLine`) starts with its name and ends with its masked value, and two secrets with the same name, version and value have the same line whatever their vaults |
| Selector.SelectSecrets | internal/selector.go:66-109 | a failed picker exits with `fzf.ExitError`; otherwise every arrived secret whose line is among the picked lines is returned, in arrival order |
| Selector.KeepPicked | internal/selector.go:102-106 | the loop keeps exactly the secrets whose line is among the picked lines, in order |
| Selector.LineMatchesMembers | internal/selector.go:102-106 | a secret is kept if and only if it arrived and its line was picked |
| Selector.LineMatchesOrder | internal/selector.go:102-106 | the kept secrets are a subsequence of the arrived ones: arrival order is kept |
| Selector.SelectSecretsByLine | internal/selector.go:82-106 | a secret is selected if and only if it arrived and some committed secret has the same line |
| Selector.LineMatchIff | internal/selector.go:82-106 | the same statement for one given secret |
| Selector.SameLineSelectsBoth | internal/selector.go:102-106 | picking one of two secrets with equal lines selects both |
| Selector.EchoFirst | internal/selector.go:90-94 | committing the first position outputs the first line |
| Selector.LineMatchesPair | internal/selector.go:102-106 | two secrets whose lines were both picked are both kept, in arrival order |
| Selector.SameLineAcrossVaults | internal/selector.go:102-106 | two distinct secrets "db", version "latest", in two vaults: picking the first selects both |
| Selector.SelectMarkedSecrets | internal/selector.go:66-109 | corrected secret picker: a failed picker exits with `fzf.ExitError`; otherwise the secrets at the committed positions are returned, in arrival order |
| Selector.MarkedSecretsExact | internal/selector.go:66-109 | the corrected picker selects exactly the secrets at committed positions, one per position |
| Selector.MarkedSecretsMembers | internal/selector.go:66-109 | a secret is selected if and only if it sits at a committed position |
| Selector.MarkedSecretsCount | internal/selector.go:66-109 | the number selected is the number of distinct committed positions |
| Selector.Menu | internal/selector.go:124-135 | an operation is on the menu exactly when the stack rule offers it; the entries keep declaration order; edit-meta and delete-secret are always the last two |
| Selector.MenuNames | internal/selector.go:127-134 | the menu is sent as the operations' names |
| Selector.MenuLines | internal/selector.go:124-135 | the feeding loop sends exactly the menu names, in menu order |
| Selector.SelectOperation | internal/selector.go:111-157 | a failed picker or an unknown name exits with `fzf.ExitError`; with no pick the stack is unchanged; otherwise the last pick is returned and appended to the stack |
| Selector.Collect | internal/selector.go:137-145 | the output loop returns the last picked operation, none when nothing was picked, or the first unknown name |
| Selector.ParsePickedLast | internal/selector.go:138-143 | each later picked line overrides the earlier ones, unless an earlier line already ended the process |
| Selector.ParsePickedStops | internal/selector.go:140-142 | once a line fails to parse, no later line changes the outcome |
| Selector.PickedOperation | internal/selector.go:124-145 | a picked operation is one the menu offered |
| Selector.MenuPicksParse | internal/selector.go:124-145 | menu names always parse, and the outcome is the operation at the last committed position |
| Selector.ParsePrefix | internal/selector.go:138-143 | picking menu names yields the operation named last |
| Selector.FreshMenu | internal/selector.go:124-135 | an empty stack offers all five operations in declaration order |
| Selector.MenuRules | internal/selector.go:126-134 | list-versions is offered if and only if the stack holds neither list-versions nor list-version-get-password; get-passwords and list-version-get-password are offered together; edit-meta and delete-secret always |
| Selector.MenuAntitone | internal/selector.go:126-134 | a stack holding every operation of another stack offers no operation that the other withholds |
| Selector.MenuShrinks | internal/selector.go:126-134 | pushing more operations never offers an operation that the shorter stack withholds |
| Selector.PickedFromMenuFacts | internal/selector.go:126-134 | in any stack of menu picks, list-versions is never picked twice, nothing but edit-meta or delete-secret follows list-version-get-password, and neither password operation follows get-passwords then list-versions |
| Session.RoundsLast | asf.go:31-60 | the loop ends at an exit; otherwise the last round runs one more pass |
| Session.RoundsStop | asf.go:31-60 | once the process has exited, later rounds change nothing |
| Session.Start | asf.go:19-26 | no password is fetched before the loop |
| Session.Run | asf.go:13-61 | the session ends as the state machine says, and its remote calls are exactly those the state machine counts |
| Session.RunRounds | asf.go:31-60 | the loop ends as the state machine says, with the same remote calls |
| Session.Advance | asf.go:31-60 | one more round extends the state machine's run by one step |
| Session.Begin | asf.go:19-26 | listing vaults, picking vaults and listing secrets end as the state machine's start says |
| Session.Loop | asf.go:32-59 | one pass of the loop body: the line-matching secret picker, the operation picker, then the dispatch |
| Session.StartStage | asf.go:45-59 | the switch starts the stage of the picked operation and makes the calls the dispatch counts; for list-version-get-password, the password stage fetches what the version stage handed over before failing |
| Session.Dispatch | asf.go:45-59 | a dispatch that continues keeps the pushed stack and was not delete-secret; edit-meta and delete-secret make no remote call, list-versions fetches no password, get-passwords reads no page; with Session.DispatchExit and Session.VersionFailureAfterHandOver, its exits and its calls for list-version-get-password |
| Session.Step | asf.go:32-59 | one pass of the loop as a function; its properties are those of Session.StepExit (exit statuses), Session.StepPushesPick (a continuing pass pushes an offered pick) and Session.StepCalls |
| Session.StepCalls | asf.go:32-44 | a pass that exits for any reason but a failed stage (a picker, an empty selection, delete-secret) made no remote call |
| Session.VersionFailureAfterHandOver | asf.go:50-52 | for list-version-get-password on a "latest" secret without a value whose first version page fails, its value is requested once, and the process ends with the fetch's failure or else the version listing's |
| Session.DispatchExit | asf.go:45-59 | a dispatched stage that ends the process exits with status 1 for a failed stage and with `fzf.ExitError` for delete-secret |
| Session.StepExit | asf.go:32-59 | a pass that exits does so with status 1 when a stage failed (`log.Fatalf`) and with `fzf.ExitError` for every other reason |
| Session.RoundsExit | asf.go:31-60 | every exit of the loop carries one of those statuses |
| Session.SessionExit | asf.go:13-61 | every exit of the session carries one of those statuses, including the empty vault selection |
| Session.StepPushesPick | asf.go:38-59 | a pass that continues has pushed onto the stack an operation that the menu offered and that is not delete-secret |
| Session.RoundsKeepStack | asf.go:31-60 | the stack threaded through the loop is always made of menu picks, never holds delete-secret, and grows by one per round |
| Session.SessionStack | asf.go:28-60 | starting from the empty stack, the session's stack after n rounds has n menu picks |
| Session.EditMetaDataEndsSession | asf.go:53-55 | after edit-meta the next secret picker sees a drained stream, so the next round exits with `fzf.ExitError` and makes no remote call |
| Session.EditMetaDataStep | asf.go:53-55 | edit-meta starts no stage: it leaves an empty stream and pushes edit-meta |
| Session.EmptyStreamStep | asf.go:32-36 | an empty stream always exits with `fzf.ExitError`, because no secret can be selected |
| Session.RoundsOne | asf.go:31-60 | a single round is a single pass |
| Session.RoundsTwo | asf.go:31-60 | two rounds are the first round followed, when it continues, by one more pass |
| Session.DeleteSecretEndsSession | asf.go:56-58 | delete-secret falls into `default` and exits with `fzf.ExitError`, with no remote call |
| Session.SameLineRound | asf.go:32 | when two secrets of the stream share a line, marking the first alone plays the round exactly as marking both |
| Session.GetPasswordsRound | asf.go:48-49 | get-passwords makes the next stream the secrets selected by line matching, with only their values changed, with one GetSecret per secret that had no value and no page read |
| Fzf.TrimAll | fzf.go:73-75 | every field trimmed, positions kept |
| Fzf.TrimPrefix | fzf.go:73-75 | the in-place loop trims the first `count` array slots and leaves the rest untouched |
| Fzf.ParseLine | fzf.go:53-77 | the per-line branch computes the line's result: none for a line it skips, otherwise the kept text |
| Fzf.ParseOutputLines | fzf.go:52-78 | the line loop collects the results of the non-skipped lines, in order |
| Fzf.FzfSelect | fzf.go:12-83 | FzfSelect returns the result that the launch outcome, the exit classification and the parser determine |
| Fzf.ExitClassification | fzf.go:36-44 | "user cancelled selection" if and only if fzf exited with 1 or 130; any other wait failure is "fzf command failed"; success needs a successful wait |
| Fzf.NoSelectionIff | fzf.go:46-49 | after a successful wait, "no selection made" if and only if the output is all white space |
| Fzf.FirstLineNotEmpty | fzf.go:46-50 | the first line of non-empty trimmed output is not empty |
| Fzf.ParseLinesKeepsFirst | fzf.go:52-81 | a kept first line makes the result list non-empty |
| Fzf.NeverNoValidSelection | fzf.go:79-81 | "no valid selection" is never returned, because the first line of trimmed output always yields a result |
| Fzf.OnePerLine | fzf.go:50-78 | with a non-empty delimiter, every output line gives exactly one result, in order |
| Fzf.LineCases | fzf.go:57-77 | numFields <= 0 gives the trimmed line; 1 gives the trimmed first field; otherwise the first min(numFields, #fields) fields are trimmed and rejoined |
| Fzf.KeptFieldsStable | fzf.go:73-75 | the kept fields have no surrounding white space |
| AsfFzf.FzfSelect | src/fzf.go:19-99 | FzfSelect with sentinel errors returns the result of the specification `SelectSentinel` |
| AsfFzf.SameAsFzfGo | src/fzf.go:19-99 | the sentinel version classifies and parses exactly as fzf.go does |
| AsfFzf.SentinelOutcomes | src/fzf.go:57-60 | a successful result is never empty; `ErrNoSelection` occurs exactly when fzf succeeded with white-space-only output |
| AsfRun.FzfSelectOrExit | src/asf.go:18-28 | the wrapper returns the selection or the exit status that OrExit assigns |
| AsfRun.ExitCodes | src/asf.go:18-28 | cancel and empty selection exit with 0, every other picker error with 1, and a success passes the non-empty selection through unchanged |
| AsfRun.CancelExitsZero | src/asf.go:20-23 | Esc, Ctrl-C and white-space-only output all exit with 0 |
| AsfRun.Keys | src/asf.go:95 | the keys of a menu, entry by entry |
| AsfRun.PickedLines | src/asf.go:141 | the lines fzf prints for the picked menu entries |
| AsfRun.PickedKeys | src/asf.go:141 | the keys of the picked menu entries |
| AsfRun.JoinEnds | src/fzf.go:57 | a join of non-empty parts starts with the first part's first character and ends with the last part's last character |
| AsfRun.EntryKey | src/fzf.go:73-77 | the first field of a menu line is the entry's key |
| AsfRun.PrintedLines | src/fzf.go:57-62 | printed lines without surrounding white space survive trimming and line splitting unchanged |
| AsfRun.SelectPrinted | src/fzf.go:19-99 | fzf printing such lines yields exactly the parsed lines |
| AsfRun.PickedMenuKeys | src/asf.go:95-146 | picking menu entries returns exactly their keys |
| AsfRun.PickedLinesPrintable | src/asf.go:95-146 | the printed lines of picked entries have no newline and no surrounding white space |
| AsfRun.PickedLinesParse | src/fzf.go:73-77 | parsing the printed lines of picked entries gives their keys |
| AsfRun.OperationMenuWellFormed | src/asf.go:95 | the operation menu has the keys "list" and "add", and its lines parse back to them |
| AsfRun.SingleSecretMenuWellFormed | src/asf.go:141 | the single-secret menu has the five keys remove, show-pw, update-meta, update-pw and new-version |
| AsfRun.MultiSecretMenuWellFormed | src/asf.go:146 | the multi-secret menu has only show-pw and update-meta |
| AsfRun.SharedEntriesWellFormed | src/asf.go:141-146 | the entries that both menus share have trimmed, tab-free keys |
| AsfRun.SingleOnlyEntriesWellFormed | src/asf.go:141 | the entries only in the single-secret menu have trimmed, tab-free keys |
| AsfRun.ExtendAssoc | src/asf.go:123 | appending versions in two steps equals appending them in one |
| AsfRun.AppendSecretVersions | src/asf.go:116-125 | the versions pager loop of one secret appends its versions, or stops at the failure |
| AsfRun.AppendItemsVersions | src/asf.go:113-126 | the loop over one page of secrets appends each secret's versions in order |
| AsfRun.ItemsVersionsStop | src/asf.go:118-121 | once a versions page fails, later secrets change nothing |
| AsfRun.PagesVersionsStop | src/asf.go:108-111 | once a secrets page fails, later pages change nothing |
| AsfRun.AllVersionsStop | src/asf.go:100-128 | once a vault's listing fails, later vaults change nothing |
| AsfRun.AppendVaultVersions | src/asf.go:106-127 | the secrets pager loop of one vault appends the versions of all its secrets |
| AsfRun.CollectVersions | src/asf.go:97-128 | the "list" branch gathers versions in vault, secret page, secret, version page, item order, or stops at the first failure |
| AsfRun.AllVersionsAppend | src/asf.go:100-128 | gathering over two runs of vaults gives the first run's versions followed by the second's |
| AsfRun.PagesVersionsAppend | src/asf.go:107-127 | the same order for two runs of secret pages |
| AsfRun.ItemsVersionsAppend | src/asf.go:113-126 | the same order for two runs of secrets |
| AsfRun.PickKeyOperation | src/asf.go:138-148 | one picked secret shows the single-secret menu, several show the multi-secret menu, and a picker error exits |
| AsfRun.Run | src/asf.go:30-150 | Run ends as its specification says, from the listing and the four picker outcomes |
| AsfRun.ExitStatuses | src/asf.go:18-28 | Run only ever exits with 0 or 1 |
| AsfRun.KeyMenuByCount | src/asf.go:83-148 | a key menu is shown only after "list" was picked, with the gathered versions as the secrets table; one secret shows five entries and more show two |
| AsfRun.OtherOperationEnds | src/asf.go:99 | any operation other than "list" ends Run with no table and no key menu |
| AsfRun.OperationMenuChoice | src/asf.go:95-149 | picking "add" ends Run; picking "list" either exits or shows a key menu |
| AsfVaults.Copies | src/vault.go:16-19 | k copies of one vault |
| AsfVaults.AppendMatches | src/vault.go:16-20 | the inner loop appends the vault once per occurrence of its ID among the selected IDs |
| AsfVaults.FilterVaults | src/vault.go:13-23 | the nested loops return, in listing order, each vault repeated once per occurrence of its ID |
| AsfVaults.CopiesCount | src/vault.go:16-19 | k copies of x hold x k times and nothing else |
| AsfVaults.CountSplit | src/vault.go:15-21 | the count of a vault in the result splits into the counts from the earlier vaults and from the last one |
| AsfVaults.FilteredCount | src/vault.go:13-23 | a vault occurs in the result (its occurrences in the listing) times (the occurrences of its ID among the selected IDs) |
| AsfVaults.FilteredMembers | src/vault.go:15-19 | every returned vault is listed and has a selected ID |
| AsfVaults.FilteredEmptyIff | src/vault.go:13-23 | the result is empty if and only if no listed vault has a selected ID, which covers an empty ID list |
| AsfVaults.FilteredWithoutRepeats | src/vault.go:13-23 | without repeated IDs the nested-loop filter equals the set-based filter of internal/, and preserves listing order |
| AsfVaults.RepeatedIdRepeatsVault | src/vault.go:16-19 | a repeated ID duplicates its vault |
| AsfVaults.OrderFollowsListing | src/vault.go:15-21 | the output follows the listing order, not the order of the selected IDs |
| AsfVaults.FilteredPair | src/vault.go:15-21 | a two-vault listing yields the first vault's copies followed by the second's |
| AsfVaults.GetVaults | src/vault.go:25-45 | the result is all page items concatenated in page order, or the failure when a page fails; the pages read are counted |
| AsfVaults.ListedItemsAppend | src/vault.go:35-43 | listing two runs of pages gives the first run's items followed by the second's |
| AsfVaults.ListedVaultsAppend | src/vault.go:65-73 | converting two runs of items gives the first run's Vaults followed by the second's |
| AsfVaults.ConvertPage | src/vault.go:65-73 | the loop over one page appends one converted Vault per item, with nil-valued tags dropped |
| AsfVaults.GetVaults2 | src/vault.go:47-76 | the result is every page's items converted to Vaults in page order, or the failure; the pages read are counted |
| Table.ColumnWidth | tableformatter.go:24-42 | a column's width is at least the header length, at least MinWidth, and at least every cell length, and it equals one of them |
| Table.ColumnWidthSnoc | tableformatter.go:38-40 | each row raises the width to the larger of the old width and the cell length |
| Table.LeftJustify | tableformatter.go:47 | a part shorter than the width is padded to exactly that width; a longer part is left as is |
| Table.LeftJustifyShape | tableformatter.go:47 | the padded part starts with the text and continues with spaces only |
| Table.Headers | tableformatter.go:46-47 | one header per column |
| Table.Cells | tableformatter.go:36-37 | one cell per column, from the column's extractor |
| Table.Widths | tableformatter.go:24-42 | one width per column, each the column's width |
| Table.Justified | tableformatter.go:53-56 | one part per cell |
| Table.JustifiedAt | tableformatter.go:54-56 | each part is its cell, left-justified to its column width |
| Table.RowLines | tableformatter.go:52-58 | one line per data item |
| Table.RowLinesAt | tableformatter.go:52-58 | line i is the justified cells of item i |
| Table.Terminated | tableformatter.go:49-57 | text written line by line ends with a newline |
| Table.Table | tableformatter.go:16-21 | the table text is empty if and only if there is no data |
| Table.MeasureRows | tableformatter.go:24-42 | the loops fill the widths array with the column widths and the rows array with every cell |
| Table.MeasureRow | tableformatter.go:34-41 | one row fills its cells and raises each width to cover its cell, leaving the other rows untouched |
| Table.JustifyParts | tableformatter.go:45-48 | the parts array holds each cell left-justified to its width |
| Table.TerminatedSnoc | tableformatter.go:57 | writing one more line appends that line and a newline |
| Table.RowLinesSnoc | tableformatter.go:52-58 | one more data item adds one more line at the end |
| Table.PrintRow | tableformatter.go:53-57 | one row is printed as its justified cells joined by tabs |
| Table.PrintHeader | tableformatter.go:45-49 | the header is printed as the justified headers joined by tabs |
| Table.TableStart | tableformatter.go:49 | before the rows, the builder holds the header line and a newline |
| Table.TableLinesSnoc | tableformatter.go:52-58 | each row appends its line and a newline to the builder |
| Table.FormatTable | tableformatter.go:16-61 | FormatTable returns exactly the table text: "" without data, otherwise the header line and one line per item, each ending in a newline |
| Table.Aligned | tableformatter.go:47-55 | every header and every cell is padded to exactly its column's width and keeps its text in front |
| Table.LeftJustifyAvoids | tableformatter.go:47 | padding adds no character other than spaces |
| Table.JoinAvoids | tableformatter.go:49 | joining adds no character other than the separator |
| Table.LineAvoids | tableformatter.go:45-57 | a line contains no newline or other character that is absent from its cells |
| Table.LineCells | tableformatter.go:45-57 | splitting a line at tabs gives back its `len(columns)` justified parts, when no cell contains a tab |
| Table.TerminatedJoin | tableformatter.go:49-57 | text written line by line is the lines joined by newlines, plus a final empty line |
| Table.TerminatedJoinLast | tableformatter.go:49-57 | text written line by line is the lines joined by newlines, followed by a newline |
| Table.TableText | tableformatter.go:44-60 | with newline-free cells, the text has len(data)+1 newline-terminated lines: the header first, then the rows in data order |
| Table.LinesText | tableformatter.go:44-60 | the same line structure for any column widths |
| Table.FramedRows | tableformatter.go:52-58 | the row lines sit between the header and the final empty line, in data order |
| Table.SplitTerminated | tableformatter.go:49-57 | splitting newline-terminated lines at newlines gives the lines back, plus a final empty line |
| Table.RowLinesAvoid | tableformatter.go:52-58 | no row line contains a newline when no cell does |
| Table.RowAvoids | tableformatter.go:53-57 | one row's line contains no newline when none of its cells does |

## Left out

- The Azure SDK is not modelled: credentials, subscriptions, contexts and client creation. `NewClient` failures are not modelled, and the `Context`, `Credential` and `Client` fields of the records are dropped. The service's answers are fixed pages and values held by `Remote.Directory`.
- Goroutines and channels are not modelled. Each channel is the sequence it carries, so deadlock freedom, interleaving and cancellation are not covered. The secret picker is assumed to drain its input channel, so a round after edit-meta starts from an empty stream.
- Printing to stdout and stderr is not modelled. `os.Exit` and `log.Fatalf` become outcomes that carry their exit status. Error message texts are reduced to which call failed.
- The fzf process is not modelled. `exec.LookPath`, the pipe, process start and output reading are reduced to their failure outcomes. `fzf.ParseOptions`, `fzf.Run` and the argument lists are not modelled: a picker run is the committed positions or a failure.
- `json.Marshal` of tags and the quote removal are a parameter `renderTags`. `time.Format` of the creation time is a pre-formatted `created` string. `ID.Name()` and `ID.Version()` are replaced by the name and version held in `SecretItem`; `arm.ParseResourceID` is used only by `FormatVaultsTable`, which is left out below.
- `FormatVaultsTable` (src/vault.go:78-111) and `FormatSecretsTable` (src/secret.go) are not modelled; their logic is `Table.FormatTable`.
- src/subscription.go and `GetDefaultSubscriptionID` are not modelled: they shell out to the `az` CLI. The subscription ID is a parameter.
- `InitVaults` (internal/vault.go:85-106) is not modelled beyond the `GetVaults` listing it forwards as one batch.
- The unused error channel of src/asf.go:35 is not modelled.
- Nil pointer dereferences are not modelled, for example `*secretValue.Value` or an empty `selectedOperation`: every pointer the code dereferences is assumed non-nil.
- Column widths count characters, not bytes: Go's `len` counts bytes while `%-*s` pads by runes. The two agree only for single-byte text.
- `Text.FirstField` requires a non-empty delimiter or a non-empty line: `strings.Split("", "")` is empty in Go and indexing it panics.
- internal/selector.go calls two functions the repository does not define: `FilterBySelection` at line 55 and `StringToOperation` at line 139. They are modelled as `FilterVaultsBySelection` (internal/vault.go:69) and as `GetOperationByName` with the picker delimiter "|" (internal/operation.go:39).
- Secrets.GetSecretPasswordsStream: models the interleaving where the password stage finishes each secret it receives before the version stage goes on. In another interleaving, the version stage's `log.Fatalf` can end the process before the last secrets handed over are fetched, so fewer GetSecret requests are made.
- Session.Dispatch: list-version-get-password follows that same interleaving, for its outcome and for its logged GetSecret requests.
- Secrets.Masked: states that the shown password is never empty and equals a non-empty value; it does not state the literal mask "******" used for an empty value.
- Session.Start: states only that no password is fetched before the loop; how it ends is stated through Session.Begin and the lemmas about the session.

## Findings

| source | as written | input that shows it | evidently intended | confidence | as-written member | corrected member |
|---|---|---|---|---|---|---|
| internal/selector.go:102-106 | `SelectSecrets` keeps every arrived secret whose `name \| version \| password` line is among the picked lines, so secrets with equal lines cannot be told apart | two secrets "db", version "latest", no value yet, in vaults "dev" and "prod": both show as `db \| latest \| ******`, and picking only the first selects both | return exactly the secrets the user marked | not executed | Selector.SameLineAcrossVaults | Selector.MarkedSecretsExact |
