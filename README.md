# kubernetes-seal-unseal, modelled in Dafny

This project models the core of the "kubernetes-seal-unseal" VS Code extension. The extension
turns a Kubernetes Secret, or a piece of secret text, into a SealedSecret by running
`kubeseal`. It can also fetch a secret back with `oc`. The model covers four parts:

- **Parameter types** (`types.dfy`, module `Types`). The `Scope` enumeration has three members:
  strict, namespace-wide and cluster-wide. Each has a numeric value and a label. The parameter
  record and the extension state are datatypes. The scope field holds the runtime number, so
  that an unset or out-of-range scope can be expressed.
- **Defaults** (`defaults.dfy`, module `Defaults`). `collectDefaults` reads a name, a namespace
  and a scope from the document's metadata and its two scope annotations. It writes them into
  the caller's own record in place. The record is a class whose fields the method updates. The
  cases of the extension's test suite for this function are stated as lemmas.
- **Command builders** (`command_line.dfy`, `seal.dfy`, `command.dfy`). There are two copies
  of the builders.
  - `src/seal.ts` (module `Seal`) is the copy the extension uses.
  - `src/command.ts` (module `Command`) is a second copy, not wired into `src/extension.ts`. It
    always passes the controller namespace, drops the placeholder namespace in cluster-wide
    raw mode, and runs a configurable `oc`.
  - Each command line is modelled as the exact string the template literals build.
  - A structured argument list (`Arg`, `Render`) sits beside it, and lemmas prove that the
    string renders that list. The "which options does this command carry" properties are
    stated on the list. For example:
    - the placeholder `--namespace dummyNamespace` appears in cluster-wide raw mode;
    - `--controller-namespace` appears only where the source passes it;
    - `--cert` comes once and last, only with a local certificate.
  - The temporary file of raw-mode sealing is a class. The proofs show that it is written with
    the secret and released once the process settles.
- **User input** (`input_validation.dfy`, `prompts.dfy`, `wizard.dfy`). This is the multi-step
  "Seal Secret" flow of `src/userInput.ts`.
  - The three validators.
  - POSIX `path.extname`, as far as the certificate check needs it.
  - The split of the namespace lister's output.
  - The two prompts of `MultiStepInput`, written as functions of the user's events.
  - The "latest validation wins" token tracker of the input box, written both as a function of
    an event trace and as a class with its `validating` / `validationMessage` state.
  - The four steps: pick scope, input name, input namespace, input certificate path.
  - The `stepThrough` driver, with its step stack and its Back / Resume / Cancel control
    values.
  - The final projection onto `SealSecretParameters`.

  The steps and the driver are reference functions. The classes `WizardState` and
  `MultiStepInput` run the same flow imperatively: they update the state object and consume
  events in a loop, and each method is proved equal to its reference function.

The main results about the flow are these:

- `Wizard.DriveCompletes` and `Wizard.CollectedInputIsComplete` cover the case where hiding a
  prompt does not cancel. Every parameter record the flow then returns has three properties:
  - it carries a scope the builders know;
  - under strict, it carries a non-empty name;
  - with a local certificate, it carries a certificate path.
- In several places the code behaves differently from what a reader might expect. The model
  follows the code, and a lemma shows each case:
  - A Cancel from a prompt ends `stepThrough`'s loop normally (src/userInput.ts:291-292), so
    `collectInputs` returns the partial state (`Wizard.CancelReturnsPartialState`).
  - The extension's own `shouldResume` returns a promise that never settles; its comment at
    src/userInput.ts:195 says a notification offering to resume could be shown there. Hiding a
    prompt therefore leaves the flow pending for good (`Wizard.HideLeavesFlowPending`).
  - The namespace quick pick is handed `validateNamespace` (src/userInput.ts:137), but
    `showQuickPick` never calls it, so an empty namespace item is accepted
    (`Wizard.EmptyNamespaceAccepted`).
  - A bare namespace string taken from the document makes the returned namespace undefined
    (`Wizard.StrictDropsDocumentNamespace`).
  - The certificate step always shows its box, even with a remembered path, which it uses as
    the box's initial value (src/userInput.ts:147-154; `Wizard.CertificatePromptNeverSkipped`).
  - The existence check hands `resolve` to `stat` as its callback, so `fileExists` is `stat`'s
    error argument (src/userInput.ts:215-216). A path that exists is refused as "File not
    found", and only a missing one is accepted (`InputValidation.CertificatePathVerdicts`,
    `Wizard.CertificateAcceptedOnlyIfMissing`).
  - `unsealSecretFile` reads the document file and writes it to `oc`'s stdin
    (src/seal.ts:101, 114; `Seal.UnsealSecretFile`).

The outside world is handed in as parameters:

- `exec` is a function from an invocation to its result.
- The file read is a `Result`.
- The set of paths `stat` succeeds on, the workspace's certificate files, the namespace
  lister's output and the resume policy are fields of the wizard's `Environment`.
- The user's actions are a sequence of events.

## Model

| member | source | states |
|---|---|---|
| `Types.Ordinal` | src/types.ts:1-5 | every scope's numeric value is one of 0, 1, 2 |
| `Types.FromOrdinal` | src/types.ts:1-5 | a number names a scope exactly when it is 0, 1 or 2, and then the scope found has that value |
| `Types.FromLabel` | src/userInput.ts:35-37 | a label is recognised only as the name of the scope it returns |
| `Types.OrdinalBijection` | src/types.ts:1-5 | numeric values and scopes correspond one to one, both directions |
| `Types.LabelBijection` | src/userInput.ts:35-37 | labels and scopes correspond one to one; the quick-pick item at a scope's numeric value carries that scope's label; a text is one of the three labels exactly when it names a scope |
| `Types.OnlyStrictIsFalsy` | src/userInput.ts:55-58 | the truthiness test on a remembered scope fails exactly for strict, whose value is 0 |
| `Defaults.DocumentScope` | src/defaults.ts:24-30 | cluster-wide exactly when the cluster-wide annotation is the string "true"; namespace-wide exactly when only the namespace-wide one is; strict exactly when metadata exists without either; nothing exactly when there is no metadata |
| `Defaults.CollectedFields` | src/defaults.ts:18-31 | a parse error leaves the record unchanged; otherwise name and namespace are overwritten with the metadata's (unset when absent), the scope is set as the annotations say or kept when there is no metadata, and the certificate path is never touched |
| `Defaults.CollectedIdempotent` | src/defaults.ts:5-35 | collecting twice from the same document gives the same record as collecting once |
| `Defaults.CollectedForgetsPrevious` | src/defaults.ts:10-31 | once a document with metadata parses, the previous record matters only for its certificate path |
| `Defaults.ParameterRecord.constructor` | src/defaults.ts:10-15 | a new record holds exactly the given field values |
| `Defaults.CollectDefaults` | src/defaults.ts:5-35 | with a last-used record, that same object is returned and updated to the collected value; without one, a fresh record starting from all fields unset is |
| `Defaults.ReuseLastUsedCase` | src/test/suite/defaults.test.ts:8-26 | the record handed in keeps its certificate path and scope while name and namespace become unset, because the stubbed document has no metadata |
| `Defaults.SecretCase` | src/test/suite/defaults.test.ts:28-52 | a plain Secret yields its name and namespace and the strict scope |
| `Defaults.SealedSecretCases` | src/test/suite/defaults.test.ts:54-97 | no annotation gives strict; each "true" annotation gives its own scope |
| `Defaults.InvalidYamlCase` | src/test/suite/defaults.test.ts:99-123 | an unparsable document leaves every field unset |
| `Defaults.AnnotationPrecedence` | src/defaults.ts:24-29 | the cluster-wide annotation wins over the namespace-wide one; a non-string `true` sets strict |
| `CommandLine.Interp` | src/seal.ts:25 | a set value is interpolated as itself, an unset one as "undefined" |
| `CommandLine.NormalizeSlashes` | src/seal.ts:20 | same length; each backslash becomes a slash and every other character is kept |
| `CommandLine.NormalizeSlashesProperties` | src/seal.ts:20-21 | no backslash survives; a text without backslashes is unchanged; normalising is idempotent |
| `CommandLine.ControllerNamespace` | src/seal.ts:17 | never empty; a non-empty configured value is used, otherwise "kube-system" |
| `CommandLine.CertificateUri` | src/seal.ts:21 | "file://" followed by the normalised path, or "file://undefined" for an unset path |
| `CommandLine.SelectedScope` | src/seal.ts:23-36 | a `switch` case matches exactly when the scope is set to 0, 1 or 2, and the case matched is the scope of that value |
| `CommandLine.OptionsWithCert` | src/seal.ts:38-40 | the certificate argument adds the `--cert` option once and last, exactly when a local certificate is used |
| `CommandLine.CertContents` | src/seal.ts:38-40 | the arguments before the certificate are kept in place, and the last argument is `--cert` with the certificate URI |
| `CommandLine.WithCertRenders` | src/seal.ts:38-40 | appending the `--cert` text to a rendered command is rendering the argument list with the certificate argument appended |
| `CommandLine.Settle` | src/seal.ts:43-51 | the promise resolves exactly when the process produced stdout, with that stdout, and otherwise rejects with the error's message |
| `CommandLine.TempFile.constructor` | src/seal.ts:14 | a new temporary file has the given name, is empty and has not been released |
| `CommandLine.TempFile.Write` | src/seal.ts:15 | the file's contents become the data written; its release count is unchanged |
| `CommandLine.TempFile.Release` | src/seal.ts:51 | the release count grows by one; the contents are unchanged |
| `Seal.RawStrictRenders` | src/seal.ts:25 | the strict raw-mode template equals the executable followed by `--raw`, `--from-file`, the quoted namespace and the quoted name |
| `Seal.RawNamespaceWideRenders` | src/seal.ts:28 | the namespace-wide raw-mode template equals its argument list, ending in the quoted controller namespace |
| `Seal.RawClusterWideRenders` | src/seal.ts:33 | the cluster-wide raw-mode template equals its argument list, with the unquoted placeholder namespace |
| `Seal.RawBaseRenders` | src/seal.ts:23-37 | for a known scope, the raw-mode `switch` builds the rendering of that scope's argument list without the certificate |
| `Seal.RawCommandRenders` | src/seal.ts:17-40 | the raw-mode command is the unknown-scope error for an unset or unknown scope; otherwise it is the rendering of the argument list with the normalised temp-file name and the controller-namespace fallback |
| `Seal.FileStrictRenders` | src/seal.ts:71 | the strict file-mode template equals its argument list |
| `Seal.FileNamespaceWideRenders` | src/seal.ts:74 | the namespace-wide file-mode template equals its argument list |
| `Seal.FileClusterWideRenders` | src/seal.ts:77 | the cluster-wide file-mode template equals its argument list |
| `Seal.FileBaseRenders` | src/seal.ts:69-81 | for a known scope, the file-mode `switch` builds the rendering of that scope's argument list without the certificate |
| `Seal.FileCommandRenders` | src/seal.ts:64-84 | the file-mode command is the unknown-scope error for an unset or unknown scope; otherwise it is the rendering of the argument list |
| `Seal.UnsealCommandRenders` | src/seal.ts:103 | the unseal command is `oc` followed by the unseal argument list |
| `Seal.UnsealTextRenders` | src/seal.ts:103 | the unseal argument list renders as `get secret <name> -n <namespace> -o yaml`, unquoted |
| `Seal.RawArgsContents` | src/seal.ts:20-40 | the raw-mode argument list starts with `--raw` and the temp file; it carries the placeholder namespace for cluster-wide, the controller namespace for namespace-wide, the certificate last when local, and the options below |
| `Seal.RawStrictOptions` | src/seal.ts:24-40 | strict raw mode passes a namespace and a name, and no scope, controller namespace or output format; `--cert` exactly when local |
| `Seal.RawNamespaceWideOptions` | src/seal.ts:27-40 | namespace-wide raw mode passes a namespace, a scope and the controller namespace, and no name or format; `--cert` exactly when local |
| `Seal.RawClusterWideOptions` | src/seal.ts:30-40 | cluster-wide raw mode passes a namespace (the placeholder) and a scope, and no name, controller namespace or format; `--cert` exactly when local |
| `Seal.FileArgsContents` | src/seal.ts:66-84 | the file-mode argument list always asks for YAML; it carries the secret's namespace unless cluster-wide, the controller namespace for namespace-wide, and the certificate last when local |
| `Seal.FileStrictOptions` | src/seal.ts:70-84 | strict file mode passes namespace and name, no scope, no controller namespace and no temp file |
| `Seal.FileNamespaceWideOptions` | src/seal.ts:73-84 | namespace-wide file mode passes namespace, scope and controller namespace, and no name |
| `Seal.FileClusterWideOptions` | src/seal.ts:76-84 | cluster-wide file mode passes only a scope and the format, with no namespace at all |
| `Seal.SealSecretFile` | src/seal.ts:54-98 | a failed read rejects first; an unknown scope rejects with the internal error; otherwise the file-mode command runs with the file's contents on stdin, and its outcome is settled |
| `Seal.UnsealSecretFile` | src/seal.ts:100-116 | a failed read rejects; otherwise `oc get secret` runs with the file's contents on stdin |
| `Seal.SealSecretRaw` | src/seal.ts:6-52 | the secret is written to a fresh temporary file; an unknown scope rejects and leaves it unreleased; otherwise the raw-mode command runs with nothing on stdin, and the file is released exactly once |
| `Command.RawClusterWideRenders` | src/command.ts:31 | the whole cluster-wide raw-mode template, ending in the quoted controller namespace, equals its argument list, which carries no namespace |
| `Command.RawBaseRenders` | src/command.ts:23-35 | for a known scope, the raw-mode `switch` builds the rendering of that scope's argument list |
| `Command.RawCommandRenders` | src/command.ts:17-38 | the unknown-scope error, or the rendering of the raw-mode argument list |
| `Command.FileBaseRenders` | src/command.ts:67-79 | for a known scope, the file-mode `switch` builds the rendering of that scope's argument list |
| `Command.FileCommandRenders` | src/command.ts:62-82 | the unknown-scope error, or the rendering of the file-mode argument list |
| `Command.UnsealCommandRenders` | src/command.ts:106 | the unseal command is the configured `oc` executable followed by the unseal argument list |
| `Command.RawArgsContents` | src/command.ts:20-38 | the raw-mode list starts with `--raw` and the temp file, names the controller namespace, and ends with the certificate when local |
| `Command.RawStrictOptions` | src/command.ts:24-38 | strict raw mode passes namespace, name and controller namespace, and no scope or format |
| `Command.RawNamespaceWideOptions` | src/command.ts:27-38 | namespace-wide raw mode passes namespace, scope and controller namespace, and no name |
| `Command.RawClusterWideOptions` | src/command.ts:30-38 | cluster-wide raw mode passes a scope and the controller namespace, and no namespace at all |
| `Command.FileArgsContents` | src/command.ts:62-82 | the file-mode list asks for YAML, names the controller namespace, and ends with the certificate when local |
| `Command.FileStrictOptions` | src/command.ts:68-82 | strict file mode passes namespace, name and controller namespace, and no scope |
| `Command.FileNamespaceWideOptions` | src/command.ts:71-82 | namespace-wide file mode passes namespace, scope and controller namespace, and no name |
| `Command.FileClusterWideOptions` | src/command.ts:74-82 | cluster-wide file mode passes a scope and the controller namespace, and no namespace |
| `Command.NamespaceWideAgreesWithSeal` | src/command.ts:28-72 | for namespace-wide parameters both copies build identical raw-mode and file-mode commands |
| `Command.StrictAddsControllerNamespace` | src/command.ts:25-69 | strict sealing in this copy is the other copy's strict argument list with the controller namespace inserted before the certificate, in both modes |
| `Command.ClusterWideDropsPlaceholder` | src/command.ts:31 | the other copy's cluster-wide raw list has the placeholder namespace and no controller namespace; this copy's has no namespace and has the controller namespace |
| `Command.SealSecretFile` | src/command.ts:52-96 | a failed read rejects first; an unknown scope rejects with the internal error; otherwise the file-mode command runs with the file's contents on stdin |
| `Command.UnsealSecretFile` | src/command.ts:98-119 | a failed read rejects; otherwise the configured `oc` runs `get secret` with the file's contents on stdin |
| `Command.SealSecretRaw` | src/command.ts:6-50 | the secret is written to a fresh temporary file; an unknown scope rejects with it unreleased; otherwise the command runs and the file is released exactly once |
| `InputValidation.ValidateName` | src/userInput.ts:199-203 | a message exactly for the empty name, and the message is "Please specify name" |
| `InputValidation.ValidateNamespace` | src/userInput.ts:205-209 | a message exactly for the empty namespace, and the message is "Please specify namespace" |
| `InputValidation.ExtnameIsPem` | src/userInput.ts:212 | `extname` is ".pem" exactly when the basename ends in ".pem" with at least one character before it |
| `InputValidation.CertificatePathVerdicts` | src/userInput.ts:211-220 | each of the three verdicts, with exactly the paths that get it: a basename not ending in ".pem" is invalid; a ".pem" path that exists is "not found"; only a missing ".pem" path is accepted |
| `InputValidation.StripDriveSlash` | src/userInput.ts:160 | the leading slash before a one- or two-letter drive is removed, and any other path is left unchanged |
| `InputValidation.StripDriveSlashCases` | src/userInput.ts:160 | "/c:/certs/a.pem" becomes "c:/certs/a.pem"; a POSIX path is kept |
| `InputValidation.Split` | src/userInput.ts:129 | there is at least one segment, and no segment contains the separator |
| `InputValidation.JoinSplit` | src/userInput.ts:129 | joining the segments with the separator gives the lister's output back |
| `InputValidation.SplitJoin` | src/userInput.ts:129 | splitting a join of separator-free segments gives those segments back |
| `InputValidation.TrailingSeparatorGivesEmptyItem` | src/userInput.ts:129-131 | output ending in a line break gets one extra, empty, last item |
| `Prompts.HideOutcome` | src/userInput.ts:335-339 | hiding rejects with Cancel exactly when `shouldResume` says no, with Resume exactly when it says yes, and never settles exactly when it never settles |
| `Prompts.QuickPick` | src/userInput.ts:303-354 | consumes a prefix of the events, at least one unless unsettled; resolves only with an offered item the user selected; rejects with Back only when Back is shown and pressed; Resume and Cancel only as the policy decides (which event settles it: `Prompts.QuickPickFirstReaction`) |
| `Prompts.InputBox` | src/userInput.ts:356-422 | consumes a prefix of the events; resolves with typed text only when the validator accepts it, and with a button only when the buttons are shown; Back, Resume and Cancel as for the quick pick (which event settles it, and with which text: `Prompts.InputBoxFirstReaction`) |
| `Prompts.TypeThenAccept` | src/userInput.ts:385-394 | typing a text and accepting resolves with that text exactly when it is valid; otherwise the box stays open with that text as its value |
| `Prompts.HiddenPromptsNeverSettle` | src/userInput.ts:194-197 | under the extension's `shouldResume`, hiding either prompt leaves it unsettled |
| `Prompts.FirstPickReaction` | src/userInput.ts:327-339 | the index it returns is that of the first event the quick pick reacts to (an offered selection, a shown Back, a hide), or the script's length when there is none |
| `Prompts.QuickPickIgnores` | src/userInput.ts:327-339 | an event the quick pick does not react to is dropped and the prompt waits on |
| `Prompts.QuickPickReacts` | src/userInput.ts:327-339 | an event the quick pick reacts to settles it at once: a selection with that item, Back with Back, a hide as the resume policy decides |
| `Prompts.QuickPickFirstReaction` | src/userInput.ts:303-354 | the quick pick's result is exactly the reaction to the first event it reacts to, with the events after it left over; every event before it is ignored; with no such event it consumes all and stays unsettled |
| `Prompts.CurrentValueCons` | src/userInput.ts:373-397 | the box's value after a change and more events is the value those events leave starting from the change's text; any other first event leaves the value alone |
| `Prompts.CurrentValueShift` | src/userInput.ts:373-397 | the value a prefix of the events leaves equals the value the rest of that prefix leaves, starting from the value after the first event |
| `Prompts.FirstBoxReaction` | src/userInput.ts:378-407 | the index of the first event the input box reacts to lies within the script |
| `Prompts.FirstBoxReactionIsFirst` | src/userInput.ts:378-407 | no event before that index gets a reaction, judged by the value the events before each one leave (the last change's text, or the initial value), and the event at the index does |
| `Prompts.InputBoxIgnores` | src/userInput.ts:378-407 | an event the input box does not react to is dropped, keeping a change's text as the new value |
| `Prompts.InputBoxReacts` | src/userInput.ts:378-407 | an event the input box reacts to settles it at once: a valid Accept with the current value, a shown button with that button, Back with Back, a hide as the resume policy decides |
| `Prompts.InputBoxFirstReaction` | src/userInput.ts:356-422 | the input box's result is exactly the reaction to the first event it reacts to, where Accept resolves with the text of the last change before it (or the initial value); the events after it are left over; with no such event it consumes all and stays unsettled |
| `Prompts.Tracked` | src/userInput.ts:376-402 | one validation is issued per change plus the initial one, whose text is empty |
| `Prompts.TrackStep` | src/userInput.ts:395-402 | a change issues a validation of its text and keeps the message; a completion issues nothing; the completion of the latest validation (not the initial one) shows that validation's verdict on its text, and any other completion leaves everything unchanged |
| `Prompts.StaleCompletionIgnored` | src/userInput.ts:399-401 | a completion of any validation but the latest changes nothing |
| `Prompts.LatestCompletionShown` | src/userInput.ts:396-401 | the latest validation's completion shows the message for the latest text |
| `Prompts.StaleCompletionsIgnored` | src/userInput.ts:395-402 | after the latest completion, any number of stale completions in any order leave what is shown unchanged |
| `Prompts.OutOfOrderValidations` | src/userInput.ts:395-402 | typing "a" then "ab", with the validation of "ab" finishing first, ends up showing the verdict for "ab" |
| `Prompts.ValidationTracker.constructor` | src/userInput.ts:376 | the initial validation of "" is the only one issued, and no message is shown |
| `Prompts.ValidationTracker.Change` | src/userInput.ts:396-397 | the new validation's token is returned and becomes the latest; the trace function agrees |
| `Prompts.ValidationTracker.Complete` | src/userInput.ts:398-401 | the message is replaced only when the completed token is still the latest; nothing else changes; the trace function agrees |
| `Prompts.Play` | src/userInput.ts:395-402 | one event played on the tracker has the effect the trace function gives that event |
| `Prompts.Replay` | src/userInput.ts:376-402 | replaying a well-formed trace on a fresh tracker shows exactly the message the trace function predicts |
| `Wizard.ScopeItem` | src/userInput.ts:57 | `scopes[n]` exists exactly for 0, 1 and 2, and is the label of the scope with that number |
| `Wizard.PickScopeOutcome` | src/userInput.ts:66-91 | the scope step makes progress: it never adds events, throws a control value only after consuming the event that caused it, throws Back only above the first step, and throws Resume or Cancel only as the policy decides |
| `Wizard.InputNameOutcome` | src/userInput.ts:93-106 | the name step makes progress in the same sense |
| `Wizard.InputNamespaceOutcome` | src/userInput.ts:121-144 | the namespace step makes progress in the same sense |
| `Wizard.WorkspaceItems` | src/userInput.ts:158-160 | one label per workspace certificate, in order, each with its drive slash stripped |
| `Wizard.InputCertificateOutcome` | src/userInput.ts:146-192 | the certificate step makes progress in the same sense, including its re-runs of itself after a button and its nested quick pick |
| `Wizard.StepOutcome` | src/userInput.ts:284 | whichever step runs, it makes progress |
| `Wizard.WizardState.constructor` | src/userInput.ts:52 | the state object starts with every field unset |
| `Wizard.MultiStepInput.constructor` | src/userInput.ts:267-273 | the step stack starts empty |
| `Wizard.MultiStepInput.ShowQuickPick` | src/userInput.ts:303-354 | the imperative event loop settles as the quick-pick function says and leaves the same events unconsumed; Back is offered exactly when the stack holds more than one step |
| `Wizard.MultiStepInput.ShowInputBox` | src/userInput.ts:356-422 | the imperative event loop settles as the input-box function says and leaves the same events unconsumed |
| `Wizard.MultiStepInput.PickScope` | src/userInput.ts:66-91 | the state object and the remaining events end as the scope-step function says |
| `Wizard.MultiStepInput.InputName` | src/userInput.ts:93-106 | the state object and the remaining events end as the name-step function says |
| `Wizard.MultiStepInput.InputNamespace` | src/userInput.ts:121-144 | the state object and the remaining events end as the namespace-step function says |
| `Wizard.MultiStepInput.InputCertificatePath` | src/userInput.ts:146-192 | the state object and the remaining events end as the certificate-step function says |
| `Wizard.MultiStepInput.Run` | src/userInput.ts:284 | running a step is the step function of that step |
| `Wizard.MultiStepInput.StepThrough` | src/userInput.ts:275-301 | the loop with its push, double pop on Back, pop on Resume and stop on Cancel ends as the reference driver does, and a finished run leaves the state object in the driver's final state |
| `Wizard.CollectSealSecretUserInput` | src/userInput.ts:51-228 | seeding the state from the remembered parameters, running the flow and projecting the state give what the reference flow gives |
| `Wizard.ScopePromptSkipped` | src/userInput.ts:67-77 | the scope prompt waits for the user exactly when no truthy scope is remembered |
| `Wizard.NamePromptSkipped` | src/userInput.ts:94-104 | the name prompt waits for the user exactly when no non-empty name is remembered |
| `Wizard.DocumentNamespaceSkipsPrompt` | src/userInput.ts:122-126 | a namespace in the document is taken as a bare string without consuming an event, and the step then goes on as if the namespace were known |
| `Wizard.ScopeStepEdges` | src/userInput.ts:66-91 | the scope step goes to the name step exactly under strict, to the namespace step exactly under namespace-wide, and under cluster-wide to the certificate step with a local certificate and to the end without one, recording the scope's ordinal |
| `Wizard.NameStepEdges` | src/userInput.ts:93-106 | the name step hands on only to the namespace step, always with a non-empty name; a remembered non-empty name is taken without consuming an event |
| `Wizard.NamespaceStepEdges` | src/userInput.ts:121-144 | on every path the namespace step goes to the certificate step exactly when a local certificate is used and ends otherwise, with a namespace recorded; it fails on an unreadable document, and with the lister's message exactly when the lister is consulted and fails |
| `Wizard.CertificateStepEdges` | src/userInput.ts:146-192 | the certificate step never fails, hands on only to itself, and ends only with a certificate path recorded |
| `Wizard.CertificateFromWorkspace` | src/userInput.ts:156-173 | the workspace button with no certificate files repeats the step unchanged; picking an offered workspace label ends the flow with that path |
| `Wizard.CertificateBrowse` | src/userInput.ts:174-188 | the browse button repeats the step, taking the dialog's first file as the path when there is one and keeping the state otherwise |
| `Wizard.CertificatePromptNeverSkipped` | src/userInput.ts:147-154 | the certificate box is shown even with a path remembered, with that path as its value, so accepting it when valid keeps it |
| `Wizard.ScopeStepKeepsReady` | src/userInput.ts:78-90 | after the scope step, the next step's preconditions hold, finishing leaves a complete state, and a thrown control value leaves the state alone |
| `Wizard.NameStepKeepsReady` | src/userInput.ts:93-106 | the name step keeps the scope and everything set, and leaves a non-empty name for the namespace step |
| `Wizard.NamespaceStepKeepsReady` | src/userInput.ts:121-144 | the namespace step keeps everything set, and sets the namespace before the certificate step or the end |
| `Wizard.CertificateStepKeepsReady` | src/userInput.ts:146-192 | the certificate step keeps everything set, and finishes only with a certificate path |
| `Wizard.StepKeepsReady` | src/userInput.ts:284 | every step keeps the flow ready |
| `Wizard.DriveTurns` | src/userInput.ts:277-296 | one turn of the loop: the driver goes on from the next configuration when the step continues it, and ends as the step's result says otherwise |
| `Wizard.AdvanceKeepsInvariant` | src/userInput.ts:278-292 | pushing, popping on Back and re-running on Resume keep every stacked step ready, with the scope step only at the bottom |
| `Wizard.AdvanceShrinks` | src/userInput.ts:277-296 | every turn consumes an event or moves to a lower step, so the loop ends |
| `Wizard.LoopEndComplete` | src/userInput.ts:277-297 | when the loop stops normally and hiding does not cancel, the state is complete |
| `Wizard.DriveCompletes` | src/userInput.ts:275-301 | when hiding does not cancel, every run of the driver that finishes from a ready configuration finishes in a complete state |
| `Wizard.CollectedInputIsComplete` | src/userInput.ts:222-228 | when hiding does not cancel, returned parameters carry a known scope, a non-empty name under strict, and a certificate path with a local certificate |
| `Wizard.CertificateTyped` | src/userInput.ts:147-154 | a typed valid path ends the step with that path; an invalid one keeps the box open |
| `Wizard.CertificateCancelled` | src/userInput.ts:403-407 | hiding the certificate box under a cancelling policy throws Cancel and leaves the state alone |
| `Wizard.ClusterWideWithoutCertificateThrows` | src/userInput.ts:85-90 | choosing cluster-wide without a local certificate ends the flow at once, and reading the label of the never-set namespace then throws |
| `Wizard.StrictDropsDocumentNamespace` | src/userInput.ts:121-127 | under strict, a namespace taken from the document is a bare string, so the returned namespace is undefined |
| `Wizard.EmptyNamespaceAccepted` | src/userInput.ts:129-139 | lister output ending in a line break offers an empty item, and picking it returns the empty namespace unvalidated |
| `Wizard.NamespaceWideReachesCertificate` | src/userInput.ts:121-143 | with nothing remembered, a document namespace and a local certificate, picking namespace-wide leads straight to the certificate step |
| `Wizard.CertificateAcceptedOnlyIfMissing` | src/userInput.ts:211-220 | a typed ".pem" path ends the step exactly when the file does not exist, and then it is the path recorded |
| `Wizard.CancelReturnsPartialState` | src/userInput.ts:291-292 | cancelling at the certificate box still returns parameters, without a certificate path although a local certificate is used |
| `Wizard.HideLeavesFlowPending` | src/userInput.ts:194-197 | under the extension's own `shouldResume`, hiding the first prompt leaves the whole flow pending, whatever follows |
| `Wizard.StrictChosen` | src/userInput.ts:78-81 | selecting strict moves on to the name step with the strict scope recorded |
| `Wizard.NamespaceWideChosen` | src/userInput.ts:82-84 | selecting namespace-wide moves on to the namespace step with that scope recorded |
| `Wizard.CertificateCancelEnds` | src/userInput.ts:291-292 | a Cancel from the certificate box ends the loop normally with the state as it is |
| `Wizard.ScopeSelected` | src/userInput.ts:70-78 | a label selected on the scope prompt is the one the `switch` dispatches on |
| `Wizard.NameBackedOut` | src/userInput.ts:97-103 | Back on the name prompt above the first step throws Back and leaves the state alone |
| `Wizard.StrictThenBack` | src/userInput.ts:286-288 | Back from the name step re-runs the scope step, with the strict choice still in the state |
| `Wizard.NamespaceWideFinishes` | src/userInput.ts:121-143 | namespace-wide with a document namespace and no local certificate finishes at once |
| `Wizard.BackFromNameRepicksScope` | src/userInput.ts:286-288 | choosing strict, pressing Back and choosing namespace-wide returns that scope, with the name unset and the namespace undefined |

## Left out

- `src/extension.ts` (command registration, configuration checks, editor and clipboard
  handling) is not part of this model. It also calls `collectSealSecretDefaults` and
  `collectSealSecretUserInput` with argument lists that do not match the core files.
- `isLoggedOut` of `src/command.ts` is not part of this model.
- Running processes, the namespace lister's `oc projects -q`, `readFileSync`, `stat`,
  `workspace.findFiles`, `window.showOpenDialog` and `shouldResume` are not run by the model.
  Each is an input: an `exec` function, a read `Result`, a set of existing paths, a list of
  workspace files, the dialog's answer inside the browse event, and a resume policy.
- A failure of `tmp.fileSync` or `writeFileSync` is not modelled; the temporary file is always
  created and written.
- YAML parsing is not modelled. The parser's outcome, a parse error or a value with or without
  `metadata`, is an input. Non-string name and namespace values are not modelled, and a
  non-string annotation value is one `NonText` case.
- The `Environment` fields `document`, `namespaces`, `workspaceCertificates` and
  `existingFiles` give the same answer every time within one run. The source calls
  `getText` (src/userInput.ts:122), `oc projects -q` (src/userInput.ts:128) and `findFiles`
  (src/userInput.ts:158) again each time a step re-runs, and `stat` (src/userInput.ts:215)
  on each Accept; answers that change between those calls are not modelled.
- `readFileSync` returns a `Buffer`, which is handed to `oc`'s stdin unchanged. The model
  treats file contents as text (`string`), so the bytes and their encoding are not modelled.
- The scope of `SealSecretParameters` is an integer or unset (`Option<int>`), and `${scope}` in
  the unknown-scope message is its signed decimal digits, or "undefined". A fractional or
  exponent-form JavaScript number is not representable; no path of the core stores anything
  but 0, 1, 2 or nothing.
- `path.extname` is modelled with POSIX semantics only; the Windows variant is not.
- The widgets themselves are left out: titles, placeholders, prompts, `activeItem`, the
  `enabled` / `busy` flags, disposal, and the information message for an empty workspace. The
  `step` / `totalSteps` fields, which the source never sets, are left out too.
- Asynchrony is left out. A prompt's promise is the outcome of the user's events. `Accept` is
  validated at once, so an accept that races an unfinished validation is not modelled.
- Prompts.InputBox: the input box's displayed validation message is not part of it. The race of
  `onDidChangeValue` validations is modelled separately, by `Prompts.Tracked` and the
  `ValidationTracker` class, over any validator.
- Wizard.PickScopeOutcome, Wizard.InputNameOutcome, Wizard.InputNamespaceOutcome,
  Wizard.InputCertificateOutcome and Wizard.StepOutcome promise that a step leaves no more events
  than it was given. They do not promise that what is left is a suffix of the script, because
  the driver's termination and completeness proofs need only the bound.
- Wizard.CertificateAcceptedOnlyIfMissing is stated for the certificate step alone, not for a
  whole run of the flow that reaches it.
- The kubeseal and oc options are an enumeration (`Opt`) whose spelling is fixed by
  `OptText`. The exact command strings are stated separately, by the `...Renders` lemmas.
