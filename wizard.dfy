/** `collectSealSecretUserInput` of src/userInput.ts: the four steps of the "Seal Secret" input
    flow, the `stepThrough` driver of `MultiStepInput` with its step stack and its Back / Resume /
    Cancel handling, and the projection of the final state onto `SealSecretParameters`.

    The step functions and `Drive` are the reference semantics; the classes `WizardState` and
    `MultiStepInput` carry the same steps as methods that update the state object and consume
    the user's events in place, each proved equal to its reference function. */
module Wizard {
  import opened Wrappers
  import opened Types
  import opened CommandLine
  import opened Defaults
  import opened InputValidation
  import opened Prompts

  /** The steps of the flow: `pickScope`, `inputName`, `inputNamespace`, `inputCertificatePath`. */
  datatype Step = ScopeStep | NameStep | NamespaceStep | CertificateStep

  /** Steps only ever move on to a step of lower rank without consuming an event. */
  function Rank(s: Step): nat {
    match s
    case ScopeStep => 3
    case NameStep => 2
    case NamespaceStep => 1
    case CertificateStep => 0
  }

  /** `state.namespace`: unset, the bare string taken from the document (whose `.label` is
      undefined), or the picked quick-pick item. */
  datatype NamespaceSlot = NoNamespace | BareNamespace(text: string) | NamespaceItem(item: string)

  /** The flow's `Partial<State>`; `scopeItem` is the label of `state.scope`. */
  datatype WizardValue = WizardValue(
    scopeItem: Option<string>,
    scopeValue: Option<int>,
    name: Option<string>,
    namespace: NamespaceSlot,
    certificatePath: Option<string>)

  /** Everything the flow reads besides the user's events: the extension state, the parsed
      document, what the `oc projects -q` invocation yields, the `*.pem` files of the workspace,
      the paths `stat` succeeds on, and how `shouldResume` behaves. */
  datatype Environment = Environment(
    ext: ExtensionState,
    document: Document,
    namespaces: ExecResult,
    workspaceCertificates: seq<string>,
    existingFiles: set<string>,
    policy: ResumePolicy)

  /** The errors that escape the flow: reading a property of `undefined`, a document that is not
      YAML, and a failing namespace lister. */
  datatype FlowError = TypeError | DocumentUnreadable | NamespacesFailed(message: string)

  /** How a step ends: with the next step, with none, by throwing a control value or an error,
      or never (a prompt whose promise does not settle). */
  datatype StepReturn = Next(step: Step) | Done | Raise(signal: Signal) | Fail(error: FlowError) | Stall

  datatype StepOut = StepOut(ret: StepReturn, state: WizardValue, rest: seq<Event>)

  /** The remembered parameters; all fields are undefined when there are none. */
  function Remembered(env: Environment): SealSecretParameters {
    env.ext.sealSecretParams.GetOr(Unset)
  }

  /** `scopes[n]`: the item of the n-th scope, undefined out of range. */
  function ScopeItem(n: int): (r: Option<string>)
    ensures r.Some? <==> 0 <= n < 3
    ensures r.Some? ==> r.value in ScopeLabels && FromLabel(r.value) == FromOrdinal(n)
  {
    match FromOrdinal(n)
    case Some(s) => Some(Label(s))
    case None => None
  }

  /** The state `collectInputs` starts from. */
  function Initial(env: Environment): WizardValue {
    var p := Remembered(env);
    WizardValue(
      if Truthy(p.scope) then ScopeItem(p.scope.value) else None,
      if Truthy(p.scope) then p.scope else None,
      p.name, NoNamespace, p.certificatePath)
  }

  // ---------------------------------------------------------------------------
  // The steps. `depth` is the length of the step stack while the step runs.
  // ---------------------------------------------------------------------------

  /** What every step promises about the events it consumes and the control values it throws:
      it never adds events; a thrown control value has consumed the event that
      caused it; handing on to a step of equal or higher rank has consumed at least one event;
      Back is thrown only below the first step, Resume and Cancel only as the resume policy
      decides. */
  predicate Progress(env: Environment, depth: nat, step: Step, script: seq<Event>, out: StepOut) {
    && |out.rest| <= |script|
    && (out.ret.Raise? ==> |out.rest| < |script|)
    && (out.ret.Next? ==> |out.rest| < |script| || Rank(out.ret.step) < Rank(step))
    && (out.ret == Raise(Back) ==> depth > 1)
    && (out.ret == Raise(Resume) ==> env.policy == Decides(true))
    && (out.ret == Raise(Cancel) ==> env.policy == Decides(false))
  }

  /** The `switch` on the chosen scope's label. */
  function AfterScope(env: Environment, st: WizardValue, rest: seq<Event>): StepOut {
    match st.scopeItem
    case None => StepOut(Fail(TypeError), st, rest)
    case Some(l) =>
      if l == Label(Strict) then StepOut(Next(NameStep), st.(scopeValue := Some(Ordinal(Strict))), rest)
      else if l == Label(NamespaceWide) then StepOut(Next(NamespaceStep), st.(scopeValue := Some(Ordinal(NamespaceWide))), rest)
      else if l == Label(ClusterWide) then
        StepOut(if env.ext.localCert then Next(CertificateStep) else Done, st.(scopeValue := Some(Ordinal(ClusterWide))), rest)
      else StepOut(Done, st, rest)
  }

  /** `pickScope`: a remembered truthy scope is taken without asking. */
  function PickScopeOutcome(env: Environment, depth: nat, st: WizardValue, script: seq<Event>): (out: StepOut)
    ensures Progress(env, depth, ScopeStep, script, out)
  {
    var p := Remembered(env);
    if Truthy(p.scope) then AfterScope(env, st.(scopeItem := ScopeItem(p.scope.value)), script)
    else
      var q := QuickPick(ScopeLabels, depth > 1, env.policy, script);
      match q.result
      case Resolved(l) => AfterScope(env, st.(scopeItem := Some(l)), q.rest)
      case Rejected(sig) => StepOut(Raise(sig), st, q.rest)
      case Unsettled => StepOut(Stall, st, q.rest)
  }

  /** `inputName`: a remembered non-empty name is taken without asking. */
  function InputNameOutcome(env: Environment, depth: nat, st: WizardValue, script: seq<Event>): (out: StepOut)
    ensures Progress(env, depth, NameStep, script, out)
  {
    var p := Remembered(env);
    if NonEmpty(p.name) then StepOut(Next(NamespaceStep), st.(name := p.name), script)
    else
      var b := InputBox(st.name.GetOr(""), depth > 1, false, NameRule, env.policy, script);
      match b.result
      case Resolved(a) => StepOut(Next(NamespaceStep), st.(name := Some(a.text)), b.rest)
      case Rejected(sig) => StepOut(Raise(sig), st, b.rest)
      case Unsettled => StepOut(Stall, st, b.rest)
  }

  /** After the namespace is known: the certificate step when a local certificate is used. */
  function NamespaceKnown(env: Environment, st: WizardValue, rest: seq<Event>): StepOut {
    StepOut(if env.ext.localCert then Next(CertificateStep) else Done, st, rest)
  }

  /** `inputNamespace`: the document's namespace wins; otherwise the lister's output, split at
      line breaks, is offered (the `validate` handed to this quick pick is never called). */
  function InputNamespaceOutcome(env: Environment, depth: nat, st: WizardValue, script: seq<Event>): (out: StepOut)
    ensures Progress(env, depth, NamespaceStep, script, out)
  {
    match env.document
    case ParseError => StepOut(Fail(DocumentUnreadable), st, script)
    case Parsed(m) =>
      var ns := MetadataNamespace(m);
      if NonEmpty(ns) then NamespaceKnown(env, st.(namespace := BareNamespace(ns.value)), script)
      else
        match env.namespaces
        case ExecFailed(msg) => StepOut(Fail(NamespacesFailed(msg)), st, script)
        case Stdout(out) =>
          var q := QuickPick(Split(out, '\n'), depth > 1, env.policy, script);
          match q.result
          case Resolved(l) => NamespaceKnown(env, st.(namespace := NamespaceItem(l)), q.rest)
          case Rejected(sig) => StepOut(Raise(sig), st, q.rest)
          case Unsettled => StepOut(Stall, st, q.rest)
  }

  /** The labels of the workspace's certificate files. */
  function WorkspaceItems(files: seq<string>): (r: seq<string>)
    ensures |r| == |files|
    ensures forall i :: 0 <= i < |files| ==> r[i] == StripDriveSlash(files[i])
  {
    seq(|files|, i requires 0 <= i < |files| => StripDriveSlash(files[i]))
  }

  /** `inputCertificatePath`: a typed valid path ends the flow; the workspace button offers the
      workspace's certificates (or repeats the step when there are none); the browse button
      takes the dialog's first file, if any, and repeats the step. */
  function InputCertificateOutcome(env: Environment, depth: nat, st: WizardValue, script: seq<Event>): (out: StepOut)
    ensures Progress(env, depth, CertificateStep, script, out)
  {
    var b := InputBox(st.certificatePath.GetOr(""), depth > 1, true, CertificateRule(env.existingFiles), env.policy, script);
    match b.result
    case Resolved(Typed(t)) => StepOut(Done, st.(certificatePath := Some(t)), b.rest)
    case Resolved(Button(FromWorkspace)) =>
      if |env.workspaceCertificates| > 0 then
        var q := QuickPick(WorkspaceItems(env.workspaceCertificates), depth > 1, env.policy, b.rest);
        match q.result
        case Resolved(l) => StepOut(Done, st.(certificatePath := Some(l)), q.rest)
        case Rejected(sig) => StepOut(Raise(sig), st, q.rest)
        case Unsettled => StepOut(Stall, st, q.rest)
      else StepOut(Next(CertificateStep), st, b.rest)
    case Resolved(Button(Browse(chosen))) =>
      StepOut(Next(CertificateStep), if |chosen| > 0 then st.(certificatePath := Some(chosen[0])) else st, b.rest)
    case Rejected(sig) => StepOut(Raise(sig), st, b.rest)
    case Unsettled => StepOut(Stall, st, b.rest)
  }

  /** One step. */
  function StepOutcome(env: Environment, depth: nat, step: Step, st: WizardValue, script: seq<Event>): (out: StepOut)
    ensures Progress(env, depth, step, script, out)
  {
    match step
    case ScopeStep => PickScopeOutcome(env, depth, st, script)
    case NameStep => InputNameOutcome(env, depth, st, script)
    case NamespaceStep => InputNamespaceOutcome(env, depth, st, script)
    case CertificateStep => InputCertificateOutcome(env, depth, st, script)
  }

  // ---------------------------------------------------------------------------
  // The driver.
  // ---------------------------------------------------------------------------

  datatype Outcome = Finished(state: WizardValue) | Failed(error: FlowError) | Stalled

  /** `stepThrough` from `step` with `stack` the steps below it: the step is pushed and run; Back
      drops it and re-runs the one below, Resume re-runs it, Cancel and an empty stack end the
      loop normally, an error escapes. */
  function Drive(env: Environment, stack: seq<Step>, step: Step, st: WizardValue, script: seq<Event>): Outcome
    decreases |script|, Rank(step)
  {
    var pushed := stack + [step];
    var out := StepOutcome(env, |pushed|, step, st, script);
    match out.ret
    case Next(s) => Drive(env, pushed, s, out.state, out.rest)
    case Done => Finished(out.state)
    case Raise(Back) =>
      if stack == [] then Finished(out.state)
      else Drive(env, stack[..|stack| - 1], stack[|stack| - 1], out.state, out.rest)
    case Raise(Resume) => Drive(env, stack, step, out.state, out.rest)
    case Raise(Cancel) => Finished(out.state)
    case Fail(e) => Failed(e)
    case Stall => Stalled
  }

  /** The loop from an optional step: no step means the loop has ended. */
  function Continue(env: Environment, stack: seq<Step>, step: Option<Step>, st: WizardValue, script: seq<Event>): Outcome {
    match step
    case None => Finished(st)
    case Some(s) => Drive(env, stack, s, st, script)
  }

  /** What `collectSealSecretUserInput` settles with. */
  datatype UserInput = Returned(params: SealSecretParameters) | Threw(error: FlowError) | Pending

  /** The returned object: `state.namespace.label` throws when the namespace was never set and is
      undefined when it is the document's bare string. */
  function Projected(st: WizardValue): UserInput {
    match st.namespace
    case NoNamespace => Threw(TypeError)
    case BareNamespace(_) => Returned(SealSecretParameters(st.certificatePath, st.name, None, st.scopeValue))
    case NamespaceItem(l) => Returned(SealSecretParameters(st.certificatePath, st.name, Some(l), st.scopeValue))
  }

  /** The whole flow on a sequence of user events. */
  function FlowResult(env: Environment, script: seq<Event>): UserInput {
    match Drive(env, [], ScopeStep, Initial(env), script)
    case Finished(st) => Projected(st)
    case Failed(e) => Threw(e)
    case Stalled => Pending
  }

  // ---------------------------------------------------------------------------
  // The imperative flow.
  // ---------------------------------------------------------------------------

  /** The mutable `state` object the steps fill in. */
  class WizardState {
    var scopeItem: Option<string>
    var scopeValue: Option<int>
    var name: Option<string>
    var namespace: NamespaceSlot
    var certificatePath: Option<string>

    function Value(): WizardValue
      reads this
    {
      WizardValue(scopeItem, scopeValue, name, namespace, certificatePath)
    }

    /** `{} as Partial<State>`. */
    constructor ()
      ensures Value() == WizardValue(None, None, None, NoNamespace, None)
    {
      scopeItem := None;
      scopeValue := None;
      name := None;
      namespace := NoNamespace;
      certificatePath := None;
    }
  }

  /** `MultiStepInput`: the stack of steps and the user's events still to come. */
  class MultiStepInput {
    var steps: seq<Step>
    var script: seq<Event>

    constructor (script: seq<Event>)
      ensures steps == [] && this.script == script
    {
      steps := [];
      this.script := script;
    }

    /** `showQuickPick`: consumes events until the prompt settles. */
    method ShowQuickPick(items: seq<string>, policy: ResumePolicy) returns (r: Settled<string>)
      modifies this`script
      ensures Prompted(r, script) == QuickPick(items, |steps| > 1, policy, old(script))
    {
      var backOffered := |steps| > 1;
      ghost var goal := QuickPick(items, backOffered, policy, script);
      while script != []
        invariant QuickPick(items, backOffered, policy, script) == goal
        decreases |script|
      {
        var e := script[0];
        script := script[1..];
        match e {
          case Select(l) =>
            if l in items {
              return Resolved(l);
            }
          case PressBack =>
            if backOffered {
              return Rejected(Back);
            }
          case Hide =>
            return HideOutcome(policy);
          case _ =>
        }
      }
      return Unsettled;
    }

    /** `showInputBox`: consumes events until the prompt settles. */
    method ShowInputBox(value: string, withButtons: bool, validator: Validator, policy: ResumePolicy)
      returns (r: Settled<BoxAnswer>)
      modifies this`script
      ensures Prompted(r, script) == InputBox(value, |steps| > 1, withButtons, validator, policy, old(script))
    {
      var backOffered := |steps| > 1;
      var text := value;
      ghost var goal := InputBox(text, backOffered, withButtons, validator, policy, script);
      while script != []
        invariant InputBox(text, backOffered, withButtons, validator, policy, script) == goal
        decreases |script|
      {
        var e := script[0];
        script := script[1..];
        match e {
          case ChangeValue(t) =>
            text := t;
          case Accept =>
            if Validate(validator, text).None? {
              return Resolved(Typed(text));
            }
          case PressBack =>
            if backOffered {
              return Rejected(Back);
            }
          case PressWorkspace =>
            if withButtons {
              return Resolved(Button(FromWorkspace));
            }
          case PressBrowse(chosen) =>
            if withButtons {
              return Resolved(Button(Browse(chosen)));
            }
          case Hide =>
            return HideOutcome(policy);
          case Select(_) =>
        }
      }
      return Unsettled;
    }

    /** `pickScope`. */
    method PickScope(env: Environment, state: WizardState) returns (ret: StepReturn)
      modifies this`script, state
      ensures StepOut(ret, state.Value(), script) == PickScopeOutcome(env, |steps|, old(state.Value()), old(script))
    {
      var p := Remembered(env);
      if Truthy(p.scope) {
        state.scopeItem := ScopeItem(p.scope.value);
      } else {
        var picked := ShowQuickPick(ScopeLabels, env.policy);
        match picked {
          case Resolved(l) => state.scopeItem := Some(l);
          case Rejected(sig) => return Raise(sig);
          case Unsettled => return Stall;
        }
      }
      match state.scopeItem {
        case None => return Fail(TypeError);
        case Some(l) =>
          if l == Label(Strict) {
            state.scopeValue := Some(Ordinal(Strict));
            return Next(NameStep);
          } else if l == Label(NamespaceWide) {
            state.scopeValue := Some(Ordinal(NamespaceWide));
            return Next(NamespaceStep);
          } else if l == Label(ClusterWide) {
            state.scopeValue := Some(Ordinal(ClusterWide));
            return if env.ext.localCert then Next(CertificateStep) else Done;
          }
          return Done;
      }
    }

    /** `inputName`. */
    method InputName(env: Environment, state: WizardState) returns (ret: StepReturn)
      modifies this`script, state
      ensures StepOut(ret, state.Value(), script) == InputNameOutcome(env, |steps|, old(state.Value()), old(script))
    {
      var p := Remembered(env);
      if NonEmpty(p.name) {
        state.name := p.name;
      } else {
        var answer := ShowInputBox(state.name.GetOr(""), false, NameRule, env.policy);
        match answer {
          case Resolved(a) => state.name := Some(a.text);
          case Rejected(sig) => return Raise(sig);
          case Unsettled => return Stall;
        }
      }
      return Next(NamespaceStep);
    }

    /** `inputNamespace`. */
    method InputNamespace(env: Environment, state: WizardState) returns (ret: StepReturn)
      modifies this`script, state
      ensures StepOut(ret, state.Value(), script) == InputNamespaceOutcome(env, |steps|, old(state.Value()), old(script))
    {
      match env.document {
        case ParseError => return Fail(DocumentUnreadable);
        case Parsed(m) =>
          var ns := MetadataNamespace(m);
          if NonEmpty(ns) {
            state.namespace := BareNamespace(ns.value);
          } else {
            match env.namespaces {
              case ExecFailed(msg) => return Fail(NamespacesFailed(msg));
              case Stdout(out) =>
                var picked := ShowQuickPick(Split(out, '\n'), env.policy);
                match picked {
                  case Resolved(l) => state.namespace := NamespaceItem(l);
                  case Rejected(sig) => return Raise(sig);
                  case Unsettled => return Stall;
                }
            }
          }
      }
      return if env.ext.localCert then Next(CertificateStep) else Done;
    }

    /** `inputCertificatePath`. */
    method InputCertificatePath(env: Environment, state: WizardState) returns (ret: StepReturn)
      modifies this`script, state
      ensures StepOut(ret, state.Value(), script) == InputCertificateOutcome(env, |steps|, old(state.Value()), old(script))
    {
      var answer := ShowInputBox(state.certificatePath.GetOr(""), true, CertificateRule(env.existingFiles), env.policy);
      match answer {
        case Resolved(Typed(t)) =>
          state.certificatePath := Some(t);
          return Done;
        case Resolved(Button(FromWorkspace)) =>
          if |env.workspaceCertificates| > 0 {
            var picked := ShowQuickPick(WorkspaceItems(env.workspaceCertificates), env.policy);
            match picked {
              case Resolved(l) =>
                state.certificatePath := Some(l);
                return Done;
              case Rejected(sig) => return Raise(sig);
              case Unsettled => return Stall;
            }
          } else {
            return Next(CertificateStep);
          }
        case Resolved(Button(Browse(chosen))) =>
          if |chosen| > 0 {
            state.certificatePath := Some(chosen[0]);
          }
          return Next(CertificateStep);
        case Rejected(sig) => return Raise(sig);
        case Unsettled => return Stall;
      }
    }

    /** Runs one step. */
    method Run(env: Environment, state: WizardState, step: Step) returns (ret: StepReturn)
      modifies this`script, state
      ensures StepOut(ret, state.Value(), script) == StepOutcome(env, |steps|, step, old(state.Value()), old(script))
    {
      match step {
        case ScopeStep => ret := PickScope(env, state);
        case NameStep => ret := InputName(env, state);
        case NamespaceStep => ret := InputNamespace(env, state);
        case CertificateStep => ret := InputCertificatePath(env, state);
      }
    }

    /** `stepThrough`. */
    method StepThrough(env: Environment, state: WizardState, start: Step) returns (outcome: Outcome)
      modifies this, state
      ensures outcome == Drive(env, old(steps), start, old(state.Value()), old(script))
      ensures outcome.Finished? ==> outcome.state == state.Value()
    {
      ghost var goal := Drive(env, steps, start, state.Value(), script);
      var step: Option<Step> := Some(start);
      while step.Some?
        invariant Continue(env, steps, step, state.Value(), script) == goal
        decreases |script|, if step.Some? then Rank(step.value) + 1 else 0
      {
        var current := step.value;
        ghost var stack := steps;
        steps := steps + [current];
        var ret := Run(env, state, current);
        match ret {
          case Next(s) =>
            step := Some(s);
          case Done =>
            step := None;
          case Raise(Back) =>
            steps := steps[..|steps| - 1];
            assert steps == stack;
            if steps == [] {
              step := None;
            } else {
              step := Some(steps[|steps| - 1]);
              steps := steps[..|steps| - 1];
            }
          case Raise(Resume) =>
            steps := steps[..|steps| - 1];
            assert steps == stack;
            step := Some(current);
          case Raise(Cancel) =>
            step := None;
          case Fail(e) =>
            return Failed(e);
          case Stall =>
            return Stalled;
        }
      }
      return Finished(state.Value());
    }
  }

  /** `collectSealSecretUserInput`: `collectInputs` seeds the state from the remembered
      parameters, runs the flow from `pickScope`, and the state is projected onto the result. */
  method CollectSealSecretUserInput(env: Environment, script: seq<Event>) returns (r: UserInput)
    ensures r == FlowResult(env, script)
  {
    var p := Remembered(env);
    var state := new WizardState();
    state.name := p.name;
    state.certificatePath := p.certificatePath;
    if Truthy(p.scope) {
      state.scopeValue := p.scope;
      state.scopeItem := ScopeItem(p.scope.value);
    }
    var input := new MultiStepInput(script);
    var outcome := input.StepThrough(env, state, ScopeStep);
    match outcome {
      case Finished(_) =>
        match state.namespace {
          case NoNamespace => r := Threw(TypeError);
          case BareNamespace(_) =>
            r := Returned(SealSecretParameters(state.certificatePath, state.name, None, state.scopeValue));
          case NamespaceItem(l) =>
            r := Returned(SealSecretParameters(state.certificatePath, state.name, Some(l), state.scopeValue));
        }
      case Failed(e) => r := Threw(e);
      case Stalled => r := Pending;
    }
  }

  // ---------------------------------------------------------------------------
  // Properties of the flow.
  // ---------------------------------------------------------------------------

  /** The scope prompt is shown exactly when no truthy scope is remembered: only then does the
      step wait for the user. */
  lemma ScopePromptSkipped(env: Environment, depth: nat, st: WizardValue)
    ensures PickScopeOutcome(env, depth, st, []).ret == Stall <==> !Truthy(Remembered(env).scope)
  {
  }

  /** The name prompt is shown exactly when no non-empty name is remembered. */
  lemma NamePromptSkipped(env: Environment, depth: nat, st: WizardValue)
    ensures InputNameOutcome(env, depth, st, []).ret == Stall <==> !NonEmpty(Remembered(env).name)
  {
  }

  /** A namespace in the document is taken without asking or listing namespaces. */
  lemma DocumentNamespaceSkipsPrompt(env: Environment, depth: nat, st: WizardValue, script: seq<Event>)
    requires env.document.Parsed? && NonEmpty(MetadataNamespace(env.document.metadata))
    ensures InputNamespaceOutcome(env, depth, st, script).rest == script
    ensures InputNamespaceOutcome(env, depth, st, script).state.namespace == BareNamespace(MetadataNamespace(env.document.metadata).value)
    ensures InputNamespaceOutcome(env, depth, st, script)
         == NamespaceKnown(env, st.(namespace := BareNamespace(MetadataNamespace(env.document.metadata).value)), script)
  {
  }

  /** Where the scope step hands on: strict to the name step, namespace-wide to the namespace
      step, cluster-wide to the certificate step when a local certificate is used and to the end
      otherwise; each of these records the scope's ordinal. */
  lemma ScopeStepEdges(env: Environment, depth: nat, st: WizardValue, script: seq<Event>)
    ensures var out := PickScopeOutcome(env, depth, st, script);
      && (out.ret == Next(NameStep) <==> (out.ret.Next? || out.ret.Done?) && out.state.scopeValue == Some(Ordinal(Strict)))
      && (out.ret == Next(NamespaceStep)
          <==> (out.ret.Next? || out.ret.Done?) && out.state.scopeValue == Some(Ordinal(NamespaceWide)))
      && (out.ret == Next(CertificateStep)
          <==> (out.ret.Next? || out.ret.Done?) && out.state.scopeValue == Some(Ordinal(ClusterWide)) && env.ext.localCert)
      && (out.ret == Done
          <==> (out.ret.Next? || out.ret.Done?) && out.state.scopeValue == Some(Ordinal(ClusterWide)) && !env.ext.localCert)
  {
  }

  /** The name step hands on only to the namespace step, always with a non-empty name, and a
      remembered non-empty name is taken without consuming an event. */
  lemma NameStepEdges(env: Environment, depth: nat, st: WizardValue, script: seq<Event>)
    ensures var out := InputNameOutcome(env, depth, st, script);
      && (out.ret == Next(NamespaceStep) || out.ret.Raise? || out.ret == Stall)
      && (out.ret == Next(NamespaceStep) ==> NonEmpty(out.state.name))
      && (NonEmpty(Remembered(env).name) ==> out == StepOut(Next(NamespaceStep), st.(name := Remembered(env).name), script))
  {
  }

  /** The namespace step, on every path (the document's namespace or the lister's), hands on to
      the certificate step exactly when a local certificate is used and ends the flow otherwise,
      with a namespace recorded; it fails on an unreadable document, and with the lister's
      message exactly when the lister is consulted and fails. */
  lemma NamespaceStepEdges(env: Environment, depth: nat, st: WizardValue, script: seq<Event>)
    ensures var out := InputNamespaceOutcome(env, depth, st, script);
      && (out.ret.Next? || out.ret.Done? ==>
            out.ret == (if env.ext.localCert then Next(CertificateStep) else Done) && out.state.namespace != NoNamespace)
      && (out.ret == Done ==> !env.ext.localCert)
      && (out.ret == Fail(DocumentUnreadable) <==> env.document.ParseError?)
      && (out.ret.Fail? && out.ret.error.NamespacesFailed?
          <==> env.document.Parsed? && !NonEmpty(MetadataNamespace(env.document.metadata)) && env.namespaces.ExecFailed?)
      && (out.ret.Fail? && out.ret.error.NamespacesFailed? ==> out.ret.error.message == env.namespaces.message)
  {
  }

  /** The certificate step never fails, hands on only to itself (after a button), and ends the
      flow only with a certificate path recorded. */
  lemma CertificateStepEdges(env: Environment, depth: nat, st: WizardValue, script: seq<Event>)
    ensures var out := InputCertificateOutcome(env, depth, st, script);
      && !out.ret.Fail?
      && (out.ret.Next? ==> out.ret == Next(CertificateStep))
      && (out.ret == Done ==> out.state.certificatePath.Some?)
  {
  }

  /** The workspace button: with no certificate files in the workspace the step repeats with
      the state unchanged; otherwise picking one of the offered labels ends the flow with it. */
  lemma CertificateFromWorkspace(env: Environment, depth: nat, st: WizardValue, l: string, rest: seq<Event>)
    ensures |env.workspaceCertificates| == 0 ==>
      InputCertificateOutcome(env, depth, st, [PressWorkspace] + rest) == StepOut(Next(CertificateStep), st, rest)
    ensures l in WorkspaceItems(env.workspaceCertificates) ==>
      InputCertificateOutcome(env, depth, st, [PressWorkspace, Select(l)] + rest)
        == StepOut(Done, st.(certificatePath := Some(l)), rest)
  {
    assert ([PressWorkspace] + rest)[0] == PressWorkspace && ([PressWorkspace] + rest)[1..] == rest;
    var tail := [Select(l)] + rest;
    assert [PressWorkspace, Select(l)] + rest == [PressWorkspace] + tail;
    assert ([PressWorkspace] + tail)[0] == PressWorkspace && ([PressWorkspace] + tail)[1..] == tail;
    assert tail[0] == Select(l) && tail[1..] == rest;
    if l in WorkspaceItems(env.workspaceCertificates) {
      assert |WorkspaceItems(env.workspaceCertificates)| > 0;
    }
  }

  /** The browse button repeats the step, taking the dialog's first file as the path when the
      dialog returned any and keeping the state otherwise. */
  lemma CertificateBrowse(env: Environment, depth: nat, st: WizardValue, chosen: seq<string>, rest: seq<Event>)
    ensures InputCertificateOutcome(env, depth, st, [PressBrowse(chosen)] + rest)
         == StepOut(Next(CertificateStep), if |chosen| > 0 then st.(certificatePath := Some(chosen[0])) else st, rest)
  {
    assert ([PressBrowse(chosen)] + rest)[0] == PressBrowse(chosen) && ([PressBrowse(chosen)] + rest)[1..] == rest;
  }

  /** Unlike the other steps, the certificate step always asks, even with a path remembered; the
      box is prefilled with that path, so accepting a valid one keeps it. */
  lemma CertificatePromptNeverSkipped(env: Environment, depth: nat, st: WizardValue, rest: seq<Event>)
    ensures InputCertificateOutcome(env, depth, st, []).ret == Stall
    ensures st.certificatePath.Some? && Validate(CertificateRule(env.existingFiles), st.certificatePath.value).None? ==>
      InputCertificateOutcome(env, depth, st, [Accept] + rest) == StepOut(Done, st, rest)
  {
    assert ([Accept] + rest)[0] == Accept && ([Accept] + rest)[1..] == rest;
  }

  /** What a step may rely on when it runs: the name step is reached only under the strict scope,
      the namespace step only under namespace-wide or after a name, the certificate step only
      with a local certificate and after everything its scope needs. */
  predicate Ready(env: Environment, step: Step, st: WizardValue) {
    match step
    case ScopeStep => true
    case NameStep => st.scopeValue == Some(Ordinal(Strict))
    case NamespaceStep =>
      || st.scopeValue == Some(Ordinal(NamespaceWide))
      || (st.scopeValue == Some(Ordinal(Strict)) && NonEmpty(st.name))
    case CertificateStep =>
      && env.ext.localCert
      && (|| st.scopeValue == Some(Ordinal(ClusterWide))
          || (st.scopeValue == Some(Ordinal(NamespaceWide)) && st.namespace != NoNamespace)
          || (st.scopeValue == Some(Ordinal(Strict)) && NonEmpty(st.name) && st.namespace != NoNamespace))
  }

  /** The steps after the scope step keep the scope and never unset what is set. */
  predicate Grows(st: WizardValue, st2: WizardValue) {
    && st2.scopeItem == st.scopeItem
    && st2.scopeValue == st.scopeValue
    && (NonEmpty(st.name) ==> NonEmpty(st2.name))
    && (st.namespace != NoNamespace ==> st2.namespace != NoNamespace)
    && (st.certificatePath.Some? ==> st2.certificatePath.Some?)
  }

  /** A state the flow may finish in: a known scope, a name and a namespace where the scope needs
      them, and a certificate path when a local certificate is used. */
  predicate Complete(env: Environment, st: WizardValue) {
    && st.scopeValue.Some? && 0 <= st.scopeValue.value < 3
    && (st.scopeValue == Some(Ordinal(Strict)) ==> NonEmpty(st.name) && st.namespace != NoNamespace)
    && (st.scopeValue == Some(Ordinal(NamespaceWide)) ==> st.namespace != NoNamespace)
    && (env.ext.localCert ==> st.certificatePath.Some?)
  }

  /** The loop's invariant: every step on the stack and the current one are ready in the current
      state, and the scope step is only ever at the bottom. */
  predicate Invariant(env: Environment, stack: seq<Step>, step: Step, st: WizardValue) {
    && (forall i :: 0 <= i < |stack| ==> Ready(env, stack[i], st))
    && Ready(env, step, st)
    && (step == ScopeStep ==> stack == [])
    && (forall i :: 1 <= i < |stack| ==> stack[i] != ScopeStep)
  }

  lemma ReadyGrows(env: Environment, step: Step, st: WizardValue, st2: WizardValue)
    requires Ready(env, step, st) && Grows(st, st2)
    ensures Ready(env, step, st2)
  {
  }

  /** What one step does from a ready state: the state grows (the scope step aside), the next
      step is ready and is never the scope step, finishing leaves a complete state, and a thrown
      control value leaves the state alone. */
  predicate KeepsReady(env: Environment, step: Step, st: WizardValue, out: StepOut) {
    && (step != ScopeStep ==> Grows(st, out.state))
    && (out.ret.Next? ==> out.ret.step != ScopeStep && Ready(env, out.ret.step, out.state))
    && (out.ret.Done? ==> Complete(env, out.state))
    && (out.ret.Raise? ==> out.state == st)
  }

  lemma ScopeStepKeepsReady(env: Environment, depth: nat, st: WizardValue, script: seq<Event>)
    ensures KeepsReady(env, ScopeStep, st, PickScopeOutcome(env, depth, st, script))
  {
    var p := Remembered(env);
    if !Truthy(p.scope) {
      var q := QuickPick(ScopeLabels, depth > 1, env.policy, script);
      if q.result.Resolved? {
        assert q.result.value in ScopeLabels;
      }
    }
  }

  lemma NameStepKeepsReady(env: Environment, depth: nat, st: WizardValue, script: seq<Event>)
    requires Ready(env, NameStep, st)
    ensures KeepsReady(env, NameStep, st, InputNameOutcome(env, depth, st, script))
  {
  }

  lemma NamespaceStepKeepsReady(env: Environment, depth: nat, st: WizardValue, script: seq<Event>)
    requires Ready(env, NamespaceStep, st)
    ensures KeepsReady(env, NamespaceStep, st, InputNamespaceOutcome(env, depth, st, script))
  {
  }

  lemma CertificateStepKeepsReady(env: Environment, depth: nat, st: WizardValue, script: seq<Event>)
    requires Ready(env, CertificateStep, st)
    ensures KeepsReady(env, CertificateStep, st, InputCertificateOutcome(env, depth, st, script))
  {
  }

  /** Every step keeps the flow ready. */
  lemma StepKeepsReady(env: Environment, depth: nat, step: Step, st: WizardValue, script: seq<Event>)
    requires Ready(env, step, st)
    ensures KeepsReady(env, step, st, StepOutcome(env, depth, step, st, script))
  {
    match step
    case ScopeStep => ScopeStepKeepsReady(env, depth, st, script);
    case NameStep => NameStepKeepsReady(env, depth, st, script);
    case NamespaceStep => NamespaceStepKeepsReady(env, depth, st, script);
    case CertificateStep => CertificateStepKeepsReady(env, depth, st, script);
  }

  /** Where the driver stands: the steps below, the current step, the state and the events
      still to come. */
  datatype Config = Config(stack: seq<Step>, step: Step, state: WizardValue, script: seq<Event>)

  /** The driver run from `c`. */
  function DriveAt(env: Environment, c: Config): Outcome {
    Drive(env, c.stack, c.step, c.state, c.script)
  }

  /** What the current step at `c` returns. */
  function Out(env: Environment, c: Config): StepOut {
    StepOutcome(env, |c.stack| + 1, c.step, c.state, c.script)
  }

  /** Where the loop goes on from `c` once its step returned `out`, if it does. */
  function Advance(c: Config, out: StepOut): Option<Config> {
    match out.ret
    case Next(s) => Some(Config(c.stack + [c.step], s, out.state, out.rest))
    case Raise(Back) =>
      if c.stack == [] then None
      else Some(Config(c.stack[..|c.stack| - 1], c.stack[|c.stack| - 1], out.state, out.rest))
    case Raise(Resume) => Some(Config(c.stack, c.step, out.state, out.rest))
    case _ => None
  }

  /** How the loop ends when it does not go on. */
  function LoopEnd(out: StepOut): Outcome {
    match out.ret
    case Fail(e) => Failed(e)
    case Stall => Stalled
    case _ => Finished(out.state)
  }

  /** The driver, once the step at `c` returned `out`, either takes the turn `Advance` says or
      ends as `LoopEnd` says. */
  lemma DriveTurns(env: Environment, c: Config, out: StepOut)
    requires Out(env, c) == out
    ensures Advance(c, out).Some? ==> DriveAt(env, c) == DriveAt(env, Advance(c, out).value)
    ensures Advance(c, out).None? ==> DriveAt(env, c) == LoopEnd(out)
  {
  }

  /** A turn taken after a step that kept the flow ready keeps the loop's invariant. */
  lemma AdvanceKeepsInvariant(env: Environment, c: Config, out: StepOut)
    requires Invariant(env, c.stack, c.step, c.state) && KeepsReady(env, c.step, c.state, out)
    requires Advance(c, out).Some?
    ensures var c2 := Advance(c, out).value; Invariant(env, c2.stack, c2.step, c2.state)
  {
    var c2 := Advance(c, out).value;
    if out.ret.Next? {
      forall i | 0 <= i < |c2.stack|
        ensures Ready(env, c2.stack[i], out.state)
      {
        if c.step != ScopeStep {
          ReadyGrows(env, c2.stack[i], c.state, out.state);
        }
      }
    } else if out.ret == Raise(Back) {
      var k := |c.stack| - 1;
      assert c.stack[k] == ScopeStep ==> k == 0;
    }
  }

  /** A turn consumes an event or moves to a step of lower rank. */
  lemma AdvanceShrinks(env: Environment, c: Config, out: StepOut)
    requires Progress(env, |c.stack| + 1, c.step, c.script, out) && Advance(c, out).Some?
    ensures var c2 := Advance(c, out).value;
      |c2.script| < |c.script| || (|c2.script| == |c.script| && Rank(c2.step) < Rank(c.step))
  {
  }

  /** When the loop ends normally after a step that kept the flow ready, the state is complete,
      unless hiding cancelled it. */
  lemma LoopEndComplete(env: Environment, c: Config, out: StepOut)
    requires env.policy != Decides(false)
    requires Progress(env, |c.stack| + 1, c.step, c.script, out) && KeepsReady(env, c.step, c.state, out)
    requires Advance(c, out).None? && LoopEnd(out).Finished?
    ensures Complete(env, LoopEnd(out).state)
  {
  }

  /** Unless hiding a prompt cancels the flow, every run of the driver that finishes from a state
      satisfying the invariant finishes in a complete state. */
  lemma {:induction false} DriveCompletes(env: Environment, stack: seq<Step>, step: Step, st: WizardValue, script: seq<Event>)
    requires env.policy != Decides(false)
    requires Invariant(env, stack, step, st)
    ensures Drive(env, stack, step, st, script).Finished? ==> Complete(env, Drive(env, stack, step, st, script).state)
    decreases |script|, Rank(step)
  {
    var c := Config(stack, step, st, script);
    var out := Out(env, c);
    StepKeepsReady(env, |stack| + 1, step, st, script);
    DriveTurns(env, c, out);
    match Advance(c, out) {
      case Some(c2) =>
        AdvanceKeepsInvariant(env, c, out);
        AdvanceShrinks(env, c, out);
        DriveCompletes(env, c2.stack, c2.step, c2.state, c2.script);
      case None =>
        if LoopEnd(out).Finished? {
          LoopEndComplete(env, c, out);
        }
    }
  }

  /** Unless hiding a prompt cancels the flow, the parameters the flow returns always carry a
      scope the command builders know, a non-empty name under the strict scope, and a certificate
      path when a local certificate is used. */
  lemma CollectedInputIsComplete(env: Environment, script: seq<Event>)
    requires env.policy != Decides(false)
    ensures FlowResult(env, script).Returned? ==>
      var p := FlowResult(env, script).params;
      && p.scope.Some? && FromOrdinal(p.scope.value).Some?
      && (p.scope == Some(Ordinal(Strict)) ==> NonEmpty(p.name))
      && (env.ext.localCert ==> p.certificatePath.Some?)
  {
    DriveCompletes(env, [], ScopeStep, Initial(env), script);
  }

  // ---------------------------------------------------------------------------
  // Particular flows.
  // ---------------------------------------------------------------------------

  /** The certificate box on a typed path: accepted when valid, left open otherwise. */
  lemma CertificateTyped(env: Environment, depth: nat, st: WizardValue, path: string)
    ensures Validate(CertificateRule(env.existingFiles), path).None? ==>
      InputCertificateOutcome(env, depth, st, [ChangeValue(path), Accept]) == StepOut(Done, st.(certificatePath := Some(path)), [])
    ensures Validate(CertificateRule(env.existingFiles), path).Some? ==>
      InputCertificateOutcome(env, depth, st, [ChangeValue(path), Accept]).ret == Stall
  {
    var rule := CertificateRule(env.existingFiles);
    TypeThenAccept(st.certificatePath.GetOr(""), path, depth > 1, true, rule, env.policy, []);
    assert [ChangeValue(path), Accept] == [ChangeValue(path), Accept] + [];
  }

  /** The certificate box hidden under a cancelling policy. */
  lemma CertificateCancelled(env: Environment, depth: nat, st: WizardValue)
    requires env.policy == Decides(false)
    ensures InputCertificateOutcome(env, depth, st, [Hide]) == StepOut(Raise(Cancel), st, [])
  {
    assert [Hide][0] == Hide && [Hide][1..] == [];
  }

  /** The state after picking namespace-wide with nothing remembered and the namespace taken from
      the document. */
  function NamespaceWideState(env: Environment): WizardValue
    requires env.document.Parsed? && NonEmpty(MetadataNamespace(env.document.metadata))
  {
    WizardValue(Some(Label(NamespaceWide)), Some(Ordinal(NamespaceWide)), None,
                BareNamespace(MetadataNamespace(env.document.metadata).value), None)
  }

  /** Choosing cluster-wide without a local certificate finishes at once, and reading the label
      of the never-set namespace then throws. */
  lemma ClusterWideWithoutCertificateThrows(env: Environment, rest: seq<Event>)
    requires !Truthy(Remembered(env).scope) && !env.ext.localCert
    ensures FlowResult(env, [Select(Label(ClusterWide))] + rest) == Threw(TypeError)
  {
    var script := [Select(Label(ClusterWide))] + rest;
    var st0 := Initial(env);
    var st1 := st0.(scopeItem := Some(Label(ClusterWide)), scopeValue := Some(Ordinal(ClusterWide)));
    var c0 := Config([], ScopeStep, st0, script);
    ScopeSelected(env, 1, st0, Label(ClusterWide), rest);
    assert Out(env, c0) == StepOut(Done, st1, rest);
    DriveTurns(env, c0, StepOut(Done, st1, rest));
  }

  /** Under the strict scope a namespace taken from the document is a bare string, so the
      returned namespace is undefined. */
  lemma StrictDropsDocumentNamespace(env: Environment, name: string, rest: seq<Event>)
    requires Remembered(env) == Unset && !env.ext.localCert
    requires env.document.Parsed? && NonEmpty(MetadataNamespace(env.document.metadata))
    requires name != ""
    ensures FlowResult(env, [Select(Label(Strict)), ChangeValue(name), Accept] + rest)
         == Returned(SealSecretParameters(None, Some(name), None, Some(Ordinal(Strict))))
  {
    var tail := [ChangeValue(name), Accept] + rest;
    assert [Select(Label(Strict)), ChangeValue(name), Accept] + rest == [Select(Label(Strict))] + tail;
    var st0 := Initial(env);
    var st1 := st0.(scopeItem := Some(Label(Strict)), scopeValue := Some(Ordinal(Strict)));
    var st2 := st1.(name := Some(name));
    var st3 := st2.(namespace := BareNamespace(MetadataNamespace(env.document.metadata).value));
    StrictChosen(env, st0, tail);
    var c1 := Config([ScopeStep], NameStep, st1, tail);
    var c2 := Config([ScopeStep, NameStep], NamespaceStep, st2, rest);
    assert [ScopeStep] + [NameStep] == [ScopeStep, NameStep];
    TypeThenAccept("", name, true, false, NameRule, env.policy, rest);
    assert Out(env, c1) == StepOut(Next(NamespaceStep), st2, rest);
    DriveTurns(env, c1, StepOut(Next(NamespaceStep), st2, rest));
    DocumentNamespaceSkipsPrompt(env, 3, st2, rest);
    assert Out(env, c2) == StepOut(Done, st3, rest);
    DriveTurns(env, c2, StepOut(Done, st3, rest));
  }

  /** Lister output ending in a line break yields an empty last item, and picking it is
      accepted: the quick pick never consults `validateNamespace`. */
  lemma EmptyNamespaceAccepted(env: Environment, listed: string, rest: seq<Event>)
    requires Remembered(env) == Unset && !env.ext.localCert
    requires env.document == Parsed(None) && env.namespaces == Stdout(listed + "\n")
    ensures FlowResult(env, [Select(Label(NamespaceWide)), Select("")] + rest)
         == Returned(SealSecretParameters(None, None, Some(""), Some(Ordinal(NamespaceWide))))
  {
    var tail := [Select("")] + rest;
    assert [Select(Label(NamespaceWide)), Select("")] + rest == [Select(Label(NamespaceWide))] + tail;
    assert tail[0] == Select("") && tail[1..] == rest;
    var st0 := Initial(env);
    var st1 := st0.(scopeItem := Some(Label(NamespaceWide)), scopeValue := Some(Ordinal(NamespaceWide)));
    var st2 := st1.(namespace := NamespaceItem(""));
    NamespaceWideChosen(env, st0, tail);
    var c1 := Config([ScopeStep], NamespaceStep, st1, tail);
    TrailingSeparatorGivesEmptyItem(listed, '\n');
    var items := Split(listed + "\n", '\n');
    assert items[|items| - 1] == "";
    assert QuickPick(items, true, env.policy, tail) == Prompted(Resolved(""), rest);
    assert Out(env, c1) == StepOut(Done, st2, rest);
    DriveTurns(env, c1, StepOut(Done, st2, rest));
  }

  /** With nothing remembered and a namespace in the document, picking namespace-wide leads
      straight to the certificate step. */
  lemma NamespaceWideReachesCertificate(env: Environment, rest: seq<Event>)
    requires Remembered(env) == Unset && env.ext.localCert
    requires env.document.Parsed? && NonEmpty(MetadataNamespace(env.document.metadata))
    ensures DriveAt(env, Config([], ScopeStep, Initial(env), [Select(Label(NamespaceWide))] + rest))
         == DriveAt(env, Config([ScopeStep, NamespaceStep], CertificateStep, NamespaceWideState(env), rest))
  {
    var st0 := Initial(env);
    var st1 := st0.(scopeItem := Some(Label(NamespaceWide)), scopeValue := Some(Ordinal(NamespaceWide)));
    var st2 := NamespaceWideState(env);
    NamespaceWideChosen(env, st0, rest);
    var c1 := Config([ScopeStep], NamespaceStep, st1, rest);
    assert [ScopeStep] + [NamespaceStep] == [ScopeStep, NamespaceStep];
    DocumentNamespaceSkipsPrompt(env, 2, st1, rest);
    assert Out(env, c1) == StepOut(Next(CertificateStep), st2, rest);
    DriveTurns(env, c1, StepOut(Next(CertificateStep), st2, rest));
  }

  /** The inverted existence check at the certificate step: a typed ".pem" path ends the flow
      exactly when `stat` fails on it; on a path that exists the box stays open ("File not
      found"). */
  lemma CertificateAcceptedOnlyIfMissing(env: Environment, depth: nat, st: WizardValue, path: string)
    requires PemBasename(path)
    ensures InputCertificateOutcome(env, depth, st, [ChangeValue(path), Accept]).ret == Done <==> path !in env.existingFiles
    ensures path !in env.existingFiles ==>
      InputCertificateOutcome(env, depth, st, [ChangeValue(path), Accept]).state.certificatePath == Some(path)
  {
    CertificateTyped(env, depth, st, path);
    var verdict := Validate(CertificateRule(env.existingFiles), path);
    assert verdict == ValidateCertificatePath(path, env.existingFiles);
    CertificatePathVerdicts(path, env.existingFiles);
  }

  /** When hiding cancels, the flow still returns: the partial state is projected, so the
      parameters lack the certificate path although a local certificate is used. */
  lemma CancelReturnsPartialState(env: Environment)
    requires env.policy == Decides(false) && env.ext.localCert
    requires Remembered(env) == Unset
    requires env.document.Parsed? && NonEmpty(MetadataNamespace(env.document.metadata))
    ensures FlowResult(env, [Select(Label(NamespaceWide)), Hide])
         == Returned(SealSecretParameters(None, None, None, Some(Ordinal(NamespaceWide))))
  {
    assert [Select(Label(NamespaceWide)), Hide] == [Select(Label(NamespaceWide))] + [Hide];
    NamespaceWideReachesCertificate(env, [Hide]);
    CertificateCancelEnds(env, [ScopeStep, NamespaceStep], NamespaceWideState(env));
  }

  /** Under the extension's own `shouldResume`, hiding the first prompt leaves the flow pending
      for good, whatever follows. */
  lemma HideLeavesFlowPending(env: Environment, rest: seq<Event>)
    requires env.policy == NeverSettles && !Truthy(Remembered(env).scope)
    ensures FlowResult(env, [Hide] + rest) == Pending
  {
    HiddenPromptsNeverSettle(ScopeLabels, "", false, false, NameRule, rest);
    var c0 := Config([], ScopeStep, Initial(env), [Hide] + rest);
    assert Out(env, c0).ret == Stall;
    DriveTurns(env, c0, Out(env, c0));
  }

  /** Selecting strict on the scope prompt moves on to the name step. */
  lemma StrictChosen(env: Environment, st: WizardValue, rest: seq<Event>)
    requires !Truthy(Remembered(env).scope)
    ensures DriveAt(env, Config([], ScopeStep, st, [Select(Label(Strict))] + rest))
         == DriveAt(env, Config([ScopeStep], NameStep, st.(scopeItem := Some(Label(Strict)), scopeValue := Some(Ordinal(Strict))), rest))
  {
    var st1 := st.(scopeItem := Some(Label(Strict)), scopeValue := Some(Ordinal(Strict)));
    var c0 := Config([], ScopeStep, st, [Select(Label(Strict))] + rest);
    assert [] + [ScopeStep] == [ScopeStep];
    ScopeSelected(env, 1, st, Label(Strict), rest);
    assert Out(env, c0) == StepOut(Next(NameStep), st1, rest);
    DriveTurns(env, c0, StepOut(Next(NameStep), st1, rest));
  }

  /** Selecting namespace-wide on the scope prompt moves on to the namespace step. */
  lemma NamespaceWideChosen(env: Environment, st: WizardValue, rest: seq<Event>)
    requires !Truthy(Remembered(env).scope)
    ensures DriveAt(env, Config([], ScopeStep, st, [Select(Label(NamespaceWide))] + rest))
         == DriveAt(env, Config([ScopeStep], NamespaceStep, st.(scopeItem := Some(Label(NamespaceWide)), scopeValue := Some(Ordinal(NamespaceWide))), rest))
  {
    var st1 := st.(scopeItem := Some(Label(NamespaceWide)), scopeValue := Some(Ordinal(NamespaceWide)));
    var c0 := Config([], ScopeStep, st, [Select(Label(NamespaceWide))] + rest);
    assert [] + [ScopeStep] == [ScopeStep];
    ScopeSelected(env, 1, st, Label(NamespaceWide), rest);
    assert Out(env, c0) == StepOut(Next(NamespaceStep), st1, rest);
    DriveTurns(env, c0, StepOut(Next(NamespaceStep), st1, rest));
  }

  /** Hiding the certificate box under a cancelling policy ends the loop with the state as it is. */
  lemma CertificateCancelEnds(env: Environment, stack: seq<Step>, st: WizardValue)
    requires env.policy == Decides(false)
    ensures DriveAt(env, Config(stack, CertificateStep, st, [Hide])) == Finished(st)
  {
    var c := Config(stack, CertificateStep, st, [Hide]);
    CertificateCancelled(env, |stack| + 1, st);
    assert Out(env, c) == StepOut(Raise(Cancel), st, []);
    DriveTurns(env, c, StepOut(Raise(Cancel), st, []));
  }

  /** A scope label selected on the scope prompt is taken. */
  lemma ScopeSelected(env: Environment, depth: nat, st: WizardValue, l: string, rest: seq<Event>)
    requires !Truthy(Remembered(env).scope) && l in ScopeLabels
    ensures PickScopeOutcome(env, depth, st, [Select(l)] + rest) == AfterScope(env, st.(scopeItem := Some(l)), rest)
  {
    assert ([Select(l)] + rest)[0] == Select(l) && ([Select(l)] + rest)[1..] == rest;
  }

  /** Back on the name prompt, above the first step, throws `Back` and leaves the state alone. */
  lemma NameBackedOut(env: Environment, depth: nat, st: WizardValue, rest: seq<Event>)
    requires !NonEmpty(Remembered(env).name) && depth > 1
    ensures InputNameOutcome(env, depth, st, [PressBack] + rest) == StepOut(Raise(Back), st, rest)
  {
    assert ([PressBack] + rest)[0] == PressBack && ([PressBack] + rest)[1..] == rest;
  }

  /** Choosing strict and then pressing Back on the name prompt returns to the scope prompt
      with the strict choice still recorded. */
  lemma StrictThenBack(env: Environment, st: WizardValue, rest: seq<Event>)
    requires Remembered(env) == Unset
    ensures DriveAt(env, Config([], ScopeStep, st, [Select(Label(Strict)), PressBack] + rest))
         == DriveAt(env, Config([], ScopeStep, st.(scopeItem := Some(Label(Strict)), scopeValue := Some(Ordinal(Strict))), rest))
  {
    var t1 := [PressBack] + rest;
    assert [Select(Label(Strict)), PressBack] + rest == [Select(Label(Strict))] + t1;
    var st1 := st.(scopeItem := Some(Label(Strict)), scopeValue := Some(Ordinal(Strict)));
    StrictChosen(env, st, t1);
    var c1 := Config([ScopeStep], NameStep, st1, t1);
    assert [ScopeStep][..0] == [];
    NameBackedOut(env, 2, st1, rest);
    assert Out(env, c1) == StepOut(Raise(Back), st1, rest);
    DriveTurns(env, c1, StepOut(Raise(Back), st1, rest));
  }

  /** Choosing namespace-wide with a namespace in the document and no local certificate
      finishes at once with the document's namespace. */
  lemma NamespaceWideFinishes(env: Environment, st: WizardValue, rest: seq<Event>)
    requires !Truthy(Remembered(env).scope) && !env.ext.localCert
    requires env.document.Parsed? && NonEmpty(MetadataNamespace(env.document.metadata))
    ensures DriveAt(env, Config([], ScopeStep, st, [Select(Label(NamespaceWide))] + rest))
         == Finished(st.(scopeItem := Some(Label(NamespaceWide)), scopeValue := Some(Ordinal(NamespaceWide)),
                         namespace := BareNamespace(MetadataNamespace(env.document.metadata).value)))
  {
    var st1 := st.(scopeItem := Some(Label(NamespaceWide)), scopeValue := Some(Ordinal(NamespaceWide)));
    var st2 := st1.(namespace := BareNamespace(MetadataNamespace(env.document.metadata).value));
    NamespaceWideChosen(env, st, rest);
    var c1 := Config([ScopeStep], NamespaceStep, st1, rest);
    DocumentNamespaceSkipsPrompt(env, 2, st1, rest);
    assert Out(env, c1) == StepOut(Done, st2, rest);
    DriveTurns(env, c1, StepOut(Done, st2, rest));
  }

  /** Back on the name prompt returns to the scope prompt, where another scope can be chosen. */
  lemma BackFromNameRepicksScope(env: Environment, rest: seq<Event>)
    requires Remembered(env) == Unset && !env.ext.localCert
    requires env.document.Parsed? && NonEmpty(MetadataNamespace(env.document.metadata))
    ensures FlowResult(env, [Select(Label(Strict)), PressBack, Select(Label(NamespaceWide))] + rest)
         == Returned(SealSecretParameters(None, None, None, Some(Ordinal(NamespaceWide))))
  {
    var t2 := [Select(Label(NamespaceWide))] + rest;
    assert [Select(Label(Strict)), PressBack, Select(Label(NamespaceWide))] + rest == [Select(Label(Strict)), PressBack] + t2;
    var st0 := Initial(env);
    StrictThenBack(env, st0, t2);
    NamespaceWideFinishes(env, st0.(scopeItem := Some(Label(Strict)), scopeValue := Some(Ordinal(Strict))), rest);
  }
}
