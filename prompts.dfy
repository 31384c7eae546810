/** The two prompts of `MultiStepInput` in src/userInput.ts, `showQuickPick` and
    `showInputBox`, as functions of the user's actions, and the "latest validation wins" rule of
    the input box. The widgets are replaced by the sequence of events the user produces; a
    prompt consumes events until its promise settles. */
module Prompts {
  import opened Wrappers
  import opened InputValidation

  /** What the user does while a prompt is shown. `PressBrowse` carries the files the open-file
      dialog that follows it returns. */
  datatype Event =
    | Select(item: string)
    | ChangeValue(text: string)
    | Accept
    | PressBack
    | PressWorkspace
    | PressBrowse(chosen: seq<string>)
    | Hide

  /** The thrown control values of `InputFlowAction`. */
  datatype Signal = Back | Resume | Cancel

  /** How the `shouldResume` promise behaves when a prompt is hidden. The extension's own
      `shouldResume` never settles. */
  datatype ResumePolicy = NeverSettles | Decides(resume: bool)

  /** A prompt's promise: resolved, rejected with a control value, or never settled. */
  datatype Settled<T> = Resolved(value: T) | Rejected(signal: Signal) | Unsettled

  /** A prompt's outcome and the events left after it settled. */
  datatype Prompted<T> = Prompted(result: Settled<T>, rest: seq<Event>)

  /** The two extra buttons of the certificate input box. */
  datatype CertButton = FromWorkspace | Browse(chosen: seq<string>)

  /** What an input box resolves with: the accepted text or a pressed button. */
  datatype BoxAnswer = Typed(text: string) | Button(button: CertButton)

  /** The `validate` an input box is handed. `existing` is where `stat` succeeds. */
  datatype Validator = NameRule | CertificateRule(existing: set<string>)

  function Validate(v: Validator, text: string): Option<string> {
    match v
    case NameRule => ValidateName(text)
    case CertificateRule(existing) => ValidateCertificatePath(text, existing)
  }

  /** The `onDidHide` handler: resume or cancel once `shouldResume` settles, or nothing. */
  function HideOutcome<T>(policy: ResumePolicy): (r: Settled<T>)
    ensures r == Rejected(Cancel) <==> policy == Decides(false)
    ensures r == Rejected(Resume) <==> policy == Decides(true)
    ensures r == Unsettled <==> policy == NeverSettles
  {
    match policy
    case NeverSettles => Unsettled
    case Decides(resume) => if resume then Rejected(Resume) else Rejected(Cancel)
  }

  /** `rest` is what is left of `script` once some events were consumed. */
  predicate SuffixOf(rest: seq<Event>, script: seq<Event>) {
    |rest| <= |script| && rest == script[|script| - |rest|..]
  }

  /** What is left after the first event is also left of the whole script, and the event
      before it is the same in both. */
  lemma SuffixOfTail(rest: seq<Event>, script: seq<Event>)
    requires script != [] && SuffixOf(rest, script[1..])
    ensures SuffixOf(rest, script)
    ensures |rest| < |script| - 1 ==> script[|script| - |rest| - 1] == script[1..][|script| - 1 - |rest| - 1]
  {
  }

  /** `showQuickPick`. A selection of an offered item resolves with it; Back (shown only when
      `backOffered`) rejects with `Back`; hiding follows `policy`. Everything else is ignored.
      Without a further event the promise stays unsettled. */
  function QuickPick(items: seq<string>, backOffered: bool, policy: ResumePolicy, script: seq<Event>): (r: Prompted<string>)
    ensures SuffixOf(r.rest, script)
    ensures r.result.Unsettled? || |r.rest| < |script|
    ensures r.result.Resolved? ==> r.result.value in items && script[|script| - |r.rest| - 1] == Select(r.result.value)
    ensures r.result == Rejected(Back) ==> backOffered && script[|script| - |r.rest| - 1] == PressBack
    ensures r.result == Rejected(Resume) ==> policy == Decides(true)
    ensures r.result == Rejected(Cancel) ==> policy == Decides(false)
    decreases |script|
  {
    if script == [] then Prompted(Unsettled, [])
    else
      var e := script[0];
      if e.Select? && e.item in items then Prompted(Resolved(e.item), script[1..])
      else if e == PressBack && backOffered then Prompted(Rejected(Back), script[1..])
      else if e == Hide then Prompted(HideOutcome(policy), script[1..])
      else
        var r := QuickPick(items, backOffered, policy, script[1..]);
        SuffixOfTail(r.rest, script);
        r
  }

  /** `showInputBox`. Typing changes the value; Accept resolves with the value only when
      `validate` returns no message; Back (shown only when `backOffered`) rejects with `Back`; the
      extra buttons, when shown, resolve with the button; hiding follows `policy`. */
  function InputBox(value: string, backOffered: bool, withButtons: bool, validator: Validator, policy: ResumePolicy,
                    script: seq<Event>): (r: Prompted<BoxAnswer>)
    ensures SuffixOf(r.rest, script)
    ensures r.result.Unsettled? || |r.rest| < |script|
    ensures r.result.Resolved? && r.result.value.Typed? ==> Validate(validator, r.result.value.text).None?
    ensures r.result.Resolved? && r.result.value.Button? ==> withButtons
    ensures r.result == Rejected(Back) ==> backOffered && script[|script| - |r.rest| - 1] == PressBack
    ensures r.result == Rejected(Resume) ==> policy == Decides(true)
    ensures r.result == Rejected(Cancel) ==> policy == Decides(false)
    decreases |script|
  {
    if script == [] then Prompted(Unsettled, [])
    else
      var e := script[0];
      if e == Accept && Validate(validator, value).None? then Prompted(Resolved(Typed(value)), script[1..])
      else if e == PressBack && backOffered then Prompted(Rejected(Back), script[1..])
      else if e == PressWorkspace && withButtons then Prompted(Resolved(Button(FromWorkspace)), script[1..])
      else if e.PressBrowse? && withButtons then Prompted(Resolved(Button(Browse(e.chosen))), script[1..])
      else if e == Hide then Prompted(HideOutcome(policy), script[1..])
      else
        var r := InputBox(if e.ChangeValue? then e.text else value, backOffered, withButtons, validator, policy, script[1..]);
        SuffixOfTail(r.rest, script);
        r
  }

  /** Typing a text and accepting it resolves with that text exactly when it is valid; an
      invalid text keeps the box open for the events after it. */
  lemma {:induction false} TypeThenAccept(value: string, t: string, backOffered: bool, withButtons: bool, validator: Validator,
                                          policy: ResumePolicy, rest: seq<Event>)
    ensures Validate(validator, t).None? ==>
      InputBox(value, backOffered, withButtons, validator, policy, [ChangeValue(t), Accept] + rest) == Prompted(Resolved(Typed(t)), rest)
    ensures Validate(validator, t).Some? ==>
      InputBox(value, backOffered, withButtons, validator, policy, [ChangeValue(t), Accept] + rest)
        == InputBox(t, backOffered, withButtons, validator, policy, rest)
  {
    var script := [ChangeValue(t), Accept] + rest;
    assert script[0] == ChangeValue(t) && script[1..] == [Accept] + rest;
    assert ([Accept] + rest)[0] == Accept && ([Accept] + rest)[1..] == rest;
  }

  /** Hiding a prompt under the extension's own `shouldResume` leaves it pending for good. */
  lemma HiddenPromptsNeverSettle(items: seq<string>, value: string, backOffered: bool, withButtons: bool, validator: Validator,
                                 rest: seq<Event>)
    ensures QuickPick(items, backOffered, NeverSettles, [Hide] + rest).result == Unsettled
    ensures InputBox(value, backOffered, withButtons, validator, NeverSettles, [Hide] + rest).result == Unsettled
  {
    assert ([Hide] + rest)[0] == Hide;
  }

  // ---------------------------------------------------------------------------
  // Which event settles a prompt.
  // ---------------------------------------------------------------------------

  /** The events the quick pick reacts to: a selection of an offered item, Back when it is
      shown, and hiding. */
  predicate PickReacts(items: seq<string>, backOffered: bool, e: Event) {
    || (e.Select? && e.item in items)
    || (e == PressBack && backOffered)
    || e == Hide
  }

  /** How the quick pick settles on an event it reacts to. */
  function PickReaction(items: seq<string>, backOffered: bool, policy: ResumePolicy, e: Event): Settled<string>
    requires PickReacts(items, backOffered, e)
  {
    match e
    case Select(l) => Resolved(l)
    case PressBack => Rejected(Back)
    case _ => HideOutcome(policy)
  }

  /** The index of the first event the quick pick reacts to, or the length of the script when
      it reacts to none. */
  function FirstPickReaction(items: seq<string>, backOffered: bool, script: seq<Event>): (k: nat)
    ensures k <= |script|
    ensures forall i :: 0 <= i < k ==> !PickReacts(items, backOffered, script[i])
    ensures k < |script| ==> PickReacts(items, backOffered, script[k])
    decreases |script|
  {
    if script == [] || PickReacts(items, backOffered, script[0]) then 0
    else
      var k := FirstPickReaction(items, backOffered, script[1..]);
      assert forall i :: 1 <= i < k + 1 ==> script[i] == script[1..][i - 1];
      k + 1
  }

  /** The quick pick ignores an event it does not react to. */
  lemma QuickPickIgnores(items: seq<string>, backOffered: bool, policy: ResumePolicy, script: seq<Event>)
    requires script != [] && !PickReacts(items, backOffered, script[0])
    ensures QuickPick(items, backOffered, policy, script) == QuickPick(items, backOffered, policy, script[1..])
  {}

  /** The quick pick settles on an event it reacts to. */
  lemma QuickPickReacts(items: seq<string>, backOffered: bool, policy: ResumePolicy, script: seq<Event>)
    requires script != [] && PickReacts(items, backOffered, script[0])
    ensures QuickPick(items, backOffered, policy, script)
         == Prompted(PickReaction(items, backOffered, policy, script[0]), script[1..])
  {}

  /** The first event the quick pick reacts to settles it, and what is left is the script after
      that event; when it reacts to none, it consumes them all and stays unsettled. */
  lemma {:induction false} QuickPickFirstReaction(items: seq<string>, backOffered: bool, policy: ResumePolicy, script: seq<Event>)
    ensures var k := FirstPickReaction(items, backOffered, script);
      QuickPick(items, backOffered, policy, script)
        == if k == |script| then Prompted(Unsettled, [])
           else Prompted(PickReaction(items, backOffered, policy, script[k]), script[k + 1..])
    decreases |script|
  {
    if script != [] {
      if PickReacts(items, backOffered, script[0]) {
        QuickPickReacts(items, backOffered, policy, script);
      } else {
        QuickPickIgnores(items, backOffered, policy, script);
        QuickPickFirstReaction(items, backOffered, policy, script[1..]);
        var k := FirstPickReaction(items, backOffered, script[1..]);
        if k < |script[1..]| {
          assert script[1..][k] == script[k + 1] && script[1..][k + 1..] == script[k + 2..];
        }
      }
    }
  }

  /** The value of the input box after some events: the text of the last change among them, or
      the initial value when there is none. */
  function CurrentValue(value: string, events: seq<Event>): string {
    if events == [] then value
    else if events[|events| - 1].ChangeValue? then events[|events| - 1].text
    else CurrentValue(value, events[..|events| - 1])
  }

  /** A first event that is a change becomes the initial value; any other first event is
      forgotten. */
  lemma {:induction false} CurrentValueCons(value: string, e: Event, events: seq<Event>)
    ensures CurrentValue(value, [e] + events) == CurrentValue(if e.ChangeValue? then e.text else value, events)
    decreases |events|
  {
    if events == [] {
      assert ([e] + events)[..0] == [];
    } else {
      assert ([e] + events)[..|events|] == [e] + events[..|events| - 1];
      CurrentValueCons(value, e, events[..|events| - 1]);
    }
  }

  /** The events the input box reacts to while it holds `current`: Accept of a valid value,
      Back when it is shown, the extra buttons when they are shown, and hiding. */
  predicate BoxReacts(current: string, backOffered: bool, withButtons: bool, validator: Validator, e: Event) {
    || (e == Accept && Validate(validator, current).None?)
    || (e == PressBack && backOffered)
    || ((e == PressWorkspace || e.PressBrowse?) && withButtons)
    || e == Hide
  }

  /** How the input box settles on an event it reacts to while it holds `current`. */
  function BoxReaction(current: string, backOffered: bool, withButtons: bool, validator: Validator, policy: ResumePolicy,
                       e: Event): Settled<BoxAnswer>
    requires BoxReacts(current, backOffered, withButtons, validator, e)
  {
    match e
    case Accept => Resolved(Typed(current))
    case PressBack => Rejected(Back)
    case PressWorkspace => Resolved(Button(FromWorkspace))
    case PressBrowse(chosen) => Resolved(Button(Browse(chosen)))
    case _ => HideOutcome(policy)
  }

  /** The value the input box holds after its first event. */
  function ValueAfter(value: string, e: Event): string {
    if e.ChangeValue? then e.text else value
  }

  /** The index of the first event the input box reacts to, given the value it holds at that
      point, or the length of the script when it reacts to none. */
  function FirstBoxReaction(value: string, backOffered: bool, withButtons: bool, validator: Validator,
                            script: seq<Event>): (k: nat)
    ensures k <= |script|
    decreases |script|
  {
    if script == [] || BoxReacts(value, backOffered, withButtons, validator, script[0]) then 0
    else 1 + FirstBoxReaction(ValueAfter(value, script[0]), backOffered, withButtons, validator, script[1..])
  }

  /** The value a prefix of the script leaves, read one event at a time from the front. */
  lemma CurrentValueShift(value: string, script: seq<Event>, i: nat)
    requires 1 <= i <= |script|
    ensures CurrentValue(value, script[..i]) == CurrentValue(ValueAfter(value, script[0]), script[1..][..i - 1])
  {
    assert script[..i] == [script[0]] + script[1..][..i - 1];
    CurrentValueCons(value, script[0], script[1..][..i - 1]);
  }

  /** FirstBoxReaction finds the first event the input box reacts to, judged by the value the
      events before it leave. */
  lemma {:induction false} FirstBoxReactionIsFirst(value: string, backOffered: bool, withButtons: bool, validator: Validator,
                                                   script: seq<Event>)
    ensures var k := FirstBoxReaction(value, backOffered, withButtons, validator, script);
      && (forall i :: 0 <= i < k ==> !BoxReacts(CurrentValue(value, script[..i]), backOffered, withButtons, validator, script[i]))
      && (k < |script| ==> BoxReacts(CurrentValue(value, script[..k]), backOffered, withButtons, validator, script[k]))
    decreases |script|
  {
    var k := FirstBoxReaction(value, backOffered, withButtons, validator, script);
    if script != [] {
      assert script[..0] == [];
      if !BoxReacts(value, backOffered, withButtons, validator, script[0]) {
        var next := ValueAfter(value, script[0]);
        FirstBoxReactionIsFirst(next, backOffered, withButtons, validator, script[1..]);
        forall i | 1 <= i < k
          ensures !BoxReacts(CurrentValue(value, script[..i]), backOffered, withButtons, validator, script[i])
        {
          CurrentValueShift(value, script, i);
          assert script[i] == script[1..][i - 1];
        }
        if k < |script| {
          CurrentValueShift(value, script, k);
          assert script[k] == script[1..][k - 1];
        }
      }
    }
  }

  /** The input box ignores an event it does not react to, keeping the text of a change. */
  lemma InputBoxIgnores(value: string, backOffered: bool, withButtons: bool, validator: Validator, policy: ResumePolicy,
                        script: seq<Event>)
    requires script != [] && !BoxReacts(value, backOffered, withButtons, validator, script[0])
    ensures InputBox(value, backOffered, withButtons, validator, policy, script)
         == InputBox(ValueAfter(value, script[0]), backOffered, withButtons, validator, policy, script[1..])
  {}

  /** The input box settles on an event it reacts to. */
  lemma InputBoxReacts(value: string, backOffered: bool, withButtons: bool, validator: Validator, policy: ResumePolicy,
                       script: seq<Event>)
    requires script != [] && BoxReacts(value, backOffered, withButtons, validator, script[0])
    ensures InputBox(value, backOffered, withButtons, validator, policy, script)
         == Prompted(BoxReaction(value, backOffered, withButtons, validator, policy, script[0]), script[1..])
  {}

  /** The first event the input box reacts to settles it, with the value the events before it
      leave (Accept resolves with that value), and what is left is the script after that event;
      when it reacts to none, it consumes them all and stays unsettled. */
  lemma {:induction false} InputBoxFirstReaction(value: string, backOffered: bool, withButtons: bool, validator: Validator,
                                                 policy: ResumePolicy, script: seq<Event>)
    ensures var k := FirstBoxReaction(value, backOffered, withButtons, validator, script);
      && (k < |script| ==> BoxReacts(CurrentValue(value, script[..k]), backOffered, withButtons, validator, script[k]))
      && InputBox(value, backOffered, withButtons, validator, policy, script)
         == if k == |script| then Prompted(Unsettled, [])
            else Prompted(BoxReaction(CurrentValue(value, script[..k]), backOffered, withButtons, validator, policy, script[k]),
                          script[k + 1..])
    decreases |script|
  {
    FirstBoxReactionIsFirst(value, backOffered, withButtons, validator, script);
    if script != [] {
      assert script[..0] == [];
      if BoxReacts(value, backOffered, withButtons, validator, script[0]) {
        InputBoxReacts(value, backOffered, withButtons, validator, policy, script);
      } else {
        var next := ValueAfter(value, script[0]);
        InputBoxIgnores(value, backOffered, withButtons, validator, policy, script);
        InputBoxFirstReaction(next, backOffered, withButtons, validator, policy, script[1..]);
        var k := FirstBoxReaction(next, backOffered, withButtons, validator, script[1..]);
        assert FirstBoxReaction(value, backOffered, withButtons, validator, script) == k + 1;
        if k < |script[1..]| {
          CurrentValueShift(value, script, k + 1);
          var current := CurrentValue(value, script[..k + 1]);
          assert current == CurrentValue(next, script[1..][..k]);
          assert script[1..][k] == script[k + 1] && script[1..][k + 1..] == script[k + 2..];
          assert InputBox(value, backOffered, withButtons, validator, policy, script)
              == Prompted(BoxReaction(current, backOffered, withButtons, validator, policy, script[k + 1]), script[k + 2..]);
        }
      }
    }
  }

  // ---------------------------------------------------------------------------
  // The validation message of the input box.
  // ---------------------------------------------------------------------------

  /** The events of the validation race: the value changed (a validation is started and becomes
      the latest), or the validation started by the `token`-th change completed. */
  datatype TraceEvent = Changed(text: string) | Completed(token: nat)

  /** The texts validated so far (index 0 is the initial `validate("")`, whose result is never
      displayed) and the displayed message. */
  datatype TrackerValue = TrackerValue(issued: seq<string>, message: Option<string>)

  /** Every completion names a validation that was started by a change before it. */
  predicate TraceValid(trace: seq<TraceEvent>) {
    forall i :: 0 <= i < |trace| && trace[i].Completed? ==> 1 <= trace[i].token <= Changes(trace[..i])
  }

  /** The number of changes in a trace. */
  function Changes(trace: seq<TraceEvent>): (n: nat)
    ensures n <= |trace|
  {
    if trace == [] then 0 else Changes(trace[..|trace| - 1]) + (if trace[|trace| - 1].Changed? then 1 else 0)
  }

  /** What the trace leaves displayed: a completion shows its message only when its validation is
      still the latest one (`current === validating`). */
  function Tracked(validate: string -> Option<string>, trace: seq<TraceEvent>): (t: TrackerValue)
    ensures |t.issued| == Changes(trace) + 1 && t.issued[0] == ""
  {
    if trace == [] then TrackerValue([""], None) else TrackStep(validate, Tracked(validate, trace[..|trace| - 1]), trace[|trace| - 1])
  }

  /** One event of the race: a change issues a validation; a completion displays its message
      only when its validation is still the latest one. */
  function TrackStep(validate: string -> Option<string>, before: TrackerValue, e: TraceEvent): (t: TrackerValue)
    ensures e.Changed? ==> t.issued == before.issued + [e.text] && t.message == before.message
    ensures e.Completed? ==> t.issued == before.issued
    ensures e.Completed? && !(1 <= e.token == |before.issued| - 1) ==> t == before
    ensures e.Completed? && 1 <= e.token == |before.issued| - 1 ==> t.message == validate(before.issued[e.token])
  {
    match e
    case Changed(text) => before.(issued := before.issued + [text])
    case Completed(k) =>
      if k == |before.issued| - 1 && k >= 1 then before.(message := validate(before.issued[k])) else before
  }

  /** The tracked value after one more event of a trace. */
  lemma TrackedSnoc(validate: string -> Option<string>, trace: seq<TraceEvent>, i: nat)
    requires i < |trace|
    ensures Tracked(validate, trace[..i + 1]) == TrackStep(validate, Tracked(validate, trace[..i]), trace[i])
  {
    assert trace[..i + 1][..i] == trace[..i];
  }

  /** A completion of any validation but the latest changes nothing. */
  lemma StaleCompletionIgnored(validate: string -> Option<string>, trace: seq<TraceEvent>, k: nat)
    requires k != Changes(trace)
    ensures Tracked(validate, trace + [Completed(k)]) == Tracked(validate, trace)
  {
    assert (trace + [Completed(k)])[..|trace|] == trace;
  }

  /** The latest validation's completion displays its message. */
  lemma LatestCompletionShown(validate: string -> Option<string>, trace: seq<TraceEvent>)
    requires Changes(trace) >= 1
    ensures Tracked(validate, trace + [Completed(Changes(trace))]).message == validate(Tracked(validate, trace).issued[Changes(trace)])
  {
    assert (trace + [Completed(Changes(trace))])[..|trace|] == trace;
  }

  /** After the latest validation, completions of older ones, in any number and order, leave
      the displayed message alone. */
  lemma {:induction false} StaleCompletionsIgnored(validate: string -> Option<string>, trace: seq<TraceEvent>, late: seq<TraceEvent>)
    requires forall i :: 0 <= i < |late| ==> late[i].Completed? && late[i].token != Changes(trace)
    ensures Tracked(validate, trace + late) == Tracked(validate, trace)
  {
    if late != [] {
      var front := late[..|late| - 1];
      assert trace + late == (trace + front) + [late[|late| - 1]];
      StaleCompletionsIgnored(validate, trace, front);
      ChangesOfCompletions(trace, front);
      StaleCompletionIgnored(validate, trace + front, late[|late| - 1].token);
    } else {
      assert trace + late == trace;
    }
  }

  /** Completions add no changes. */
  lemma {:induction false} ChangesOfCompletions(trace: seq<TraceEvent>, late: seq<TraceEvent>)
    requires forall i :: 0 <= i < |late| ==> late[i].Completed?
    ensures Changes(trace + late) == Changes(trace)
  {
    if late != [] {
      var front := late[..|late| - 1];
      assert (trace + late)[..|trace + late| - 1] == trace + front;
      ChangesOfCompletions(trace, front);
    } else {
      assert trace + late == trace;
    }
  }

  /** Typing "a" then "ab", with the validation of "ab" finishing before that of "a": the box
      shows the verdict on "ab", not on "a". */
  lemma OutOfOrderValidations()
    ensures Tracked(ValidateName, [Changed("a"), Changed("ab"), Completed(2), Completed(1)]).message == ValidateName("ab")
  {
    var t4 := [Changed("a"), Changed("ab"), Completed(2), Completed(1)];
    var t3 := [Changed("a"), Changed("ab"), Completed(2)];
    var t2 := [Changed("a"), Changed("ab")];
    var t1 := [Changed("a")];
    assert t4[..3] == t3 && t3[..2] == t2 && t2[..1] == t1 && t1[..0] == [];
    assert Tracked(ValidateName, t2).issued == ["", "a", "ab"];
  }

  /** The `validating` variable and the `validationMessage` field of one input box. */
  class ValidationTracker {
    const validate: string -> Option<string>
    var issued: seq<string>
    var validating: nat
    var validationMessage: Option<string>

    ghost predicate Valid()
      reads this
    {
      |issued| >= 1 && validating == |issued| - 1
    }

    function Value(): TrackerValue
      reads this
    {
      TrackerValue(issued, validationMessage)
    }

    /** `let validating = validate("")`. */
    constructor (validate: string -> Option<string>)
      ensures Valid() && this.validate == validate && Value() == TrackerValue([""], None)
    {
      this.validate := validate;
      issued := [""];
      validating := 0;
      validationMessage := None;
    }

    /** The start of `onDidChangeValue`: a new validation becomes the latest. */
    method Change(text: string) returns (token: nat)
      requires Valid()
      modifies this
      ensures Valid() && token == |old(issued)| && validating == token
      ensures Value() == old(Value()).(issued := old(issued) + [text])
      ensures Value() == TrackStep(validate, old(Value()), Changed(text))
    {
      issued := issued + [text];
      validating := |issued| - 1;
      token := validating;
    }

    /** The end of `onDidChangeValue`: the message is displayed only if no newer validation was
        started meanwhile. */
    method Complete(token: nat)
      requires Valid() && 1 <= token < |issued|
      modifies this
      ensures Valid() && issued == old(issued) && validating == old(validating)
      ensures validationMessage == if token == validating then validate(issued[token]) else old(validationMessage)
      ensures Value() == TrackStep(validate, old(Value()), Completed(token))
    {
      var message := validate(issued[token]);
      if token == validating {
        validationMessage := message;
      }
    }
  }

  /** One event of a trace, played against the tracker through `Change` or `Complete`. */
  method Play(tracker: ValidationTracker, e: TraceEvent)
    requires tracker.Valid()
    requires e.Completed? ==> 1 <= e.token < |tracker.issued|
    modifies tracker
    ensures tracker.Valid()
    ensures tracker.Value() == TrackStep(tracker.validate, old(tracker.Value()), e)
  {
    match e {
      case Changed(text) =>
        var _ := tracker.Change(text);
      case Completed(k) =>
        tracker.Complete(k);
    }
  }

  /** Plays a trace against a fresh tracker; the result is what `Tracked` says. */
  method Replay(validate: string -> Option<string>, trace: seq<TraceEvent>) returns (shown: Option<string>)
    requires TraceValid(trace)
    ensures shown == Tracked(validate, trace).message
  {
    var tracker := new ValidationTracker(validate);
    var i := 0;
    while i < |trace|
      invariant 0 <= i <= |trace| && tracker.Valid() && tracker.validate == validate
      invariant tracker.Value() == Tracked(validate, trace[..i])
      invariant |tracker.issued| == Changes(trace[..i]) + 1
    {
      TrackedSnoc(validate, trace, i);
      assert trace[i].Completed? ==> 1 <= trace[i].token <= Changes(trace[..i]);
      Play(tracker, trace[i]);
      i := i + 1;
    }
    assert trace[..|trace|] == trace;
    shown := tracker.validationMessage;
  }
}
