/** Text helpers shared by both command builders (src/seal.ts, src/command.ts): string
    interpolation of optional values, path normalisation, the controller-namespace fallback,
    the certificate argument, a structured view of a command line, the outcome of running a
    process, and the temporary-file resource of raw-mode sealing. */
module CommandLine {
  import opened Wrappers
  import opened Types

  /** `${x}` for a string that may be undefined. */
  function Interp(x: Option<string>): (r: string)
    ensures x.Some? ==> r == x.value
    ensures x.None? ==> r == "undefined"
  {
    match x
    case Some(s) => s
    case None => "undefined"
  }

  /** `s.replace(/\\/g, "/")`: every backslash becomes a forward slash. */
  function NormalizeSlashes(s: string): (r: string)
    ensures |r| == |s|
    ensures forall i :: 0 <= i < |s| ==> r[i] == (if s[i] == '\\' then '/' else s[i])
  {
    if s == [] then [] else [if s[0] == '\\' then '/' else s[0]] + NormalizeSlashes(s[1..])
  }

  /** No backslash survives normalisation, every other character is kept, and normalising twice
      changes nothing. */
  lemma NormalizeSlashesProperties(s: string)
    ensures '\\' !in NormalizeSlashes(s)
    ensures '\\' !in s ==> NormalizeSlashes(s) == s
    ensures NormalizeSlashes(NormalizeSlashes(s)) == NormalizeSlashes(s)
  {
  }

  /** `controllerNamespace || "kube-system"`: an unset or empty value falls back. */
  function ControllerNamespace(controllerNamespace: Option<string>): (r: string)
    ensures r != ""
    ensures NonEmpty(controllerNamespace) ==> r == controllerNamespace.value
    ensures !NonEmpty(controllerNamespace) ==> r == "kube-system"
  {
    if controllerNamespace.Some? && controllerNamespace.value != "" then controllerNamespace.value
    else "kube-system"
  }

  /** `file://${certificatePath?.replace(/\\/g, "/")}`; an unset path reads "undefined". */
  function CertificateUri(certificatePath: Option<string>): (r: string)
    ensures certificatePath.None? ==> r == "file://undefined"
    ensures certificatePath.Some? ==> r == "file://" + NormalizeSlashes(certificatePath.value)
  {
    "file://" + Interp(if certificatePath.Some? then Some(NormalizeSlashes(certificatePath.value)) else None)
  }

  /** Decimal text of a natural number. */
  function NatText(n: nat): (r: string)
    ensures |r| > 0
    ensures forall i :: 0 <= i < |r| ==> '0' <= r[i] <= '9'
  {
    var d := ['0' + (n % 10) as char];
    if n < 10 then d else NatText(n / 10) + d
  }

  /** `${scope}` for a number that may be undefined. */
  function ScopeText(scope: Option<int>): string {
    match scope
    case None => "undefined"
    case Some(n) => if n < 0 then "-" + NatText(-n) else NatText(n)
  }

  /** The message thrown for a scope outside the enumeration, including an unset one. */
  function UnknownScopeMessage(scope: Option<int>): string {
    "Internal error. Unknown scope " + ScopeText(scope)
  }

  /** The scope a `switch (sealSecretParams.scope)` selects: a case matches by `===`. */
  function SelectedScope(scope: Option<int>): (r: Option<Scope>)
    ensures r.Some? <==> scope.Some? && 0 <= scope.value < 3
    ensures r.Some? ==> scope == Some(Ordinal(r.value))
  {
    if scope.Some? then FromOrdinal(scope.value) else None
  }

  /** `${command} --cert "${normalizedCertificatePath}"` when a local certificate is used. */
  function WithCert(command: string, localCert: bool, certificatePath: Option<string>): string {
    if localCert then command + " --cert \"" + CertificateUri(certificatePath) + "\"" else command
  }

  // ---------------------------------------------------------------------------
  // A structured view of a command line, used to state which arguments a command carries.
  // ---------------------------------------------------------------------------

  /** The options the kubeseal and oc command lines use. */
  datatype Opt =
    | RawOpt | FromFileOpt | NamespaceOpt | NameOpt | ScopeOpt | ControllerNamespaceOpt | FormatOpt | CertOpt
    | ShortNamespaceOpt | OutputOpt

  /** How an option is spelled on the command line. */
  function OptText(o: Opt): string {
    match o
    case RawOpt => "--raw"
    case FromFileOpt => "--from-file"
    case NamespaceOpt => "--namespace"
    case NameOpt => "--name"
    case ScopeOpt => "--scope"
    case ControllerNamespaceOpt => "--controller-namespace"
    case FormatOpt => "--format"
    case CertOpt => "--cert"
    case ShortNamespaceOpt => "-n"
    case OutputOpt => "-o"
  }

  /** One argument: a bare word, an option on its own, an option followed by a (possibly quoted)
      value, or `option="value"`. */
  datatype Arg =
    | Word(text: string)
    | Bare(opt: Opt)
    | Flag(opt: Opt, value: string, quoted: bool)
    | Assign(opt: Opt, value: string)

  /** The option an argument carries; a bare word carries none. */
  function OptionOf(a: Arg): Option<Opt> {
    match a
    case Word(_) => None
    case Bare(o) => Some(o)
    case Flag(o, _, _) => Some(o)
    case Assign(o, _) => Some(o)
  }

  function RenderArg(a: Arg): string {
    match a
    case Word(t) => t
    case Bare(o) => OptText(o)
    case Flag(o, v, q) => if q then OptText(o) + " \"" + v + "\"" else OptText(o) + " " + v
    case Assign(o, v) => OptText(o) + "=\"" + v + "\""
  }

  /** One argument as it appears on the command line, preceded by its separating space. */
  function Piece(a: Arg): string {
    " " + RenderArg(a)
  }

  /** Each argument preceded by one space. */
  function RenderArgs(args: seq<Arg>): string {
    if args == [] then "" else Piece(args[0]) + RenderArgs(args[1..])
  }

  /** The command line an executable and its arguments make. */
  function Render(executable: string, args: seq<Arg>): string {
    executable + RenderArgs(args)
  }

  /** Rendering distributes over concatenation of argument lists. */
  lemma {:induction false} RenderArgsAppend(a: seq<Arg>, b: seq<Arg>)
    ensures RenderArgs(a + b) == RenderArgs(a) + RenderArgs(b)
  {
    if a == [] {
      assert a + b == b;
    } else {
      assert (a + b)[1..] == a[1..] + b;
      RenderArgsAppend(a[1..], b);
    }
  }

  /** The option of each argument, in order. */
  function Options(args: seq<Arg>): (r: seq<Option<Opt>>)
    ensures |r| == |args|
  {
    seq(|args|, i requires 0 <= i < |args| => OptionOf(args[i]))
  }

  /** Whether some argument carries this option. */
  predicate HasOption(args: seq<Arg>, o: Opt) {
    Some(o) in Options(args)
  }

  lemma OptionsAppend(a: seq<Arg>, b: seq<Arg>)
    ensures Options(a + b) == Options(a) + Options(b)
  {
    assert forall i :: 0 <= i < |a + b| ==> Options(a + b)[i] == (Options(a) + Options(b))[i];
  }

  /** The `--cert` argument, present exactly when a local certificate is used. */
  function CertArgs(localCert: bool, certificatePath: Option<string>): seq<Arg> {
    if localCert then [Flag(CertOpt, CertificateUri(certificatePath), true)] else []
  }

  // The options of short argument lists, one lemma per length.

  lemma Options2(a0: Arg, a1: Arg)
    ensures Options([a0, a1]) == [OptionOf(a0), OptionOf(a1)]
  {
  }

  lemma Options3(a0: Arg, a1: Arg, a2: Arg)
    ensures Options([a0, a1, a2]) == [OptionOf(a0), OptionOf(a1), OptionOf(a2)]
  {
  }

  lemma Options4(a0: Arg, a1: Arg, a2: Arg, a3: Arg)
    ensures Options([a0, a1, a2, a3]) == [OptionOf(a0), OptionOf(a1), OptionOf(a2), OptionOf(a3)]
  {
  }

  lemma Options5(a0: Arg, a1: Arg, a2: Arg, a3: Arg, a4: Arg)
    ensures Options([a0, a1, a2, a3, a4]) == [OptionOf(a0), OptionOf(a1), OptionOf(a2), OptionOf(a3), OptionOf(a4)]
  {
  }

  /** Appending the certificate argument list adds the `--cert` option, once and last, exactly
      when a local certificate is used. */
  lemma OptionsWithCert(head: seq<Arg>, localCert: bool, certificatePath: Option<string>)
    ensures Options(head + CertArgs(localCert, certificatePath)) == Options(head) + (if localCert then [Some(CertOpt)] else [])
  {
    OptionsAppend(head, CertArgs(localCert, certificatePath));
  }

  /** Appending the certificate argument list keeps every argument before it, in place, and puts
      the `--cert` argument with the certificate URI last. */
  lemma CertContents(head: seq<Arg>, localCert: bool, certificatePath: Option<string>)
    ensures var args := head + CertArgs(localCert, certificatePath);
      && (forall a :: a in head ==> a in args)
      && |args| >= |head| && args[..|head|] == head
      && (localCert ==> args[|args| - 1] == Flag(CertOpt, CertificateUri(certificatePath), true))
  {
    var args := head + CertArgs(localCert, certificatePath);
    assert args[..|head|] == head;
  }

  /** A one-argument list renders as that argument's piece. */
  lemma RenderArgsSingle(a: Arg)
    ensures RenderArgs([a]) == Piece(a)
  {
    assert [a][1..] == [];
  }

  /** Adding one argument at the end adds its piece at the end. */
  lemma RenderSnoc(executable: string, args: seq<Arg>, a: Arg)
    ensures Render(executable, args + [a]) == Render(executable, args) + Piece(a)
  {
    RenderArgsAppend(args, [a]);
    RenderArgsSingle(a);
  }

  lemma Render1(e: string, a0: Arg)
    ensures Render(e, [a0]) == e + Piece(a0)
  {
    RenderArgsSingle(a0);
  }

  lemma Render2(e: string, a0: Arg, a1: Arg)
    ensures Render(e, [a0, a1]) == e + Piece(a0) + Piece(a1)
  {
    assert [a0] + [a1] == [a0, a1];
    Render1(e, a0);
    RenderSnoc(e, [a0], a1);
  }

  lemma Render3(e: string, a0: Arg, a1: Arg, a2: Arg)
    ensures Render(e, [a0, a1, a2]) == e + Piece(a0) + Piece(a1) + Piece(a2)
  {
    assert [a0, a1] + [a2] == [a0, a1, a2];
    Render2(e, a0, a1);
    RenderSnoc(e, [a0, a1], a2);
  }

  lemma Render4(e: string, a0: Arg, a1: Arg, a2: Arg, a3: Arg)
    ensures Render(e, [a0, a1, a2, a3]) == e + Piece(a0) + Piece(a1) + Piece(a2) + Piece(a3)
  {
    assert [a0, a1, a2] + [a3] == [a0, a1, a2, a3];
    Render3(e, a0, a1, a2);
    RenderSnoc(e, [a0, a1, a2], a3);
  }

  lemma Render5(e: string, a0: Arg, a1: Arg, a2: Arg, a3: Arg, a4: Arg)
    ensures Render(e, [a0, a1, a2, a3, a4]) == e + Piece(a0) + Piece(a1) + Piece(a2) + Piece(a3) + Piece(a4)
  {
    assert [a0, a1, a2, a3] + [a4] == [a0, a1, a2, a3, a4];
    Render4(e, a0, a1, a2, a3);
    RenderSnoc(e, [a0, a1, a2, a3], a4);
  }

  // What each argument the kubeseal and oc command lines use adds to a command line `t`, one
  // lemma per flag.

  lemma Assoc(a: string, b: string, c: string)
    ensures a + (b + c) == a + b + c
  {
  }

  lemma WordAfter(t: string, w: string)
    ensures t + Piece(Word(w)) == t + " " + w
  {
    Assoc(t, " ", w);
  }

  lemma QuotedAfter(t: string, o: Opt, v: string)
    ensures t + Piece(Flag(o, v, true)) == t + (" " + OptText(o) + " \"") + v + "\""
  {
    var f := OptText(o);
    var h := f + " \"";
    Assoc(" ", h + v, "\"");
    Assoc(" ", h, v);
    Assoc(" ", f, " \"");
    var g := " " + f + " \"";
    Assoc(t, g + v, "\"");
    Assoc(t, g, v);
  }

  lemma UnquotedAfter(t: string, o: Opt, v: string)
    ensures t + Piece(Flag(o, v, false)) == t + (" " + OptText(o) + " " + v)
  {
    Assoc(" ", OptText(o) + " ", v);
    Assoc(" ", OptText(o), " ");
  }

  lemma AssignAfter(t: string, o: Opt, v: string)
    ensures t + Piece(Assign(o, v)) == t + (" " + OptText(o) + "=\"") + v + "\""
  {
    var f := OptText(o);
    var h := f + "=\"";
    Assoc(" ", h + v, "\"");
    Assoc(" ", h, v);
    Assoc(" ", f, "=\"");
    var g := " " + f + "=\"";
    Assoc(t, g + v, "\"");
    Assoc(t, g, v);
  }

  lemma RawAfter(t: string)
    ensures t + Piece(Bare(RawOpt)) == t + " --raw"
  {
    assert Piece(Bare(RawOpt)) == " --raw";
  }

  lemma FromFileAfter(t: string, tmp: string)
    ensures t + Piece(Assign(FromFileOpt, tmp)) == t + " --from-file=\"" + tmp + "\""
  {
    AssignAfter(t, FromFileOpt, tmp);
    assert " " + "--from-file" + "=\"" == " --from-file=\"";
  }

  lemma NamespaceAfter(t: string, ns: string)
    ensures t + Piece(Flag(NamespaceOpt, ns, true)) == t + " --namespace \"" + ns + "\""
  {
    QuotedAfter(t, NamespaceOpt, ns);
    assert " " + "--namespace" + " \"" == " --namespace \"";
  }

  lemma NameAfter(t: string, nm: string)
    ensures t + Piece(Flag(NameOpt, nm, true)) == t + " --name \"" + nm + "\""
  {
    QuotedAfter(t, NameOpt, nm);
    assert " " + "--name" + " \"" == " --name \"";
  }

  lemma ControllerNamespaceAfter(t: string, ctrlNS: string)
    ensures t + Piece(Flag(ControllerNamespaceOpt, ctrlNS, true)) == t + " --controller-namespace \"" + ctrlNS + "\""
  {
    QuotedAfter(t, ControllerNamespaceOpt, ctrlNS);
    assert " " + "--controller-namespace" == " --controller-namespace";
    assert " --controller-namespace" + " \"" == " --controller-namespace \"";
  }

  lemma CertAfter(t: string, uri: string)
    ensures t + Piece(Flag(CertOpt, uri, true)) == t + " --cert \"" + uri + "\""
  {
    QuotedAfter(t, CertOpt, uri);
    assert " " + "--cert" + " \"" == " --cert \"";
  }

  lemma DummyNamespaceAfter(t: string)
    ensures t + Piece(Flag(NamespaceOpt, "dummyNamespace", false)) == t + " --namespace dummyNamespace"
  {
    UnquotedAfter(t, NamespaceOpt, "dummyNamespace");
    assert " " + "--namespace" + " " == " --namespace ";
    assert " --namespace " + "dummyNamespace" == " --namespace dummyNamespace";
  }

  lemma NamespaceWideAfter(t: string)
    ensures t + Piece(Flag(ScopeOpt, "namespace-wide", false)) == t + " --scope namespace-wide"
  {
    UnquotedAfter(t, ScopeOpt, "namespace-wide");
    assert " " + "--scope" + " " == " --scope ";
    assert " --scope " + "namespace-wide" == " --scope namespace-wide";
  }

  lemma ClusterWideAfter(t: string)
    ensures t + Piece(Flag(ScopeOpt, "cluster-wide", false)) == t + " --scope cluster-wide"
  {
    UnquotedAfter(t, ScopeOpt, "cluster-wide");
    assert " " + "--scope" + " " == " --scope ";
    assert " --scope " + "cluster-wide" == " --scope cluster-wide";
  }

  lemma FormatYamlAfter(t: string)
    ensures t + Piece(Flag(FormatOpt, "yaml", false)) == t + " --format yaml"
  {
    UnquotedAfter(t, FormatOpt, "yaml");
    assert " " + "--format" + " " == " --format ";
    assert " --format " + "yaml" == " --format yaml";
  }

  lemma OcNamespaceAfter(t: string, ns: string)
    ensures t + Piece(Flag(ShortNamespaceOpt, ns, false)) == t + " -n " + ns
  {
    UnquotedAfter(t, ShortNamespaceOpt, ns);
    assert " " + "-n" + " " == " -n ";
    Assoc(t, " -n ", ns);
  }

  lemma OcOutputYamlAfter(t: string)
    ensures t + Piece(Flag(OutputOpt, "yaml", false)) == t + " -o yaml"
  {
    UnquotedAfter(t, OutputOpt, "yaml");
    assert " " + "-o" + " " == " -o ";
    assert " -o " + "yaml" == " -o yaml";
  }

  /** A `--controller-namespace` argument at the end appends its text at the end. */
  lemma ControllerNamespaceLast(e: string, args: seq<Arg>, front: string, ctrlNS: string)
    requires Render(e, args) == front
    ensures Render(e, args + [Flag(ControllerNamespaceOpt, ctrlNS, true)]) == front + " --controller-namespace \"" + ctrlNS + "\""
  {
    RenderSnoc(e, args, Flag(ControllerNamespaceOpt, ctrlNS, true));
    ControllerNamespaceAfter(front, ctrlNS);
  }

  /** Appending the certificate text is appending the certificate argument. */
  lemma WithCertRenders(executable: string, args: seq<Arg>, localCert: bool, certificatePath: Option<string>)
    ensures WithCert(Render(executable, args), localCert, certificatePath)
         == Render(executable, args + CertArgs(localCert, certificatePath))
  {
    var c := CertArgs(localCert, certificatePath);
    if localCert {
      var a := Flag(CertOpt, CertificateUri(certificatePath), true);
      assert c == [a];
      RenderSnoc(executable, args, a);
      CertAfter(Render(executable, args), CertificateUri(certificatePath));
    } else {
      assert args + c == args;
    }
  }

  // ---------------------------------------------------------------------------
  // Processes and the temporary file.
  // ---------------------------------------------------------------------------

  /** What `exec` is asked to run: the command line and what is written to its stdin. */
  datatype Invocation = Invocation(command: string, stdin: Option<string>)

  /** How a process settles: its stdout, or the error message. */
  datatype ExecResult = Stdout(out: string) | ExecFailed(message: string)

  /** Why a seal or unseal operation rejects: the error thrown for an unknown scope, the failure
      to read the input file, or the message of the process error. */
  datatype SealError = InternalError(message: string) | ReadFailed(reason: string) | ProcessFailed(message: string)

  /** The promise built around `exec`: resolve with stdout, reject with the error's message. */
  function Settle(r: ExecResult): (s: Result<string, SealError>)
    ensures r.Stdout? <==> s.Ok?
    ensures s.Ok? ==> s.value == r.out
    ensures s.Err? ==> s.error == ProcessFailed(r.message)
  {
    match r
    case Stdout(out) => Ok(out)
    case ExecFailed(m) => Err(ProcessFailed(m))
  }

  /** The temporary file `tmp.fileSync()` creates; `releases` counts calls of its remove callback. */
  class TempFile {
    const name: string
    var contents: string
    var releases: nat

    constructor (name: string)
      ensures this.name == name && contents == "" && releases == 0
    {
      this.name := name;
      contents := "";
      releases := 0;
    }

    /** `writeFileSync(temporaryFile.name, data)`. */
    method Write(data: string)
      modifies this
      ensures contents == data && releases == old(releases)
    {
      contents := data;
    }

    /** `temporaryFile.removeCallback()`. */
    method Release()
      modifies this
      ensures releases == old(releases) + 1 && contents == old(contents)
    {
      releases := releases + 1;
    }
  }
}
