/** The command builders of src/command.ts: the same three operations as src/seal.ts, except
    that every seal command names the controller namespace, cluster-wide raw sealing passes no
    placeholder namespace, and the unseal command runs the configured `oc` executable. */
module Command {
  import opened Wrappers
  import opened Types
  import opened CommandLine
  import Seal

  /** The `switch` of `sealSecretRaw`, or the message of the error thrown for an unknown scope. */
  function RawBase(kubesealPath: string, tmp: string, p: SealSecretParameters, ctrlNS: string): Result<string, string> {
    match SelectedScope(p.scope)
    case Some(Strict) =>
      Ok(kubesealPath + " --raw" + " --from-file=\"" + tmp + "\"" + " --namespace \"" + Interp(p.namespace) + "\"" + " --name \"" + Interp(p.name) + "\""
         + " --controller-namespace \"" + ctrlNS + "\"")
    case Some(NamespaceWide) =>
      Ok(kubesealPath + " --raw" + " --from-file=\"" + tmp + "\"" + " --namespace \"" + Interp(p.namespace) + "\"" + " --scope namespace-wide"
         + " --controller-namespace \"" + ctrlNS + "\"")
    case Some(ClusterWide) =>
      Ok(kubesealPath + " --raw" + " --from-file=\"" + tmp + "\"" + " --scope cluster-wide" + " --controller-namespace \"" + ctrlNS + "\"")
    case None =>
      Err(UnknownScopeMessage(p.scope))
  }

  /** The full raw-mode command line for a temp file named `tempName`. */
  function RawCommand(kubesealPath: string, tempName: string, p: SealSecretParameters, localCert: bool, controllerNamespace: Option<string>): Result<string, string> {
    match RawBase(kubesealPath, NormalizeSlashes(tempName), p, ControllerNamespace(controllerNamespace))
    case Ok(c) => Ok(WithCert(c, localCert, p.certificatePath))
    case Err(e) => Err(e)
  }

  /** The `switch` of `sealSecretFile`. */
  function FileBase(kubesealPath: string, p: SealSecretParameters, ctrlNS: string): Result<string, string> {
    match SelectedScope(p.scope)
    case Some(Strict) =>
      Ok(kubesealPath + " --namespace \"" + Interp(p.namespace) + "\"" + " --name \"" + Interp(p.name) + "\"" + " --format yaml"
         + " --controller-namespace \"" + ctrlNS + "\"")
    case Some(NamespaceWide) =>
      Ok(kubesealPath + " --namespace \"" + Interp(p.namespace) + "\"" + " --scope namespace-wide" + " --format yaml"
         + " --controller-namespace \"" + ctrlNS + "\"")
    case Some(ClusterWide) =>
      Ok(kubesealPath + " --scope cluster-wide" + " --format yaml" + " --controller-namespace \"" + ctrlNS + "\"")
    case None =>
      Err(UnknownScopeMessage(p.scope))
  }

  /** The full file-mode command line. */
  function FileCommand(kubesealPath: string, p: SealSecretParameters, localCert: bool, controllerNamespace: Option<string>): Result<string, string> {
    match FileBase(kubesealPath, p, ControllerNamespace(controllerNamespace))
    case Ok(c) => Ok(WithCert(c, localCert, p.certificatePath))
    case Err(e) => Err(e)
  }

  /** The unseal command, run with the configured `oc` executable. */
  function UnsealCommand(ocPath: string, secretName: string, nameSpace: string): string {
    ocPath + " get secret " + secretName + " -n " + nameSpace + " -o yaml"
  }

  // ---------------------------------------------------------------------------
  // The same commands as argument lists.
  // ---------------------------------------------------------------------------

  /** The arguments that depend on the scope, before the controller namespace. */
  function RawScoped(s: Scope, p: SealSecretParameters): seq<Arg> {
    match s
    case Strict => [Flag(NamespaceOpt, Interp(p.namespace), true), Flag(NameOpt, Interp(p.name), true)]
    case NamespaceWide => [Flag(NamespaceOpt, Interp(p.namespace), true), Flag(ScopeOpt, "namespace-wide", false)]
    case ClusterWide => [Flag(ScopeOpt, "cluster-wide", false)]
  }

  function RawArgs(s: Scope, tmp: string, p: SealSecretParameters, localCert: bool, ctrlNS: string): seq<Arg> {
    [Bare(RawOpt), Assign(FromFileOpt, tmp)] + RawScoped(s, p) + [Flag(ControllerNamespaceOpt, ctrlNS, true)]
      + CertArgs(localCert, p.certificatePath)
  }

  function FileScoped(s: Scope, p: SealSecretParameters): seq<Arg> {
    match s
    case Strict => [Flag(NamespaceOpt, Interp(p.namespace), true), Flag(NameOpt, Interp(p.name), true), Flag(FormatOpt, "yaml", false)]
    case NamespaceWide => [Flag(NamespaceOpt, Interp(p.namespace), true), Flag(ScopeOpt, "namespace-wide", false), Flag(FormatOpt, "yaml", false)]
    case ClusterWide => [Flag(ScopeOpt, "cluster-wide", false), Flag(FormatOpt, "yaml", false)]
  }

  function FileArgs(s: Scope, p: SealSecretParameters, localCert: bool, ctrlNS: string): seq<Arg> {
    FileScoped(s, p) + [Flag(ControllerNamespaceOpt, ctrlNS, true)] + CertArgs(localCert, p.certificatePath)
  }

  // ---------------------------------------------------------------------------
  // The string commands are the argument lists rendered.
  // ---------------------------------------------------------------------------

  /** The cluster-wide raw-mode template: no namespace at all, the controller namespace last. */
  lemma RawClusterWideRenders(k: string, tmp: string, ctrlNS: string)
    ensures Render(k, [Bare(RawOpt), Assign(FromFileOpt, tmp), Flag(ScopeOpt, "cluster-wide", false),
                       Flag(ControllerNamespaceOpt, ctrlNS, true)])
         == k + " --raw" + " --from-file=\"" + tmp + "\"" + " --scope cluster-wide" + " --controller-namespace \"" + ctrlNS + "\""
  {
    Render4(k, Bare(RawOpt), Assign(FromFileOpt, tmp), Flag(ScopeOpt, "cluster-wide", false), Flag(ControllerNamespaceOpt, ctrlNS, true));
    var t1 := k + " --raw";
    var t2 := t1 + " --from-file=\"" + tmp + "\"";
    RawAfter(k);
    FromFileAfter(t1, tmp);
    ClusterWideAfter(t2);
    ControllerNamespaceAfter(t2 + " --scope cluster-wide", ctrlNS);
  }

  /** The raw-mode `switch` renders its arguments. */
  lemma RawBaseRenders(kubesealPath: string, tmp: string, p: SealSecretParameters, ctrlNS: string, s: Scope)
    requires SelectedScope(p.scope) == Some(s)
    ensures RawBase(kubesealPath, tmp, p, ctrlNS) == Ok(Render(kubesealPath, RawArgs(s, tmp, p, false, ctrlNS)))
  {
    var ns, nm := Interp(p.namespace), Interp(p.name);
    var head := [Bare(RawOpt), Assign(FromFileOpt, tmp)] + RawScoped(s, p);
    assert RawArgs(s, tmp, p, false, ctrlNS) == head + [Flag(ControllerNamespaceOpt, ctrlNS, true)];
    match s
    case Strict =>
      assert head == [Bare(RawOpt), Assign(FromFileOpt, tmp), Flag(NamespaceOpt, ns, true), Flag(NameOpt, nm, true)];
      Seal.RawStrictRenders(kubesealPath, tmp, ns, nm);
      ControllerNamespaceLast(kubesealPath, head,
        kubesealPath + " --raw" + " --from-file=\"" + tmp + "\"" + " --namespace \"" + ns + "\"" + " --name \"" + nm + "\"", ctrlNS);
    case NamespaceWide =>
      assert RawArgs(s, tmp, p, false, ctrlNS) == Seal.RawArgs(s, tmp, p, false, ctrlNS);
      Seal.RawBaseRenders(kubesealPath, tmp, p, ctrlNS, s);
    case ClusterWide =>
      assert RawArgs(s, tmp, p, false, ctrlNS)
          == [Bare(RawOpt), Assign(FromFileOpt, tmp), Flag(ScopeOpt, "cluster-wide", false), Flag(ControllerNamespaceOpt, ctrlNS, true)];
      RawClusterWideRenders(kubesealPath, tmp, ctrlNS);
  }

  /** The raw-mode command is the executable followed by `RawArgs`, or the internal error. */
  lemma RawCommandRenders(kubesealPath: string, tempName: string, p: SealSecretParameters, localCert: bool, controllerNamespace: Option<string>)
    ensures SelectedScope(p.scope).None? ==>
      RawCommand(kubesealPath, tempName, p, localCert, controllerNamespace) == Err(UnknownScopeMessage(p.scope))
    ensures SelectedScope(p.scope).Some? ==>
      RawCommand(kubesealPath, tempName, p, localCert, controllerNamespace)
        == Ok(Render(kubesealPath, RawArgs(SelectedScope(p.scope).value, NormalizeSlashes(tempName), p, localCert, ControllerNamespace(controllerNamespace))))
  {
    var tmp, ctrlNS := NormalizeSlashes(tempName), ControllerNamespace(controllerNamespace);
    if SelectedScope(p.scope).Some? {
      var s := SelectedScope(p.scope).value;
      RawBaseRenders(kubesealPath, tmp, p, ctrlNS, s);
      var base := RawArgs(s, tmp, p, false, ctrlNS);
      assert RawArgs(s, tmp, p, localCert, ctrlNS) == base + CertArgs(localCert, p.certificatePath);
      WithCertRenders(kubesealPath, base, localCert, p.certificatePath);
    }
  }

  /** The file-mode `switch` renders its arguments. */
  lemma FileBaseRenders(kubesealPath: string, p: SealSecretParameters, ctrlNS: string, s: Scope)
    requires SelectedScope(p.scope) == Some(s)
    ensures FileBase(kubesealPath, p, ctrlNS) == Ok(Render(kubesealPath, FileArgs(s, p, false, ctrlNS)))
  {
    var ns, nm := Interp(p.namespace), Interp(p.name);
    var head := FileScoped(s, p);
    assert FileArgs(s, p, false, ctrlNS) == head + [Flag(ControllerNamespaceOpt, ctrlNS, true)];
    match s
    case Strict =>
      Seal.FileStrictRenders(kubesealPath, ns, nm);
      ControllerNamespaceLast(kubesealPath, head, kubesealPath + " --namespace \"" + ns + "\"" + " --name \"" + nm + "\"" + " --format yaml", ctrlNS);
    case NamespaceWide =>
      assert FileArgs(s, p, false, ctrlNS) == Seal.FileArgs(s, p, false, ctrlNS);
      Seal.FileBaseRenders(kubesealPath, p, ctrlNS, s);
    case ClusterWide =>
      Seal.FileClusterWideRenders(kubesealPath);
      ControllerNamespaceLast(kubesealPath, head, kubesealPath + " --scope cluster-wide" + " --format yaml", ctrlNS);
  }

  /** The file-mode command is the executable followed by `FileArgs`, or the internal error. */
  lemma FileCommandRenders(kubesealPath: string, p: SealSecretParameters, localCert: bool, controllerNamespace: Option<string>)
    ensures SelectedScope(p.scope).None? ==>
      FileCommand(kubesealPath, p, localCert, controllerNamespace) == Err(UnknownScopeMessage(p.scope))
    ensures SelectedScope(p.scope).Some? ==>
      FileCommand(kubesealPath, p, localCert, controllerNamespace)
        == Ok(Render(kubesealPath, FileArgs(SelectedScope(p.scope).value, p, localCert, ControllerNamespace(controllerNamespace))))
  {
    var ctrlNS := ControllerNamespace(controllerNamespace);
    if SelectedScope(p.scope).Some? {
      var s := SelectedScope(p.scope).value;
      FileBaseRenders(kubesealPath, p, ctrlNS, s);
      var base := FileArgs(s, p, false, ctrlNS);
      assert FileArgs(s, p, localCert, ctrlNS) == base + CertArgs(localCert, p.certificatePath);
      WithCertRenders(kubesealPath, base, localCert, p.certificatePath);
    }
  }

  /** The unseal command is the `oc` executable followed by `get secret <name> -n <ns> -o yaml`. */
  lemma UnsealCommandRenders(ocPath: string, secretName: string, nameSpace: string)
    ensures UnsealCommand(ocPath, secretName, nameSpace) == Render(ocPath, Seal.UnsealArgs(secretName, nameSpace))
  {
    Seal.UnsealTextRenders(ocPath, secretName, nameSpace);
  }

  // ---------------------------------------------------------------------------
  // What the argument lists contain, and how they differ from src/seal.ts.
  // ---------------------------------------------------------------------------

  /** Which options a raw-mode argument list carries: always the controller namespace, a
      namespace unless cluster-wide, the secret's name only when strict, a scope unless strict,
      the certificate exactly when a local one is used, and never an output format. */
  predicate RawOptionsShape(s: Scope, localCert: bool, args: seq<Arg>) {
    && HasOption(args, ControllerNamespaceOpt)
    && (HasOption(args, NamespaceOpt) <==> s != ClusterWide)
    && (HasOption(args, NameOpt) <==> s == Strict)
    && (HasOption(args, ScopeOpt) <==> s != Strict)
    && (HasOption(args, CertOpt) <==> localCert)
    && !HasOption(args, FormatOpt)
  }

  /** A raw-mode argument list: those options, starting with the normalised temp file, naming
      the controller namespace, and with the certificate last. */
  predicate RawArgsShape(s: Scope, tmp: string, p: SealSecretParameters, localCert: bool, ctrlNS: string, args: seq<Arg>) {
    && RawOptionsShape(s, localCert, args)
    && |args| >= 2
    && args[..2] == [Bare(RawOpt), Assign(FromFileOpt, tmp)]
    && Flag(ControllerNamespaceOpt, ctrlNS, true) in args
    && (localCert ==> args[|args| - 1] == Flag(CertOpt, CertificateUri(p.certificatePath), true))
  }

  lemma RawArgsContents(s: Scope, tmp: string, p: SealSecretParameters, localCert: bool, ctrlNS: string)
    ensures RawArgsShape(s, tmp, p, localCert, ctrlNS, RawArgs(s, tmp, p, localCert, ctrlNS))
  {
    var front := [Bare(RawOpt), Assign(FromFileOpt, tmp)] + RawScoped(s, p) + [Flag(ControllerNamespaceOpt, ctrlNS, true)];
    assert RawArgs(s, tmp, p, localCert, ctrlNS) == front + CertArgs(localCert, p.certificatePath);
    assert front[|front| - 1] == Flag(ControllerNamespaceOpt, ctrlNS, true);
    CertContents(front, localCert, p.certificatePath);
    match s
    case Strict => RawStrictOptions(tmp, p, localCert, ctrlNS);
    case NamespaceWide => RawNamespaceWideOptions(tmp, p, localCert, ctrlNS);
    case ClusterWide => RawClusterWideOptions(tmp, p, localCert, ctrlNS);
  }

  lemma RawStrictOptions(tmp: string, p: SealSecretParameters, localCert: bool, ctrlNS: string)
    ensures RawOptionsShape(Strict, localCert, RawArgs(Strict, tmp, p, localCert, ctrlNS))
  {
    var head := [Bare(RawOpt), Assign(FromFileOpt, tmp), Flag(NamespaceOpt, Interp(p.namespace), true), Flag(NameOpt, Interp(p.name), true),
                 Flag(ControllerNamespaceOpt, ctrlNS, true)];
    var args := RawArgs(Strict, tmp, p, localCert, ctrlNS);
    assert args == head + CertArgs(localCert, p.certificatePath);
    Options5(head[0], head[1], head[2], head[3], head[4]);
    OptionsWithCert(head, localCert, p.certificatePath);
    var names := [Some(RawOpt), Some(FromFileOpt), Some(NamespaceOpt), Some(NameOpt), Some(ControllerNamespaceOpt)];
    if localCert {
      assert Options(args) == names + [Some(CertOpt)];
    } else {
      assert Options(args) == names;
    }
  }

  lemma RawNamespaceWideOptions(tmp: string, p: SealSecretParameters, localCert: bool, ctrlNS: string)
    ensures RawOptionsShape(NamespaceWide, localCert, RawArgs(NamespaceWide, tmp, p, localCert, ctrlNS))
  {
    var head := [Bare(RawOpt), Assign(FromFileOpt, tmp), Flag(NamespaceOpt, Interp(p.namespace), true), Flag(ScopeOpt, "namespace-wide", false),
                 Flag(ControllerNamespaceOpt, ctrlNS, true)];
    var args := RawArgs(NamespaceWide, tmp, p, localCert, ctrlNS);
    assert args == head + CertArgs(localCert, p.certificatePath);
    Options5(head[0], head[1], head[2], head[3], head[4]);
    OptionsWithCert(head, localCert, p.certificatePath);
    var names := [Some(RawOpt), Some(FromFileOpt), Some(NamespaceOpt), Some(ScopeOpt), Some(ControllerNamespaceOpt)];
    if localCert {
      assert Options(args) == names + [Some(CertOpt)];
    } else {
      assert Options(args) == names;
    }
  }

  lemma RawClusterWideOptions(tmp: string, p: SealSecretParameters, localCert: bool, ctrlNS: string)
    ensures RawOptionsShape(ClusterWide, localCert, RawArgs(ClusterWide, tmp, p, localCert, ctrlNS))
  {
    var head := [Bare(RawOpt), Assign(FromFileOpt, tmp), Flag(ScopeOpt, "cluster-wide", false), Flag(ControllerNamespaceOpt, ctrlNS, true)];
    var args := RawArgs(ClusterWide, tmp, p, localCert, ctrlNS);
    assert args == head + CertArgs(localCert, p.certificatePath);
    Options4(head[0], head[1], head[2], head[3]);
    OptionsWithCert(head, localCert, p.certificatePath);
    var names := [Some(RawOpt), Some(FromFileOpt), Some(ScopeOpt), Some(ControllerNamespaceOpt)];
    if localCert {
      assert Options(args) == names + [Some(CertOpt)];
    } else {
      assert Options(args) == names;
    }
  }

  /** Which options a file-mode argument list carries: no temp file, a namespace unless
      cluster-wide, the secret's name only when strict, a scope unless strict, and the
      certificate exactly when a local one is used. */
  predicate FileOptionsShape(s: Scope, localCert: bool, args: seq<Arg>) {
    && !HasOption(args, RawOpt) && !HasOption(args, FromFileOpt)
    && (HasOption(args, NamespaceOpt) <==> s != ClusterWide)
    && (HasOption(args, NameOpt) <==> s == Strict)
    && (HasOption(args, ScopeOpt) <==> s != Strict)
    && (HasOption(args, CertOpt) <==> localCert)
  }

  /** A file-mode argument list: those options, asking for YAML, naming the controller
      namespace, and with the certificate last. */
  predicate FileArgsShape(s: Scope, p: SealSecretParameters, localCert: bool, ctrlNS: string, args: seq<Arg>) {
    && FileOptionsShape(s, localCert, args)
    && |args| >= 1
    && Flag(FormatOpt, "yaml", false) in args
    && Flag(ControllerNamespaceOpt, ctrlNS, true) in args
    && (localCert ==> args[|args| - 1] == Flag(CertOpt, CertificateUri(p.certificatePath), true))
  }

  lemma FileArgsContents(s: Scope, p: SealSecretParameters, localCert: bool, ctrlNS: string)
    ensures FileArgsShape(s, p, localCert, ctrlNS, FileArgs(s, p, localCert, ctrlNS))
  {
    var scoped := FileScoped(s, p);
    var front := scoped + [Flag(ControllerNamespaceOpt, ctrlNS, true)];
    assert FileArgs(s, p, localCert, ctrlNS) == front + CertArgs(localCert, p.certificatePath);
    assert front[|scoped|] == Flag(ControllerNamespaceOpt, ctrlNS, true);
    assert front[|scoped| - 1] == Flag(FormatOpt, "yaml", false);
    CertContents(front, localCert, p.certificatePath);
    match s
    case Strict => FileStrictOptions(p, localCert, ctrlNS);
    case NamespaceWide => FileNamespaceWideOptions(p, localCert, ctrlNS);
    case ClusterWide => FileClusterWideOptions(p, localCert, ctrlNS);
  }

  lemma FileStrictOptions(p: SealSecretParameters, localCert: bool, ctrlNS: string)
    ensures FileOptionsShape(Strict, localCert, FileArgs(Strict, p, localCert, ctrlNS))
  {
    var head := [Flag(NamespaceOpt, Interp(p.namespace), true), Flag(NameOpt, Interp(p.name), true), Flag(FormatOpt, "yaml", false),
                 Flag(ControllerNamespaceOpt, ctrlNS, true)];
    var args := FileArgs(Strict, p, localCert, ctrlNS);
    assert args == head + CertArgs(localCert, p.certificatePath);
    Options4(head[0], head[1], head[2], head[3]);
    OptionsWithCert(head, localCert, p.certificatePath);
    var names := [Some(NamespaceOpt), Some(NameOpt), Some(FormatOpt), Some(ControllerNamespaceOpt)];
    if localCert {
      assert Options(args) == names + [Some(CertOpt)];
    } else {
      assert Options(args) == names;
    }
  }

  lemma FileNamespaceWideOptions(p: SealSecretParameters, localCert: bool, ctrlNS: string)
    ensures FileOptionsShape(NamespaceWide, localCert, FileArgs(NamespaceWide, p, localCert, ctrlNS))
  {
    var head := [Flag(NamespaceOpt, Interp(p.namespace), true), Flag(ScopeOpt, "namespace-wide", false), Flag(FormatOpt, "yaml", false),
                 Flag(ControllerNamespaceOpt, ctrlNS, true)];
    var args := FileArgs(NamespaceWide, p, localCert, ctrlNS);
    assert args == head + CertArgs(localCert, p.certificatePath);
    Options4(head[0], head[1], head[2], head[3]);
    OptionsWithCert(head, localCert, p.certificatePath);
    var names := [Some(NamespaceOpt), Some(ScopeOpt), Some(FormatOpt), Some(ControllerNamespaceOpt)];
    if localCert {
      assert Options(args) == names + [Some(CertOpt)];
    } else {
      assert Options(args) == names;
    }
  }

  lemma FileClusterWideOptions(p: SealSecretParameters, localCert: bool, ctrlNS: string)
    ensures FileOptionsShape(ClusterWide, localCert, FileArgs(ClusterWide, p, localCert, ctrlNS))
  {
    var head := [Flag(ScopeOpt, "cluster-wide", false), Flag(FormatOpt, "yaml", false), Flag(ControllerNamespaceOpt, ctrlNS, true)];
    var args := FileArgs(ClusterWide, p, localCert, ctrlNS);
    assert args == head + CertArgs(localCert, p.certificatePath);
    Options3(head[0], head[1], head[2]);
    OptionsWithCert(head, localCert, p.certificatePath);
    var names := [Some(ScopeOpt), Some(FormatOpt), Some(ControllerNamespaceOpt)];
    if localCert {
      assert Options(args) == names + [Some(CertOpt)];
    } else {
      assert Options(args) == names;
    }
  }

  /** Namespace-wide sealing builds the same command in both files. */
  lemma NamespaceWideAgreesWithSeal(kubesealPath: string, tempName: string, p: SealSecretParameters, localCert: bool,
                                    controllerNamespace: Option<string>)
    requires p.scope == Some(Ordinal(NamespaceWide))
    ensures RawCommand(kubesealPath, tempName, p, localCert, controllerNamespace)
         == Seal.RawCommand(kubesealPath, tempName, p, localCert, controllerNamespace)
    ensures FileCommand(kubesealPath, p, localCert, controllerNamespace) == Seal.FileCommand(kubesealPath, p, localCert, controllerNamespace)
  {
  }

  /** Strict sealing here is strict sealing in src/seal.ts with the controller namespace added
      before the certificate. */
  lemma StrictAddsControllerNamespace(tmp: string, p: SealSecretParameters, localCert: bool, ctrlNS: string)
    ensures RawArgs(Strict, tmp, p, localCert, ctrlNS)
         == Seal.RawArgs(Strict, tmp, p, false, ctrlNS) + [Flag(ControllerNamespaceOpt, ctrlNS, true)] + CertArgs(localCert, p.certificatePath)
    ensures FileArgs(Strict, p, localCert, ctrlNS)
         == Seal.FileArgs(Strict, p, false, ctrlNS) + [Flag(ControllerNamespaceOpt, ctrlNS, true)] + CertArgs(localCert, p.certificatePath)
  {
  }

  /** Cluster-wide raw sealing here drops the placeholder namespace src/seal.ts passes and adds the
      controller namespace. */
  lemma ClusterWideDropsPlaceholder(tmp: string, p: SealSecretParameters, localCert: bool, ctrlNS: string)
    ensures Flag(NamespaceOpt, "dummyNamespace", false) in Seal.RawArgs(ClusterWide, tmp, p, localCert, ctrlNS)
    ensures !HasOption(RawArgs(ClusterWide, tmp, p, localCert, ctrlNS), NamespaceOpt)
    ensures !HasOption(Seal.RawArgs(ClusterWide, tmp, p, localCert, ctrlNS), ControllerNamespaceOpt)
    ensures HasOption(RawArgs(ClusterWide, tmp, p, localCert, ctrlNS), ControllerNamespaceOpt)
  {
    RawArgsContents(ClusterWide, tmp, p, localCert, ctrlNS);
    Seal.RawArgsContents(ClusterWide, tmp, p, localCert, ctrlNS);
  }

  // ---------------------------------------------------------------------------
  // The operations.
  // ---------------------------------------------------------------------------

  /** `sealSecretFile`: read the file (a failed read rejects first), build the command (an
      unknown scope rejects with the internal error), run it with the file's contents on stdin. */
  function SealSecretFile(kubesealPath: string, fileData: Result<string, string>, p: SealSecretParameters,
                          localCert: bool, controllerNamespace: Option<string>, exec: Invocation -> ExecResult): (r: Result<string, SealError>)
    ensures fileData.Err? ==> r == Err(ReadFailed(fileData.error))
    ensures fileData.Ok? && SelectedScope(p.scope).None? ==> r == Err(InternalError(UnknownScopeMessage(p.scope)))
    ensures fileData.Ok? && SelectedScope(p.scope).Some? ==>
      r == Settle(exec(Invocation(Render(kubesealPath, FileArgs(SelectedScope(p.scope).value, p, localCert, ControllerNamespace(controllerNamespace))),
                                  Some(fileData.value))))
  {
    FileCommandRenders(kubesealPath, p, localCert, controllerNamespace);
    match fileData
    case Err(e) => Err(ReadFailed(e))
    case Ok(data) =>
      match FileCommand(kubesealPath, p, localCert, controllerNamespace)
      case Err(m) => Err(InternalError(m))
      case Ok(command) => Settle(exec(Invocation(command, Some(data))))
  }

  /** `unsealSecretFile`: after reading the file, `<ocPath> get secret` runs with its contents on stdin. */
  function UnsealSecretFile(ocPath: string, secretName: string, nameSpace: string, fileData: Result<string, string>,
                            exec: Invocation -> ExecResult): (r: Result<string, SealError>)
    ensures fileData.Err? ==> r == Err(ReadFailed(fileData.error))
    ensures fileData.Ok? ==> r == Settle(exec(Invocation(Render(ocPath, Seal.UnsealArgs(secretName, nameSpace)), Some(fileData.value))))
  {
    UnsealCommandRenders(ocPath, secretName, nameSpace);
    match fileData
    case Err(e) => Err(ReadFailed(e))
    case Ok(data) => Settle(exec(Invocation(UnsealCommand(ocPath, secretName, nameSpace), Some(data))))
  }

  /** `sealSecretRaw`: the secret goes to a fresh temporary file named `tempName`, which is
      released once the process settles; an unknown scope throws before that, leaving it unreleased. */
  method SealSecretRaw(kubesealPath: string, plainTextSecret: string, p: SealSecretParameters, localCert: bool,
                       controllerNamespace: Option<string>, tempName: string, exec: Invocation -> ExecResult)
    returns (r: Result<string, SealError>, temporaryFile: TempFile)
    ensures fresh(temporaryFile) && temporaryFile.name == tempName && temporaryFile.contents == plainTextSecret
    ensures SelectedScope(p.scope).None? ==>
      r == Err(InternalError(UnknownScopeMessage(p.scope))) && temporaryFile.releases == 0
    ensures SelectedScope(p.scope).Some? ==>
      && r == Settle(exec(Invocation(Render(kubesealPath, RawArgs(SelectedScope(p.scope).value, NormalizeSlashes(tempName), p, localCert,
                                                                  ControllerNamespace(controllerNamespace))), None)))
      && temporaryFile.releases == 1
  {
    temporaryFile := new TempFile(tempName);
    temporaryFile.Write(plainTextSecret);
    RawCommandRenders(kubesealPath, tempName, p, localCert, controllerNamespace);
    var command := RawCommand(kubesealPath, temporaryFile.name, p, localCert, controllerNamespace);
    if command.Err? {
      r := Err(InternalError(command.error));
      return;
    }
    r := Settle(exec(Invocation(command.value, None)));
    temporaryFile.Release();
  }
}
