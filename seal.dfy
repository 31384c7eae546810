/** The command builders wired into the extension (src/seal.ts): `sealSecretRaw`,
    `sealSecretFile` and `unsealSecretFile`. */
module Seal {
  import opened Wrappers
  import opened Types
  import opened CommandLine

  /** The `switch` of `sealSecretRaw`: the command before the certificate argument, or the
      message of the error thrown for an unknown scope. `tmp` is the normalised temp-file name.
      Each template literal is written as one literal per argument; the text is the same. */
  function RawBase(kubesealPath: string, tmp: string, p: SealSecretParameters, ctrlNS: string): Result<string, string> {
    match SelectedScope(p.scope)
    case Some(Strict) =>
      Ok(kubesealPath + " --raw" + " --from-file=\"" + tmp + "\"" + " --namespace \"" + Interp(p.namespace) + "\"" + " --name \"" + Interp(p.name) + "\"")
    case Some(NamespaceWide) =>
      Ok(kubesealPath + " --raw" + " --from-file=\"" + tmp + "\"" + " --namespace \"" + Interp(p.namespace) + "\"" + " --scope namespace-wide" + " --controller-namespace \"" + ctrlNS + "\"")
    case Some(ClusterWide) =>
      // kubeseal rejects cluster-wide sealing without some namespace, hence the placeholder
      Ok(kubesealPath + " --raw" + " --from-file=\"" + tmp + "\"" + " --namespace dummyNamespace" + " --scope cluster-wide")
    case None =>
      Err(UnknownScopeMessage(p.scope))
  }

  /** The full raw-mode command line for a temp file named `tempName`. */
  function RawCommand(kubesealPath: string, tempName: string, p: SealSecretParameters, localCert: bool, controllerNamespace: Option<string>): Result<string, string> {
    match RawBase(kubesealPath, NormalizeSlashes(tempName), p, ControllerNamespace(controllerNamespace))
    case Ok(c) => Ok(WithCert(c, localCert, p.certificatePath))
    case Err(e) => Err(e)
  }

  /** The `switch` of `sealSecretFile`. */
  function FileBase(kubesealPath: string, p: SealSecretParameters, ctrlNS: string): Result<string, string> {
    match SelectedScope(p.scope)
    case Some(Strict) =>
      Ok(kubesealPath + " --namespace \"" + Interp(p.namespace) + "\"" + " --name \"" + Interp(p.name) + "\"" + " --format yaml")
    case Some(NamespaceWide) =>
      Ok(kubesealPath + " --namespace \"" + Interp(p.namespace) + "\"" + " --scope namespace-wide" + " --format yaml" + " --controller-namespace \"" + ctrlNS + "\"")
    case Some(ClusterWide) =>
      Ok(kubesealPath + " --scope cluster-wide" + " --format yaml")
    case None =>
      Err(UnknownScopeMessage(p.scope))
  }

  /** The full file-mode command line. */
  function FileCommand(kubesealPath: string, p: SealSecretParameters, localCert: bool, controllerNamespace: Option<string>): Result<string, string> {
    match FileBase(kubesealPath, p, ControllerNamespace(controllerNamespace))
    case Ok(c) => Ok(WithCert(c, localCert, p.certificatePath))
    case Err(e) => Err(e)
  }

  /** The unseal command: name and namespace interpolated unquoted. */
  function UnsealCommand(secretName: string, nameSpace: string): string {
    "oc get secret " + secretName + " -n " + nameSpace + " -o yaml"
  }

  // ---------------------------------------------------------------------------
  // The same commands as argument lists.
  // ---------------------------------------------------------------------------

  /** The raw-mode arguments for a known scope. */
  function RawArgs(s: Scope, tmp: string, p: SealSecretParameters, localCert: bool, ctrlNS: string): seq<Arg> {
    var scoped :=
      match s
      case Strict => [Flag(NamespaceOpt, Interp(p.namespace), true), Flag(NameOpt, Interp(p.name), true)]
      case NamespaceWide => [Flag(NamespaceOpt, Interp(p.namespace), true), Flag(ScopeOpt, "namespace-wide", false),
                             Flag(ControllerNamespaceOpt, ctrlNS, true)]
      case ClusterWide => [Flag(NamespaceOpt, "dummyNamespace", false), Flag(ScopeOpt, "cluster-wide", false)];
    [Bare(RawOpt), Assign(FromFileOpt, tmp)] + scoped + CertArgs(localCert, p.certificatePath)
  }

  /** The file-mode arguments for a known scope. */
  function FileArgs(s: Scope, p: SealSecretParameters, localCert: bool, ctrlNS: string): seq<Arg> {
    var scoped :=
      match s
      case Strict => [Flag(NamespaceOpt, Interp(p.namespace), true), Flag(NameOpt, Interp(p.name), true),
                      Flag(FormatOpt, "yaml", false)]
      case NamespaceWide => [Flag(NamespaceOpt, Interp(p.namespace), true), Flag(ScopeOpt, "namespace-wide", false),
                             Flag(FormatOpt, "yaml", false), Flag(ControllerNamespaceOpt, ctrlNS, true)]
      case ClusterWide => [Flag(ScopeOpt, "cluster-wide", false), Flag(FormatOpt, "yaml", false)];
    scoped + CertArgs(localCert, p.certificatePath)
  }

  /** The unseal arguments. */
  function UnsealArgs(secretName: string, nameSpace: string): seq<Arg> {
    [Word("get"), Word("secret"), Word(secretName), Flag(ShortNamespaceOpt, nameSpace, false), Flag(OutputOpt, "yaml", false)]
  }

  // ---------------------------------------------------------------------------
  // The string commands are the argument lists rendered.
  // ---------------------------------------------------------------------------

  lemma RawStrictRenders(k: string, tmp: string, ns: string, nm: string)
    ensures Render(k, [Bare(RawOpt), Assign(FromFileOpt, tmp), Flag(NamespaceOpt, ns, true), Flag(NameOpt, nm, true)])
         == k + " --raw" + " --from-file=\"" + tmp + "\"" + " --namespace \"" + ns + "\"" + " --name \"" + nm + "\""
  {
    Render4(k, Bare(RawOpt), Assign(FromFileOpt, tmp), Flag(NamespaceOpt, ns, true), Flag(NameOpt, nm, true));
    var t1 := k + " --raw";
    var t2 := t1 + " --from-file=\"" + tmp + "\"";
    var t3 := t2 + " --namespace \"" + ns + "\"";
    RawAfter(k);
    FromFileAfter(t1, tmp);
    NamespaceAfter(t2, ns);
    NameAfter(t3, nm);
  }

  lemma RawNamespaceWideRenders(k: string, tmp: string, ns: string, ctrlNS: string)
    ensures Render(k, [Bare(RawOpt), Assign(FromFileOpt, tmp), Flag(NamespaceOpt, ns, true), Flag(ScopeOpt, "namespace-wide", false),
                       Flag(ControllerNamespaceOpt, ctrlNS, true)])
         == k + " --raw" + " --from-file=\"" + tmp + "\"" + " --namespace \"" + ns + "\"" + " --scope namespace-wide" + " --controller-namespace \"" + ctrlNS + "\""
  {
    Render5(k, Bare(RawOpt), Assign(FromFileOpt, tmp), Flag(NamespaceOpt, ns, true), Flag(ScopeOpt, "namespace-wide", false),
            Flag(ControllerNamespaceOpt, ctrlNS, true));
    var t1 := k + " --raw";
    var t2 := t1 + " --from-file=\"" + tmp + "\"";
    var t3 := t2 + " --namespace \"" + ns + "\"";
    var t4 := t3 + " --scope namespace-wide";
    RawAfter(k);
    FromFileAfter(t1, tmp);
    NamespaceAfter(t2, ns);
    NamespaceWideAfter(t3);
    ControllerNamespaceAfter(t4, ctrlNS);
  }

  lemma RawClusterWideRenders(k: string, tmp: string)
    ensures Render(k, [Bare(RawOpt), Assign(FromFileOpt, tmp), Flag(NamespaceOpt, "dummyNamespace", false), Flag(ScopeOpt, "cluster-wide", false)])
         == k + " --raw" + " --from-file=\"" + tmp + "\"" + " --namespace dummyNamespace" + " --scope cluster-wide"
  {
    Render4(k, Bare(RawOpt), Assign(FromFileOpt, tmp), Flag(NamespaceOpt, "dummyNamespace", false), Flag(ScopeOpt, "cluster-wide", false));
    var t1 := k + " --raw";
    var t2 := t1 + " --from-file=\"" + tmp + "\"";
    var t3 := t2 + " --namespace dummyNamespace";
    RawAfter(k);
    FromFileAfter(t1, tmp);
    DummyNamespaceAfter(t2);
    ClusterWideAfter(t3);
  }

  /** The raw-mode `switch` renders its arguments. */
  lemma RawBaseRenders(kubesealPath: string, tmp: string, p: SealSecretParameters, ctrlNS: string, s: Scope)
    requires SelectedScope(p.scope) == Some(s)
    ensures RawBase(kubesealPath, tmp, p, ctrlNS) == Ok(Render(kubesealPath, RawArgs(s, tmp, p, false, ctrlNS)))
  {
    match s
    case Strict =>
      assert RawArgs(s, tmp, p, false, ctrlNS) == [Bare(RawOpt), Assign(FromFileOpt, tmp), Flag(NamespaceOpt, Interp(p.namespace), true),
                                                   Flag(NameOpt, Interp(p.name), true)];
      RawStrictRenders(kubesealPath, tmp, Interp(p.namespace), Interp(p.name));
    case NamespaceWide =>
      assert RawArgs(s, tmp, p, false, ctrlNS) == [Bare(RawOpt), Assign(FromFileOpt, tmp), Flag(NamespaceOpt, Interp(p.namespace), true),
                                                   Flag(ScopeOpt, "namespace-wide", false), Flag(ControllerNamespaceOpt, ctrlNS, true)];
      RawNamespaceWideRenders(kubesealPath, tmp, Interp(p.namespace), ctrlNS);
    case ClusterWide =>
      assert RawArgs(s, tmp, p, false, ctrlNS) == [Bare(RawOpt), Assign(FromFileOpt, tmp), Flag(NamespaceOpt, "dummyNamespace", false),
                                                   Flag(ScopeOpt, "cluster-wide", false)];
      RawClusterWideRenders(kubesealPath, tmp);
  }

  /** The raw-mode command is the executable followed by `RawArgs`, or the internal error. */
  lemma RawCommandRenders(kubesealPath: string, tempName: string, p: SealSecretParameters, localCert: bool, controllerNamespace: Option<string>)
    ensures SelectedScope(p.scope).None? ==>
      RawCommand(kubesealPath, tempName, p, localCert, controllerNamespace) == Err(UnknownScopeMessage(p.scope))
    ensures SelectedScope(p.scope).Some? ==>
      RawCommand(kubesealPath, tempName, p, localCert, controllerNamespace)
        == Ok(Render(kubesealPath, RawArgs(SelectedScope(p.scope).value, NormalizeSlashes(tempName), p, localCert, ControllerNamespace(controllerNamespace))))
  {
    var tmp, ctrlNS := NormalizeSlashes(tempName), ControllerNamespace(controllerNamespace);
    if SelectedScope(p.scope).Some? {
      var s := SelectedScope(p.scope).value;
      RawBaseRenders(kubesealPath, tmp, p, ctrlNS, s);
      var base := RawArgs(s, tmp, p, false, ctrlNS);
      assert RawArgs(s, tmp, p, localCert, ctrlNS) == base + CertArgs(localCert, p.certificatePath);
      WithCertRenders(kubesealPath, base, localCert, p.certificatePath);
    }
  }

  lemma FileStrictRenders(k: string, ns: string, nm: string)
    ensures Render(k, [Flag(NamespaceOpt, ns, true), Flag(NameOpt, nm, true), Flag(FormatOpt, "yaml", false)])
         == k + " --namespace \"" + ns + "\"" + " --name \"" + nm + "\"" + " --format yaml"
  {
    Render3(k, Flag(NamespaceOpt, ns, true), Flag(NameOpt, nm, true), Flag(FormatOpt, "yaml", false));
    var t1 := k + " --namespace \"" + ns + "\"";
    var t2 := t1 + " --name \"" + nm + "\"";
    NamespaceAfter(k, ns);
    NameAfter(t1, nm);
    FormatYamlAfter(t2);
  }

  lemma FileNamespaceWideRenders(k: string, ns: string, ctrlNS: string)
    ensures Render(k, [Flag(NamespaceOpt, ns, true), Flag(ScopeOpt, "namespace-wide", false), Flag(FormatOpt, "yaml", false),
                       Flag(ControllerNamespaceOpt, ctrlNS, true)])
         == k + " --namespace \"" + ns + "\"" + " --scope namespace-wide" + " --format yaml" + " --controller-namespace \"" + ctrlNS + "\""
  {
    Render4(k, Flag(NamespaceOpt, ns, true), Flag(ScopeOpt, "namespace-wide", false), Flag(FormatOpt, "yaml", false),
            Flag(ControllerNamespaceOpt, ctrlNS, true));
    var t1 := k + " --namespace \"" + ns + "\"";
    var t2 := t1 + " --scope namespace-wide";
    var t3 := t2 + " --format yaml";
    NamespaceAfter(k, ns);
    NamespaceWideAfter(t1);
    FormatYamlAfter(t2);
    ControllerNamespaceAfter(t3, ctrlNS);
  }

  lemma FileClusterWideRenders(k: string)
    ensures Render(k, [Flag(ScopeOpt, "cluster-wide", false), Flag(FormatOpt, "yaml", false)]) == k + " --scope cluster-wide" + " --format yaml"
  {
    Render2(k, Flag(ScopeOpt, "cluster-wide", false), Flag(FormatOpt, "yaml", false));
    ClusterWideAfter(k);
    FormatYamlAfter(k + " --scope cluster-wide");
  }

  /** The file-mode `switch` renders its arguments. */
  lemma FileBaseRenders(kubesealPath: string, p: SealSecretParameters, ctrlNS: string, s: Scope)
    requires SelectedScope(p.scope) == Some(s)
    ensures FileBase(kubesealPath, p, ctrlNS) == Ok(Render(kubesealPath, FileArgs(s, p, false, ctrlNS)))
  {
    match s
    case Strict =>
      assert FileArgs(s, p, false, ctrlNS) == [Flag(NamespaceOpt, Interp(p.namespace), true), Flag(NameOpt, Interp(p.name), true),
                                               Flag(FormatOpt, "yaml", false)];
      FileStrictRenders(kubesealPath, Interp(p.namespace), Interp(p.name));
    case NamespaceWide =>
      assert FileArgs(s, p, false, ctrlNS) == [Flag(NamespaceOpt, Interp(p.namespace), true), Flag(ScopeOpt, "namespace-wide", false),
                                               Flag(FormatOpt, "yaml", false), Flag(ControllerNamespaceOpt, ctrlNS, true)];
      FileNamespaceWideRenders(kubesealPath, Interp(p.namespace), ctrlNS);
    case ClusterWide =>
      assert FileArgs(s, p, false, ctrlNS) == [Flag(ScopeOpt, "cluster-wide", false), Flag(FormatOpt, "yaml", false)];
      FileClusterWideRenders(kubesealPath);
  }

  /** The file-mode command is the executable followed by `FileArgs`, or the internal error. */
  lemma FileCommandRenders(kubesealPath: string, p: SealSecretParameters, localCert: bool, controllerNamespace: Option<string>)
    ensures SelectedScope(p.scope).None? ==>
      FileCommand(kubesealPath, p, localCert, controllerNamespace) == Err(UnknownScopeMessage(p.scope))
    ensures SelectedScope(p.scope).Some? ==>
      FileCommand(kubesealPath, p, localCert, controllerNamespace)
        == Ok(Render(kubesealPath, FileArgs(SelectedScope(p.scope).value, p, localCert, ControllerNamespace(controllerNamespace))))
  {
    var ctrlNS := ControllerNamespace(controllerNamespace);
    if SelectedScope(p.scope).Some? {
      var s := SelectedScope(p.scope).value;
      FileBaseRenders(kubesealPath, p, ctrlNS, s);
      var base := FileArgs(s, p, false, ctrlNS);
      assert FileArgs(s, p, localCert, ctrlNS) == base + CertArgs(localCert, p.certificatePath);
      WithCertRenders(kubesealPath, base, localCert, p.certificatePath);
    }
  }

  /** The unseal command is `oc` followed by `UnsealArgs`. */
  lemma UnsealCommandRenders(secretName: string, nameSpace: string)
    ensures UnsealCommand(secretName, nameSpace) == Render("oc", UnsealArgs(secretName, nameSpace))
  {
    UnsealTextRenders("oc", secretName, nameSpace);
    assert "oc" + " get secret " == "oc get secret ";
  }

  /** `<e> get secret <name> -n <ns> -o yaml` is `e` followed by `UnsealArgs`. */
  lemma UnsealTextRenders(e: string, secretName: string, nameSpace: string)
    ensures Render(e, UnsealArgs(secretName, nameSpace)) == e + " get secret " + secretName + " -n " + nameSpace + " -o yaml"
  {
    Render5(e, Word("get"), Word("secret"), Word(secretName), Flag(ShortNamespaceOpt, nameSpace, false), Flag(OutputOpt, "yaml", false));
    WordAfter(e, "get");
    WordAfter(e + " " + "get", "secret");
    var t2 := e + " " + "get" + " " + "secret";
    WordAfter(t2, secretName);
    assert " " + "get" + " " + "secret" + " " == " get secret ";
    Assoc(e, " " + "get" + " " + "secret", " ");
    Assoc(e, " " + "get" + " ", "secret");
    Assoc(e, " " + "get", " ");
    Assoc(e, " ", "get");
    var t3 := e + " get secret " + secretName;
    OcNamespaceAfter(t3, nameSpace);
    OcOutputYamlAfter(t3 + " -n " + nameSpace);
  }

  // ---------------------------------------------------------------------------
  // What the argument lists contain.
  // ---------------------------------------------------------------------------

  /** Which options a raw-mode argument list carries: always a namespace (a placeholder for
      cluster-wide), the secret's name only when strict, a scope unless strict, the controller
      namespace only when namespace-wide, the certificate exactly when a local one is used, and
      never an output format. */
  predicate RawOptionsShape(s: Scope, localCert: bool, args: seq<Arg>) {
    && HasOption(args, NamespaceOpt)
    && (HasOption(args, NameOpt) <==> s == Strict)
    && (HasOption(args, ScopeOpt) <==> s != Strict)
    && (HasOption(args, ControllerNamespaceOpt) <==> s == NamespaceWide)
    && (HasOption(args, CertOpt) <==> localCert)
    && !HasOption(args, FormatOpt)
  }

  /** A raw-mode argument list: those options, starting with the normalised temp file, with the
      placeholder namespace for cluster-wide, the controller namespace for namespace-wide, and
      the certificate last. */
  predicate RawArgsShape(s: Scope, tmp: string, p: SealSecretParameters, localCert: bool, ctrlNS: string, args: seq<Arg>) {
    && RawOptionsShape(s, localCert, args)
    && |args| >= 2
    && args[..2] == [Bare(RawOpt), Assign(FromFileOpt, tmp)]
    && (s == ClusterWide ==> Flag(NamespaceOpt, "dummyNamespace", false) in args)
    && (s == NamespaceWide ==> Flag(ControllerNamespaceOpt, ctrlNS, true) in args)
    && (localCert ==> args[|args| - 1] == Flag(CertOpt, CertificateUri(p.certificatePath), true))
  }

  lemma RawArgsContents(s: Scope, tmp: string, p: SealSecretParameters, localCert: bool, ctrlNS: string)
    ensures RawArgsShape(s, tmp, p, localCert, ctrlNS, RawArgs(s, tmp, p, localCert, ctrlNS))
  {
    var head := RawArgs(s, tmp, p, false, ctrlNS);
    assert RawArgs(s, tmp, p, localCert, ctrlNS) == head + CertArgs(localCert, p.certificatePath);
    CertContents(head, localCert, p.certificatePath);
    match s
    case Strict =>
      RawStrictOptions(tmp, p, localCert, ctrlNS);
    case NamespaceWide =>
      RawNamespaceWideOptions(tmp, p, localCert, ctrlNS);
      assert head[4] == Flag(ControllerNamespaceOpt, ctrlNS, true);
    case ClusterWide =>
      RawClusterWideOptions(tmp, p, localCert, ctrlNS);
      assert head[2] == Flag(NamespaceOpt, "dummyNamespace", false);
  }

  lemma RawStrictOptions(tmp: string, p: SealSecretParameters, localCert: bool, ctrlNS: string)
    ensures RawOptionsShape(Strict, localCert, RawArgs(Strict, tmp, p, localCert, ctrlNS))
  {
    var head := [Bare(RawOpt), Assign(FromFileOpt, tmp), Flag(NamespaceOpt, Interp(p.namespace), true), Flag(NameOpt, Interp(p.name), true)];
    var args := RawArgs(Strict, tmp, p, localCert, ctrlNS);
    assert args == head + CertArgs(localCert, p.certificatePath);
    Options4(head[0], head[1], head[2], head[3]);
    OptionsWithCert(head, localCert, p.certificatePath);
    var names := [Some(RawOpt), Some(FromFileOpt), Some(NamespaceOpt), Some(NameOpt)];
    if localCert {
      assert Options(args) == names + [Some(CertOpt)];
    } else {
      assert Options(args) == names;
    }
  }

  lemma RawNamespaceWideOptions(tmp: string, p: SealSecretParameters, localCert: bool, ctrlNS: string)
    ensures RawOptionsShape(NamespaceWide, localCert, RawArgs(NamespaceWide, tmp, p, localCert, ctrlNS))
  {
    var head := [Bare(RawOpt), Assign(FromFileOpt, tmp), Flag(NamespaceOpt, Interp(p.namespace), true), Flag(ScopeOpt, "namespace-wide", false),
                 Flag(ControllerNamespaceOpt, ctrlNS, true)];
    var args := RawArgs(NamespaceWide, tmp, p, localCert, ctrlNS);
    assert args == head + CertArgs(localCert, p.certificatePath);
    Options5(head[0], head[1], head[2], head[3], head[4]);
    OptionsWithCert(head, localCert, p.certificatePath);
    var names := [Some(RawOpt), Some(FromFileOpt), Some(NamespaceOpt), Some(ScopeOpt), Some(ControllerNamespaceOpt)];
    if localCert {
      assert Options(args) == names + [Some(CertOpt)];
    } else {
      assert Options(args) == names;
    }
  }

  lemma RawClusterWideOptions(tmp: string, p: SealSecretParameters, localCert: bool, ctrlNS: string)
    ensures RawOptionsShape(ClusterWide, localCert, RawArgs(ClusterWide, tmp, p, localCert, ctrlNS))
  {
    var head := [Bare(RawOpt), Assign(FromFileOpt, tmp), Flag(NamespaceOpt, "dummyNamespace", false), Flag(ScopeOpt, "cluster-wide", false)];
    var args := RawArgs(ClusterWide, tmp, p, localCert, ctrlNS);
    assert args == head + CertArgs(localCert, p.certificatePath);
    Options4(head[0], head[1], head[2], head[3]);
    OptionsWithCert(head, localCert, p.certificatePath);
    var names := [Some(RawOpt), Some(FromFileOpt), Some(NamespaceOpt), Some(ScopeOpt)];
    if localCert {
      assert Options(args) == names + [Some(CertOpt)];
    } else {
      assert Options(args) == names;
    }
  }

  /** Which options a file-mode argument list carries: no temp file, a namespace unless
      cluster-wide, the secret's name only when strict, a scope unless strict, the controller
      namespace only when namespace-wide, and the certificate exactly when a local one is used. */
  predicate FileOptionsShape(s: Scope, localCert: bool, args: seq<Arg>) {
    && !HasOption(args, RawOpt) && !HasOption(args, FromFileOpt)
    && (HasOption(args, NamespaceOpt) <==> s != ClusterWide)
    && (HasOption(args, NameOpt) <==> s == Strict)
    && (HasOption(args, ScopeOpt) <==> s != Strict)
    && (HasOption(args, ControllerNamespaceOpt) <==> s == NamespaceWide)
    && (HasOption(args, CertOpt) <==> localCert)
  }

  /** A file-mode argument list: those options, always asking for YAML, with the secret's
      namespace unless cluster-wide, the controller namespace for namespace-wide, and the
      certificate last. */
  predicate FileArgsShape(s: Scope, p: SealSecretParameters, localCert: bool, ctrlNS: string, args: seq<Arg>) {
    && FileOptionsShape(s, localCert, args)
    && |args| >= 1
    && Flag(FormatOpt, "yaml", false) in args
    && (s != ClusterWide ==> Flag(NamespaceOpt, Interp(p.namespace), true) in args)
    && (s == NamespaceWide ==> Flag(ControllerNamespaceOpt, ctrlNS, true) in args)
    && (localCert ==> args[|args| - 1] == Flag(CertOpt, CertificateUri(p.certificatePath), true))
  }

  lemma FileArgsContents(s: Scope, p: SealSecretParameters, localCert: bool, ctrlNS: string)
    ensures FileArgsShape(s, p, localCert, ctrlNS, FileArgs(s, p, localCert, ctrlNS))
  {
    var head := FileArgs(s, p, false, ctrlNS);
    assert FileArgs(s, p, localCert, ctrlNS) == head + CertArgs(localCert, p.certificatePath);
    CertContents(head, localCert, p.certificatePath);
    match s
    case Strict =>
      FileStrictOptions(p, localCert, ctrlNS);
      assert head[0] == Flag(NamespaceOpt, Interp(p.namespace), true) && head[2] == Flag(FormatOpt, "yaml", false);
    case NamespaceWide =>
      FileNamespaceWideOptions(p, localCert, ctrlNS);
      assert head[0] == Flag(NamespaceOpt, Interp(p.namespace), true) && head[2] == Flag(FormatOpt, "yaml", false);
      assert head[3] == Flag(ControllerNamespaceOpt, ctrlNS, true);
    case ClusterWide =>
      FileClusterWideOptions(p, localCert, ctrlNS);
      assert head[1] == Flag(FormatOpt, "yaml", false);
  }

  lemma FileStrictOptions(p: SealSecretParameters, localCert: bool, ctrlNS: string)
    ensures FileOptionsShape(Strict, localCert, FileArgs(Strict, p, localCert, ctrlNS))
  {
    var head := [Flag(NamespaceOpt, Interp(p.namespace), true), Flag(NameOpt, Interp(p.name), true), Flag(FormatOpt, "yaml", false)];
    var args := FileArgs(Strict, p, localCert, ctrlNS);
    assert args == head + CertArgs(localCert, p.certificatePath);
    Options3(head[0], head[1], head[2]);
    OptionsWithCert(head, localCert, p.certificatePath);
    var names := [Some(NamespaceOpt), Some(NameOpt), Some(FormatOpt)];
    if localCert {
      assert Options(args) == names + [Some(CertOpt)];
    } else {
      assert Options(args) == names;
    }
  }

  lemma FileNamespaceWideOptions(p: SealSecretParameters, localCert: bool, ctrlNS: string)
    ensures FileOptionsShape(NamespaceWide, localCert, FileArgs(NamespaceWide, p, localCert, ctrlNS))
  {
    var head := [Flag(NamespaceOpt, Interp(p.namespace), true), Flag(ScopeOpt, "namespace-wide", false), Flag(FormatOpt, "yaml", false),
                 Flag(ControllerNamespaceOpt, ctrlNS, true)];
    var args := FileArgs(NamespaceWide, p, localCert, ctrlNS);
    assert args == head + CertArgs(localCert, p.certificatePath);
    Options4(head[0], head[1], head[2], head[3]);
    OptionsWithCert(head, localCert, p.certificatePath);
    var names := [Some(NamespaceOpt), Some(ScopeOpt), Some(FormatOpt), Some(ControllerNamespaceOpt)];
    if localCert {
      assert Options(args) == names + [Some(CertOpt)];
    } else {
      assert Options(args) == names;
    }
  }

  lemma FileClusterWideOptions(p: SealSecretParameters, localCert: bool, ctrlNS: string)
    ensures FileOptionsShape(ClusterWide, localCert, FileArgs(ClusterWide, p, localCert, ctrlNS))
  {
    var head := [Flag(ScopeOpt, "cluster-wide", false), Flag(FormatOpt, "yaml", false)];
    var args := FileArgs(ClusterWide, p, localCert, ctrlNS);
    assert args == head + CertArgs(localCert, p.certificatePath);
    Options2(head[0], head[1]);
    OptionsWithCert(head, localCert, p.certificatePath);
    var names := [Some(ScopeOpt), Some(FormatOpt)];
    if localCert {
      assert Options(args) == names + [Some(CertOpt)];
    } else {
      assert Options(args) == names;
    }
  }

  // ---------------------------------------------------------------------------
  // The operations.
  // ---------------------------------------------------------------------------

  /** `sealSecretFile`. The file is read first (`fileData`; a failed read rejects before anything
      else), then the command is built (an unknown scope rejects with the internal error), then
      `exec` runs it with the file's contents written to its stdin. */
  function SealSecretFile(kubesealPath: string, fileData: Result<string, string>, p: SealSecretParameters,
                          localCert: bool, controllerNamespace: Option<string>, exec: Invocation -> ExecResult): (r: Result<string, SealError>)
    ensures fileData.Err? ==> r == Err(ReadFailed(fileData.error))
    ensures fileData.Ok? && SelectedScope(p.scope).None? ==> r == Err(InternalError(UnknownScopeMessage(p.scope)))
    ensures fileData.Ok? && SelectedScope(p.scope).Some? ==>
      r == Settle(exec(Invocation(Render(kubesealPath, FileArgs(SelectedScope(p.scope).value, p, localCert, ControllerNamespace(controllerNamespace))),
                                  Some(fileData.value))))
  {
    FileCommandRenders(kubesealPath, p, localCert, controllerNamespace);
    match fileData
    case Err(e) => Err(ReadFailed(e))
    case Ok(data) =>
      match FileCommand(kubesealPath, p, localCert, controllerNamespace)
      case Err(m) => Err(InternalError(m))
      case Ok(command) => Settle(exec(Invocation(command, Some(data))))
  }

  /** `unsealSecretFile`: after reading the file, `oc get secret` runs with its contents on stdin. */
  function UnsealSecretFile(secretName: string, nameSpace: string, fileData: Result<string, string>,
                            exec: Invocation -> ExecResult): (r: Result<string, SealError>)
    ensures fileData.Err? ==> r == Err(ReadFailed(fileData.error))
    ensures fileData.Ok? ==> r == Settle(exec(Invocation(Render("oc", UnsealArgs(secretName, nameSpace)), Some(fileData.value))))
  {
    UnsealCommandRenders(secretName, nameSpace);
    match fileData
    case Err(e) => Err(ReadFailed(e))
    case Ok(data) => Settle(exec(Invocation(UnsealCommand(secretName, nameSpace), Some(data))))
  }

  /** `sealSecretRaw`. The secret is written to a fresh temporary file named `tempName`; the
      command reads it through `--from-file`, nothing is written to stdin. The file is released once
      the process settles; an unknown scope throws before that, so the file is never released. */
  method SealSecretRaw(kubesealPath: string, plainTextSecret: string, p: SealSecretParameters, localCert: bool,
                       controllerNamespace: Option<string>, tempName: string, exec: Invocation -> ExecResult)
    returns (r: Result<string, SealError>, temporaryFile: TempFile)
    ensures fresh(temporaryFile) && temporaryFile.name == tempName && temporaryFile.contents == plainTextSecret
    ensures SelectedScope(p.scope).None? ==>
      r == Err(InternalError(UnknownScopeMessage(p.scope))) && temporaryFile.releases == 0
    ensures SelectedScope(p.scope).Some? ==>
      && r == Settle(exec(Invocation(Render(kubesealPath, RawArgs(SelectedScope(p.scope).value, NormalizeSlashes(tempName), p, localCert,
                                                                  ControllerNamespace(controllerNamespace))), None)))
      && temporaryFile.releases == 1
  {
    temporaryFile := new TempFile(tempName);
    temporaryFile.Write(plainTextSecret);
    RawCommandRenders(kubesealPath, tempName, p, localCert, controllerNamespace);
    var command := RawCommand(kubesealPath, temporaryFile.name, p, localCert, controllerNamespace);
    if command.Err? {
      r := Err(InternalError(command.error));
      return;
    }
    r := Settle(exec(Invocation(command.value, None)));
    temporaryFile.Release();
  }
}
