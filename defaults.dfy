/** `collectDefaults` (src/defaults.ts): fill in name, namespace and scope of the caller's own
    parameter record from the document being sealed. The YAML parser is replaced by the parsed
    document it would produce. */
module Defaults {
  import opened Wrappers
  import opened Types

  const ClusterWideAnnotation := "sealedsecrets.bitnami.com/cluster-wide"
  const NamespaceWideAnnotation := "sealedsecrets.bitnami.com/namespace-wide"

  /** An annotation's value: a YAML string, or anything else (a boolean, a number, a map). */
  datatype AnnotationValue = Text(text: string) | NonText

  /** The `metadata` object of the document. An absent or null field is `None`; a non-object
      `annotations` value behaves as a map without the two keys. */
  datatype Metadata = Metadata(name: Option<string>, namespace: Option<string>, annotations: Option<map<string, AnnotationValue>>)

  /** The outcome of reading and parsing the document: the parser threw, or it produced a value
      whose `metadata` is present or not (a scalar or an empty document has none). */
  datatype Document = ParseError | Parsed(metadata: Option<Metadata>)

  /** `annotations && annotations[key] === "true"`. */
  predicate AnnotatedTrue(m: Option<Metadata>, key: string) {
    && m.Some? && m.value.annotations.Some?
    && key in m.value.annotations.value && m.value.annotations.value[key] == Text("true")
  }

  /** The scope a document states, if any. */
  function DocumentScope(m: Option<Metadata>): (r: Option<Scope>)
    ensures r == Some(ClusterWide) <==> AnnotatedTrue(m, ClusterWideAnnotation)
    ensures r == Some(NamespaceWide) <==> !AnnotatedTrue(m, ClusterWideAnnotation) && AnnotatedTrue(m, NamespaceWideAnnotation)
    ensures r == Some(Strict) <==> m.Some? && !AnnotatedTrue(m, ClusterWideAnnotation) && !AnnotatedTrue(m, NamespaceWideAnnotation)
    ensures r.None? <==> m.None?
  {
    if AnnotatedTrue(m, ClusterWideAnnotation) then Some(ClusterWide)
    else if AnnotatedTrue(m, NamespaceWideAnnotation) then Some(NamespaceWide)
    else if m.Some? then Some(Strict)
    else None
  }

  function MetadataName(m: Option<Metadata>): Option<string> {
    if m.Some? then m.value.name else None
  }

  function MetadataNamespace(m: Option<Metadata>): Option<string> {
    if m.Some? then m.value.namespace else None
  }

  /** The record `collectDefaults` leaves behind, starting from `prev`. */
  function Collected(prev: SealSecretParameters, doc: Document): SealSecretParameters {
    match doc
    case ParseError => prev
    case Parsed(m) =>
      var scope := if DocumentScope(m).Some? then Some(Ordinal(DocumentScope(m).value)) else prev.scope;
      prev.(name := MetadataName(m), namespace := MetadataNamespace(m), scope := scope)
  }

  /** A parse failure changes nothing; a parsed document overwrites name and namespace with its
      metadata's (unset when absent), sets the scope it states and otherwise keeps the previous
      one; the certificate path is never touched. */
  lemma CollectedFields(prev: SealSecretParameters, doc: Document)
    ensures Collected(prev, doc).certificatePath == prev.certificatePath
    ensures doc.ParseError? ==> Collected(prev, doc) == prev
    ensures doc.Parsed? ==> Collected(prev, doc).name == MetadataName(doc.metadata)
    ensures doc.Parsed? ==> Collected(prev, doc).namespace == MetadataNamespace(doc.metadata)
    ensures doc.Parsed? && AnnotatedTrue(doc.metadata, ClusterWideAnnotation) ==> Collected(prev, doc).scope == Some(2)
    ensures doc.Parsed? && !AnnotatedTrue(doc.metadata, ClusterWideAnnotation) && AnnotatedTrue(doc.metadata, NamespaceWideAnnotation)
      ==> Collected(prev, doc).scope == Some(1)
    ensures (&& doc.Parsed? && doc.metadata.Some? && !AnnotatedTrue(doc.metadata, ClusterWideAnnotation)
             && !AnnotatedTrue(doc.metadata, NamespaceWideAnnotation))
      ==> Collected(prev, doc).scope == Some(0)
    ensures doc.Parsed? && doc.metadata.None? ==> Collected(prev, doc).scope == prev.scope
  {
  }

  /** Collecting twice from the same document is collecting once. */
  lemma CollectedIdempotent(prev: SealSecretParameters, doc: Document)
    ensures Collected(Collected(prev, doc), doc) == Collected(prev, doc)
  {
  }

  /** Once a document with metadata has parsed, the previous record matters only for its
      certificate path. */
  lemma CollectedForgetsPrevious(prev1: SealSecretParameters, prev2: SealSecretParameters, m: Metadata)
    requires prev1.certificatePath == prev2.certificatePath
    ensures Collected(prev1, Parsed(Some(m))) == Collected(prev2, Parsed(Some(m)))
  {
  }

  /** The parameter record, an object the caller owns and `collectDefaults` updates in place. */
  class ParameterRecord {
    var certificatePath: Option<string>
    var name: Option<string>
    var namespace: Option<string>
    var scope: Option<int>

    function Value(): SealSecretParameters
      reads this
    {
      SealSecretParameters(certificatePath, name, namespace, scope)
    }

    constructor (v: SealSecretParameters)
      ensures Value() == v
    {
      certificatePath := v.certificatePath;
      name := v.name;
      namespace := v.namespace;
      scope := v.scope;
    }
  }

  /** `collectDefaults`. With a last-used record that same object is updated and returned;
      without one a fresh record with every field unset is. */
  method CollectDefaults(document: Document, lastUsed: ParameterRecord?) returns (result: ParameterRecord)
    modifies lastUsed
    ensures lastUsed != null ==> result == lastUsed && result.Value() == Collected(old(lastUsed.Value()), document)
    ensures lastUsed == null ==> fresh(result) && result.Value() == Collected(Unset, document)
  {
    if lastUsed != null {
      result := lastUsed;
    } else {
      result := new ParameterRecord(Unset);
    }
    match document
    case ParseError =>
    case Parsed(m) =>
      result.name := MetadataName(m);
      result.namespace := MetadataNamespace(m);
      if AnnotatedTrue(m, ClusterWideAnnotation) {
        result.scope := Some(Ordinal(ClusterWide));
      } else if AnnotatedTrue(m, NamespaceWideAnnotation) {
        result.scope := Some(Ordinal(NamespaceWide));
      } else if m.Some? {
        result.scope := Some(Ordinal(Strict));
      }
  }

  // ---------------------------------------------------------------------------
  // The cases of src/test/suite/defaults.test.ts.
  // ---------------------------------------------------------------------------

  /** "Should reuse last used values": the stubbed document's text is undefined, which the YAML
      parser reads as the scalar "undefined", a document without metadata. The record handed in is
      the one returned, so the test compares it with itself; its scope survives, its name and
      namespace become unset. */
  lemma ReuseLastUsedCase()
    ensures var lastUsed := SealSecretParameters(Some("some-path"), Some("some-name"), Some("some-namespace"), Some(Ordinal(NamespaceWide)));
      Collected(lastUsed, Parsed(None)) == SealSecretParameters(Some("some-path"), None, None, Some(1))
  {
  }

  /** "Should extract name and namespace from secret yaml". */
  lemma SecretCase()
    ensures Collected(Unset, Parsed(Some(Metadata(Some("secretName"), Some("secretNamespace"), None))))
         == SealSecretParameters(None, Some("secretName"), Some("secretNamespace"), Some(0))
  {
  }

  /** The three sealed-secret cases: no annotation gives strict, each annotation its own scope. */
  lemma SealedSecretCases()
    ensures Collected(Unset, Parsed(Some(Metadata(Some("secretName"), Some("secretNamespace"), None)))).scope == Some(Ordinal(Strict))
    ensures Collected(Unset, Parsed(Some(Metadata(Some("secretName"), Some("secretNamespace"),
                                                  Some(map[NamespaceWideAnnotation := Text("true")]))))).scope == Some(Ordinal(NamespaceWide))
    ensures Collected(Unset, Parsed(Some(Metadata(Some("secretName"), Some("secretNamespace"),
                                                  Some(map[ClusterWideAnnotation := Text("true")]))))).scope == Some(Ordinal(ClusterWide))
  {
  }

  /** "Should fail gracefully for invalid yaml". */
  lemma InvalidYamlCase()
    ensures Collected(Unset, ParseError) == Unset
  {
  }

  /** The cluster-wide annotation wins over the namespace-wide one; an annotation that is the
      boolean `true` rather than the string "true" sets nothing. */
  lemma AnnotationPrecedence(name: Option<string>, namespace: Option<string>)
    ensures DocumentScope(Some(Metadata(name, namespace, Some(map[ClusterWideAnnotation := Text("true"), NamespaceWideAnnotation := Text("true")]))))
         == Some(ClusterWide)
    ensures DocumentScope(Some(Metadata(name, namespace, Some(map[ClusterWideAnnotation := NonText])))) == Some(Strict)
  {
  }
}
