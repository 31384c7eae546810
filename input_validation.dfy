/** The pure helpers of src/userInput.ts: the three validators, the drive-letter fix-up of
    workspace certificate paths, and the split of the namespace lister's output into items.
    `extname` is Node's POSIX `path.extname`. */
module InputValidation {
  import opened Wrappers

  /** `validateName`: only the empty name is refused. */
  function ValidateName(name: string): (r: Option<string>)
    ensures r.Some? <==> name == ""
    ensures r.Some? ==> r.value == "Please specify name"
  {
    if name == "" then Some("Please specify name") else None
  }

  /** `validateNamespace`: only the empty namespace is refused. */
  function ValidateNamespace(namespace: string): (r: Option<string>)
    ensures r.Some? <==> namespace == ""
    ensures r.Some? ==> r.value == "Please specify namespace"
  {
    if namespace == "" then Some("Please specify namespace") else None
  }

  // ---------------------------------------------------------------------------
  // `path.extname` (POSIX).
  // ---------------------------------------------------------------------------

  /** The path without its trailing slashes. */
  function TrimTrailingSlashes(p: string): string {
    if p != [] && p[|p| - 1] == '/' then TrimTrailingSlashes(p[..|p| - 1]) else p
  }

  /** Trimming keeps a prefix that does not end in a slash, and drops only slashes. */
  lemma {:induction false} TrimTrailingSlashesShape(p: string)
    ensures var r := TrimTrailingSlashes(p);
      && |r| <= |p| && r == p[..|r|]
      && (r == "" || r[|r| - 1] != '/')
      && forall i :: |r| <= i < |p| ==> p[i] == '/'
  {
    if p != [] && p[|p| - 1] == '/' {
      TrimTrailingSlashesShape(p[..|p| - 1]);
    }
  }

  /** The part after the last slash. */
  function LastSegment(p: string): string {
    if p == [] then []
    else if p[|p| - 1] == '/' then []
    else LastSegment(p[..|p| - 1]) + [p[|p| - 1]]
  }

  /** The last segment is a slash-free suffix, preceded by a slash unless it is the whole path. */
  lemma {:induction false} LastSegmentShape(p: string)
    ensures var r := LastSegment(p);
      && |r| <= |p| && r == p[|p| - |r|..]
      && '/' !in r
      && (|r| < |p| ==> p[|p| - |r| - 1] == '/')
  {
    if p != [] && p[|p| - 1] != '/' {
      var q := p[..|p| - 1];
      LastSegmentShape(q);
      var r := LastSegment(q);
      assert p[|p| - |r| - 1..] == q[|q| - |r|..] + [p[|p| - 1]];
    }
  }

  /** The last path segment, trailing slashes ignored. */
  function Basename(p: string): string {
    LastSegment(TrimTrailingSlashes(p))
  }

  /** The index of the last '.' in `s`, if any. */
  function LastDot(s: string): Option<nat> {
    if s == [] then None
    else if s[|s| - 1] == '.' then Some(|s| - 1)
    else LastDot(s[..|s| - 1])
  }

  /** `LastDot` finds a dot exactly when there is one, and no dot comes after the one it finds. */
  lemma {:induction false} LastDotShape(s: string)
    ensures LastDot(s).None? <==> '.' !in s
    ensures LastDot(s).Some? ==> LastDot(s).value < |s| && s[LastDot(s).value] == '.' && '.' !in s[LastDot(s).value + 1..]
  {
    if s != [] && s[|s| - 1] != '.' {
      var q := s[..|s| - 1];
      LastDotShape(q);
      assert s == q + [s[|s| - 1]];
      if LastDot(q).Some? {
        var d := LastDot(q).value;
        assert s[d + 1..] == q[d + 1..] + [s[|s| - 1]];
      }
    }
  }

  /** The extension of one path segment: from its last '.' to its end; empty when it has no
      dot, when that last dot is its first character, or when it is "..". */
  function SegmentExtname(b: string): string {
    match LastDot(b)
    case None => ""
    case Some(d) => LastDotShape(b); if d == 0 || b == ".." then "" else b[d..]
  }

  /** `extname`: the extension of the basename. */
  function Extname(p: string): string {
    SegmentExtname(Basename(p))
  }

  /** The extension is ".pem" exactly when the basename ends in ".pem" and has something before
      it: "cert.pem" and "..pem" qualify, ".pem" and "cert.pem.bak" do not. */
  lemma ExtnameIsPem(p: string)
    ensures Extname(p) == ".pem" <==> (|Basename(p)| > 4 && Basename(p)[|Basename(p)| - 4..] == ".pem")
  {
    SegmentIsPem(Basename(p));
  }

  lemma SegmentIsPem(b: string)
    ensures SegmentExtname(b) == ".pem" <==> (|b| > 4 && b[|b| - 4..] == ".pem")
  {
    if |b| > 4 && b[|b| - 4..] == ".pem" {
      var d := |b| - 4;
      assert b[d] == '.';
      assert b[d + 1..] == "pem";
      LastDotIs(b, d);
      assert b != "..";
    }
    if SegmentExtname(b) == ".pem" {
      LastDotShape(b);
      var d := LastDot(b).value;
      assert b[d..] == ".pem";
    }
  }

  /** A dot with no dot after it is the last dot. */
  lemma {:induction false} LastDotIs(s: string, d: nat)
    requires d < |s| && s[d] == '.' && '.' !in s[d + 1..]
    ensures LastDot(s) == Some(d)
  {
    if d != |s| - 1 {
      assert s[|s| - 1] in s[d + 1..];
      assert s[..|s| - 1][d + 1..] == s[d + 1..|s| - 1];
      LastDotIs(s[..|s| - 1], d);
    }
  }

  /** `validateCertificatePath`. The extension is checked first. The existence check binds the
      error argument of `stat`, so "File not found" is reported exactly when the file DOES exist;
      `existing` is the set of paths `stat` succeeds on. */
  function ValidateCertificatePath(certificatePath: string, existing: set<string>): Option<string> {
    if Extname(certificatePath) != ".pem" then Some("Invalid certificate filename")
    else if certificatePath in existing then Some("File not found")
    else None
  }

  /** The basename ends in ".pem" with something before it. */
  predicate PemBasename(p: string) {
    |Basename(p)| > 4 && Basename(p)[|Basename(p)| - 4..] == ".pem"
  }

  /** The three verdicts of `validateCertificatePath`, each with exactly the paths that get it:
      a basename not ending in ".pem" (or nothing but ".pem") is refused as invalid; otherwise an
      existing path is refused as not found, and only a missing one is accepted. */
  lemma CertificatePathVerdicts(certificatePath: string, existing: set<string>)
    ensures var r := ValidateCertificatePath(certificatePath, existing);
      && (r == Some("Invalid certificate filename") <==> !PemBasename(certificatePath))
      && (r == Some("File not found") <==> PemBasename(certificatePath) && certificatePath in existing)
      && (r.None? <==> PemBasename(certificatePath) && certificatePath !in existing)
  {
    ExtnameIsPem(certificatePath);
  }

  // ---------------------------------------------------------------------------
  // Workspace certificate labels.
  // ---------------------------------------------------------------------------

  predicate IsLetter(c: char) {
    'A' <= c <= 'Z' || 'a' <= c <= 'z'
  }

  /** `^\/([A-Za-z]{1,2}:)`: a slash, one or two letters, a colon. */
  predicate StartsWithDriveSlash(p: string) {
    || (|p| >= 3 && p[0] == '/' && IsLetter(p[1]) && p[2] == ':')
    || (|p| >= 4 && p[0] == '/' && IsLetter(p[1]) && IsLetter(p[2]) && p[3] == ':')
  }

  /** The label a workspace file gets: the URI path with the slash before a drive letter removed. */
  function StripDriveSlash(p: string): (r: string)
    ensures StartsWithDriveSlash(p) ==> p == "/" + r
    ensures !StartsWithDriveSlash(p) ==> r == p
  {
    if StartsWithDriveSlash(p) then p[1..] else p
  }

  /** "/c:/certs/a.pem" becomes "c:/certs/a.pem"; a POSIX path is left alone. */
  lemma StripDriveSlashCases()
    ensures StripDriveSlash("/c:/certs/a.pem") == "c:/certs/a.pem"
    ensures StripDriveSlash("/home/a.pem") == "/home/a.pem"
  {
    assert StartsWithDriveSlash("/c:/certs/a.pem");
    assert !StartsWithDriveSlash("/home/a.pem");
  }

  // ---------------------------------------------------------------------------
  // `String.prototype.split` on one character.
  // ---------------------------------------------------------------------------

  /** The segments of `s` between occurrences of `sep`; there is always at least one. */
  function Split(s: string, sep: char): (r: seq<string>)
    ensures |r| >= 1
    ensures forall i :: 0 <= i < |r| ==> sep !in r[i]
  {
    if s == [] then [""]
    else
      var tail := Split(s[1..], sep);
      if s[0] == sep then [""] + tail else [[s[0]] + tail[0]] + tail[1..]
  }

  /** The segments joined back with the separator. */
  function Join(parts: seq<string>, sep: char): string
    requires |parts| >= 1
  {
    if |parts| == 1 then parts[0] else parts[0] + [sep] + Join(parts[1..], sep)
  }

  /** Splitting loses nothing: joining the segments gives the text back. */
  lemma {:induction false} JoinSplit(s: string, sep: char)
    ensures Join(Split(s, sep), sep) == s
  {
    if s != [] {
      var tail := Split(s[1..], sep);
      JoinSplit(s[1..], sep);
      if s[0] == sep {
        assert Split(s, sep)[1..] == tail;
      } else {
        var r := Split(s, sep);
        if |tail| == 1 {
          assert r == [[s[0]] + tail[0]];
        } else {
          assert r[1..] == tail[1..];
          assert Join(tail, sep) == tail[0] + [sep] + Join(tail[1..], sep);
        }
      }
    }
  }

  /** Splitting is the inverse of joining segments that do not contain the separator. */
  lemma {:induction false} SplitJoin(parts: seq<string>, sep: char)
    requires |parts| >= 1
    requires forall i :: 0 <= i < |parts| ==> sep !in parts[i]
    ensures Split(Join(parts, sep), sep) == parts
  {
    if |parts| == 1 {
      SplitNoSep(parts[0], sep);
    } else {
      SplitJoin(parts[1..], sep);
      SplitPrefix(parts[0], Join(parts[1..], sep), sep);
      assert parts == [parts[0]] + parts[1..];
    }
  }

  /** A text without the separator is one segment. */
  lemma {:induction false} SplitNoSep(s: string, sep: char)
    requires sep !in s
    ensures Split(s, sep) == [s]
  {
    if s != [] {
      assert sep !in s[1..];
      SplitNoSep(s[1..], sep);
      assert [s[0]] + s[1..] == s;
    }
  }

  /** A segment followed by the separator splits off in front. */
  lemma {:induction false} SplitPrefix(a: string, rest: string, sep: char)
    requires sep !in a
    ensures Split(a + [sep] + rest, sep) == [a] + Split(rest, sep)
  {
    if a == [] {
      assert a + [sep] + rest == [sep] + rest;
      assert ([sep] + rest)[1..] == rest;
    } else {
      assert (a + [sep] + rest)[1..] == a[1..] + [sep] + rest;
      SplitPrefix(a[1..], rest, sep);
      assert [a[0]] + a[1..] == a;
    }
  }

  /** Output that ends in the separator gets a final empty segment, which becomes an item that
      nothing validates. */
  lemma {:induction false} TrailingSeparatorGivesEmptyItem(s: string, sep: char)
    ensures Split(s + [sep], sep) == Split(s, sep) + [""]
  {
    if s == [] {
      assert [sep][1..] == [];
    } else {
      assert (s + [sep])[1..] == s[1..] + [sep];
      TrailingSeparatorGivesEmptyItem(s[1..], sep);
      var t := Split(s[1..], sep);
      if s[0] != sep {
        assert (t + [""])[1..] == t[1..] + [""];
      }
    }
  }
}
