/** File names of the filesystem store: validation, `manifest_path`, `blob_path` and the
    temporary names that `with_extension` derives from them (paths.rs, ci-cache-backend-fs). */
module Naming {
  import opened Prelude
  import opened Text

  // ---- validate_namespace, validate_key ----

  predicate LegalNamespaceChar(c: char) {
    'a' <= c <= 'z' || 'A' <= c <= 'Z' || '0' <= c <= '9' || c == '-' || c == '_' || c == '.' || c == '/'
  }

  const NAMESPACE_LIMIT: nat := 253
  const KEY_LIMIT: nat := 1024

  predicate ValidNamespace(ns: string) {
    0 < |ns| <= NAMESPACE_LIMIT && forall i :: 0 <= i < |ns| ==> LegalNamespaceChar(ns[i])
  }

  /** Somewhere in `s`, `a` is followed by `b`. */
  predicate Adjacent(s: string, a: char, b: char) {
    exists i :: 0 <= i < |s| - 1 && s[i] == a && s[i + 1] == b
  }

  predicate ValidKey(key: string) {
    0 < |key| <= KEY_LIMIT && !Adjacent(key, '.', '.')
  }

  predicate ValidName(ns: string, key: string) {
    ValidNamespace(ns) && ValidKey(key)
  }

  /** What is accepted, written out. All other pairs are refused. */
  lemma ValidNameExactly(ns: string, key: string)
    ensures ValidName(ns, key)
            <==> && 1 <= |ns| <= 253
                 && (forall i :: 0 <= i < |ns| ==>
                       || 'a' <= ns[i] <= 'z' || 'A' <= ns[i] <= 'Z' || '0' <= ns[i] <= '9'
                       || ns[i] in {'-', '_', '.', '/'})
                 && 1 <= |key| <= 1024
                 && (forall i :: 0 <= i < |key| - 1 ==> key[i] != '.' || key[i + 1] != '.')
  {}

  // ---- replace('/', "__") ----

  function Escape(s: string): string {
    if s == "" then "" else (if s[0] == '/' then ['_', '_'] else [s[0]]) + Escape(s[1..])
  }

  /** Reads pairs of underscores, leftmost first, as slashes. */
  function Unescape(t: string): string {
    if t == "" then ""
    else if |t| >= 2 && t[0] == '_' && t[1] == '_' then ['/'] + Unescape(t[2..])
    else [t[0]] + Unescape(t[1..])
  }

  /** No underscore is followed by an underscore or a slash. */
  predicate Unambiguous(s: string) {
    forall i :: 0 <= i < |s| - 1 ==> !(s[i] == '_' && (s[i + 1] == '_' || s[i + 1] == '/'))
  }

  lemma {:induction false} EscapeHasNoSlash(s: string)
    ensures '/' !in Escape(s)
  {
    if s != "" {
      EscapeHasNoSlash(s[1..]);
    }
  }

  lemma {:induction false} UnescapeEscape(s: string)
    requires Unambiguous(s)
    ensures Unescape(Escape(s)) == s
  {
    if s != "" {
      var rest := s[1..];
      assert forall i :: 0 <= i < |rest| ==> rest[i] == s[i + 1];
      UnescapeEscape(rest);
      var t := Escape(s);
      if s[0] == '/' {
        assert t[2..] == Escape(rest);
      } else {
        assert t[1..] == Escape(rest);
        if s[0] == '_' && |t| >= 2 {
          assert rest != "" && t[1] == Escape(rest)[0];
          assert s[1] != '_' && s[1] != '/';
        }
      }
    }
  }

  lemma {:induction false} UnescapeUnambiguous(t: string)
    requires '/' !in t
    ensures Unambiguous(Unescape(t))
    ensures t != "" && t[0] != '_' ==> Unescape(t)[0] == t[0]
  {
    if t != "" {
      var pair := |t| >= 2 && t[0] == '_' && t[1] == '_';
      var rest := if pair then t[2..] else t[1..];
      assert forall c :: c in rest ==> c in t;
      UnescapeUnambiguous(rest);
      var u := Unescape(t);
      assert u[1..] == Unescape(rest);
      assert forall i :: 1 <= i < |u| ==> u[i] == Unescape(rest)[i - 1];
      if !pair && t[0] == '_' && rest != "" {
        assert u[1] == rest[0] == t[1];
        assert t[1] in t;
      }
    }
  }

  /** The escaped name can be read back exactly when the name is unambiguous. */
  lemma {:induction false} EscapeInvertible(s: string)
    ensures Unescape(Escape(s)) == s <==> Unambiguous(s)
  {
    if Unambiguous(s) {
      UnescapeEscape(s);
    }
    EscapeHasNoSlash(s);
    UnescapeUnambiguous(Escape(s));
  }

  // ---- manifest_path and blob_path, relative to the store's root ----

  /** Directory below the root, then file name. */
  datatype FilePath = FilePath(dir: string, file: string)

  const JSON: string := ".json"

  /** The object a manifest is stored under; both back ends use these two escaped parts. */
  datatype ManifestName = ManifestName(ns: string, key: string)

  function NameOf(ns: string, key: string): ManifestName {
    ManifestName(Escape(ns), Escape(key))
  }

  function ManifestFile(name: ManifestName): FilePath {
    FilePath("manifests/" + name.ns, name.key + JSON)
  }

  /** `manifest_path`: refuses invalid identifiers. */
  function ManifestPath(ns: string, key: string): Option<FilePath> {
    if ValidName(ns, key) then Some(ManifestFile(NameOf(ns, key))) else None
  }

  function BlobPath(hex: string): FilePath {
    FilePath("blobs", hex)
  }

  lemma ManifestFileInjective(a: ManifestName, b: ManifestName)
    requires ManifestFile(a) == ManifestFile(b)
    ensures a == b
  {
    var da, db := "manifests/" + a.ns, "manifests/" + b.ns;
    assert da[|"manifests/"|..] == a.ns && db[|"manifests/"|..] == b.ns;
    var fa, fb := a.key + JSON, b.key + JSON;
    assert fa[..|fa| - |JSON|] == a.key && fb[..|fb| - |JSON|] == b.key;
  }

  /** Unambiguous identifiers never share a manifest file with each other. */
  lemma UnambiguousPathsDistinct(ns: string, key: string, ns': string, key': string)
    requires Unambiguous(ns) && Unambiguous(key) && Unambiguous(ns') && Unambiguous(key')
    requires ManifestPath(ns, key).Some? && ManifestPath(ns, key) == ManifestPath(ns', key')
    ensures ns == ns' && key == key'
  {
    ManifestFileInjective(NameOf(ns, key), NameOf(ns', key'));
    EscapeInvertible(ns);
    EscapeInvertible(key);
    EscapeInvertible(ns');
    EscapeInvertible(key');
  }

  lemma {:induction false} EscapeUnescape(t: string)
    requires '/' !in t
    ensures Escape(Unescape(t)) == t
  {
    if t != "" {
      var pair := |t| >= 2 && t[0] == '_' && t[1] == '_';
      var rest := if pair then t[2..] else t[1..];
      assert forall c :: c in rest ==> c in t;
      EscapeUnescape(rest);
      assert Unescape(t)[1..] == Unescape(rest);
      assert t[0] in t;
    }
  }

  // ---- Names that no other accepted name shares ----

  lemma {:induction false} EscapeAppend(a: string, b: string)
    ensures Escape(a + b) == Escape(a) + Escape(b)
  {
    if a == "" {
      assert a + b == b;
    } else {
      assert (a + b)[0] == a[0] && (a + b)[1..] == a[1..] + b;
      EscapeAppend(a[1..], b);
    }
  }

  /** Neither a slash nor a double underscore. */
  predicate Sole(s: string) {
    '/' !in s && !Adjacent(s, '_', '_')
  }

  lemma AdjacentTail(s: string, a: char, b: char)
    requires s != "" && !Adjacent(s, a, b)
    ensures !Adjacent(s[1..], a, b)
    ensures |s| >= 2 ==> !(s[0] == a && s[1] == b)
  {
    assert forall i :: 0 <= i < |s[1..]| ==> s[1..][i] == s[i + 1];
  }

  lemma EscapeHead(s: string)
    ensures s == "" <==> Escape(s) == ""
    ensures s != "" ==> Escape(s)[0] == if s[0] == '/' then '_' else s[0]
    ensures s != "" && s[0] == '/' ==> |Escape(s)| >= 2 && Escape(s)[1] == '_'
  {}

  /** An underscore not followed by an underscore or a slash is followed by none when escaped. */
  lemma LoneUnderscore(s: string)
    requires s != "" && (|s| >= 2 && s[0] == '_' ==> s[1] != '_' && s[1] != '/')
    ensures s[0] == '_' && |Escape(s)| >= 2 ==> Escape(s)[1] != '_'
  {
    if s[0] == '_' && |s| >= 2 {
      assert Escape(s)[1] == Escape(s[1..])[0] == s[1];
    }
  }

  lemma {:induction false} SoleIsAlone(s: string, t: string)
    requires Sole(s) && Escape(t) == Escape(s)
    ensures t == s
    decreases |s|
  {
    if s == "" {
      assert t == "";
    } else {
      assert s[0] in s && '/' !in s[1..];
      AdjacentTail(s, '_', '_');
      assert |s| >= 2 ==> s[1] in s;
      LoneUnderscore(s);
      EscapeHead(s);
      EscapeHead(t);
      assert t[0] == s[0];
      assert Escape(t)[1..] == Escape(t[1..]) && Escape(s)[1..] == Escape(s[1..]);
      SoleIsAlone(s[1..], t[1..]);
      assert t == [t[0]] + t[1..] && s == [s[0]] + s[1..];
    }
  }

  /** `a`, `x`, `b` in a row read `s` with `x` at position `i`. */
  lemma Cut(s: string, i: nat, n: nat)
    requires i + n <= |s|
    ensures s == s[..i] + s[i..i + n] + s[i + n..]
  {}

  /** Another text for the same escaped form, with `x` in `s` written as `y`. */
  lemma Rewritten(s: string, i: nat, x: string, y: string) returns (t: string)
    requires i + |x| <= |s| && s[i..i + |x|] == x && x != y && Escape(x) == Escape(y)
    ensures t == s[..i] + y + s[i + |x|..] && t != s && Escape(t) == Escape(s)
  {
    var a, b := s[..i], s[i + |x|..];
    t := a + y + b;
    Cut(s, i, |x|);
    EscapeAppend(a + x, b);
    EscapeAppend(a, x);
    EscapeAppend(a + y, b);
    EscapeAppend(a, y);
    assert t[i..i + |y|] == y && |t| == |s| - |x| + |y|;
  }

  /** Rewriting between slashes and underscores keeps a name legal, if it stays short enough. */
  lemma RewrittenLegal(s: string, i: nat, n: nat, y: string, t: string)
    requires i + n <= |s| && t == s[..i] + y + s[i + n..] && y != "" && n > 0
    requires forall c :: c in y ==> c == '/' || c == '_'
    ensures ValidNamespace(s) && |t| <= NAMESPACE_LIMIT ==> ValidNamespace(t)
    ensures ValidKey(s) && |t| <= KEY_LIMIT ==> ValidKey(t)
  {
    forall k | 0 <= k < |t|
      ensures t[k] == '/' || t[k] == '_' || (k < i && t[k] == s[k]) || (k >= i + |y| && t[k] == s[k - |y| + n])
    {
      if i <= k < i + |y| {
        assert t[k] == y[k - i] && y[k - i] in y;
      }
    }
    if Adjacent(t, '.', '.') {
      var k :| 0 <= k < |t| - 1 && t[k] == '.' && t[k + 1] == '.';
      if k < i {
        assert s[k] == '.' && k + 1 < i && s[k + 1] == '.';
      } else {
        var j := k - |y| + n;
        assert s[j] == '.' && s[j + 1] == '.';
      }
      assert Adjacent(s, '.', '.');
    }
  }

  /** No other accepted name has the same escaped form. Where no longer name is accepted, slashes
      may stay, as long as no underscore is next to one. */
  predicate Unshared(s: string, limit: nat) {
    && !Adjacent(s, '_', '_')
    && ('/' !in s || (|s| >= limit && !Adjacent(s, '_', '/') && !Adjacent(s, '/', '_')))
  }

  predicate NoUnderscoreBySlash(s: string) {
    !Adjacent(s, '_', '_') && !Adjacent(s, '_', '/') && !Adjacent(s, '/', '_')
  }

  lemma NoUnderscoreTail(s: string)
    requires s != "" && NoUnderscoreBySlash(s)
    ensures NoUnderscoreBySlash(s[1..])
    ensures |s| >= 2 && s[0] == '_' ==> s[1] != '_' && s[1] != '/'
    ensures |s| >= 2 && s[0] == '/' ==> s[1] != '_'
  {
    AdjacentTail(s, '_', '_');
    AdjacentTail(s, '_', '/');
    AdjacentTail(s, '/', '_');
  }

  /** With one underscore more in front, any other reading is longer still. */
  lemma {:induction false} OddReadingIsLonger(s: string, t: string)
    requires NoUnderscoreBySlash(s) && (s == "" || s[0] != '_')
    requires Escape(t) == ['_'] + Escape(s)
    ensures |t| >= |s| + 1
    decreases |t|
  {
    assert t != "";
    assert Escape(t)[1..] == Escape(s);
    if t[0] == '/' {
      assert Escape(t) == ['_', '_'] + Escape(t[1..]);
      assert Escape(s)[0] == '_' && s != "" && s[0] == '/';
      NoUnderscoreTail(s);
      assert Escape(s) == ['_', '_'] + Escape(s[1..]);
      assert Escape(t[1..]) == Escape(t)[1..][1..] == ['_'] + Escape(s[1..]);
      OddReadingIsLonger(s[1..], t[1..]);
    } else {
      assert Escape(t)[1..] == Escape(t[1..]);
      ReadingIsLonger(s, t[1..]);
    }
  }

  /** Such a name is the shortest reading of its escaped form, and the only one so short. */
  lemma {:induction false} ReadingIsLonger(s: string, t: string)
    requires NoUnderscoreBySlash(s) && Escape(t) == Escape(s)
    ensures |t| >= |s| && (|t| == |s| ==> t == s)
    decreases |t|
  {
    if s != "" {
      assert t != "";
      NoUnderscoreTail(s);
      LoneUnderscore(s);
      EscapeHead(s);
      EscapeHead(t);
      assert t == [t[0]] + t[1..] && s == [s[0]] + s[1..];
      if s[0] == '/' && t[0] != '/' {
        assert Escape(s)[1..] == ['_'] + Escape(s[1..]);
        OddReadingIsLonger(s[1..], t[1..]);
      } else {
        assert s[0] == t[0];
        var n := if s[0] == '/' then 2 else 1;
        assert Escape(s)[n..] == Escape(s[1..]) && Escape(t)[n..] == Escape(t[1..]);
        ReadingIsLonger(s[1..], t[1..]);
      }
    }
  }

  lemma UnsharedIsAlone(s: string, t: string, limit: nat)
    requires Unshared(s, limit) && |t| <= limit && Escape(t) == Escape(s)
    ensures t == s
  {
    if '/' !in s {
      SoleIsAlone(s, t);
    } else {
      ReadingIsLonger(s, t);
    }
  }

  /** Otherwise there is another accepted name with the same escaped form. */
  lemma SharedTwin(s: string, limit: nat) returns (t: string)
    requires !Unshared(s, limit) && |s| <= limit <= KEY_LIMIT
    ensures t != s && Escape(t) == Escape(s) && |t| <= limit
    ensures limit <= NAMESPACE_LIMIT && ValidNamespace(s) ==> ValidNamespace(t)
    ensures ValidKey(s) ==> ValidKey(t)
  {
    SameEscapes();
    hide Escape, ValidNamespace, ValidKey;
    var i: nat, x, y := SharedSpot(s, limit);
    t := Rewritten(s, i, x, y);
    RewrittenLegal(s, i, |x|, y, t);
  }

  /** Where such a name can be written otherwise. */
  lemma SharedSpot(s: string, limit: nat) returns (i: nat, x: string, y: string)
    requires !Unshared(s, limit) && |s| <= limit
    ensures i + |x| <= |s| && s[i..i + |x|] == x && x != y && x != "" && y != ""
    ensures |s| - |x| + |y| <= limit && forall c :: c in y ==> c == '/' || c == '_'
    ensures Escape(x) == Escape(y)
  {
    hide Escape;
    SameEscapes();
    if Adjacent(s, '_', '_') {
      i :| 0 <= i < |s| - 1 && s[i] == '_' && s[i + 1] == '_';
      x, y := "__", "/";
    } else if |s| < limit {
      i :| 0 <= i < |s| && s[i] == '/';
      x, y := "/", "__";
    } else if Adjacent(s, '_', '/') {
      i :| 0 <= i < |s| - 1 && s[i] == '_' && s[i + 1] == '/';
      x, y := "_/", "/_";
    } else {
      i :| 0 <= i < |s| - 1 && s[i] == '/' && s[i + 1] == '_';
      x, y := "/_", "_/";
    }
    assert |x| == 2 ==> s[i..i + 2] == [s[i], s[i + 1]] == x;
    assert |x| == 1 ==> s[i..i + 1] == [s[i]] == x;
  }

  lemma SameEscapes()
    ensures Escape("/") == Escape("__") && Escape("_/") == Escape("/_")
  {
    assert "__"[1..] == "_" && "_/"[1..] == "/" && "/_"[1..] == "_";
    assert Escape("_") == "_" && Escape("/") == "__";
    assert Escape("_/") == "_" + "__" && Escape("/_") == "__" + "_";
  }

  lemma DotTexts(ns: string)
    ensures Escape(ns) == "." <==> ns == "."
    ensures Escape(ns) == ".." <==> ns == ".."
  {
    assert Sole(".") && Sole("..");
    assert Escape(".") == "." && Escape("..") == ".." by {
      assert "."[1..] == "" && ".."[1..] == ".";
    }
    if Escape(ns) == "." {
      SoleIsAlone(".", ns);
    }
    if Escape(ns) == ".." {
      SoleIsAlone("..", ns);
    }
  }

  /** Every ambiguous name shares its escaped form with a different, unambiguous one, and if it is
      accepted with a different one that is accepted. */
  lemma AmbiguousNamesCollide(s: string)
    requires !Unambiguous(s)
    ensures exists s' :: s' != s && Unambiguous(s') && Escape(s') == Escape(s)
    ensures ValidNamespace(s) ==> exists t :: t != s && ValidNamespace(t) && Escape(t) == Escape(s)
    ensures ValidKey(s) ==> exists t :: t != s && ValidKey(t) && Escape(t) == Escape(s)
  {
    hide ValidNamespace, ValidKey, Escape, Unescape;
    EscapeInvertible(s);
    EscapeHasNoSlash(s);
    var s' := Unescape(Escape(s));
    UnescapeUnambiguous(Escape(s));
    EscapeUnescape(Escape(s));
    assert s' != s && Unambiguous(s') && Escape(s') == Escape(s);
    AmbiguousIsShared(s);
    AcceptedLengths(s);
    if ValidNamespace(s) {
      var t := SharedTwin(s, NAMESPACE_LIMIT);
    }
    if ValidKey(s) {
      var t := SharedTwin(s, KEY_LIMIT);
    }
  }

  lemma AmbiguousIsShared(s: string)
    requires !Unambiguous(s)
    ensures !Unshared(s, NAMESPACE_LIMIT) && !Unshared(s, KEY_LIMIT)
  {
    var i :| 0 <= i < |s| - 1 && s[i] == '_' && (s[i + 1] == '_' || s[i + 1] == '/');
    assert s[i + 1] in s;
  }

  lemma AcceptedLengths(s: string)
    ensures ValidNamespace(s) ==> |s| <= NAMESPACE_LIMIT
    ensures ValidKey(s) ==> |s| <= KEY_LIMIT
  {}

  /** The exact condition on all texts: a name shares its escaped form with no other text if and
      only if it has neither a slash nor a double underscore. */
  lemma AloneExactly(s: string)
    ensures (forall t :: Escape(t) == Escape(s) ==> t == s) <==> Sole(s)
  {
    if Sole(s) {
      forall t | Escape(t) == Escape(s)
        ensures t == s
      {
        SoleIsAlone(s, t);
      }
    } else {
      SameEscapes();
      var i: nat, x, y := 0, "/", "__";
      if '/' in s {
        i :| 0 <= i < |s| && s[i] == '/';
      } else {
        i :| 0 <= i < |s| - 1 && s[i] == '_' && s[i + 1] == '_';
        x, y := "__", "/";
      }
      var t := Rewritten(s, i, x, y);
    }
  }

  /** What a caller can check of its own names. */
  predicate OwnName(ns: string, key: string) {
    Unshared(ns, NAMESPACE_LIMIT) && Unshared(key, KEY_LIMIT)
  }

  ghost predicate Alone(ns: string, key: string) {
    forall ns', key' :: ValidName(ns', key') && NameOf(ns', key') == NameOf(ns, key) ==> ns' == ns && key' == key
  }

  /** The exact condition on accepted names: no other accepted namespace and key have the same
      object if and only if the pair passes `OwnName`. */
  lemma OwnNameExactly(ns: string, key: string)
    requires ValidName(ns, key)
    ensures Alone(ns, key) <==> OwnName(ns, key)
  {
    hide Unshared, ValidNamespace, ValidKey;
    if OwnName(ns, key) {
      forall ns', key' | ValidName(ns', key') && NameOf(ns', key') == NameOf(ns, key)
        ensures ns' == ns && key' == key
      {
        AcceptedLengths(ns');
        AcceptedLengths(key');
        UnsharedIsAlone(ns, ns', NAMESPACE_LIMIT);
        UnsharedIsAlone(key, key', KEY_LIMIT);
      }
    } else {
      AcceptedLengths(ns);
      AcceptedLengths(key);
      if !Unshared(ns, NAMESPACE_LIMIT) {
        var t := SharedTwin(ns, NAMESPACE_LIMIT);
        assert ValidName(t, key) && NameOf(t, key) == NameOf(ns, key);
      } else {
        var t := SharedTwin(key, KEY_LIMIT);
        assert ValidName(ns, t) && NameOf(ns, t) == NameOf(ns, key);
      }
    }
  }

  /** The same for manifest files: an accepted pair has its file to itself exactly under `OwnName`. */
  lemma ManifestPathsDistinct(ns: string, key: string)
    requires ManifestPath(ns, key).Some?
    ensures (forall ns', key' :: ManifestPath(ns', key') == ManifestPath(ns, key) ==> ns' == ns && key' == key)
            <==> OwnName(ns, key)
  {
    hide Unshared, ValidNamespace, ValidKey, ManifestFile;
    OwnNameExactly(ns, key);
    forall ns', key'
      ensures ManifestPath(ns', key') == ManifestPath(ns, key)
              <==> ValidName(ns', key') && NameOf(ns', key') == NameOf(ns, key)
    {
      if ManifestPath(ns', key') == ManifestPath(ns, key) {
        ManifestFileInjective(NameOf(ns', key'), NameOf(ns, key));
      }
    }
  }

  /** For example: both are accepted and have one file. */
  lemma SlashAndUnderscores(key: string)
    requires ValidKey(key)
    ensures ManifestPath("a/b", key).Some? && ManifestPath("a/b", key) == ManifestPath("a__b", key)
  {
    assert Escape("a/b") == "a__b" && Escape("a__b") == "a__b" by {
      assert "a/b"[1..] == "/b" && "/b"[1..] == "b" && "a__b"[1..] == "__b" && "__b"[1..] == "_b" && "_b"[1..] == "b";
      assert Escape("b") == "b" && Escape("/b") == "__b" && Escape("_b") == "_b" && Escape("__b") == "__b";
    }
  }

  // ---- with_extension and temporary names ----

  /** One past the last dot, or 0. */
  function AfterLastDot(file: string): (i: nat)
    ensures i <= |file|
    ensures i > 0 ==> file[i - 1] == '.'
    ensures forall k :: i <= k < |file| ==> file[k] != '.'
  {
    if file == "" then 0
    else if file[|file| - 1] == '.' then |file|
    else AfterLastDot(file[..|file| - 1])
  }

  /** `Path::file_stem`: a leading dot does not start an extension. */
  function FileStem(file: string): string {
    var i := AfterLastDot(file);
    if i <= 1 then file else file[..i - 1]
  }

  function WithExtension(file: string, extension: string): string {
    FileStem(file) + "." + extension
  }

  predicate UuidChar(c: char) {
    '0' <= c <= '9' || 'a' <= c <= 'f' || c == '-'
  }

  /** The hyphenated lower-case form. */
  predicate IsUuid(u: string) {
    |u| == 36 && forall i :: 0 <= i < |u| ==> UuidChar(u[i])
  }

  function TempFile(path: FilePath, uuid: string): FilePath {
    FilePath(path.dir, WithExtension(path.file, "tmp." + uuid))
  }

  predicate HexChar(c: char) {
    '0' <= c <= '9' || 'a' <= c <= 'f'
  }

  /** The hex text of a SHA-256 digest. */
  predicate IsDigestHex(h: string) {
    |h| == 64 && forall i :: 0 <= i < |h| ==> HexChar(h[i])
  }

  /** A name that a blob or a manifest is published under. */
  predicate IsFinal(path: FilePath) {
    IsDigestHex(path.file) || EndsWith(path.file, JSON)
  }

  lemma FinalPaths(hex: string, name: ManifestName)
    requires IsDigestHex(hex)
    ensures IsFinal(BlobPath(hex)) && IsFinal(ManifestFile(name))
  {
    var f := name.key + JSON;
    assert f[|f| - |JSON|..] == JSON;
  }

  lemma ManifestIsFinal(name: ManifestName)
    ensures IsFinal(ManifestFile(name))
  {
    var f := name.key + JSON;
    assert f[|f| - |JSON|..] == JSON;
  }

  /** The shape of a temporary name. */
  lemma TempFileShape(path: FilePath, uuid: string)
    ensures var t := TempFile(path, uuid).file;
            && |t| >= |uuid| + 5
            && t[|t| - |uuid|..] == uuid
            && t[|t| - |uuid| - 1] == '.'
  {
    var stem := FileStem(path.file);
    assert TempFile(path, uuid).file == (stem + ".tmp.") + uuid by {
      assert stem + "." + ("tmp." + uuid) == (stem + ".tmp.") + uuid;
    }
  }

  /** Temporary names are never final names. */
  lemma TempNeverFinal(path: FilePath, uuid: string)
    requires IsUuid(uuid)
    ensures !IsFinal(TempFile(path, uuid))
  {
    TempFileShape(path, uuid);
    var t := TempFile(path, uuid).file;
    assert !HexChar(t[|t| - 37]);
    assert t[|t| - 1] == uuid[35];
    assert JSON[4] == 'n' && !UuidChar('n');
    assert t[|t| - 5..][4] == t[|t| - 1];
  }

  /** Two temporary names with different UUIDs are different. */
  lemma TempNamesDistinct(p: FilePath, u: string, q: FilePath, v: string)
    requires IsUuid(u) && IsUuid(v) && TempFile(p, u) == TempFile(q, v)
    ensures u == v
  {
    TempFileShape(p, u);
    TempFileShape(q, v);
  }

  /** Where blobs and manifests are, below the root, and what the temporary file of a blob is called. */
  lemma FilesSpelled(hex: string, ns: string, key: string, uuid: string)
    requires IsDigestHex(hex)
    ensures BlobPath(hex) == FilePath("blobs", hex)
    ensures ManifestFile(NameOf(ns, key)) == FilePath("manifests/" + Escape(ns), Escape(key) + ".json")
    ensures TempFile(BlobPath(hex), uuid) == FilePath("blobs", hex + ".tmp." + uuid)
  {
    assert forall i :: 0 <= i < |hex| ==> hex[i] != '.';
    assert AfterLastDot(hex) == 0;
    assert hex + "." + ("tmp." + uuid) == hex + ".tmp." + uuid;
  }

  /** What `file_stem` and `with_extension` make of a name: all after the last dot is replaced, unless
      that dot comes first or there is none; then it is appended. */
  lemma StemExactly(stem: string, rest: string, extension: string)
    requires '.' !in rest
    ensures WithExtension(rest, extension) == rest + "." + extension
    ensures WithExtension("." + rest, extension) == "." + rest + "." + extension
    ensures stem != "" ==> WithExtension(stem + "." + rest, extension) == stem + "." + extension
  {
    LastDot("", rest);
    LastDot(stem, rest);
    NoDot(rest);
    assert "" + "." + rest == "." + rest;
    assert stem != "" ==> (stem + "." + rest)[..|stem|] == stem;
  }

  lemma {:induction false} LastDot(stem: string, rest: string)
    requires '.' !in rest
    ensures AfterLastDot(stem + "." + rest) == |stem| + 1
    decreases |rest|
  {
    var t := stem + "." + rest;
    if rest != "" {
      var n := |rest| - 1;
      assert rest[n] in rest && forall c :: c in rest[..n] ==> c in rest;
      LastDot(stem, rest[..n]);
      assert t[..|t| - 1] == stem + "." + rest[..n];
    }
  }

  lemma {:induction false} NoDot(rest: string)
    requires '.' !in rest
    ensures AfterLastDot(rest) == 0
    decreases |rest|
  {
    if rest != "" {
      var n := |rest| - 1;
      assert rest[n] in rest && forall c :: c in rest[..n] ==> c in rest;
      NoDot(rest[..n]);
    }
  }

  lemma UuidExactly(u: string)
    ensures IsUuid(u) <==> |u| == 36 && forall i :: 0 <= i < |u| ==> HexChar(u[i]) || u[i] == '-'
  {}

  /** Digests are 64 digits, hexadecimal, in lower case. */
  lemma DigestExactly(h: string)
    ensures IsDigestHex(h) <==> |h| == 64 && forall i :: 0 <= i < |h| ==> h[i] in "0123456789abcdef"
  {
    var digits := "0123456789abcdef";
    forall c: char
      ensures HexChar(c) <==> c in digits
    {
      if '0' <= c <= '9' {
        assert digits[c as int - '0' as int] == c;
      }
      if 'a' <= c <= 'f' {
        assert digits[c as int - 'a' as int + 10] == c;
      }
    }
  }

  /** What the code calls `{key}.json.tmp.{uuid}` in its layout comment is `{key}.tmp.{uuid}`:
      the extension is replaced, not appended. */
  lemma ManifestTempName(name: ManifestName, uuid: string)
    requires name.key != ""
    ensures TempFile(ManifestFile(name), uuid).file == name.key + "." + ("tmp." + uuid)
  {
    var f := name.key + JSON;
    assert f[|name.key|] == '.';
    assert forall k :: |name.key| < k < |f| ==> f[k] == JSON[k - |name.key|];
    assert forall k :: 1 <= k < 5 ==> JSON[k] != '.';
    var i := AfterLastDot(f);
    assert i == |name.key| + 1;
    assert f[..|name.key|] == name.key;
  }
}
