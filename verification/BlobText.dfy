/** Where the text of a blob request leads in the filesystem back end (ci-cache-backend-fs,
    `blob_path`, which joins what follows a `sha256:` prefix to the directory of blobs as it
    stands). The operating system resolves the path; the directories passed through exist and none
    is a symlink. */
module BlobText {
  import opened Paths
  import opened Naming

  /** One component of a path, from a directory: above the root is the root. */
  function Enter(names: seq<string>, c: Component): seq<string> {
    match c
    case Normal(name) => names + [name]
    case ParentDir => if names == [] then [] else names[..|names| - 1]
    case CurDir => names
    case RootDir => []
  }

  /** Where the operating system gets from a directory. */
  function Resolved(names: seq<string>, cs: seq<Component>): seq<string>
    decreases |cs|
  {
    if cs == [] then names else Enter(Resolved(names, cs[..|cs| - 1]), cs[|cs| - 1])
  }

  /** What a path text names. */
  function Target(path: string): seq<string> {
    Resolved([], Components(path))
  }

  /** What `blobs_dir.join(text)` names, for a store at `root`. */
  function BlobTarget(root: seq<string>, text: string): seq<string> {
    Target(Join(Absolute(Blobs(root)), text))
  }

  function Blobs(root: seq<string>): seq<string> {
    root + ["blobs"]
  }

  lemma BlobsPlain(root: seq<string>)
    requires AllPlain(root)
    ensures AllPlain(Blobs(root))
  {
    assert Plain("blobs");
    hide Plain;
  }

  // ---- Resolving ----

  lemma {:induction false} ResolvedAppend(names: seq<string>, p: seq<Component>, q: seq<Component>)
    ensures Resolved(names, p + q) == Resolved(Resolved(names, p), q)
    decreases |q|
  {
    if q == [] {
      assert p + q == p;
    } else {
      assert (p + q)[..|p + q| - 1] == p + q[..|q| - 1];
      ResolvedAppend(names, p, q[..|q| - 1]);
    }
  }

  /** Where one gets is where the walk lands. */
  lemma {:induction false} ResolvedLands(names: seq<string>, cs: seq<Component>)
    requires Rootless(cs)
    ensures Resolved(names, cs) == LandingNames(names, WalkOf(cs))
    decreases |cs|
  {
    if cs == [] {
      assert names[..|names|] + [] == names;
    } else {
      var init, last := cs[..|cs| - 1], cs[|cs| - 1];
      ResolvedLands(names, init);
      LandNormal(names, WalkOf(init), if last.Normal? then last.name else "");
      LandParent(names, WalkOf(init));
    }
  }

  lemma ResolvedNormals(names: seq<string>, more: seq<string>)
    ensures Resolved(names, Normals(more)) == names + more
  {
    hide WalkOf, Normals;
    assert UpPart(false) + Normals(more) == Normals(more);
    WalkOfNormals(false, more);
    assert Rootless(Normals(more)) by { RelativePart(false, false, more); }
    ResolvedLands(names, Normals(more));
    assert names[..|names|] == names;
  }

  lemma TargetOfAbsolute(names: seq<string>)
    requires AllPlain(names)
    ensures Target(Absolute(names)) == names
  {
    hide Components, Resolved, Normals;
    ComponentsOfAbsolute(names);
    ResolvedAppend([], [RootDir], Normals(names));
    RootResolves();
    ResolvedNormals([], names);
    assert [] + names == names;
  }

  lemma RootResolves()
    ensures Resolved([], [RootDir]) == []
  {}

  /** A relative text goes on from where the path before it leads. */
  lemma TargetJoined(path: string, text: string)
    requires path != "" && Relative(text)
    ensures Target(Join(path, text)) == Resolved(Target(path), Interior(text))
  {
    hide Components, Interior, Resolved, Join;
    JoinComponents(path, text);
    ResolvedAppend([], Components(path), Interior(text));
  }

  lemma InteriorRootless(text: string)
    ensures Rootless(Interior(text))
  {
    BodyRootless(Split(text));
  }

  /** A relative text lands where its walk leads from the directory of blobs, an absolute one where
      it leads from the root. */
  lemma TextLands(root: seq<string>, text: string)
    requires AllPlain(root)
    ensures BlobTarget(root, text)
            == LandingNames(if Relative(text) then Blobs(root) else [], CandidateWalk(text))
  {
    hide Components, Interior, Resolved, WalkOf, LandingNames;
    InteriorRootless(text);
    if Relative(text) {
      BlobsPlain(root);
      TargetJoined(Absolute(Blobs(root)), text);
      TargetOfAbsolute(Blobs(root));
      ResolvedLands(Blobs(root), Interior(text));
    } else {
      AbsoluteResolves(text);
      ResolvedLands([], Interior(text));
    }
  }

  lemma AbsoluteResolves(text: string)
    requires !Relative(text)
    ensures Target(text) == Resolved([], Interior(text))
  {
    hide Interior, Resolved;
    ResolvedAppend([], [RootDir], Interior(text));
    RootResolves();
  }

  // ---- Which texts reach the file of their name ----

  lemma PlainTextLands(root: seq<string>, text: string)
    requires AllPlain(root) && Plain(text)
    ensures BlobTarget(root, text) == Blobs(root) + [text]
  {
    hide Interior, WalkOf, BlobTarget;
    assert Relative(text) by {
      assert text[0] in text;
    }
    TextLands(root, text);
    assert AllPlain([text]);
    InteriorOfNames([text]);
    assert UpPart(false) + Normals([text]) == Normals([text]);
    WalkOfNormals(false, [text]);
    assert Blobs(root)[..|Blobs(root)|] == Blobs(root);
  }

  lemma {:induction false} ResolvedPlain(names: seq<string>, cs: seq<Component>)
    requires AllPlain(names) && PlainNames(cs)
    ensures AllPlain(Resolved(names, cs))
    decreases |cs|
  {
    hide Plain;
    if cs != [] {
      ResolvedPlain(names, cs[..|cs| - 1]);
    }
  }

  /** The exact law: a text leads to the file of that name in the directory of blobs if and only if
      it is a plain name: not empty, without slash, and neither `.` nor `..`. */
  lemma BlobTextExactly(root: seq<string>, text: string)
    requires AllPlain(root)
    ensures BlobTarget(root, text) == Blobs(root) + [text] <==> Plain(text)
  {
    hide Components, Resolved, Plain, Join;
    if Plain(text) {
      PlainTextLands(root, text);
    }
    var joined := Join(Absolute(Blobs(root)), text);
    ComponentsPlain(joined);
    ResolvedPlain([], Components(joined));
    if BlobTarget(root, text) == Blobs(root) + [text] {
      assert (Blobs(root) + [text])[|root| + 1] == text;
    }
  }

  // ---- Which texts stay in the directory ----

  /** How many of the directories above the blobs a text leaves: those it climbs out of, or all. */
  function Left(root: seq<string>, text: string): nat {
    if Relative(text) && CandidateWalk(text).ups <= |Blobs(root)| then CandidateWalk(text).ups else |Blobs(root)|
  }

  /** The text names again every directory that it leaves. */
  predicate StaysText(root: seq<string>, text: string) {
    Blobs(root)[|Blobs(root)| - Left(root, text)..] <= CandidateWalk(text).names
  }

  /** The exact law for the directory as a whole. */
  lemma BlobTextStaysExactly(root: seq<string>, text: string)
    requires AllPlain(root)
    ensures Blobs(root) <= BlobTarget(root, text) <==> StaysText(root, text)
  {
    hide CandidateWalk, BlobTarget, AllPlain;
    TextLands(root, text);
    var n, w := Blobs(root), CandidateWalk(text);
    var k := |n| - Left(root, text);
    assert n[..k] + n[k..] == n;
    PrefixBothWays(n[..k], n[k..], w.names);
    assert BlobTarget(root, text) == n[..k] + w.names;
  }

  lemma PrefixBothWays(a: seq<string>, b: seq<string>, c: seq<string>)
    ensures a + b <= a + c <==> b <= c
  {
    if a + b <= a + c {
      assert b == (a + b)[|a|..] && c == (a + c)[|a|..];
      assert (a + b)[|a|..] <= (a + c)[|a|..];
    }
  }

  /** An absolute text reaches any file of the machine. */
  lemma AbsoluteTextReaches(root: seq<string>, path: seq<string>)
    requires AllPlain(path)
    ensures BlobTarget(root, Absolute(path)) == path
  {
    hide Target;
    TargetOfAbsolute(path);
  }

  // ---- Digests, and texts that are none ----

  /** In particular a digest leads to its own file. */
  lemma DigestStays(root: seq<string>, hex: string)
    requires AllPlain(root) && IsDigestHex(hex)
    ensures BlobTarget(root, hex) == root + [BlobPath(hex).dir] + [BlobPath(hex).file]
  {
    hide BlobTarget;
    assert forall i :: 0 <= i < |hex| ==> hex[i] != '/' && hex[i] != '.';
    BlobTextExactly(root, hex);
  }

  /** The path that `manifest_path` joins together. */
  function ManifestPath(root: seq<string>, ns: string, key: string): string {
    Join(Join(Join(Absolute(root), "manifests"), Escape(ns)), Escape(key) + JSON)
  }

  /** The text that leaves the blobs for a manifest's file. */
  function ManifestText(ns: string, key: string): string {
    ".." + "/" + ("manifests" + "/" + (Escape(ns) + "/" + (Escape(key) + JSON)))
  }

  lemma ManifestTextLands(root: seq<string>, ns: string, key: string)
    requires AllPlain(root)
    ensures BlobTarget(root, ManifestText(ns, key))
            == Resolved(root, Interior("manifests" + "/" + (Escape(ns) + "/" + (Escape(key) + JSON))))
  {
    hide Components, Interior, Target, Resolved, Escape;
    var below := "manifests" + "/" + (Escape(ns) + "/" + (Escape(key) + JSON));
    BlobsPlain(root);
    TargetJoined(Absolute(Blobs(root)), ManifestText(ns, key));
    TargetOfAbsolute(Blobs(root));
    InteriorAtSlash("..", below);
    InteriorOfPiece("..");
    ResolvedAppend(Blobs(root), [ParentDir], Interior(below));
    Climbs(root, "blobs");
  }

  lemma Climbs(names: seq<string>, name: string)
    ensures Resolved(names + [name], [ParentDir]) == names
  {
    assert (names + [name])[..|names|] == names;
  }

  lemma ManifestPathLands(root: seq<string>, ns: string, key: string)
    requires AllPlain(root)
    ensures Target(ManifestPath(root, ns, key))
            == Resolved(root, Interior("manifests" + "/" + (Escape(ns) + "/" + (Escape(key) + JSON))))
  {
    hide Components, Interior, Target, Resolved, Escape, Join;
    EscapeHasNoSlash(ns);
    EscapeHasNoSlash(key);
    var dirs := Join(Absolute(root), "manifests");
    var dir := Join(dirs, Escape(ns));
    var file := Escape(key) + JSON;
    JoinNotEmpty(Absolute(root), "manifests");
    JoinNotEmpty(dirs, Escape(ns));
    TargetOfAbsolute(root);
    TargetJoined(Absolute(root), "manifests");
    TargetJoined(dirs, Escape(ns));
    TargetJoined(dir, file);
    InteriorAtSlash("manifests", Escape(ns) + "/" + file);
    InteriorAtSlash(Escape(ns), file);
    ResolvedAppend(root, Interior("manifests"), Interior(Escape(ns)) + Interior(file));
    ResolvedAppend(Resolved(root, Interior("manifests")), Interior(Escape(ns)), Interior(file));
  }

  lemma JoinNotEmpty(path: string, text: string)
    requires path != ""
    ensures Join(path, text) != ""
  {}

  /** For every name, `.` and `..` for a namespace included, there is a relative text that leads to
      whatever its manifest's path names; elsewhere that is the file that the name is given. */
  lemma OtherTextLeaves(root: seq<string>, ns: string, key: string)
    requires AllPlain(root)
    ensures Relative(ManifestText(ns, key))
    ensures BlobTarget(root, ManifestText(ns, key)) == Target(ManifestPath(root, ns, key))
    ensures ValidName(ns, key) && ns != "." && ns != ".." ==>
              var file := ManifestFile(NameOf(ns, key));
              Target(ManifestPath(root, ns, key)) == root + ["manifests", Escape(ns), file.file]
              && file.dir == "manifests" + "/" + Escape(ns)
  {
    hide Interior, Target, Resolved, Escape, ValidName, Plain, JoinNames, Normals;
    ManifestTextLands(root, ns, key);
    ManifestPathLands(root, ns, key);
    if ValidName(ns, key) && ns != "." && ns != ".." {
      var parts := ["manifests", Escape(ns), Escape(key) + JSON];
      ManifestPartsPlain(ns, key);
      InteriorOfNames(parts);
      ThreeNames(parts);
      ResolvedNormals(root, parts);
    }
  }

  lemma ThreeNames(names: seq<string>)
    requires |names| == 3
    ensures JoinNames(names) == names[0] + "/" + (names[1] + "/" + names[2])
  {
    var rest := names[1..];
    assert rest[1..] == [names[2]];
    assert JoinNames(rest) == rest[0] + "/" + JoinNames([names[2]]);
  }

  lemma ManifestPartsPlain(ns: string, key: string)
    requires ValidName(ns, key) && ns != "." && ns != ".."
    ensures AllPlain(["manifests", Escape(ns), Escape(key) + JSON])
  {
    EscapeHasNoSlash(ns);
    EscapeHasNoSlash(key);
    EscapeHead(ns);
    DotTexts(ns);
    var last := Escape(key) + JSON;
    assert last[|Escape(key)| + 4] == 'n';
  }
}
