/** Lexical path algebra: component parsing, `normalize`, `ensure_within`, and the
    containment check that extraction relies on (paths.rs, archive_ops.rs).
    Unix rules of `std::path`; Windows prefixes are not part of this model. */
module Paths {
  import opened Prelude

  datatype Component = RootDir | CurDir | ParentDir | Normal(name: string)

  datatype PathError = AbsolutePath | DriveQualified | EscapesBase | EntryEscapesBase | ParentInEntry

  // ---- Parsing: Path::components, Path::join ----

  /** The pieces of `s` between slashes; always at least one. */
  function Split(s: string): (pieces: seq<string>)
    ensures |pieces| >= 1
  {
    if s == "" then [""]
    else
      var rest := Split(s[1..]);
      if s[0] == '/' then [""] + rest else [[s[0]] + rest[0]] + rest[1..]
  }

  function PieceComponents(piece: string): seq<Component> {
    if piece == "" || piece == "." then []
    else if piece == ".." then [ParentDir]
    else [Normal(piece)]
  }

  function PiecesComponents(pieces: seq<string>): seq<Component> {
    if pieces == [] then [] else PieceComponents(pieces[0]) + PiecesComponents(pieces[1..])
  }

  /** The components contributed by text that does not start a path. */
  function Interior(s: string): seq<Component> {
    PiecesComponents(Split(s))
  }

  function Components(s: string): seq<Component> {
    if s != "" && s[0] == '/' then [RootDir] + Interior(s)
    else if Split(s)[0] == "." then [CurDir] + Interior(s)
    else Interior(s)
  }

  /** `Path::join`, which is also what `PathBuf::push` does to its buffer. */
  function Join(base: string, rel: string): string {
    if rel != "" && rel[0] == '/' then rel
    else if base == "" || base[|base| - 1] == '/' then base + rel
    else base + "/" + rel
  }

  // ---- normalize ----

  /** One turn of the loop of `normalize`: `pop` fails at the root and on the empty buffer. */
  function Step(out: seq<Component>, c: Component): seq<Component> {
    match c
    case CurDir => out
    case ParentDir =>
      if out == [] || out[|out| - 1] == RootDir then out + [ParentDir] else out[..|out| - 1]
    case RootDir => [RootDir]
    case Normal(_) => out + [c]
  }

  function Apply(out: seq<Component>, cs: seq<Component>): seq<Component>
    decreases |cs|
  {
    if cs == [] then out else Step(Apply(out, cs[..|cs| - 1]), cs[|cs| - 1])
  }

  function Normalize(cs: seq<Component>): seq<Component> {
    Apply([], cs)
  }

  /** `normalize`: the buffer `out` is pushed to and popped from in place. */
  method NormalizePath(path: string) returns (out: seq<Component>)
    ensures out == Normalize(Components(path))
    ensures Render(out) == NormalizeText(path) && Components(Render(out)) == out
  {
    hide Components, Render;
    NormalizeTextReadsBack(path);
    var cs := Components(path);
    out := [];
    for i := 0 to |cs|
      invariant out == Normalize(cs[..i])
    {
      assert cs[..i + 1][..i] == cs[..i];
      match cs[i] {
        case CurDir =>
        case ParentDir =>
          if out != [] && out[|out| - 1] != RootDir {
            out := out[..|out| - 1];
          } else {
            out := out + [ParentDir];
          }
        case RootDir =>
          out := [RootDir];
        case Normal(name) =>
          out := out + [Normal(name)];
      }
    }
    assert cs[..|cs|] == cs;
  }

  lemma {:induction false} ApplyAppend(out: seq<Component>, p: seq<Component>, q: seq<Component>)
    ensures Apply(out, p + q) == Apply(Apply(out, p), q)
    decreases |q|
  {
    if q == [] {
      assert p + q == p;
    } else {
      var n := |q| - 1;
      assert (p + q)[..|p + q| - 1] == p + q[..n];
      ApplyAppend(out, p, q[..n]);
    }
  }

  // ---- An independent reading of a relative path: climbs, then names ----

  function Normals(names: seq<string>): (cs: seq<Component>)
    ensures |cs| == |names|
    ensures forall i :: 0 <= i < |names| ==> cs[i] == Normal(names[i])
  {
    seq(|names|, i requires 0 <= i < |names| => Normal(names[i]))
  }

  /** Every `..` cancels the nearest name before it that is not cancelled yet; `ups` counts
      those with nothing to cancel and `names` lists the names that survive. */
  datatype Walk = Walk(ups: nat, names: seq<string>)

  function WalkStep(w: Walk, c: Component): Walk {
    match c
    case Normal(name) => Walk(w.ups, w.names + [name])
    case ParentDir =>
      if w.names == [] then Walk(w.ups + 1, []) else Walk(w.ups, w.names[..|w.names| - 1])
    case CurDir => w
    case RootDir => Walk(0, [])
  }

  function WalkOf(cs: seq<Component>): Walk {
    if cs == [] then Walk(0, []) else WalkStep(WalkOf(cs[..|cs| - 1]), cs[|cs| - 1])
  }

  predicate Rootless(cs: seq<Component>) {
    forall i :: 0 <= i < |cs| ==> cs[i] != RootDir
  }

  function RootPart(rooted: bool): seq<Component> {
    if rooted then [RootDir] else []
  }

  function UpPart(up: bool): seq<Component> {
    if up then [ParentDir] else []
  }

  /** Optional root, at most one `..`, then names. */
  function NormalForm(rooted: bool, up: bool, names: seq<string>): seq<Component> {
    RootPart(rooted) + UpPart(up) + Normals(names)
  }

  /** Where walking `w` from `names` ends: the names that no climb reaches, then those of `w`. */
  function LandingNames(names: seq<string>, w: Walk): seq<string> {
    if w.ups <= |names| then names[..|names| - w.ups] + w.names else w.names
  }

  /** Climbing past all names toggles a single `..`, since `pop` also removes a `..` that an
      earlier climb pushed. */
  predicate LandingUp(names: seq<string>, w: Walk) {
    w.ups > |names| && (w.ups - |names|) % 2 == 1
  }

  function Landing(rooted: bool, names: seq<string>, w: Walk): seq<Component> {
    NormalForm(rooted, LandingUp(names, w), LandingNames(names, w))
  }

  lemma NormalsAppend(a: seq<string>, b: seq<string>)
    ensures Normals(a + b) == Normals(a) + Normals(b)
  {}

  lemma NormalsInit(names: seq<string>)
    requires names != []
    ensures Normals(names[..|names| - 1]) == Normals(names)[..|names| - 1]
  {}

  lemma PushName(rooted: bool, up: bool, names: seq<string>, x: string)
    ensures Step(NormalForm(rooted, up, names), Normal(x)) == NormalForm(rooted, up, names + [x])
  {
    NormalsAppend(names, [x]);
  }

  lemma PopName(rooted: bool, up: bool, names: seq<string>)
    requires names != []
    ensures Step(NormalForm(rooted, up, names), ParentDir) == NormalForm(rooted, up, names[..|names| - 1])
  {
    NormalsInit(names);
    LastOfAppend(RootPart(rooted) + UpPart(up), Normals(names));
  }

  lemma PopNothing(rooted: bool, up: bool)
    ensures Step(NormalForm(rooted, up, []), ParentDir) == NormalForm(rooted, !up, [])
  {
    assert NormalForm(rooted, up, []) == RootPart(rooted) + UpPart(up);
  }

  lemma LastOfAppend(a: seq<Component>, b: seq<Component>)
    requires b != []
    ensures (a + b)[|a + b| - 1] == b[|b| - 1]
    ensures (a + b)[..|a + b| - 1] == a + b[..|b| - 1]
  {}

  lemma LandNormal(names: seq<string>, w: Walk, x: string)
    ensures LandingNames(names, WalkStep(w, Normal(x))) == LandingNames(names, w) + [x]
  {}

  lemma LandParent(names: seq<string>, w: Walk)
    ensures var w' := WalkStep(w, ParentDir);
            var all := LandingNames(names, w);
            if all != [] then
              LandingNames(names, w') == all[..|all| - 1] && LandingUp(names, w') == LandingUp(names, w)
            else
              LandingNames(names, w') == [] && LandingUp(names, w') == !LandingUp(names, w)
  {
    var all := LandingNames(names, w);
    if w.ups <= |names| && w.names != [] {
      assert all[..|all| - 1] == names[..|names| - w.ups] + w.names[..|w.names| - 1];
    } else if w.ups < |names| {
      assert all[..|all| - 1] == names[..|names| - w.ups - 1] + [];
    }
  }

  lemma LandStep(rooted: bool, names: seq<string>, w: Walk, c: Component)
    requires c != RootDir
    ensures Step(Landing(rooted, names, w), c) == Landing(rooted, names, WalkStep(w, c))
  {
    var up, all := LandingUp(names, w), LandingNames(names, w);
    match c {
      case CurDir =>
      case Normal(x) =>
        LandNormal(names, w, x);
        PushName(rooted, up, all, x);
      case ParentDir =>
        LandParent(names, w);
        if all != [] {
          PopName(rooted, up, all);
        } else {
          PopNothing(rooted, up);
        }
    }
  }

  lemma LandNowhere(rooted: bool, names: seq<string>)
    ensures Landing(rooted, names, Walk(0, [])) == RootPart(rooted) + Normals(names)
  {
    assert names[..|names|] + [] == names;
  }

  lemma {:induction false} ApplyLands(rooted: bool, names: seq<string>, cs: seq<Component>)
    requires Rootless(cs)
    ensures Apply(RootPart(rooted) + Normals(names), cs) == Landing(rooted, names, WalkOf(cs))
    decreases |cs|
  {
    if cs == [] {
      LandNowhere(rooted, names);
    } else {
      var init := cs[..|cs| - 1];
      ApplyLands(rooted, names, init);
      LandStep(rooted, names, WalkOf(init), cs[|cs| - 1]);
    }
  }

  /** The shape `normalize` produces: optional root, at most one `..`, then plain names. */
  ghost predicate InNormalForm(cs: seq<Component>) {
    exists rooted: bool, up: bool, names: seq<string> :: cs == NormalForm(rooted, up, names)
  }

  /** A parsed path has at most a leading root. */
  predicate Parsed(cs: seq<Component>) {
    cs == [] || Rootless(cs[1..])
  }

  lemma {:induction false} BodyRootless(pieces: seq<string>)
    ensures Rootless(PiecesComponents(pieces)) && CurDir !in PiecesComponents(pieces)
  {
    if pieces != [] {
      BodyRootless(pieces[1..]);
    }
  }

  lemma ComponentsParsed(path: string)
    ensures Parsed(Components(path))
  {
    BodyRootless(Split(path));
    var cs := Components(path);
    if cs != [] && cs == Interior(path) {
      assert forall c :: c in cs[1..] ==> c in cs;
    }
  }

  /** `normalize` in closed form: it keeps the root, keeps one `..` exactly when the number of
      climbs that cancel nothing is odd, and keeps exactly the surviving names. */
  lemma NormalizeClosedForm(rooted: bool, cs: seq<Component>)
    requires Rootless(cs)
    ensures var w := WalkOf(cs);
            Normalize(RootPart(rooted) + cs) == NormalForm(rooted, w.ups % 2 == 1, w.names)
  {
    hide Apply, NormalForm, WalkOf, RootPart, LandingNames;
    var r := RootPart(rooted);
    ApplyAppend([], r, cs);
    RootApplies(rooted);
    assert r + Normals([]) == r;
    ApplyLands(rooted, [], cs);
    LandsFromNothing(WalkOf(cs));
  }

  lemma RootApplies(rooted: bool)
    ensures Apply([], RootPart(rooted)) == RootPart(rooted)
  {
    assert RootPart(true)[..0] == [];
  }

  lemma LandsFromNothing(w: Walk)
    ensures LandingNames([], w) == w.names
  {
    assert [] + w.names == w.names;
  }

  lemma SplitRoot(cs: seq<Component>) returns (rooted: bool, rest: seq<Component>)
    requires Parsed(cs)
    ensures cs == RootPart(rooted) + rest && Rootless(rest)
  {
    rooted := cs != [] && cs[0] == RootDir;
    rest := if rooted then cs[1..] else cs;
    if rooted {
      assert cs == [RootDir] + cs[1..];
    } else {
      assert [] + rest == rest;
      forall i | 0 <= i < |cs|
        ensures cs[i] != RootDir
      {
        assert i > 0 ==> cs[i] == cs[1..][i - 1];
      }
    }
  }

  lemma NormalizeReachesNormalForm(cs: seq<Component>)
    requires Parsed(cs)
    ensures InNormalForm(Normalize(cs))
  {
    var rooted, rest := SplitRoot(cs);
    NormalizeClosedForm(rooted, rest);
    var w := WalkOf(rest);
    var up := w.ups % 2 == 1;
    assert Normalize(cs) == NormalForm(rooted, up, w.names);
  }

  lemma WalkSnoc(cs: seq<Component>, c: Component)
    ensures WalkOf(cs + [c]) == WalkStep(WalkOf(cs), c)
  {
    assert (cs + [c])[..|cs|] == cs;
  }

  lemma NormalsSnoc(front: seq<Component>, names: seq<string>)
    requires names != []
    ensures front + Normals(names)
            == front + Normals(names[..|names| - 1]) + [Normal(names[|names| - 1])]
  {}

  lemma WalkOfUp(up: bool)
    ensures WalkOf(UpPart(up) + Normals([])) == Walk(if up then 1 else 0, [])
  {
    assert UpPart(up) + Normals([]) == UpPart(up);
    WalkSnoc([], ParentDir);
    assert [] + [ParentDir] == [ParentDir];
  }

  lemma WalkOfName(up: bool, names: seq<string>, w: Walk)
    requires names != [] && WalkOf(UpPart(up) + Normals(names[..|names| - 1])) == w
    ensures WalkOf(UpPart(up) + Normals(names)) == WalkStep(w, Normal(names[|names| - 1]))
  {
    hide WalkOf, WalkStep, Normals, UpPart;
    NormalsSnoc(UpPart(up), names);
    WalkSnoc(UpPart(up) + Normals(names[..|names| - 1]), Normal(names[|names| - 1]));
  }

  lemma {:induction false} WalkOfNormals(up: bool, names: seq<string>)
    ensures WalkOf(UpPart(up) + Normals(names)) == Walk(if up then 1 else 0, names)
    decreases |names|
  {
    hide WalkOf, Normals, UpPart;
    if names == [] {
      WalkOfUp(up);
    } else {
      var init := names[..|names| - 1];
      WalkOfNormals(up, init);
      WalkOfName(up, names, Walk(if up then 1 else 0, init));
      assert init + [names[|names| - 1]] == names;
    }
  }

  lemma RelativePart(rooted: bool, up: bool, names: seq<string>)
    ensures NormalForm(rooted, up, names) == RootPart(rooted) + (UpPart(up) + Normals(names))
    ensures Rootless(UpPart(up) + Normals(names))
  {}

  lemma NormalizeFixesNormalForm(rooted: bool, up: bool, names: seq<string>)
    ensures Normalize(NormalForm(rooted, up, names)) == NormalForm(rooted, up, names)
  {
    hide WalkOf, Normalize, Normals, NormalForm;
    RelativePart(rooted, up, names);
    WalkOfNormals(up, names);
    NormalizeClosedForm(rooted, UpPart(up) + Normals(names));
  }

  lemma NormalizeIdempotent(cs: seq<Component>)
    requires Parsed(cs)
    ensures Normalize(Normalize(cs)) == Normalize(cs)
  {
    NormalizeReachesNormalForm(cs);
    var rooted: bool, up: bool, names: seq<string> :| Normalize(cs) == NormalForm(rooted, up, names);
    NormalizeFixesNormalForm(rooted, up, names);
  }

  /** Normalizing a prefix first changes nothing. */
  lemma NormalizeJoin(p: seq<Component>, q: seq<Component>)
    requires Parsed(p)
    ensures Normalize(p + q) == Normalize(Normalize(p) + q)
  {
    ApplyAppend([], p, q);
    ApplyAppend([], Normalize(p), q);
    NormalizeIdempotent(p);
  }

  // ---- The text of a path and its components ----

  /** A name a directory entry can have. */
  predicate Plain(name: string) {
    name != "" && name != "." && name != ".." && '/' !in name
  }

  ghost predicate AllPlain(names: seq<string>) {
    forall i :: 0 <= i < |names| ==> Plain(names[i])
  }

  function JoinNames(names: seq<string>): string {
    if names == [] then ""
    else if |names| == 1 then names[0]
    else names[0] + "/" + JoinNames(names[1..])
  }

  /** The text of the absolute path through `names`. */
  function Absolute(names: seq<string>): string {
    "/" + JoinNames(names)
  }

  lemma {:induction false} SplitAtSlash(a: string, b: string)
    ensures Split(a + "/" + b) == Split(a) + Split(b)
  {
    if a == "" {
      assert a + "/" + b == "/" + b;
      assert ("/" + b)[1..] == b;
    } else {
      assert (a + "/" + b)[1..] == a[1..] + "/" + b;
      SplitAtSlash(a[1..], b);
    }
  }

  lemma {:induction false} SplitPlain(name: string)
    requires '/' !in name
    ensures Split(name) == [name]
  {
    if name != "" {
      assert forall c :: c in name[1..] ==> c in name;
      SplitPlain(name[1..]);
      assert [name[0]] + name[1..] == name;
    }
  }

  lemma {:induction false} BodyAppend(a: seq<string>, b: seq<string>)
    ensures PiecesComponents(a + b) == PiecesComponents(a) + PiecesComponents(b)
  {
    if a == [] {
      assert a + b == b;
    } else {
      assert (a + b)[1..] == a[1..] + b;
      BodyAppend(a[1..], b);
    }
  }

  lemma InteriorAtSlash(a: string, b: string)
    ensures Interior(a + "/" + b) == Interior(a) + Interior(b)
  {
    SplitAtSlash(a, b);
    BodyAppend(Split(a), Split(b));
  }

  lemma ComponentsAtSlash(a: string, b: string)
    ensures Components(a + "/" + b) == (if a == "" then [RootDir] else Components(a)) + Interior(b)
  {
    hide Split, PiecesComponents, Interior;
    InteriorAtSlash(a, b);
    var whole := a + "/" + b;
    if a == "" {
      InteriorOfPiece("");
      assert whole[0] == '/';
      assert PieceComponents("") == [];
      assert [] + Interior(b) == Interior(b);
    } else {
      assert whole[0] == a[0];
      SplitAtSlash(a, b);
      assert Split(whole)[0] == Split(a)[0];
      if a[0] == '/' {
        assert [RootDir] + (Interior(a) + Interior(b)) == [RootDir] + Interior(a) + Interior(b);
      } else if Split(a)[0] == "." {
        assert [CurDir] + (Interior(a) + Interior(b)) == [CurDir] + Interior(a) + Interior(b);
      }
    }
  }

  lemma TrailingSlash(front: string, rel: string)
    ensures Components(front + "/" + rel) == Components(front + "/") + Interior(rel)
  {
    hide Components, Interior;
    ComponentsAtSlash(front, rel);
    ComponentsAtSlash(front, "");
    InteriorOfPiece("");
    assert PieceComponents("") == [];
    assert front + "/" + "" == front + "/";
  }

  /** Joining a relative path appends its components; a leading `.` of it disappears. */
  lemma JoinComponents(base: string, rel: string)
    requires base != "" && (rel == "" || rel[0] != '/')
    ensures Components(Join(base, rel)) == Components(base) + Interior(rel)
  {
    hide Components, Interior;
    var last := |base| - 1;
    if base[last] == '/' {
      TrailingSlash(base[..last], rel);
      assert base[..last] + "/" == base;
    } else {
      ComponentsAtSlash(base, rel);
    }
  }

  lemma InteriorOfPiece(piece: string)
    requires '/' !in piece
    ensures Interior(piece) == PieceComponents(piece)
  {
    SplitPlain(piece);
    assert PiecesComponents([piece]) == PieceComponents(piece) + PiecesComponents([]);
  }

  lemma {:induction false} InteriorOfNames(names: seq<string>)
    requires AllPlain(names)
    ensures Interior(JoinNames(names)) == Normals(names)
  {
    if names == [] {
      InteriorOfPiece("");
    } else {
      InteriorOfPiece(names[0]);
      var rest := names[1..];
      assert names == [names[0]] + rest;
      NormalsAppend([names[0]], rest);
      if |names| > 1 {
        InteriorAtSlash(names[0], JoinNames(rest));
        InteriorOfNames(rest);
      }
    }
  }

  lemma ComponentsOfAbsolute(names: seq<string>)
    requires AllPlain(names)
    ensures Components(Absolute(names)) == [RootDir] + Normals(names)
  {
    ComponentsAtSlash("", JoinNames(names));
    assert "" + "/" + JoinNames(names) == Absolute(names);
    InteriorOfNames(names);
  }

  /** Empty parts and single dots behind a slash do not count. */
  lemma RedundantParts(a: string, b: string)
    ensures Interior(a + "/" + ("." + "/" + b)) == Interior(a + "/" + b) == Interior(a + "/" + ("" + "/" + b))
    ensures Interior("") == [] && Interior(".") == [] && Interior("..") == [ParentDir]
  {
    hide Interior;
    InteriorOfPiece("");
    InteriorOfPiece(".");
    InteriorOfPiece("..");
    InteriorAtSlash(a, "." + "/" + b);
    InteriorAtSlash(a, "" + "/" + b);
    InteriorAtSlash(".", b);
    InteriorAtSlash("", b);
    InteriorAtSlash(a, b);
    assert [] + Interior(b) == Interior(b);
  }

  function ComponentText(c: Component): string {
    match c
    case RootDir => "/"
    case CurDir => "."
    case ParentDir => ".."
    case Normal(name) => name
  }

  /** The bytes of a `PathBuf` built by pushing `cs` in order. */
  function Render(cs: seq<Component>): string {
    if cs == [] then "" else Join(Render(cs[..|cs| - 1]), ComponentText(cs[|cs| - 1]))
  }

  ghost predicate Pushed(cs: seq<Component>) {
    forall i :: 0 <= i < |cs| ==>
      match cs[i]
      case RootDir => i == 0
      case CurDir => false
      case ParentDir => true
      case Normal(name) => Plain(name)
  }

  lemma ComponentsOfPiece(piece: string)
    requires '/' !in piece && piece != "" && piece != "."
    ensures Components(piece) == Interior(piece) == PieceComponents(piece)
  {
    InteriorOfPiece(piece);
    SplitPlain(piece);
    assert piece[0] in piece;
  }

  lemma ComponentsOfRoot()
    ensures Components("/") == [RootDir]
  {
    ComponentsAtSlash("", "");
    InteriorOfPiece("");
    assert "" + "/" + "" == "/";
  }

  lemma JoinToEmpty(text: string)
    ensures Join("", text) == text
  {
    assert "" + text == text;
  }

  lemma PushReadsBack(buffer: string, c: Component)
    requires c == ParentDir || (c.Normal? && Plain(c.name))
    ensures var pushed := Join(buffer, ComponentText(c));
            pushed != "" && Components(pushed) == (if buffer == "" then [] else Components(buffer)) + [c]
  {
    var text := ComponentText(c);
    hide Components, Interior;
    InteriorOfPiece(text);
    ComponentsOfPiece(text);
    assert text[0] in text;
    if buffer == "" {
      JoinToEmpty(text);
    } else {
      JoinComponents(buffer, text);
    }
  }

  /** A buffer of pushed components reads back as those components, so treating the buffer of
      `normalize` as a component list loses nothing. */
  lemma {:induction false} RenderReadsBack(cs: seq<Component>)
    requires Pushed(cs)
    ensures Components(Render(cs)) == cs
    ensures cs != [] <==> Render(cs) != ""
    decreases |cs|
  {
    if cs == [] {
      InteriorOfPiece("");
      SplitPlain("");
    } else {
      hide Components, Join;
      var init, last := cs[..|cs| - 1], cs[|cs| - 1];
      RenderReadsBack(init);
      assert cs == init + [last];
      if last == RootDir {
        assert init == [];
        JoinToEmpty("/");
        ComponentsOfRoot();
      } else {
        PushReadsBack(Render(init), last);
      }
    }
  }

  // ---- normalize on path text ----

  /** `normalize` as it is called: from text to text. */
  function NormalizeText(path: string): string {
    Render(Normalize(Components(path)))
  }

  ghost predicate PlainNames(cs: seq<Component>) {
    forall i :: 0 <= i < |cs| && cs[i].Normal? ==> Plain(cs[i].name)
  }

  lemma {:induction false} PiecesPlain(s: string)
    ensures forall i :: 0 <= i < |Split(s)| ==> '/' !in Split(s)[i]
  {
    if s != "" {
      PiecesPlain(s[1..]);
    }
  }

  lemma {:induction false} PiecesComponentsPlain(pieces: seq<string>)
    requires forall i :: 0 <= i < |pieces| ==> '/' !in pieces[i]
    ensures PlainNames(PiecesComponents(pieces))
  {
    if pieces != [] {
      PiecesComponentsPlain(pieces[1..]);
    }
  }

  lemma ComponentsPlain(path: string)
    ensures PlainNames(Components(path))
  {
    PiecesPlain(path);
    PiecesComponentsPlain(Split(path));
    hide Split, PiecesComponents, Plain;
  }

  lemma {:induction false} ApplyPlain(out: seq<Component>, cs: seq<Component>)
    requires PlainNames(out) && PlainNames(cs)
    ensures PlainNames(Apply(out, cs))
    decreases |cs|
  {
    hide Plain;
    if cs != [] {
      ApplyPlain(out, cs[..|cs| - 1]);
    }
  }

  lemma NormalFormPushed(rooted: bool, up: bool, names: seq<string>)
    requires PlainNames(NormalForm(rooted, up, names))
    ensures Pushed(NormalForm(rooted, up, names))
  {
    hide Plain;
  }

  /** The text of a result reads back as the component list it stands for. */
  lemma NormalizeTextReadsBack(path: string)
    ensures Components(NormalizeText(path)) == Normalize(Components(path))
    ensures NormalizeText(path) == "" <==> Normalize(Components(path)) == []
  {
    hide Components, Apply, NormalForm, Plain, Render;
    var cs := Components(path);
    ComponentsParsed(path);
    ComponentsPlain(path);
    ApplyPlain([], cs);
    NormalizeReachesNormalForm(cs);
    var rooted: bool, up: bool, names: seq<string> :| Normalize(cs) == NormalForm(rooted, up, names);
    NormalFormPushed(rooted, up, names);
    RenderReadsBack(Normalize(cs));
  }

  /** Normalizing a normalized text changes nothing. */
  lemma NormalizeTextIdempotent(path: string)
    ensures NormalizeText(NormalizeText(path)) == NormalizeText(path)
  {
    hide Components, Apply, Render;
    NormalizeTextReadsBack(path);
    ComponentsParsed(path);
    NormalizeIdempotent(Components(path));
  }

  predicate Relative(rel: string) {
    rel == "" || rel[0] != '/'
  }

  /** A leading `.` makes no difference to the loop. */
  lemma LeadingDot(rel: string)
    requires Relative(rel)
    ensures Normalize(Components(rel)) == Apply([], Interior(rel))
  {
    hide Interior, Split;
    if Components(rel) != Interior(rel) {
      ApplyAppend([], [CurDir], Interior(rel));
      assert [CurDir][..0] == [];
      assert Apply([], [CurDir]) == Step(Apply([], []), CurDir) == [];
    }
  }

  /** The loop on a joined path goes on from its state after the base, an empty one included. */
  lemma NormalizeJoined(base: string, rel: string)
    requires Relative(rel)
    ensures Normalize(Components(Join(base, rel))) == Apply(Normalize(Components(base)), Interior(rel))
  {
    hide Components, Interior, Apply;
    if base == "" {
      JoinToEmpty(rel);
      LeadingDot(rel);
      NothingNormalizes();
    } else {
      JoinComponents(base, rel);
      ApplyAppend([], Components(base), Interior(rel));
    }
  }

  lemma NothingNormalizes()
    ensures Normalize(Components("")) == []
  {
    InteriorOfPiece("");
    SplitPlain("");
  }

  /** normalize(p joined q) is normalize(normalize(p) joined q) for every relative q, also where
      normalize(p) is the empty path. */
  lemma NormalizeTextJoin(p: string, q: string)
    requires Relative(q)
    ensures NormalizeText(Join(p, q)) == NormalizeText(Join(NormalizeText(p), q))
  {
    hide Components, Interior, Apply, Render;
    NormalizeJoined(p, q);
    NormalizeJoined(NormalizeText(p), q);
    NormalizeTextReadsBack(p);
    ComponentsParsed(p);
    NormalizeIdempotent(Components(p));
  }

  // ---- ensure_within and sanitize_entry_path ----

  predicate GuardsPass(candidate: string) {
    && !(candidate != "" && (candidate[0] == '/' || candidate[0] == '\\'))
    && !(|candidate| >= 2 && candidate[1] == ':')
  }

  function EnsureWithin(base: string, candidate: string): Result<seq<Component>, PathError> {
    if candidate != "" && (candidate[0] == '/' || candidate[0] == '\\') then Err(AbsolutePath)
    else if |candidate| >= 2 && candidate[1] == ':' then Err(DriveQualified)
    else
      var normalized := Normalize(Components(Join(base, candidate)));
      if Components(base) <= normalized then Ok(normalized) else Err(EscapesBase)
  }

  /** `canonicalize` of a rooted normal form where no symlink is crossed: `/..` is `/`. */
  function CanonicalForm(path: seq<Component>): seq<Component> {
    if path == [] then []
    else if path[0] == ParentDir then CanonicalForm(path[1..])
    else [path[0]] + CanonicalForm(path[1..])
  }

  /** `sanitize_entry_path`; `parentExists` says whether `canonicalize` finds the parent, since
      its failure falls back to the parent as written. */
  function Sanitize(target: seq<Component>, base: seq<Component>, parentExists: bool)
    : Result<seq<Component>, PathError>
  {
    var hasParent := target != [] && target[|target| - 1] != RootDir;
    var parent := if hasParent then target[..|target| - 1] else [];
    var canon := if parentExists then CanonicalForm(parent) else parent;
    if hasParent && !(base <= canon) then Err(EntryEscapesBase)
    else if ParentDir in target then Err(ParentInEntry)
    else Ok(target)
  }

  /** Both checks of the extraction loop, in its order. */
  function SafeTarget(base: string, candidate: string, parentExists: bool)
    : Result<seq<Component>, PathError>
  {
    match EnsureWithin(base, candidate)
    case Err(e) => Err(e)
    case Ok(target) => Sanitize(target, Components(base), parentExists)
  }

  /** Names of the walk that `candidate` takes. */
  function CandidateWalk(candidate: string): Walk {
    WalkOf(Interior(candidate))
  }

  /** Starting from base names `n`, the candidate lands in or under `n`. */
  predicate LandsWithin(n: seq<string>, candidate: string) {
    var w := CandidateWalk(candidate);
    !LandingUp(n, w) && n <= LandingNames(n, w)
  }

  lemma JoinedBaseLands(n: seq<string>, candidate: string)
    requires AllPlain(n) && GuardsPass(candidate)
    ensures Normalize(Components(Join(Absolute(n), candidate))) == Landing(true, n, CandidateWalk(candidate))
  {
    JoinComponents(Absolute(n), candidate);
    ComponentsOfAbsolute(n);
    BodyRootless(Split(candidate));
    var start := [RootDir] + Normals(n);
    ApplyAppend([], start, Interior(candidate));
    NormalizeFixesNormalForm(true, false, n);
    RootedForm(n);
    ApplyLands(true, n, Interior(candidate));
  }

  lemma RootedForm(names: seq<string>)
    ensures NormalForm(true, false, names) == [RootDir] + Normals(names)
  {}

  lemma NormalsPrefix(a: seq<string>, b: seq<string>)
    ensures Normals(a) <= Normals(b) <==> a <= b
  {
    if Normals(a) <= Normals(b) {
      forall i | 0 <= i < |a|
        ensures a[i] == b[i]
      {
        assert Normals(a)[i] == Normals(b)[i];
      }
    }
  }

  lemma RootedPrefix(n: seq<string>, up: bool, names: seq<string>)
    ensures [RootDir] + Normals(n) <= NormalForm(true, up, names) <==> n == [] || (!up && n <= names)
  {
    var form := NormalForm(true, up, names);
    if n != [] {
      if up {
        assert form[1] == ParentDir;
        assert ([RootDir] + Normals(n))[1] == Normal(n[0]);
      } else {
        assert form == [RootDir] + Normals(names);
        NormalsPrefix(n, names);
        assert form[1..] == Normals(names) && ([RootDir] + Normals(n))[1..] == Normals(n);
        if [RootDir] + Normals(n) <= form {
          assert Normals(n) == ([RootDir] + Normals(n))[1..] <= form[1..];
        }
      }
    }
  }

  /** `ensure_within` exactly: below a base of root and `n`, the candidate is accepted iff it
      passes the two guards and lands in or under the base (any landing is under the bare root),
      and the result is the landing. */
  lemma EnsureWithinExact(n: seq<string>, candidate: string)
    requires AllPlain(n)
    ensures var r := EnsureWithin(Absolute(n), candidate);
            && (r.Ok? <==> GuardsPass(candidate) && (n == [] || LandsWithin(n, candidate)))
            && (r.Ok? ==> r.value == Landing(true, n, CandidateWalk(candidate)))
  {
    if GuardsPass(candidate) {
      JoinedBaseLands(n, candidate);
      ComponentsOfAbsolute(n);
      var w := CandidateWalk(candidate);
      RootedPrefix(n, LandingUp(n, w), LandingNames(n, w));
    }
  }

  /** Containment: below a proper base, an accepted candidate is the base followed by names only. */
  lemma EnsureWithinContains(n: seq<string>, candidate: string) returns (below: seq<string>)
    requires AllPlain(n) && n != []
    requires EnsureWithin(Absolute(n), candidate).Ok?
    ensures EnsureWithin(Absolute(n), candidate) == Ok([RootDir] + Normals(n + below))
  {
    hide EnsureWithin, NormalForm, Normals, WalkOf, Interior;
    EnsureWithinExact(n, candidate);
    var names := LandingNames(n, CandidateWalk(candidate));
    below := names[|n|..];
    assert names == n + below;
    RootedForm(names);
  }

  /** A candidate that never climbs above the base is accepted, and cleaned. */
  lemma NeverClimbingAccepted(n: seq<string>, candidate: string)
    requires AllPlain(n) && GuardsPass(candidate) && CandidateWalk(candidate).ups == 0
    ensures EnsureWithin(Absolute(n), candidate) == Ok([RootDir] + Normals(n + CandidateWalk(candidate).names))
  {
    hide EnsureWithin, NormalForm, Normals, WalkOf, Interior;
    EnsureWithinExact(n, candidate);
    var w := CandidateWalk(candidate);
    assert LandingNames(n, w) == n + w.names;
    RootedForm(n + w.names);
  }

  /** What counts is the landing: climbing out of the base and back in by name is accepted. */
  lemma ClimbingBackAccepted(above: seq<string>, last: string, below: seq<string>)
    requires AllPlain(above + [last] + below)
    ensures EnsureWithin(Absolute(above + [last]), JoinNames([".."] + ([last] + below)))
            == Ok([RootDir] + Normals(above + [last] + below))
  {
    hide EnsureWithin, NormalForm, Normals, WalkOf, Interior;
    var all, n, back := above + [last] + below, above + [last], [last] + below;
    assert AllPlain(n) by {
      assert forall i :: 0 <= i < |n| ==> n[i] == all[i];
    }
    assert AllPlain(back) by {
      assert forall i :: 0 <= i < |back| ==> back[i] == all[|above| + i];
    }
    UpThenNames(back);
    EnsureWithinExact(n, JoinNames([".."] + back));
    LandBack(above, last, below);
    RootedForm(all);
  }

  lemma LandBack(above: seq<string>, last: string, below: seq<string>)
    ensures LandingNames(above + [last], Walk(1, [last] + below)) == above + [last] + below
    ensures above + [last] <= above + [last] + below
  {
    assert (above + [last])[..|above|] == above;
    assert above + ([last] + below) == above + [last] + below;
  }

  lemma UpThenNames(names: seq<string>)
    requires AllPlain(names) && names != []
    ensures GuardsPass(JoinNames([".."] + names))
    ensures CandidateWalk(JoinNames([".."] + names)) == Walk(1, names)
  {
    var up := "..";
    assert ([up] + names)[1..] == names;
    var c := up + "/" + JoinNames(names);
    assert JoinNames([up] + names) == c;
    assert c[0] == '.' && c[1] == '.';
    InteriorAtSlash(up, JoinNames(names));
    InteriorOfPiece(up);
    InteriorOfNames(names);
    WalkOfNormals(true, names);
  }

  lemma {:induction false} CanonicalNormals(names: seq<string>)
    ensures CanonicalForm(Normals(names)) == Normals(names)
  {
    if names != [] {
      assert Normals(names)[1..] == Normals(names[1..]);
      CanonicalNormals(names[1..]);
      assert [Normal(names[0])] + Normals(names[1..]) == Normals(names);
    }
  }

  lemma CanonicalRooted(up: bool, names: seq<string>)
    ensures CanonicalForm(NormalForm(true, up, names)) == [RootDir] + Normals(names)
  {
    CanonicalNormals(names);
    var form := NormalForm(true, up, names);
    var tail := form[1..];
    if up {
      assert tail[1..] == Normals(names);
    } else {
      assert tail == Normals(names);
    }
  }

  /** The file an entry is written to, when both checks accept it; no symlink is crossed. */
  predicate TargetAccepted(n: seq<string>, candidate: string) {
    && GuardsPass(candidate)
    && LandsWithin(n, candidate)
    && (n == [] || LandingNames(n, CandidateWalk(candidate)) != n)
  }

  /** Both checks together: besides what `ensure_within` refuses, `sanitize_entry_path` refuses
      exactly the candidates that land on a proper base itself, and below the bare root those
      whose landing keeps a `..`. Whether the parent exists makes no difference. */
  lemma SafeTargetExact(n: seq<string>, candidate: string, parentExists: bool)
    requires AllPlain(n)
    ensures var r := SafeTarget(Absolute(n), candidate, parentExists);
            && (r.Ok? <==> TargetAccepted(n, candidate))
            && (r.Ok? ==> r.value == [RootDir] + Normals(LandingNames(n, CandidateWalk(candidate))))
  {
    EnsureWithinExact(n, candidate);
    ComponentsOfAbsolute(n);
    if EnsureWithin(Absolute(n), candidate).Ok? {
      var w := CandidateWalk(candidate);
      SanitizeLanding(n, LandingUp(n, w), LandingNames(n, w), parentExists);
    }
  }

  lemma SanitizeLanding(n: seq<string>, up: bool, names: seq<string>, parentExists: bool)
    requires n == [] || (!up && n <= names)
    ensures var r := Sanitize(NormalForm(true, up, names), [RootDir] + Normals(n), parentExists);
            && (r.Ok? <==> !up && (n == [] || names != n))
            && (r.Ok? ==> r.value == [RootDir] + Normals(names))
  {
    var target := NormalForm(true, up, names);
    assert up ==> target[1] == ParentDir;
    assert !up ==> target == [RootDir] + Normals(names);
    if names != [] {
      ParentOfLanding(n, up, names);
    } else if up {
      assert target == [RootDir, ParentDir];
      assert target[..1] == NormalForm(true, false, []);
      CanonicalRooted(false, []);
    }
  }

  /** The parent of a landing stays under the base unless the landing is the base. */
  lemma ParentOfLanding(n: seq<string>, up: bool, names: seq<string>)
    requires names != [] && (n == [] || (!up && n <= names))
    ensures var target := NormalForm(true, up, names);
            var parent := target[..|target| - 1];
            && target[|target| - 1] == Normal(names[|names| - 1])
            && ([RootDir] + Normals(n) <= parent <==> n == [] || names != n)
            && ([RootDir] + Normals(n) <= CanonicalForm(parent) <==> n == [] || names != n)
  {
    hide CanonicalForm;
    var init := names[..|names| - 1];
    NormalsInit(names);
    LastOfAppend(RootPart(true) + UpPart(up), Normals(names));
    CanonicalRooted(up, init);
    RootedPrefix(n, up, init);
    RootedPrefix(n, false, init);
    RootedForm(init);
    assert n <= names && n != names ==> n <= init;
    assert n <= init ==> n != names;
  }
}
