/** The object that a request of the object-store back end is addressed to (ci-cache-backend-s3,
    backend.rs). The key is pasted into a URL as it stands and the URL is parsed before it is sent,
    so what goes out is what the basic URL parser of the URL Standard (WHATWG) makes of the key:
    tabs and line ends dropped, cut at the first hash or question mark, backslashes taken for
    slashes, dot segments resolved, the rest percent-encoded. The store decodes what it gets.
    Addressing is path-style; a query is taken not to choose another object. Blanks at the end of a
    URL, which the parser trims, do not occur: keys end in .json or in a digit. */
module ObjectUrl {
  import opened Percent
  import opened Naming

  // ---- Keys ----

  /** `blob_key`, for the hex part of a digest. */
  function BlobKey(hex: string): string {
    "blobs/" + hex
  }

  /** `manifest_key`. The identifiers are not validated here. */
  function ManifestKey(ns: string, key: string): string {
    "manifests/" + Escape(ns) + "/" + (Escape(key) + JSON)
  }

  // ---- What the parser makes of a key ----

  predicate Dropped(c: char) {
    c == '\t' || c == '\n' || c == '\r'
  }

  predicate Mark(c: char) {
    c == '#' || c == '?'
  }

  function Stripped(t: string): string {
    if t == "" then "" else if Dropped(t[0]) then Stripped(t[1..]) else [t[0]] + Stripped(t[1..])
  }

  function BeforeMark(t: string): string {
    if t == "" || Mark(t[0]) then "" else [t[0]] + BeforeMark(t[1..])
  }

  /** The pieces between slashes or backslashes; always at least one. */
  function Pieces(t: string): (ps: seq<string>)
    ensures |ps| >= 1
  {
    if t == "" then [""]
    else
      var rest := Pieces(t[1..]);
      if t[0] == '/' || t[0] == '\\' then [""] + rest else [[t[0]] + rest[0]] + rest[1..]
  }

  predicate DotCode(p: string) {
    |p| == 3 && p[0] == '%' && p[1] == '2' && (p[2] == 'e' || p[2] == 'E')
  }

  predicate SingleDot(p: string) {
    p == "." || DotCode(p)
  }

  predicate DoubleDot(p: string) {
    || p == ".."
    || (|p| == 4 && p[0] == '.' && DotCode(p[1..]))
    || (|p| == 4 && p[3] == '.' && DotCode(p[..3]))
    || (|p| == 6 && DotCode(p[..3]) && DotCode(p[3..]))
  }

  predicate DotPiece(p: string) {
    SingleDot(p) || DoubleDot(p)
  }

  /** One piece against the segments so far. A dot segment at the end leaves an empty one. */
  function Place(segs: seq<string>, p: string, last: bool): seq<string> {
    if !DotPiece(p) then segs + [p]
    else
      var kept := if SingleDot(p) || segs == [] then segs else segs[..|segs| - 1];
      if last then kept + [""] else kept
  }

  function PlaceAll(segs: seq<string>, ps: seq<string>): seq<string>
    decreases |ps|
  {
    if ps == [] then segs else PlaceAll(Place(segs, ps[0], |ps| == 1), ps[1..])
  }

  /** Every segment with a slash in front. */
  function SlashText(segs: seq<string>): string {
    if segs == [] then "" else "/" + segs[0] + SlashText(segs[1..])
  }

  /** What the path percent-encode set leaves alone. */
  predicate UrlKeeps(c: char) {
    '!' <= c <= '~' && c != '"' && c != '#' && c != '<' && c != '>' && c != '?' && c != '`' && c != '{' && c != '}'
  }

  /** The segments a key leads to from those of the endpoint and the bucket. */
  function Segments(root: seq<string>, key: string): seq<string> {
    PlaceAll(root, Pieces(BeforeMark(Stripped(key))))
  }

  /** The path on the wire. */
  function Wire(root: seq<string>, key: string): string {
    EncodeText(SlashText(Segments(root, key)), UrlKeeps)
  }

  /** The object the store takes it for. */
  function ObjectAt(root: seq<string>, key: string): string {
    Decode(Wire(root, key))
  }

  /** The object one would read off the key. */
  function Under(root: seq<string>, key: string): string {
    SlashText(root) + "/" + key
  }

  lemma ObjectText(root: seq<string>, key: string)
    ensures ObjectAt(root, key) == Decode(SlashText(Segments(root, key)))
  {
    DecodeEncoded(SlashText(Segments(root, key)), UrlKeeps);
  }

  // ---- Lengths ----

  lemma {:induction false} StrippedExactly(t: string)
    ensures |Stripped(t)| <= |t|
    ensures if forall i :: 0 <= i < |t| ==> !Dropped(t[i]) then Stripped(t) == t else |Stripped(t)| < |t|
  {
    if t != "" {
      StrippedExactly(t[1..]);
      assert t == [t[0]] + t[1..];
      assert forall i :: 1 <= i < |t| ==> t[i] == t[1..][i - 1];
    }
  }

  lemma {:induction false} BeforeMarkExactly(t: string)
    ensures |BeforeMark(t)| <= |t|
    ensures if forall i :: 0 <= i < |t| ==> !Mark(t[i]) then BeforeMark(t) == t else |BeforeMark(t)| < |t|
  {
    if t != "" {
      BeforeMarkExactly(t[1..]);
      assert t == [t[0]] + t[1..];
      assert forall i :: 1 <= i < |t| ==> t[i] == t[1..][i - 1];
    }
  }

  /** Backslashes written as slashes. */
  function Slashed(t: string): string {
    seq(|t|, i requires 0 <= i < |t| => if t[i] == '\\' then '/' else t[i])
  }

  lemma {:induction false} PiecesText(t: string)
    ensures SlashText(Pieces(t)) == "/" + Slashed(t)
  {
    if t != "" {
      PiecesText(t[1..]);
      var rest := Pieces(t[1..]);
      assert Slashed(t) == [if t[0] == '\\' then '/' else t[0]] + Slashed(t[1..]);
      assert rest == [rest[0]] + rest[1..];
      assert SlashText(rest) == "/" + rest[0] + SlashText(rest[1..]);
      if t[0] == '/' || t[0] == '\\' {
        assert ([""] + rest)[1..] == rest;
      } else {
        var p := [t[0]] + rest[0];
        assert ([p] + rest[1..])[1..] == rest[1..];
        assert rest[0] + SlashText(rest[1..]) == SlashText(rest)[1..] == Slashed(t[1..]);
        assert "/" + p + SlashText(rest[1..]) == "/" + [t[0]] + (rest[0] + SlashText(rest[1..]));
      }
    }
  }

  lemma {:induction false} SlashTextAppend(a: seq<string>, b: seq<string>)
    ensures SlashText(a + b) == SlashText(a) + SlashText(b)
  {
    if a == [] {
      assert a + b == b;
    } else {
      assert (a + b)[0] == a[0] && (a + b)[1..] == a[1..] + b;
      SlashTextAppend(a[1..], b);
      assert "/" + a[0] + (SlashText(a[1..]) + SlashText(b)) == "/" + a[0] + SlashText(a[1..]) + SlashText(b);
    }
  }

  lemma SlashTextOne(p: string)
    ensures SlashText([p]) == "/" + p
  {
    assert [p][1..] == [];
  }

  lemma PlaceLength(segs: seq<string>, p: string, last: bool)
    ensures |SlashText(Place(segs, p, last))| <= |SlashText(segs)| + 1 + |p|
    ensures DotPiece(p) ==> |SlashText(Place(segs, p, last))| < |SlashText(segs)| + 1 + |p|
  {
    SlashTextOne(p);
    SlashTextAppend(segs, [p]);
    if DotPiece(p) {
      var kept := if SingleDot(p) || segs == [] then segs else segs[..|segs| - 1];
      if segs != [] {
        SlashTextAppend(segs[..|segs| - 1], [segs[|segs| - 1]]);
        assert segs[..|segs| - 1] + [segs[|segs| - 1]] == segs;
      }
      assert |SlashText(kept)| <= |SlashText(segs)|;
      SlashTextOne("");
      SlashTextAppend(kept, [""]);
    }
  }

  /** Placing never lengthens; without dot segments it appends, with one it shortens. */
  lemma {:induction false} PlaceAllExactly(segs: seq<string>, ps: seq<string>)
    ensures |SlashText(PlaceAll(segs, ps))| <= |SlashText(segs)| + |SlashText(ps)|
    ensures if forall i :: 0 <= i < |ps| ==> !DotPiece(ps[i]) then PlaceAll(segs, ps) == segs + ps
            else |SlashText(PlaceAll(segs, ps))| < |SlashText(segs)| + |SlashText(ps)|
    decreases |ps|
  {
    hide DotPiece, SlashText;
    if ps == [] {
      SlashTextAppend(segs, []);
      assert segs + [] == segs;
    } else {
      var next := Place(segs, ps[0], |ps| == 1);
      PlaceLength(segs, ps[0], |ps| == 1);
      PlaceAllExactly(next, ps[1..]);
      SlashTextOne(ps[0]);
      SlashTextAppend([ps[0]], ps[1..]);
      assert ps == [ps[0]] + ps[1..];
      assert forall i :: 1 <= i < |ps| ==> ps[i] == ps[1..][i - 1];
      if forall i :: 0 <= i < |ps| ==> !DotPiece(ps[i]) {
        assert segs + [ps[0]] + ps[1..] == segs + ps;
      }
    }
  }

  // ---- When the object is the key ----

  /** A character that the parser neither drops nor acts on, slashes apart. */
  predicate HarmlessChar(c: char) {
    !Dropped(c) && !Mark(c) && c != '\\'
  }

  lemma HarmlessCharExactly(c: char)
    ensures HarmlessChar(c) <==> c !in {'\t', '\n', '\r', '#', '?', '\\'}
  {}

  /** The segments that stand for a directory, with a dot encoded or not. */
  lemma DotPieceExactly(p: string)
    ensures SingleDot(p) <==> p == "." || p == "%2e" || p == "%2E"
    ensures DoubleDot(p)
            <==> || p == ".." || p == ".%2e" || p == ".%2E" || p == "%2e." || p == "%2E."
                 || p == "%2e%2e" || p == "%2e%2E" || p == "%2E%2e" || p == "%2E%2E"
  {
    DotCodeExactly(p);
    if |p| == 4 {
      DotCodeExactly(p[1..]);
      DotCodeExactly(p[..3]);
      assert p == [p[0]] + p[1..] && p == p[..3] + [p[3]];
    } else if |p| == 6 {
      DotCodeExactly(p[..3]);
      DotCodeExactly(p[3..]);
      assert p == p[..3] + p[3..];
    }
  }

  lemma DotCodeExactly(p: string)
    ensures DotCode(p) <==> p == "%2e" || p == "%2E"
  {}

  /** Neither character nor segment of the key means anything to the parser or the decoder. */
  predicate Unaltered(key: string) {
    && (forall i :: 0 <= i < |key| ==> HarmlessChar(key[i]))
    && (forall i :: 0 <= i < |Pieces(key)| ==> !DotPiece(Pieces(key)[i]))
    && !HasTriple(key)
  }

  /** Endpoint and bucket contain nothing encoded. */
  predicate PlainRoot(root: seq<string>) {
    forall i :: 0 <= i < |SlashText(root)| ==> SlashText(root)[i] != '%'
  }

  lemma {:induction false} TripleBehind(a: string, b: string)
    requires forall i :: 0 <= i < |a| ==> a[i] != '%'
    ensures HasTriple(a + b) <==> HasTriple(b)
  {
    if a == "" {
      assert a + b == b;
    } else {
      assert (a + b)[1..] == a[1..] + b;
      TripleTail(a + b);
      TripleBehind(a[1..], b);
    }
  }

  lemma SlashedExactly(t: string)
    ensures Slashed(t) == t <==> forall i :: 0 <= i < |t| ==> t[i] != '\\'
  {
    if exists i :: 0 <= i < |t| && t[i] == '\\' {
      var i :| 0 <= i < |t| && t[i] == '\\';
      assert Slashed(t)[i] != t[i];
    }
  }

  /** The parsed path as text, where no segment is a dot segment. */
  lemma NoDotsText(root: seq<string>, key: string)
    requires forall i :: 0 <= i < |Pieces(key)| ==> !DotPiece(Pieces(key)[i])
    ensures SlashText(PlaceAll(root, Pieces(key))) == SlashText(root) + "/" + Slashed(key)
  {
    hide DotPiece;
    PlaceAllExactly(root, Pieces(key));
    SlashTextAppend(root, Pieces(key));
    PiecesText(key);
    assert SlashText(root) + ("/" + Slashed(key)) == SlashText(root) + "/" + Slashed(key);
  }

  lemma CutsShorten(root: seq<string>, key: string)
    requires Stripped(key) != key || BeforeMark(Stripped(key)) != Stripped(key)
    ensures |ObjectAt(root, key)| < |Under(root, key)|
  {
    hide SlashText, PlaceAll, Pieces;
    var cut := BeforeMark(Stripped(key));
    StrippedExactly(key);
    BeforeMarkExactly(Stripped(key));
    PlaceAllExactly(root, Pieces(cut));
    PiecesText(cut);
    ObjectText(root, key);
    DecodeExactly(SlashText(Segments(root, key)));
  }

  lemma DotsShorten(root: seq<string>, key: string)
    requires Stripped(key) == key && BeforeMark(key) == key
    requires exists i :: 0 <= i < |Pieces(key)| && DotPiece(Pieces(key)[i])
    ensures |ObjectAt(root, key)| < |Under(root, key)|
  {
    hide SlashText, PlaceAll, Pieces, DotPiece;
    PlaceAllExactly(root, Pieces(key));
    PiecesText(key);
    ObjectText(root, key);
    DecodeExactly(SlashText(Segments(root, key)));
  }

  lemma PlainExactly(root: seq<string>, key: string)
    requires PlainRoot(root) && Stripped(key) == key && BeforeMark(key) == key
    requires forall i :: 0 <= i < |Pieces(key)| ==> !DotPiece(Pieces(key)[i])
    ensures ObjectAt(root, key) == Under(root, key)
            <==> !HasTriple(key) && forall i :: 0 <= i < |key| ==> key[i] != '\\'
  {
    hide SlashText, PlaceAll, Pieces, DotPiece, HasTriple;
    var text := SlashText(root) + "/" + Slashed(key);
    NoDotsText(root, key);
    ObjectText(root, key);
    DecodeExactly(text);
    SlashedExactly(key);
    TripleBehind(SlashText(root) + "/", Slashed(key));
    if ObjectAt(root, key) == Under(root, key) {
      assert text == Under(root, key);
      assert text[|SlashText(root)| + 1..] == Slashed(key) && Under(root, key)[|SlashText(root)| + 1..] == key;
    }
  }

  /** The exact law: a request reaches the object its key spells if and only if the key has none of
      tab, line end, hash, question mark and backslash, no percent sign before two digits, and no
      dot segment. */
  lemma ObjectIsKeyExactly(root: seq<string>, key: string)
    requires PlainRoot(root)
    ensures ObjectAt(root, key) == Under(root, key) <==> Unaltered(key)
  {
    hide SlashText, PlaceAll, Pieces, DotPiece, HasTriple, PlainRoot, ObjectAt;
    StrippedExactly(key);
    BeforeMarkExactly(key);
    if Stripped(key) != key || BeforeMark(key) != key {
      CutsShorten(root, key);
    } else if exists i :: 0 <= i < |Pieces(key)| && DotPiece(Pieces(key)[i]) {
      DotsShorten(root, key);
    } else {
      PlainExactly(root, key);
    }
  }

  // ---- Names and digests ----

  /** What a caller can check of an accepted namespace and key. */
  predicate HarmlessName(ns: string, key: string) {
    ns != "." && ns != ".." && (forall i :: 0 <= i < |key| ==> HarmlessChar(key[i])) && !HasTriple(key)
  }

  lemma {:induction false} PiecesOfOne(a: string)
    requires '/' !in a && '\\' !in a
    ensures Pieces(a) == [a]
  {
    if a != "" {
      assert a[0] in a && forall c :: c in a[1..] ==> c in a;
      PiecesOfOne(a[1..]);
      assert a == [a[0]] + a[1..];
    }
  }

  lemma {:induction false} PiecesAt(a: string, b: string)
    requires '/' !in a && '\\' !in a
    ensures Pieces(a + "/" + b) == [a] + Pieces(b)
  {
    if a == "" {
      assert (a + "/" + b)[1..] == b;
    } else {
      assert a[0] in a && forall c :: c in a[1..] ==> c in a;
      assert (a + "/" + b)[1..] == a[1..] + "/" + b;
      PiecesAt(a[1..], b);
      assert a == [a[0]] + a[1..];
    }
  }

  lemma {:induction false} EscapeChars(s: string, c: char)
    requires c != '/' && c != '_'
    ensures c in Escape(s) <==> c in s
  {
    if s != "" {
      EscapeChars(s[1..], c);
      assert s == [s[0]] + s[1..];
    }
  }

  lemma {:induction false} EscapeTriples(s: string)
    ensures HasTriple(Escape(s)) <==> HasTriple(s)
  {
    hide HasTriple;
    if s != "" {
      EscapeTriples(s[1..]);
      TripleTail(s);
      EscapeTripleFirst(s);
      var e := Escape(s);
      TripleTail(e);
      if s[0] == '/' {
        TripleTail(e[1..]);
        assert e[1..][1..] == Escape(s[1..]);
      } else {
        assert e[1..] == Escape(s[1..]);
      }
    }
  }

  lemma EscapeTripleFirst(s: string)
    requires s != ""
    ensures TripleFirst(Escape(s)) <==> TripleFirst(s)
    ensures s[0] == '/' ==> !TripleFirst(Escape(s)[1..])
  {
    EscapeHead(s);
    if s[0] == '%' && |s| > 1 {
      EscapeHead(s[1..]);
      assert Escape(s)[1..] == Escape(s[1..]);
      if |s| > 2 && s[1] != '/' {
        EscapeHead(s[2..]);
        assert s[1..][1..] == s[2..];
        assert Escape(s[1..])[1..] == Escape(s[2..]);
      }
    }
  }

  lemma {:induction false} TripleBeforeJson(t: string)
    ensures HasTriple(t + JSON) <==> HasTriple(t)
  {
    hide HasTriple;
    if t == "" {
      assert t + JSON == JSON + "";
      TripleBehind(JSON, "");
    } else {
      TripleBeforeJson(t[1..]);
      TripleTail(t);
      TripleTail(t + JSON);
      assert (t + JSON)[1..] == t[1..] + JSON;
      assert TripleFirst(t + JSON) <==> TripleFirst(t) by {
        assert JSON[0] == '.' && JSON[1] == 'j';
      }
    }
  }

  lemma JsonIsNoDot(t: string)
    ensures !DotPiece(t + JSON)
  {
    assert (t + JSON)[|t| + 4] == 'n' && JSON[4] == 'n';
  }

  lemma NamespaceChars(ns: string, c: char)
    requires ValidNamespace(ns) && !LegalNamespaceChar(c)
    ensures c !in ns
  {}

  lemma NamespaceDots(ns: string)
    requires ValidNamespace(ns)
    ensures DotPiece(Escape(ns)) <==> ns == "." || ns == ".."
  {
    NamespaceChars(ns, '%');
    EscapeChars(ns, '%');
    DotTexts(ns);
    assert '%' !in Escape(ns);
  }

  /** The pieces of the key of a manifest without backslash. */
  lemma ManifestPieces(ns: string, key: string)
    requires ValidNamespace(ns) && '\\' !in key
    ensures Pieces(ManifestKey(ns, key)) == ["manifests", Escape(ns), Escape(key) + JSON]
  {
    hide Pieces, Escape;
    NamespaceChars(ns, '\\');
    EscapeHasNoSlash(ns);
    EscapeHasNoSlash(key);
    EscapeChars(ns, '\\');
    EscapeChars(key, '\\');
    var front, last := "manifests", Escape(key) + JSON;
    PiecesOfOne(last);
    PiecesAt(Escape(ns), last);
    PiecesAt(front, Escape(ns) + "/" + last);
    assert ManifestKey(ns, key) == front + "/" + (Escape(ns) + "/" + last);
  }

  lemma ManifestChars(ns: string, key: string, c: char)
    requires ValidNamespace(ns) && !HarmlessChar(c)
    ensures c in ManifestKey(ns, key) <==> c in key
  {
    hide Escape;
    NamespaceChars(ns, c);
    EscapeChars(ns, c);
    EscapeChars(key, c);
    var front, last := "manifests/", Escape(key) + JSON;
    assert c !in front && c !in JSON && c != '/';
    assert ManifestKey(ns, key) == front + Escape(ns) + "/" + last;
  }

  lemma ManifestTriples(ns: string, key: string)
    requires ValidNamespace(ns)
    ensures HasTriple(ManifestKey(ns, key)) <==> HasTriple(key)
  {
    hide Escape, HasTriple;
    NamespaceChars(ns, '%');
    EscapeChars(ns, '%');
    var front := "manifests/" + Escape(ns) + "/";
    assert forall i :: 0 <= i < |Escape(ns)| ==> Escape(ns)[i] in Escape(ns);
    TripleBehind(front, Escape(key) + JSON);
    TripleBeforeJson(Escape(key));
    EscapeTriples(key);
  }

  /** For accepted names: the object is the one the key spells exactly when the name is harmless. */
  lemma ManifestObjectExactly(root: seq<string>, ns: string, key: string)
    requires PlainRoot(root) && ValidName(ns, key)
    ensures ObjectAt(root, ManifestKey(ns, key)) == Under(root, ManifestKey(ns, key)) <==> HarmlessName(ns, key)
  {
    hide ObjectAt, Under, HasTriple, Pieces, DotPiece, Escape, ManifestKey, PlainRoot, HarmlessChar;
    var k := ManifestKey(ns, key);
    ObjectIsKeyExactly(root, k);
    ManifestTriples(ns, key);
    forall c: char | !HarmlessChar(c)
      ensures c in k <==> c in key
    {
      ManifestChars(ns, key, c);
    }
    SameHarmless(key, k);
    if forall i :: 0 <= i < |key| ==> HarmlessChar(key[i]) {
      ManifestPieces(ns, key);
      NamespaceDots(ns);
      JsonIsNoDot(Escape(key));
      FirstPieceIsNoDot();
      OnlyTheSecond(Pieces(k), "manifests", Escape(ns), Escape(key) + JSON);
    }
  }

  lemma OnlyTheSecond(ps: seq<string>, a: string, b: string, c: string)
    requires ps == [a, b, c] && !DotPiece(a) && !DotPiece(c)
    ensures (forall i :: 0 <= i < |ps| ==> !DotPiece(ps[i])) <==> !DotPiece(b)
  {
    hide DotPiece;
    assert ps[0] == a && ps[1] == b && ps[2] == c;
  }

  lemma SameHarmless(a: string, b: string)
    requires forall c: char :: !HarmlessChar(c) ==> (c in b <==> c in a)
    ensures (forall i :: 0 <= i < |a| ==> HarmlessChar(a[i])) <==> (forall i :: 0 <= i < |b| ==> HarmlessChar(b[i]))
    ensures (forall i :: 0 <= i < |a| ==> HarmlessChar(a[i])) ==> '\\' !in a
  {
    assert !HarmlessChar('\\');
    hide HarmlessChar;
    forall i | 0 <= i < |a| && !HarmlessChar(a[i])
      ensures exists j :: 0 <= j < |b| && b[j] == a[i]
    {
      assert a[i] in b;
    }
    forall i | 0 <= i < |b| && !HarmlessChar(b[i])
      ensures exists j :: 0 <= j < |a| && a[j] == b[i]
    {
      assert b[i] in a;
    }
  }

  lemma FirstPieceIsNoDot()
    ensures !DotPiece("manifests") && !DotPiece("blobs")
  {}

  /** The object of a digest is always the one its key spells. */
  lemma BlobObject(root: seq<string>, hex: string)
    requires PlainRoot(root) && IsDigestHex(hex)
    ensures ObjectAt(root, BlobKey(hex)) == Under(root, BlobKey(hex))
  {
    hide ObjectAt, Under, HasTriple, PlainRoot, Pieces, DotPiece, HarmlessChar;
    var k := BlobKey(hex);
    ObjectIsKeyExactly(root, k);
    DigestChars(hex);
    PiecesOfOne(hex);
    PiecesAt("blobs", hex);
    assert "blobs" + "/" + hex == k;
    FirstPieceIsNoDot();
    TripleBehind(k, "");
    assert k + "" == k;
    NoTripleInNothing();
  }

  lemma DigestChars(hex: string)
    requires IsDigestHex(hex)
    ensures forall i :: 0 <= i < |BlobKey(hex)| ==> HarmlessChar(BlobKey(hex)[i]) && BlobKey(hex)[i] != '%'
    ensures '/' !in hex && '\\' !in hex && !DotPiece(hex)
  {
    assert forall i :: 0 <= i < |hex| ==> BlobKey(hex)[6 + i] == hex[i];
  }
}
