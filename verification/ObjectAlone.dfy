/** Which accepted names have their object of the object store to themselves. What tells is room: a
    key that is not full, or not full once pairs of underscores are written as slashes, has another
    form that the URL parser turns into the same object; a full one has none, because everything
    the parser or the store undoes takes more bytes than it leaves. */
module ObjectAlone {
  import opened Percent
  import opened Naming
  import opened ObjectUrl
  import opened ObjectSharing

  /** The length of the shortest text with this escaped form. */
  function Weight(t: string): nat {
    |Unescape(t)|
  }

  lemma {:induction false} WeightFront(c: char, t: string)
    ensures Weight(t) <= Weight([c] + t) <= Weight(t) + 1
    ensures c != '_' ==> Weight([c] + t) == Weight(t) + 1
    decreases |t|
  {
    var x := [c] + t;
    assert x[1..] == t;
    if c == '_' && t != "" && t[0] == '_' {
      assert x[2..] == t[1..] && [t[0]] + t[1..] == t;
      WeightFront(t[0], t[1..]);
    }
  }

  lemma {:induction false} WeightAppend(a: string, b: string)
    requires b != "" && b[0] != '_'
    ensures Weight(a + b) == Weight(a) + Weight(b)
    decreases |a|
  {
    if a == "" {
      assert a + b == b;
    } else if |a| >= 2 && a[0] == '_' && a[1] == '_' {
      assert (a + b)[2..] == a[2..] + b;
      WeightAppend(a[2..], b);
    } else {
      assert (a + b)[1..] == a[1..] + b;
      WeightAppend(a[1..], b);
    }
  }

  /** Around a character that is no underscore, both sides weigh what they weigh alone. */
  lemma WeightAround(a: string, c: char, b: string)
    requires c != '_'
    ensures Weight(a + [c] + b) == Weight(a) + 1 + Weight(b)
  {
    hide Weight;
    assert a + [c] + b == a + ([c] + b);
    WeightAppend(a, [c] + b);
    WeightFront(c, b);
  }

  /** A name weighs no more than it has bytes. */
  lemma {:induction false} WeightEscape(s: string)
    ensures Weight(Escape(s)) <= |s|
  {
    if s != "" {
      WeightEscape(s[1..]);
      var rest := Escape(s[1..]);
      WeightFront(s[0], rest);
      if s[0] == '/' {
        assert (['_', '_'] + rest)[2..] == rest;
      }
    }
  }

  lemma WeightJson(t: string)
    ensures Weight(t + JSON) == Weight(t) + 5
  {
    WeightAppend(t, JSON);
    assert Weight(JSON) == 5 by {
      hide Weight;
      assert JSON == ['.'] + "json" && "json" == ['j'] + "son" && "son" == ['s'] + "on" && "on" == ['o'] + "n";
      assert "n" == ['n'] + "";
      WeightFront('.', "json");
      WeightFront('j', "son");
      WeightFront('s', "on");
      WeightFront('o', "n");
      WeightFront('n', "");
      NothingWeighs();
    }
  }

  lemma NothingWeighs()
    ensures Weight("") == 0
  {}

  // ---- Whatever the parser or the store undoes makes a text lighter ----

  lemma {:induction false} StrippedLighter(t: string)
    ensures Stripped(t) == t || Weight(Stripped(t)) < Weight(t)
    decreases |t|
  {
    if t != "" {
      var rest := t[1..];
      assert t == [t[0]] + rest;
      StrippedLighter(rest);
      if Dropped(t[0]) {
        WeightFront(t[0], rest);
      } else if |t| >= 2 && t[0] == '_' && t[1] == '_' {
        StrippedLighter(t[2..]);
        assert rest[1..] == t[2..] && Stripped(rest) == ['_'] + Stripped(t[2..]);
        assert Stripped(t)[2..] == Stripped(t[2..]);
      } else {
        WeightFront(t[0], Stripped(rest));
      }
    }
  }

  lemma {:induction false} DecodedLighter(t: string)
    ensures Decode(t) == t || Weight(Decode(t)) < Weight(t)
    decreases |t|
  {
    if t != "" {
      hide HexValue;
      if TripleFirst(t) {
        TripleWeighs(t);
        DecodedLighter(t[3..]);
        WeightFront(Decode(t)[0], Decode(t[3..]));
      } else if |t| >= 2 && t[0] == '_' && t[1] == '_' {
        DecodedLighter(t[2..]);
        assert Decode(t[1..]) == ['_'] + Decode(t[2..]);
        assert Decode(t)[2..] == Decode(t[2..]);
        assert t == "__" + t[2..];
      } else {
        DecodedLighter(t[1..]);
        WeightFront(t[0], Decode(t[1..]));
        assert t == [t[0]] + t[1..];
      }
    }
  }

  lemma TripleWeighs(t: string)
    requires TripleFirst(t)
    ensures Weight(t) == Weight(t[3..]) + 3
  {
    assert t == [t[0]] + ([t[1]] + ([t[2]] + t[3..]));
    hide Weight;
    WeightFront(t[2], t[3..]);
    WeightFront(t[1], [t[2]] + t[3..]);
    WeightFront(t[0], [t[1]] + ([t[2]] + t[3..]));
  }

  /** What is cut off at a mark. */
  lemma {:induction false} BeforeMarkIs(t: string) returns (c: char, rest: string)
    ensures BeforeMark(t) == t || (Mark(c) && t == BeforeMark(t) + [c] + rest)
  {
    c, rest := '#', "";
    if t != "" {
      assert t == [t[0]] + t[1..];
      if Mark(t[0]) {
        c, rest := t[0], t[1..];
      } else {
        c, rest := BeforeMarkIs(t[1..]);
        assert BeforeMark(t[1..]) != t[1..] ==>
            t == [t[0]] + BeforeMark(t[1..]) + [c] + rest;
      }
    }
  }

  /** The last piece, and the text before it. */
  lemma {:induction false} LastPieceIs(t: string) returns (q: string, c: char)
    ensures '/' !in Pieces(t)[|Pieces(t)| - 1]
    ensures if |Pieces(t)| == 1 then Pieces(t) == [t]
            else (c == '/' || c == '\\') && t == q + [c] + Pieces(t)[|Pieces(t)| - 1]
  {
    q, c := "", '/';
    if t != "" {
      var rest := Pieces(t[1..]);
      assert t == [t[0]] + t[1..];
      q, c := LastPieceIs(t[1..]);
      if t[0] == '/' || t[0] == '\\' {
        if |rest| == 1 {
          q, c := "", t[0];
        } else {
          assert t == [t[0]] + q + [c] + rest[|rest| - 1];
          q := [t[0]] + q;
        }
      } else if |rest| > 1 {
        assert t == [t[0]] + q + [c] + rest[|rest| - 1];
        q := [t[0]] + q;
      }
    }
  }

  lemma LastPieceLighter(t: string)
    ensures var ps := Pieces(t);
            '/' !in ps[|ps| - 1] && (ps == [t] || Weight(ps[|ps| - 1]) < Weight(t))
  {
    hide Weight, Pieces;
    var q, c := LastPieceIs(t);
    if |Pieces(t)| > 1 {
      WeightAround(q, c, Pieces(t)[|Pieces(t)| - 1]);
    }
  }

  /** What is left of the file name of a key when it has been stripped and cut. */
  function Kept(f: string): string {
    BeforeMark(Stripped(f))
  }

  lemma KeptLighter(f: string)
    ensures Kept(f) == f || Weight(Kept(f)) < Weight(f)
  {
    hide Weight, Stripped, BeforeMark;
    StrippedLighter(f);
    var c, rest := BeforeMarkIs(Stripped(f));
    if BeforeMark(Stripped(f)) != Stripped(f) {
      WeightAround(BeforeMark(Stripped(f)), c, rest);
    }
  }

  // ---- The last segment of an object ----

  lemma {:induction false} PlaceLastDot(segs: seq<string>, ps: seq<string>)
    requires ps != [] && DotPiece(ps[|ps| - 1])
    ensures var out := PlaceAll(segs, ps); out != [] && out[|out| - 1] == ""
    decreases |ps|
  {
    hide DotPiece, SingleDot;
    if |ps| == 1 {
      assert ps[1..] == [];
    } else {
      PlaceLastDot(Place(segs, ps[0], false), ps[1..]);
    }
  }

  lemma {:induction false} BeforeMarkBehind(a: string, b: string)
    requires forall i :: 0 <= i < |a| ==> !Mark(a[i])
    ensures BeforeMark(a + b) == a + BeforeMark(b)
  {
    if a == "" {
      assert a + b == b;
    } else {
      assert (a + b)[0] == a[0] && (a + b)[1..] == a[1..] + b && a == [a[0]] + a[1..];
      BeforeMarkBehind(a[1..], b);
    }
  }

  function FileText(key: string): string {
    Escape(key) + JSON
  }

  /** The pieces of a manifest's key, of any accepted key. */
  lemma PiecesOfManifest(ns: string, key: string)
    requires ValidNamespace(ns)
    ensures Pieces(Kept(ManifestKey(ns, key))) == ["manifests", Escape(ns)] + Pieces(Kept(FileText(key)))
  {
    hide Pieces, Escape, Stripped, BeforeMark, ValidNamespace, FileText, ManifestKey;
    var front, f := "manifests/" + Escape(ns) + "/", FileText(key);
    FileTextIs(ns, key);
    FrontIsPlain(ns);
    StrippedAppend(front, f);
    StrippedExactly(front);
    BeforeMarkBehind(front, Stripped(f));
    PiecesAt(Escape(ns), Kept(f));
    PiecesAt("manifests", Escape(ns) + "/" + Kept(f));
    assert front + Kept(f) == "manifests" + "/" + (Escape(ns) + "/" + Kept(f));
    assert ["manifests"] + ([Escape(ns)] + Pieces(Kept(f))) == ["manifests", Escape(ns)] + Pieces(Kept(f));
  }

  lemma FileTextIs(ns: string, key: string)
    ensures ManifestKey(ns, key) == "manifests/" + Escape(ns) + "/" + FileText(key)
  {}

  lemma FrontIsPlain(ns: string)
    requires ValidNamespace(ns)
    ensures var front := "manifests/" + Escape(ns) + "/";
            forall i :: 0 <= i < |front| ==> HarmlessChar(front[i]) && front[i] != '%'
    ensures '/' !in Escape(ns) && '\\' !in Escape(ns)
  {
    hide Escape;
    EscapeHasNoSlash(ns);
    var front := "manifests/" + Escape(ns) + "/";
    forall c: char | !HarmlessChar(c) || c == '%'
      ensures c !in Escape(ns)
    {
      NamespaceChars(ns, c);
      EscapeChars(ns, c);
    }
    forall i | 0 <= i < |front|
      ensures HarmlessChar(front[i]) && front[i] != '%'
    {
      if 10 <= i < 10 + |Escape(ns)| {
        assert front[i] == Escape(ns)[i - 10];
        assert front[i] in Escape(ns);
      }
    }
    assert !HarmlessChar('\\');
  }

  /** The last segment of what a manifest's key is addressed to weighs less than its file name,
      unless it is the file name. */
  lemma LastSegment(root: seq<string>, ns: string, key: string)
    requires ValidNamespace(ns)
    ensures var segs := Segments(root, ManifestKey(ns, key));
            segs != []
            && '/' !in segs[|segs| - 1]
            && (segs[|segs| - 1] == FileText(key) || Weight(segs[|segs| - 1]) < Weight(FileText(key)))
  {
    hide Weight, Pieces, Kept, DotPiece, FileText, ManifestKey, PlaceAll, Segments;
    var f := FileText(key);
    PiecesOfManifest(ns, key);
    LastPieceLighter(Kept(f));
    KeptLighter(f);
    var ps := Pieces(Kept(ManifestKey(ns, key)));
    SegmentsAre(root, ManifestKey(ns, key));
    if DotPiece(ps[|ps| - 1]) {
      PlaceLastDot(root, ps);
      NothingWeighs();
      FileTextWeighs(key);
    } else {
      PlaceLast(root, ps);
    }
  }

  lemma SegmentsAre(root: seq<string>, k: string)
    ensures Segments(root, k) == PlaceAll(root, Pieces(Kept(k)))
  {}

  lemma FileTextWeighs(key: string)
    ensures Weight(FileText(key)) == Weight(Escape(key)) + 5
  {
    hide Weight, Escape;
    WeightJson(Escape(key));
  }

  lemma LastSlash(a: string, b: string, a': string, b': string) returns (q: string)
    requires '/' !in b && a + "/" + b == a' + "/" + b'
    ensures b' == b || b' == q + "/" + b
  {
    q := "";
    var t := a + "/" + b;
    assert t[|a|] == '/' && t[|a'|] == '/';
    if |b'| == |b| {
      assert t[|a| + 1..] == b && t[|a| + 1..] == b';
    } else if |b'| > |b| {
      q := b'[..|a| - |a'| - 1];
      assert t[|a'| + 1..] == b';
      assert b'[|q|] == '/' && b'[|q| + 1..] == t[|a| + 1..] == b;
    }
  }

  /** An object whose last name weighs as much as the file name of a key has that file name last. */
  lemma SameFile(root: seq<string>, ns: string, key: string, a: string, f: string)
    requires ValidNamespace(ns) && '/' !in f && Weight(f) >= Weight(FileText(key))
    requires ObjectAt(root, ManifestKey(ns, key)) == a + "/" + f
    ensures f == FileText(key)
  {
    hide Weight, Segments, ManifestKey, ObjectAt, FileText, SlashText, Decode;
    var segs := Segments(root, ManifestKey(ns, key));
    LastSegment(root, ns, key);
    ObjectText(root, ManifestKey(ns, key));
    var n := |segs| - 1;
    var last := segs[n];
    SlashTextAppend(segs[..n], [last]);
    SlashTextOne(last);
    assert segs[..n] + [last] == segs;
    var b := SlashText(segs[..n]);
    assert b + ("/" + last) == b + ['/'] + last;
    DecodeAfter(b, '/', last);
    var q := LastSlash(a, f, Decode(b), Decode(last));
    assert q + ['/'] + f == q + "/" + f;
    WeightAround(q, '/', f);
    DecodedLighter(last);
  }

  // ---- Alone ----

  lemma UnderFile(root: seq<string>, ns: string, key: string)
    ensures Under(root, ManifestKey(ns, key)) == (SlashText(root) + "/manifests/" + Escape(ns)) + "/" + FileText(key)
    ensures |Under(root, ManifestKey(ns, key))| == |SlashText(root)| + 12 + |Escape(ns)| + |FileText(key)|
  {
    hide SlashText, Escape;
  }

  lemma FileTextInjective(key: string, key': string)
    requires FileText(key) == FileText(key')
    ensures Escape(key) == Escape(key')
  {
    var f, f' := FileText(key), FileText(key');
    assert f[..|f| - 5] == Escape(key) && f'[..|f'| - 5] == Escape(key');
  }

  lemma EscapeOneHasNoSlash(key: string)
    ensures '/' !in FileText(key)
  {
    EscapeHasNoSlash(key);
  }

  /** Whether a name is harmless depends on its escaped form. */
  lemma SameHarm(ns: string, key: string, ns': string, key': string)
    requires ns' != "." && ns' != ".." && HarmlessName(ns, key) && Escape(key') == Escape(key)
    ensures HarmlessName(ns', key')
  {
    hide HasTriple, Escape;
    EscapeTriples(key);
    EscapeTriples(key');
    forall c: char | !HarmlessChar(c)
      ensures c in key' <==> c in key
    {
      EscapeChars(key, c);
      EscapeChars(key', c);
    }
    SameHarmless(key, key');
  }

  lemma DotsPlaced(root: seq<string>, dots: string, f: string)
    requires (dots == "." || dots == "..") && !DotPiece(f)
    ensures |SlashText(PlaceAll(root, ["manifests", dots, f]))| <= |SlashText(root)| + 11 + |f|
  {
    var ps, below := ["manifests", dots, f], root + ["manifests"];
    assert !DotPiece("manifests") && DotPiece(dots);
    hide DotPiece;
    assert ps[1..] == [dots, f] && ps[1..][1..] == [f] && [f][1..] == [];
    PlaceOne(root, ps);
    PlaceOne(below, ps[1..]);
    assert below[..|below| - 1] == root;
    SlashTextAppend(root, ["manifests"]);
    SlashTextOne("manifests");
    SlashTextAppend(root, [f]);
    SlashTextAppend(below, [f]);
    SlashTextOne(f);
  }

  /** A namespace that is a dot segment disappears. */
  lemma DotsDisappear(root: seq<string>, ns: string, key: string)
    requires ValidName(ns, key) && '\\' !in key && (ns == "." || ns == "..")
    requires Kept(ManifestKey(ns, key)) == ManifestKey(ns, key)
    ensures |ObjectAt(root, ManifestKey(ns, key))| <= |SlashText(root)| + 11 + |FileText(key)|
  {
    hide Pieces, SlashText, DotPiece, Escape, Decode, ValidNamespace, ValidKey, Kept, ManifestKey, Segments;
    var k := ManifestKey(ns, key);
    SegmentsAre(root, k);
    ManifestPieces(ns, key);
    DotTexts(ns);
    ObjectText(root, k);
    DecodeExactly(SlashText(Segments(root, k)));
    JsonIsNoDot(Escape(key));
    DotsPlaced(root, ns, FileText(key));
  }

  /** Some other accepted name, of another escaped form, has the same object. */
  ghost predicate Shared(root: seq<string>, ns: string, key: string) {
    exists ns', key' :: ValidName(ns', key') && NameOf(ns', key') != NameOf(ns, key)
                        && ObjectAt(root, ManifestKey(ns', key')) == ObjectAt(root, ManifestKey(ns, key))
  }

  /** A full key of a harmless name leaves no room for anything that the parser would undo. */
  lemma FullIsAlone(root: seq<string>, ns: string, key: string)
    requires PlainRoot(root) && ValidName(ns, key) && HarmlessName(ns, key) && Weight(Escape(key)) >= KEY_LIMIT
    ensures !Shared(root, ns, key)
  {
    hide ObjectAt, Under, ManifestKey, NameOf, HarmlessName, ValidNamespace, PlainRoot, Weight, FileText;
    forall ns', key' | ValidName(ns', key')
                       && ObjectAt(root, ManifestKey(ns', key')) == ObjectAt(root, ManifestKey(ns, key))
      ensures NameOf(ns', key') == NameOf(ns, key)
    {
      SameObjectSameName(root, ns, key, ns', key');
    }
  }

  lemma SameObjectSameName(root: seq<string>, ns: string, key: string, ns': string, key': string)
    requires PlainRoot(root) && ValidName(ns, key) && HarmlessName(ns, key) && Weight(Escape(key)) >= KEY_LIMIT
    requires ValidName(ns', key')
    requires ObjectAt(root, ManifestKey(ns', key')) == ObjectAt(root, ManifestKey(ns, key))
    ensures NameOf(ns', key') == NameOf(ns, key)
  {
    hide ObjectAt, Under, ManifestKey, NameOf, HarmlessName, ValidNamespace, PlainRoot, Weight, FileText, SlashText,
      Escape;
    ManifestObjectExactly(root, ns, key);
    UnderFile(root, ns, key);
    FileTextWeighs(key);
    FileTextWeighs(key');
    WeightEscape(key');
    EscapeOneHasNoSlash(key);
    SameFile(root, ns', key', SlashText(root) + "/manifests/" + Escape(ns), FileText(key));
    FileTextInjective(key, key');
    SameNamespace(root, ns, key, ns', key');
  }

  lemma SameFileText(key: string, key': string)
    requires Escape(key') == Escape(key)
    ensures FileText(key') == FileText(key)
  {}

  lemma KeyIsKept(ns: string, ns': string, key: string)
    requires HarmlessName(ns, key) && ValidNamespace(ns')
    ensures '\\' !in key && Kept(ManifestKey(ns', key)) == ManifestKey(ns', key)
  {
    hide HasTriple, ManifestKey, Stripped, BeforeMark, ValidNamespace;
    var k := ManifestKey(ns', key);
    forall c: char | !HarmlessChar(c)
      ensures c in k <==> c in key
    {
      ManifestChars(ns', key, c);
    }
    SameHarmless(key, k);
    StrippedExactly(k);
    BeforeMarkExactly(k);
  }

  lemma SameNamespace(root: seq<string>, ns: string, key: string, ns': string, key': string)
    requires PlainRoot(root) && ValidName(ns, key) && HarmlessName(ns, key) && ValidName(ns', key')
    requires ObjectAt(root, ManifestKey(ns', key')) == ObjectAt(root, ManifestKey(ns, key))
    requires Escape(key') == Escape(key)
    ensures NameOf(ns', key') == NameOf(ns, key)
  {
    hide ObjectAt, Under, ManifestKey, NameOf, HarmlessName, ValidNamespace, ValidKey, PlainRoot, FileText, SlashText,
      Escape, Kept;
    if ns' == "." || ns' == ".." {
      ManifestObjectExactly(root, ns, key);
      UnderFile(root, ns, key);
      SameHarm(ns, key, "a", key');
      KeyIsKept("a", ns', key');
      DotsDisappear(root, ns', key');
      EscapeHead(ns);
      SameFileText(key, key');
    } else {
      SameHarm(ns, key, ns', key');
      var hex := seq(64, i => '0');
      assert IsDigestHex(hex);
      HarmlessNamesApart(root, ns, key, ns', key', hex);
    }
  }

  // ---- Not alone ----

  /** A manifest's key around one character of a key. */
  lemma KeyAround(ns: string, a: string, c: char, b: string)
    requires c != '/'
    ensures Escape(a + [c] + b) == Escape(a) + [c] + Escape(b)
    ensures ManifestKey(ns, a + [c] + b)
            == ("manifests/" + Escape(ns) + "/" + Escape(a)) + [c] + (Escape(b) + JSON)
  {
    EscapeAppend(a + [c], b);
    EscapeAppend(a, [c]);
    EscapeNothing([c]);
  }

  /** A character in a valid key may be another one, if that is no dot. */
  lemma StillValid(a: string, c: char, b: string, c': char)
    requires ValidKey(a + [c] + b) && c' != '.'
    ensures ValidKey(a + [c'] + b)
  {
    var s, t := a + [c] + b, a + [c'] + b;
    assert t[|a|] == c' && forall i :: 0 <= i < |t| && i != |a| ==> t[i] == s[i];
    forall i | 0 <= i < |t| - 1
      ensures !(t[i] == '.' && t[i + 1] == '.')
    {
      assert !(s[i] == '.' && s[i + 1] == '.');
    }
  }

  /** What is skipped or cuts off can be written otherwise. */
  lemma OtherwiseShared(root: seq<string>, ns: string, key: string, c: char)
    requires ValidName(ns, key) && c in key && (Dropped(c) || Mark(c))
    ensures Shared(root, ns, key)
  {
    hide ObjectAt, ValidNamespace, ValidKey, Escape, ManifestKey;
    var i :| 0 <= i < |key| && key[i] == c;
    var a, b := key[..i], key[i + 1..];
    assert key == a + [c] + b;
    var c' := if c == '\t' then '\n' else if Dropped(c) then '\t' else if c == '#' then '?' else '#';
    var key' := a + [c'] + b;
    StillValid(a, c, b, c');
    KeyAround(ns, a, c, b);
    KeyAround(ns, a, c', b);
    assert Escape(key)[|Escape(a)|] == c && Escape(key')[|Escape(a)|] == c';
    var front, back := "manifests/" + Escape(ns) + "/" + Escape(a), Escape(b) + JSON;
    if Dropped(c) {
      DropsOut(root, front, c, back);
      DropsOut(root, front, c', back);
    } else {
      MarkCuts(root, front, c, back);
      MarkCuts(root, front, c', back);
    }
    assert NameOf(ns, key') != NameOf(ns, key);
  }

  lemma {:induction false} EscapeDots(s: string)
    ensures s != "" ==> (Escape(s)[0] == '.' <==> s[0] == '.')
    ensures Adjacent(Escape(s), '.', '.') <==> Adjacent(s, '.', '.')
  {
    if s != "" {
      EscapeDots(s[1..]);
      var e, rest := Escape(s), Escape(s[1..]);
      EscapeHead(s[1..]);
      DotsInTail(s);
      if s[0] == '/' {
        assert e == ['_', '_'] + rest;
        DotsInTail(e);
        DotsInTail(e[1..]);
        assert e[1..][1..] == rest;
      } else {
        assert e == [s[0]] + rest && e[1..] == rest;
        DotsInTail(e);
      }
    }
  }

  lemma DotsInTail(t: string)
    requires t != ""
    ensures Adjacent(t, '.', '.') <==> (|t| >= 2 && t[0] == '.' && t[1] == '.') || Adjacent(t[1..], '.', '.')
  {
    assert forall i :: 0 <= i < |t[1..]| ==> t[1..][i] == t[i + 1];
    if |t| >= 2 && t[0] == '.' && t[1] == '.' {
      assert Adjacent(t, '.', '.');
    }
    if Adjacent(t[1..], '.', '.') {
      var i :| 0 <= i < |t[1..]| - 1 && t[1..][i] == '.' && t[1..][i + 1] == '.';
      assert t[i + 1] == '.' && t[i + 2] == '.';
    }
    if Adjacent(t, '.', '.') {
      var i :| 0 <= i < |t| - 1 && t[i] == '.' && t[i + 1] == '.';
      assert i > 0 ==> t[1..][i - 1] == '.' && t[1..][i] == '.';
    }
  }

  lemma LongerByTab(s: string)
    requires !Adjacent(s, '.', '.') && |s| < KEY_LIMIT
    ensures ValidKey(s + "\t")
  {
    var t := s + "\t";
    forall i | 0 <= i < |t| - 1
      ensures !(t[i] == '.' && t[i + 1] == '.')
    {
      assert t[i] == s[i] && (i + 1 < |s| ==> t[i + 1] == s[i + 1]);
    }
  }

  /** With room, a tab behind the shortest name of the same form. */
  lemma RoomIsShared(root: seq<string>, ns: string, key: string)
    requires ValidName(ns, key) && Weight(Escape(key)) < KEY_LIMIT
    ensures Shared(root, ns, key)
  {
    hide ObjectAt, ValidNamespace, Escape, Unescape, ManifestKey, Adjacent;
    var short := Unescape(Escape(key));
    EscapeHasNoSlash(key);
    EscapeUnescape(Escape(key));
    EscapeDots(key);
    EscapeDots(short);
    var key' := short + "\t";
    LongerByTab(short);
    KeyAround(ns, short, '\t', "");
    assert key' == short + ['\t'] + "";
    var front := "manifests/" + Escape(ns) + "/" + Escape(key);
    DropsOut(root, front, '\t', Escape("") + JSON);
    assert Escape("") + JSON == JSON by { NothingEscapes(); }
    ManifestKeyIs(ns, key);
    assert |Escape(key')| > |Escape(key)|;
    assert NameOf(ns, key') != NameOf(ns, key);
  }

  lemma NothingEscapes()
    ensures Escape("") == ""
  {}

  lemma ManifestKeyIs(ns: string, key: string)
    ensures ManifestKey(ns, key) == ("manifests/" + Escape(ns) + "/" + Escape(key)) + JSON
  {
    hide Escape;
  }

  /** The exact law, for accepted names without backslash and encoded byte outside the namespaces
      `.` and `..`: another accepted name, of another escaped form, has the same object if and only
      if the key has a tab, a line end, a hash or a question mark, or is not full when pairs of
      underscores are written as slashes. */
  lemma SharedExactly(root: seq<string>, ns: string, key: string)
    requires PlainRoot(root) && ValidName(ns, key)
    requires ns != "." && ns != ".." && '\\' !in key && !HasTriple(key)
    ensures Shared(root, ns, key)
            <==> (exists c :: c in key && (Dropped(c) || Mark(c))) || |Unescape(Escape(key))| < KEY_LIMIT
  {
    hide Shared, ValidName, PlainRoot, HasTriple, Escape, Unescape;
    if c :| c in key && (Dropped(c) || Mark(c)) {
      OtherwiseShared(root, ns, key, c);
    } else if Weight(Escape(key)) < KEY_LIMIT {
      RoomIsShared(root, ns, key);
    } else {
      assert forall i :: 0 <= i < |key| ==> key[i] in key && HarmlessChar(key[i]);
      FullIsAlone(root, ns, key);
    }
  }
}
