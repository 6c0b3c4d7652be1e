/** Which accepted names share an object of the object store, and which reach a blob. */
module ObjectSharing {
  import opened Text
  import opened Percent
  import opened Naming
  import opened ObjectUrl

  // ---- Names whose keys mean what they spell ----

  lemma FirstSlash(a: string, b: string, a': string, b': string)
    requires '/' !in a && '/' !in a' && a + "/" + b == a' + "/" + b'
    ensures a == a' && b == b'
  {
    SplitOnceAt(a, '/', b);
    SplitOnceAt(a', '/', b');
    assert a + "/" + b == a + ['/'] + b && a' + "/" + b' == a' + ['/'] + b';
  }

  /** Two manifests have one key exactly when their escaped names agree, and none has a blob's. */
  lemma ManifestKeysDistinct(ns: string, key: string, ns': string, key': string, hex: string)
    ensures ManifestKey(ns, key) == ManifestKey(ns', key') <==> NameOf(ns, key) == NameOf(ns', key')
    ensures ManifestKey(ns, key) != BlobKey(hex)
  {
    hide Escape;
    assert ManifestKey(ns, key)[0] == 'm' && BlobKey(hex)[0] == 'b';
    if ManifestKey(ns, key) == ManifestKey(ns', key') {
      EscapeHasNoSlash(ns);
      EscapeHasNoSlash(ns');
      KeyTextInjective(Escape(ns), Escape(key), Escape(ns'), Escape(key'));
    }
  }

  lemma KeyTextInjective(a: string, b: string, a': string, b': string)
    requires '/' !in a && '/' !in a'
    requires "manifests/" + a + "/" + (b + JSON) == "manifests/" + a' + "/" + (b' + JSON)
    ensures a == a' && b == b'
  {
    AfterPrefix(a, b);
    AfterPrefix(a', b');
    FirstSlash(a, b + JSON, a', b' + JSON);
    var f, f' := b + JSON, b' + JSON;
    assert f[..|b|] == b && f'[..|b'|] == b' && |b| == |b'|;
  }

  lemma AfterPrefix(a: string, b: string)
    ensures ("manifests/" + a + "/" + (b + JSON))[|"manifests/"|..] == a + "/" + (b + JSON)
  {}

  lemma UnderInjective(root: seq<string>, k: string, k': string)
    ensures Under(root, k) == Under(root, k') <==> k == k'
  {
    assert Under(root, k)[|SlashText(root)| + 1..] == k && Under(root, k')[|SlashText(root)| + 1..] == k';
  }

  /** Harmless names share an object exactly when their escaped names agree, and never a blob's. */
  lemma HarmlessNamesApart(root: seq<string>, ns: string, key: string, ns': string, key': string, hex: string)
    requires PlainRoot(root) && IsDigestHex(hex)
    requires ValidName(ns, key) && HarmlessName(ns, key) && ValidName(ns', key') && HarmlessName(ns', key')
    ensures ObjectAt(root, ManifestKey(ns, key)) == ObjectAt(root, ManifestKey(ns', key'))
            <==> NameOf(ns, key) == NameOf(ns', key')
    ensures ObjectAt(root, ManifestKey(ns, key)) != ObjectAt(root, BlobKey(hex))
  {
    hide ObjectAt, Under, ManifestKey, BlobKey, NameOf, HarmlessName, ValidName, PlainRoot, IsDigestHex;
    ManifestObjectExactly(root, ns, key);
    ManifestObjectExactly(root, ns', key');
    BlobObject(root, hex);
    UnderInjective(root, ManifestKey(ns, key), ManifestKey(ns', key'));
    UnderInjective(root, ManifestKey(ns, key), BlobKey(hex));
    ManifestKeysDistinct(ns, key, ns', key', hex);
  }

  // ---- Names that are not harmless ----

  lemma {:induction false} StrippedAppend(a: string, b: string)
    ensures Stripped(a + b) == Stripped(a) + Stripped(b)
  {
    if a == "" {
      assert a + b == b;
    } else {
      assert (a + b)[0] == a[0] && (a + b)[1..] == a[1..] + b;
      StrippedAppend(a[1..], b);
    }
  }

  lemma {:induction false} BeforeMarkCuts(a: string, c: char, b: string)
    requires Mark(c)
    ensures BeforeMark(a + [c] + b) == BeforeMark(a)
  {
    if a != "" {
      assert (a + [c] + b)[0] == a[0] && (a + [c] + b)[1..] == a[1..] + [c] + b;
      BeforeMarkCuts(a[1..], c, b);
    }
  }

  /** Whatever follows a hash or a question mark makes no difference to the object. */
  lemma MarkCuts(root: seq<string>, a: string, c: char, b: string)
    requires Mark(c)
    ensures ObjectAt(root, a + [c] + b) == ObjectAt(root, a)
  {
    StrippedAppend(a + [c], b);
    StrippedAppend(a, [c]);
    assert Stripped([c]) == [c] by {
      assert [c][1..] == "";
    }
    BeforeMarkCuts(Stripped(a), c, Stripped(b));
  }

  /** A tab or a line end makes no difference either. */
  lemma DropsOut(root: seq<string>, a: string, c: char, b: string)
    requires Dropped(c)
    ensures ObjectAt(root, a + [c] + b) == ObjectAt(root, a + b)
  {
    StrippedAppend(a + [c], b);
    StrippedAppend(a, [c]);
    StrippedAppend(a, b);
    assert Stripped(a) + "" == Stripped(a);
    assert Stripped([c]) == "" by {
      assert [c][1..] == "";
    }
  }

  /** Two accepted keys, each with no other accepted name of its escaped form, and one object. */
  lemma HashKeysShare(root: seq<string>)
    ensures ValidName("ns", "a#1") && ValidName("ns", "a#2") && OwnName("ns", "a#1") && OwnName("ns", "a#2")
    ensures NameOf("ns", "a#1") != NameOf("ns", "a#2")
    ensures ObjectAt(root, ManifestKey("ns", "a#1")) == ObjectAt(root, ManifestKey("ns", "a#2"))
    ensures ObjectAt(root, ManifestKey("ns", "a#1")) == ObjectAt(root, "manifests/ns/a")
  {
    hide ObjectAt, Escape, ValidNamespace, ValidKey, Unshared;
    HashKey(root, "1");
    HashKey(root, "2");
    assert "a#" + "1" == "a#1" && "a#" + "2" == "a#2" && "a#1"[2] != "a#2"[2];
  }

  lemma HashKey(root: seq<string>, n: string)
    requires n == "1" || n == "2"
    ensures ValidName("ns", "a#" + n) && OwnName("ns", "a#" + n) && Escape("a#" + n) == "a#" + n
    ensures ObjectAt(root, ManifestKey("ns", "a#" + n)) == ObjectAt(root, "manifests/ns/a")
  {
    hide ObjectAt, Escape;
    EscapeNothing("ns");
    EscapeNothing("a#" + n);
    MarkCuts(root, "manifests/ns/a", '#', n + JSON);
    assert "manifests/" + "ns" + "/" + (("a#" + n) + JSON) == "manifests/ns/a" + "#" + (n + JSON);
  }

  lemma {:induction false} EscapeNothing(s: string)
    requires '/' !in s
    ensures Escape(s) == s
  {
    if s != "" {
      assert s[0] in s && forall c :: c in s[1..] ==> c in s;
      EscapeNothing(s[1..]);
      assert s == [s[0]] + s[1..];
    }
  }

  // ---- Reaching a blob ----

  lemma {:induction false} PiecesAtBackslash(a: string, b: string)
    requires '/' !in a && '\\' !in a
    ensures Pieces(a + "\\" + b) == [a] + Pieces(b)
  {
    if a == "" {
      assert (a + "\\" + b)[1..] == b;
    } else {
      assert a[0] in a && forall c :: c in a[1..] ==> c in a;
      assert (a + "\\" + b)[1..] == a[1..] + "\\" + b;
      PiecesAtBackslash(a[1..], b);
      assert a == [a[0]] + a[1..];
    }
  }

  const UP: string := "%2e%2e"

  /** An accepted key that climbs out of the manifests and down to a blob. */
  function ClimbingKey(hex: string): string {
    UP + "\\" + (UP + "\\" + ("blobs" + "\\" + hex)) + "#"
  }

  lemma ClimbingPieces(hex: string)
    requires IsDigestHex(hex)
    ensures Pieces("manifests" + "/" + ("ns" + "/" + (UP + "\\" + (UP + "\\" + ("blobs" + "\\" + hex)))))
            == ["manifests", "ns", UP, UP, "blobs", hex]
    ensures Pieces(BlobKey(hex)) == ["blobs", hex]
  {
    hide Pieces;
    DigestChars(hex);
    PiecesOfOne(hex);
    PiecesAtBackslash("blobs", hex);
    PiecesAtBackslash(UP, "blobs" + "\\" + hex);
    PiecesAtBackslash(UP, UP + "\\" + ("blobs" + "\\" + hex));
    PiecesAt("ns", UP + "\\" + (UP + "\\" + ("blobs" + "\\" + hex)));
    PiecesAt("manifests", "ns" + "/" + (UP + "\\" + (UP + "\\" + ("blobs" + "\\" + hex))));
    PiecesAt("blobs", hex);
    assert "blobs" + "/" + hex == BlobKey(hex);
  }

  lemma ClimbingSegments(root: seq<string>, hex: string)
    requires !DotPiece(hex)
    ensures PlaceAll(root, ["manifests", "ns", UP, UP, "blobs", hex]) == root + ["blobs", hex]
    ensures PlaceAll(root, ["blobs", hex]) == root + ["blobs", hex]
  {
    var ps := ["manifests", "ns", UP, UP, "blobs", hex];
    var r1, r2 := root + ["manifests"], root + ["manifests"] + ["ns"];
    assert DoubleDot(UP) && !SingleDot(UP) && !DotPiece("ns") && !DotPiece("manifests") && !DotPiece("blobs");
    hide DotPiece, SingleDot, DoubleDot;
    assert ps[1..][1..][1..][1..] == ["blobs", hex];
    assert r2[..|r2| - 1] == r1 && r1[..|r1| - 1] == root;
    assert Place(root, ps[0], false) == r1 && Place(r1, ps[1], false) == r2;
    assert Place(r2, ps[2], false) == r1 && Place(r1, ps[3], false) == root;
    PlaceTwo(root, "blobs", hex);
    PlaceOne(root, ps);
    PlaceOne(r1, ps[1..]);
    PlaceOne(r2, ps[1..][1..]);
    PlaceOne(r1, ps[1..][1..][1..]);
  }

  lemma PlaceOne(segs: seq<string>, ps: seq<string>)
    requires |ps| > 1
    ensures PlaceAll(segs, ps) == PlaceAll(Place(segs, ps[0], false), ps[1..])
  {}

  lemma PlaceTwo(root: seq<string>, a: string, b: string)
    requires !DotPiece(a) && !DotPiece(b)
    ensures PlaceAll(root, [a, b]) == root + [a, b]
  {
    PlaceAllExactly(root, [a, b]);
  }

  /** For every digest there is an accepted key whose manifest, published, is that blob's object. */
  lemma KeyReachesBlob(root: seq<string>, hex: string)
    requires IsDigestHex(hex)
    ensures ValidName("ns", ClimbingKey(hex))
    ensures ObjectAt(root, ManifestKey("ns", ClimbingKey(hex))) == ObjectAt(root, BlobKey(hex))
  {
    hide Escape, PlaceAll, Pieces;
    var tail := UP + "\\" + (UP + "\\" + ("blobs" + "\\" + hex));
    var path := "manifests" + "/" + ("ns" + "/" + tail);
    ClimbingChars(hex);
    EscapeNothing("ns");
    EscapeNothing(ClimbingKey(hex));
    assert ManifestKey("ns", ClimbingKey(hex)) == path + "#" + JSON;
    MarkCuts(root, path, '#', JSON);
    StrippedExactly(path);
    BeforeMarkExactly(path);
    StrippedExactly(BlobKey(hex));
    BeforeMarkExactly(BlobKey(hex));
    ClimbingPieces(hex);
    DigestChars(hex);
    ClimbingSegments(root, hex);
  }

  lemma ClimbingChars(hex: string)
    requires IsDigestHex(hex)
    ensures var key := ClimbingKey(hex);
            ValidName("ns", key) && '/' !in key
    ensures var path := "manifests" + "/" + ("ns" + "/" + (UP + "\\" + (UP + "\\" + ("blobs" + "\\" + hex))));
            forall i :: 0 <= i < |path| ==> !Dropped(path[i]) && !Mark(path[i])
    ensures forall i :: 0 <= i < |BlobKey(hex)| ==> !Dropped(BlobKey(hex)[i]) && !Mark(BlobKey(hex)[i])
  {
    ClimbingKeyChars(hex);
    DigestChars(hex);
    hide ClimbingKey, IsDigestHex;
    var front := UP + "\\" + (UP + "\\" + ("blobs" + "\\"));
    var path := "manifests" + "/" + ("ns" + "/" + (UP + "\\" + (UP + "\\" + ("blobs" + "\\" + hex))));
    var head := "manifests/ns/" + front;
    assert path == head + hex && forall i :: 0 <= i < |head| ==> !Dropped(head[i]) && !Mark(head[i]);
    assert forall i :: |head| <= i < |path| ==> path[i] == BlobKey(hex)[i - |head| + 6];
  }

  lemma ClimbingKeyChars(hex: string)
    requires IsDigestHex(hex)
    ensures ValidName("ns", ClimbingKey(hex)) && '/' !in ClimbingKey(hex)
  {
    var front := UP + "\\" + (UP + "\\" + ("blobs" + "\\"));
    var key := ClimbingKey(hex);
    assert key == front + hex + "#" && |front| == 20;
    assert forall i :: 20 <= i < 84 ==> key[i] == hex[i - 20];
    assert forall i :: 0 <= i < 20 ==> key[i] == front[i] && front[i] != '.' && front[i] != '/';
    assert forall i :: 0 <= i < |key| ==> key[i] != '.' && key[i] != '/';
  }

  /** A key without hash or question mark never reaches a blob: its object ends in .json. */
  lemma NoMarkNoBlob(root: seq<string>, ns: string, key: string, hex: string)
    requires ValidName(ns, key) && IsDigestHex(hex) && '#' !in key && '?' !in key
    ensures ObjectAt(root, ManifestKey(ns, key)) != ObjectAt(root, BlobKey(hex))
  {
    hide ObjectAt, Escape;
    ManifestObjectLast(root, ns, key);
    BlobObjectLast(root, hex);
  }

  /** The last segment of a text that ends in no separator and no dot code. */
  lemma {:induction false} LastPiece(t: string, c: char)
    requires c != '/' && c != '\\' && c != '.' && c != 'e' && c != 'E'
    ensures var ps := Pieces(t + [c]);
            ps[|ps| - 1] != "" && ps[|ps| - 1][|ps[|ps| - 1]| - 1] == c && !DotPiece(ps[|ps| - 1])
  {
    if t == "" {
      assert t + [c] == [c] && [c][1..] == "";
    } else {
      assert (t + [c])[0] == t[0] && (t + [c])[1..] == t[1..] + [c];
      LastPiece(t[1..], c);
      LastOfLonger(t[0], Pieces(t[1..] + [c]), c);
    }
  }

  lemma LastOfLonger(x: char, rest: seq<string>, c: char)
    requires |rest| >= 1 && c != '.' && c != 'e' && c != 'E'
    requires rest[|rest| - 1] != "" && rest[|rest| - 1][|rest[|rest| - 1]| - 1] == c
    ensures var ps := [""] + rest;
            ps[|ps| - 1] == rest[|rest| - 1]
    ensures var ps := [[x] + rest[0]] + rest[1..];
            ps[|ps| - 1] != "" && ps[|ps| - 1][|ps[|ps| - 1]| - 1] == c && !DotPiece(ps[|ps| - 1])
  {
    var ps := [[x] + rest[0]] + rest[1..];
    var last := ps[|ps| - 1];
    assert last[|last| - 1] == c;
    LastNotDot(last, c);
  }

  lemma LastNotDot(p: string, c: char)
    requires p != "" && p[|p| - 1] == c && c != '.' && c != 'e' && c != 'E'
    ensures !DotPiece(p)
  {
    if |p| == 4 {
      assert p[1..][2] == p[3];
    }
    if |p| == 6 {
      assert p[3..][2] == p[5];
    }
  }

  lemma {:induction false} PlaceLast(segs: seq<string>, ps: seq<string>)
    requires ps != [] && !DotPiece(ps[|ps| - 1])
    ensures var out := PlaceAll(segs, ps); out != [] && out[|out| - 1] == ps[|ps| - 1]
    decreases |ps|
  {
    hide DotPiece;
    if |ps| == 1 {
      assert ps[1..] == [];
    } else {
      PlaceLast(Place(segs, ps[0], false), ps[1..]);
    }
  }

  lemma LastOfText(segs: seq<string>)
    requires segs != [] && segs[|segs| - 1] != ""
    ensures var last := segs[|segs| - 1];
            SlashText(segs) != "" && SlashText(segs)[|SlashText(segs)| - 1] == last[|last| - 1]
  {
    var n := |segs| - 1;
    SlashTextAppend(segs[..n], [segs[n]]);
    SlashTextOne(segs[n]);
    assert segs[..n] + [segs[n]] == segs;
  }

  /** What a request for a key ending in `c` is addressed to ends in the decoding of `c`. */
  lemma ObjectLast(root: seq<string>, t: string, c: char)
    requires c != '/' && c != '\\' && c != '.' && c != 'e' && c != 'E'
    requires Stripped(t) == t && BeforeMark(t) == t && t != "" && t[|t| - 1] == c
    ensures SlashText(Segments(root, t)) != ""
    ensures SlashText(Segments(root, t))[|SlashText(Segments(root, t))| - 1] == c
  {
    hide Pieces, PlaceAll, SlashText, DotPiece;
    assert t == t[..|t| - 1] + [c];
    LastPiece(t[..|t| - 1], c);
    PlaceLast(root, Pieces(t));
    LastOfText(Segments(root, t));
  }

  lemma ManifestObjectLast(root: seq<string>, ns: string, key: string)
    requires ValidName(ns, key) && '#' !in key && '?' !in key
    ensures ObjectAt(root, ManifestKey(ns, key)) != ""
    ensures var o := ObjectAt(root, ManifestKey(ns, key)); o[|o| - 1] == 'n'
  {
    hide Escape, SlashText, Segments, Decode, Stripped, BeforeMark, ManifestKey, Wire, ValidNamespace, ValidKey;
    var k := ManifestKey(ns, key);
    var t := Stripped(k);
    EndsInJson(ns, key);
    ManifestChars(ns, key, '#');
    ManifestChars(ns, key, '?');
    StrippedKeeps(k);
    StrippedLast(k, 'n');
    assert forall i :: 0 <= i < |t| ==> t[i] in k;
    BeforeMarkExactly(t);
    ObjectLast(root, t, 'n');
    SameAfterStripping(root, k);
    ObjectText(root, k);
    var text := SlashText(Segments(root, t));
    assert text == text[..|text| - 1] + ['n'];
    DecodeLast(text[..|text| - 1], 'n');
  }

  lemma EndsInJson(ns: string, key: string)
    ensures var k := ManifestKey(ns, key); k != "" && k[|k| - 1] == 'n'
  {
    hide Escape;
  }

  lemma {:induction false} StrippedKeeps(t: string)
    ensures forall i :: 0 <= i < |Stripped(t)| ==> Stripped(t)[i] in t && !Dropped(Stripped(t)[i])
    ensures Stripped(Stripped(t)) == Stripped(t)
  {
    if t != "" {
      StrippedKeeps(t[1..]);
      assert forall c :: c in t[1..] ==> c in t;
      assert t[0] in t;
    }
    StrippedExactly(Stripped(t));
  }

  lemma StrippedLast(t: string, c: char)
    requires t != "" && t[|t| - 1] == c && !Dropped(c)
    ensures Stripped(t) != "" && Stripped(t)[|Stripped(t)| - 1] == c
  {
    assert t == t[..|t| - 1] + [c];
    StrippedAppend(t[..|t| - 1], [c]);
    assert Stripped([c]) == [c] by {
      assert [c][1..] == "";
    }
  }

  lemma SameAfterStripping(root: seq<string>, k: string)
    ensures Segments(root, Stripped(k)) == Segments(root, k)
  {
    StrippedKeeps(k);
  }

  lemma BlobObjectLast(root: seq<string>, hex: string)
    requires IsDigestHex(hex)
    ensures ObjectAt(root, BlobKey(hex)) != ""
    ensures var o := ObjectAt(root, BlobKey(hex)); o[|o| - 1] == hex[63]
  {
    hide SlashText, PlaceAll, Pieces;
    var k := BlobKey(hex);
    ClimbingChars(hex);
    StrippedExactly(k);
    BeforeMarkExactly(k);
    ClimbingPieces(hex);
    DigestChars(hex);
    ClimbingSegments(root, hex);
    ObjectText(root, k);
    BlobTextDecoded(root, hex);
  }

  lemma BlobTextDecoded(root: seq<string>, hex: string)
    requires IsDigestHex(hex)
    ensures var o := Decode(SlashText(root + ["blobs", hex])); o != "" && o[|o| - 1] == hex[63]
  {
    hide SlashText;
    SlashTextAppend(root, ["blobs", hex]);
    assert SlashText(["blobs", hex]) == "/blobs/" + hex by {
      assert ["blobs", hex][1..] == [hex];
      SlashTextOne(hex);
      BlobsFirst(hex);
    }
    var tail := "blobs/" + hex;
    assert SlashText(root) + ("/blobs/" + hex) == SlashText(root) + ['/'] + tail;
    DecodeAfter(SlashText(root), '/', tail);
    TripleBehind(tail, "");
    DigestChars(hex);
    assert tail + "" == tail && tail == BlobKey(hex);
    NoTripleInNothing();
    DecodeExactly(tail);
  }

  lemma BlobsFirst(hex: string)
    ensures SlashText(["blobs", hex]) == "/blobs" + SlashText([hex])
  {
    assert ["blobs", hex][1..] == [hex];
  }

  /** What decoding takes off the front of a text: how much, and what it makes of it. */
  function HeadSize(t: string): (n: nat)
    requires t != ""
    ensures 1 <= n <= |t|
  {
    if TripleFirst(t) then 3 else 1
  }

  function DecodedHead(t: string): char
    requires t != ""
  {
    if TripleFirst(t) then (16 * HexValue(t[1]).value + HexValue(t[2]).value) as char else t[0]
  }

  lemma DecodeHead(t: string)
    requires t != ""
    ensures Decode(t) == [DecodedHead(t)] + Decode(t[HeadSize(t)..])
  {}

  lemma HeadAcross(a: string, c: char, b: string)
    requires a != "" && HexValue(c).None? && c != '%'
    ensures var t := a + [c] + b;
            && HeadSize(t) == HeadSize(a) && DecodedHead(t) == DecodedHead(a)
            && t[HeadSize(a)..] == a[HeadSize(a)..] + [c] + b
  {
    var t := a + [c] + b;
    assert forall i :: 0 <= i < |a| ==> t[i] == a[i];
    assert t[|a|] == c;
  }

  /** Decoding goes on afresh behind a character that is neither digit nor percent sign. */
  lemma {:induction false} DecodeAfter(a: string, c: char, b: string)
    requires HexValue(c).None? && c != '%'
    ensures Decode(a + [c] + b) == Decode(a) + [c] + Decode(b)
    decreases |a|
  {
    if a == "" {
      assert ("" + [c] + b)[1..] == b && !TripleFirst("" + [c] + b);
    } else {
      hide Decode, DecodedHead, HeadSize, HexValue;
      var rest := a[HeadSize(a)..];
      HeadAcross(a, c, b);
      DecodeHead(a);
      DecodeHead(a + [c] + b);
      DecodeAfter(rest, c, b);
      assert [DecodedHead(a)] + (Decode(rest) + [c] + Decode(b)) == [DecodedHead(a)] + Decode(rest) + [c] + Decode(b);
    }
  }
}
