/** The line filter that feeds a cache key (keygen.rs, filter_tree). */
module FilterTree {
  import opened Prelude
  import opened Text

  // ---- str::lines ----

  const CR: char := '\r'

  predicate EndsInCr(line: string) {
    line != "" && line[|line| - 1] == CR
  }

  /** A carriage return before the line feed belongs to the line ending. */
  function Chop(line: string): string {
    if EndsInCr(line) then line[..|line| - 1] else line
  }

  function Lines(text: string): seq<string>
    decreases |text|
  {
    if text == "" then []
    else
      var (line, rest) := SplitOnce(text, '\n');
      match rest
      case None => [line]
      case Some(more) => [Chop(line)] + Lines(more)
  }

  function Unlines(lines: seq<string>): string {
    if lines == [] then "" else lines[0] + "\n" + Unlines(lines[1..])
  }

  // ---- The filter ----

  predicate GeneratedOrNonInput(path: string) {
    StartsWith(path, "api/") && (EndsWith(path, ".md") || EndsWith(path, ".test.ts") || EndsWith(path, ".spec.ts"))
  }

  /** A line without a tab is always kept. */
  predicate Kept(line: string, exact: seq<string>, prefixes: seq<string>) {
    match SplitOnce(line, '\t').1
    case None => true
    case Some(path) =>
      && !GeneratedOrNonInput(path)
      && path !in exact
      && !exists i :: 0 <= i < |prefixes| && StartsWith(path, prefixes[i])
  }

  function KeptLines(lines: seq<string>, exact: seq<string>, prefixes: seq<string>): seq<string> {
    if lines == [] then []
    else if Kept(lines[0], exact, prefixes) then [lines[0]] + KeptLines(lines[1..], exact, prefixes)
    else KeptLines(lines[1..], exact, prefixes)
  }

  function FilteredTree(text: string, exact: seq<string>, prefixes: seq<string>): string {
    Unlines(KeptLines(Lines(text), exact, prefixes))
  }

  // ---- What lines are, and which reach the output ----

  /** A text cut at its line feeds: each line but perhaps the last, which is then not empty, is
      followed by a line feed, with at most one carriage return of the text before it left out. */
  ghost predicate CutsInto(text: string, lines: seq<string>)
    decreases |lines|
  {
    if lines == [] then text == ""
    else
      || (|lines| == 1 && text == lines[0] && text != "" && '\n' !in text)
      || exists rest ::
           && '\n' !in lines[0] && CutsInto(rest, lines[1..])
           && (text == lines[0] + "\r\n" + rest
               || (text == lines[0] + "\n" + rest && (lines[0] == "" || lines[0][|lines[0]| - 1] != '\r')))
  }

  lemma CutsOneMore(line: string, rest: string, lines: seq<string>)
    requires '\n' !in line && CutsInto(rest, lines)
    ensures CutsInto(line + "\n" + rest, [Chop(line)] + lines)
  {
    var all := [Chop(line)] + lines;
    assert all[0] == Chop(line) && all[1..] == lines;
    if EndsInCr(line) {
      assert line == Chop(line) + "\r";
      assert line + "\n" + rest == all[0] + "\r\n" + rest;
    }
  }

  lemma {:induction false} LinesExactly(text: string)
    ensures CutsInto(text, Lines(text))
    decreases |text|
  {
    hide SplitOnce, Chop, CutsInto;
    if text == "" {
      NothingCut();
    } else {
      var (line, rest) := SplitOnce(text, '\n');
      if rest.Some? {
        LinesExactly(rest.value);
        CutsOneMore(line, rest.value, Lines(rest.value));
        assert text == line + "\n" + rest.value;
      } else {
        OneCut(text);
      }
    }
  }

  lemma NothingCut()
    ensures CutsInto("", [])
  {}

  lemma OneCut(text: string)
    requires text != "" && '\n' !in text
    ensures CutsInto(text, [text])
  {}

  /** Where the lines kept stand, in order. */
  function KeptAt(lines: seq<string>, exact: seq<string>, prefixes: seq<string>): (at: seq<nat>)
    ensures forall k :: 0 <= k < |at| ==> at[k] < |lines|
  {
    if lines == [] then []
    else
      var n := |lines| - 1;
      KeptAt(lines[..n], exact, prefixes) + if Kept(lines[n], exact, prefixes) then [n] else []
  }

  function Picked(lines: seq<string>, at: seq<nat>): seq<string>
    requires forall k :: 0 <= k < |at| ==> at[k] < |lines|
  {
    seq(|at|, k requires 0 <= k < |at| => lines[at[k]])
  }

  lemma {:induction false} KeptSnoc(lines: seq<string>, line: string, exact: seq<string>, prefixes: seq<string>)
    ensures KeptLines(lines + [line], exact, prefixes)
            == KeptLines(lines, exact, prefixes) + if Kept(line, exact, prefixes) then [line] else []
  {
    hide Kept;
    if lines == [] {
      assert [] + [line] == [line] && [line][1..] == [];
    } else {
      assert (lines + [line])[0] == lines[0] && (lines + [line])[1..] == lines[1..] + [line];
      KeptSnoc(lines[1..], line, exact, prefixes);
    }
  }

  lemma {:induction false} KeptAtExactly(lines: seq<string>, exact: seq<string>, prefixes: seq<string>)
    ensures var at := KeptAt(lines, exact, prefixes);
            && (forall k, l :: 0 <= k < l < |at| ==> at[k] < at[l])
            && (forall i :: 0 <= i < |lines| ==> (i in at <==> Kept(lines[i], exact, prefixes)))
            && KeptLines(lines, exact, prefixes) == Picked(lines, at)
  {
    hide Kept;
    if lines != [] {
      var n := |lines| - 1;
      KeptAtExactly(lines[..n], exact, prefixes);
      KeptSnoc(lines[..n], lines[n], exact, prefixes);
      assert lines[..n] + [lines[n]] == lines;
      var front, at := KeptAt(lines[..n], exact, prefixes), KeptAt(lines, exact, prefixes);
      assert Picked(lines[..n], front) == Picked(lines, front);
      hide KeptAt, KeptLines;
      assert forall i :: 0 <= i < n ==> (i in at <==> i in front);
      assert n in at <==> Kept(lines[n], exact, prefixes);
    }
  }

  /** Something followed by `ending` makes `s`. */
  ghost predicate EndsIn(s: string, ending: string) {
    exists front :: s == front + ending
  }

  /** Which paths do not reach the key: an exact exclude, what starts with a prefix exclude, and
      documentation and tests below `api/`. */
  ghost predicate Excluded(path: string, exact: seq<string>, prefixes: seq<string>) {
    || (exists i :: 0 <= i < |exact| && exact[i] == path)
    || (exists i :: 0 <= i < |prefixes| && prefixes[i] <= path)
    || ("api/" <= path && (EndsIn(path, ".md") || EndsIn(path, ".test.ts") || EndsIn(path, ".spec.ts")))
  }

  lemma EndsAlike(s: string, ending: string)
    ensures EndsWith(s, ending) <==> EndsIn(s, ending)
  {
    if EndsWith(s, ending) {
      assert s == s[..|s| - |ending|] + ending;
    }
    if EndsIn(s, ending) {
      var front :| s == front + ending;
      assert s[|s| - |ending|..] == ending;
    }
  }

  lemma StartsAlike(path: string, prefixes: seq<string>)
    ensures StartsWith(path, "api/") <==> "api/" <= path
    ensures (exists i :: 0 <= i < |prefixes| && StartsWith(path, prefixes[i]))
            <==> (exists i :: 0 <= i < |prefixes| && prefixes[i] <= path)
  {
    assert forall i :: 0 <= i < |prefixes| ==> (StartsWith(path, prefixes[i]) <==> prefixes[i] <= path);
  }

  /** The path of a line, when it has one, decides. */
  lemma KeptExactly(line: string, meta: string, path: string, exact: seq<string>, prefixes: seq<string>)
    ensures '\t' !in line ==> Kept(line, exact, prefixes)
    ensures '\t' !in meta && line == meta + "\t" + path ==>
              (Kept(line, exact, prefixes) <==> !Excluded(path, exact, prefixes))
  {
    hide SplitOnce, StartsWith, EndsWith, EndsIn;
    if '\t' !in meta && line == meta + "\t" + path {
      SplitOnceAt(meta, '\t', path);
      assert line == meta + ['\t'] + path;
      EndsAlike(path, ".md");
      EndsAlike(path, ".test.ts");
      EndsAlike(path, ".spec.ts");
      StartsAlike(path, prefixes);
    }
  }

  /** The whole filter, for every text: the output is those of its lines, in order and as often as
      they occur, each with a line feed, that have no tab or whose path, behind the first tab, is
      not excluded. */
  lemma FilterExactly(text: string, exact: seq<string>, prefixes: seq<string>) returns (at: seq<nat>)
    ensures forall k :: 0 <= k < |at| ==> at[k] < |Lines(text)|
    ensures forall k, l :: 0 <= k < l < |at| ==> at[k] < at[l]
    ensures FilteredTree(text, exact, prefixes) == Unlines(Picked(Lines(text), at))
    ensures forall i :: 0 <= i < |Lines(text)| && '\t' !in Lines(text)[i] ==> i in at
    ensures forall i, meta, path ::
              0 <= i < |Lines(text)| && '\t' !in meta && Lines(text)[i] == meta + "\t" + path ==>
                (i in at <==> !Excluded(path, exact, prefixes))
  {
    hide Kept, Lines, KeptLines, Excluded;
    var lines := Lines(text);
    at := KeptAt(lines, exact, prefixes);
    KeptAtExactly(lines, exact, prefixes);
    forall i | 0 <= i < |lines| && '\t' !in lines[i]
      ensures i in at
    {
      KeptExactly(lines[i], "", "", exact, prefixes);
    }
    forall i, meta, path | 0 <= i < |lines| && '\t' !in meta && lines[i] == meta + "\t" + path
      ensures i in at <==> !Excluded(path, exact, prefixes)
    {
      KeptExactly(lines[i], meta, path, exact, prefixes);
    }
  }

  // ---- Lines and text ----

  predicate SingleLines(lines: seq<string>) {
    forall i :: 0 <= i < |lines| ==> '\n' !in lines[i]
  }

  lemma {:induction false} LinesAreSingle(text: string)
    ensures SingleLines(Lines(text))
    decreases |text|
  {
    if text != "" {
      var (line, rest) := SplitOnce(text, '\n');
      if rest.Some? {
        LinesAreSingle(rest.value);
      }
    }
  }

  lemma {:induction false} KeptAreSingle(lines: seq<string>, exact: seq<string>, prefixes: seq<string>)
    requires SingleLines(lines)
    ensures SingleLines(KeptLines(lines, exact, prefixes))
  {
    hide Kept;
    if lines != [] {
      KeptAreSingle(lines[1..], exact, prefixes);
    }
  }

  function ChopAll(lines: seq<string>): seq<string> {
    seq(|lines|, i requires 0 <= i < |lines| => Chop(lines[i]))
  }

  lemma SplitFirstLine(line: string, rest: string)
    requires '\n' !in line
    ensures SplitOnce(line + "\n" + rest, '\n') == (line, Some(rest))
  {
    SplitOnceAt(line, '\n', rest);
  }

  /** Splitting what was joined gives the lines back, each without a final carriage return. */
  lemma {:induction false} LinesOfUnlines(lines: seq<string>)
    requires SingleLines(lines)
    ensures Lines(Unlines(lines)) == ChopAll(lines)
  {
    if lines != [] {
      SplitFirstLine(lines[0], Unlines(lines[1..]));
      assert SingleLines(lines[1..]);
      LinesOfUnlines(lines[1..]);
      assert ChopAll(lines) == [Chop(lines[0])] + ChopAll(lines[1..]);
    }
  }

  /** Joined text determines its lines. */
  lemma {:induction false} UnlinesInjective(a: seq<string>, b: seq<string>)
    requires SingleLines(a) && SingleLines(b) && Unlines(a) == Unlines(b)
    ensures a == b
  {
    if a != [] && b != [] {
      SplitFirstLine(a[0], Unlines(a[1..]));
      SplitFirstLine(b[0], Unlines(b[1..]));
      assert SingleLines(a[1..]) && SingleLines(b[1..]);
      UnlinesInjective(a[1..], b[1..]);
      assert a == [a[0]] + a[1..] && b == [b[0]] + b[1..];
    }
  }

  // ---- The laws ----

  /** The lines that reach the key. */
  function Retained(text: string, exact: seq<string>, prefixes: seq<string>): seq<string> {
    KeptLines(Lines(text), exact, prefixes)
  }

  /** Two listings give the same text, and so the same key, exactly when they retain the same
      lines in the same order. */
  lemma SameTextExactly(s: string, t: string, exact: seq<string>, prefixes: seq<string>)
    ensures FilteredTree(s, exact, prefixes) == FilteredTree(t, exact, prefixes)
            <==> Retained(s, exact, prefixes) == Retained(t, exact, prefixes)
  {
    LinesAreSingle(s);
    LinesAreSingle(t);
    KeptAreSingle(Lines(s), exact, prefixes);
    KeptAreSingle(Lines(t), exact, prefixes);
    if FilteredTree(s, exact, prefixes) == FilteredTree(t, exact, prefixes) {
      UnlinesInjective(Retained(s, exact, prefixes), Retained(t, exact, prefixes));
    }
  }

  predicate NoneEndsInCr(lines: seq<string>) {
    forall i :: 0 <= i < |lines| ==> !EndsInCr(lines[i])
  }

  lemma ChopNothing(lines: seq<string>)
    requires NoneEndsInCr(lines)
    ensures ChopAll(lines) == lines
  {}

  lemma KeptByBoth(line: string, e1: seq<string>, p1: seq<string>, e2: seq<string>, p2: seq<string>)
    ensures Kept(line, e1 + e2, p1 + p2) <==> Kept(line, e1, p1) && Kept(line, e2, p2)
  {
    var path := SplitOnce(line, '\t').1;
    hide StartsWith, EndsWith, GeneratedOrNonInput;
    if path.Some? {
      var p := p1 + p2;
      assert forall i :: 0 <= i < |p1| ==> p[i] == p1[i];
      assert forall i :: 0 <= i < |p2| ==> p[|p1| + i] == p2[i];
    }
  }

  lemma {:induction false} KeptTwice(lines: seq<string>, e1: seq<string>, p1: seq<string>,
                                     e2: seq<string>, p2: seq<string>)
    ensures KeptLines(KeptLines(lines, e1, p1), e2, p2) == KeptLines(lines, e1 + e2, p1 + p2)
  {
    hide Kept;
    if lines != [] {
      KeptByBoth(lines[0], e1, p1, e2, p2);
      KeptTwice(lines[1..], e1, p1, e2, p2);
      var rest := KeptLines(lines[1..], e1, p1);
      assert ([lines[0]] + rest)[1..] == rest;
    }
  }

  /** Filtering by two sets of excludes in turn is filtering by their union exactly when, on the
      lines the first retains, the second filter keeps the same with and without final carriage
      returns; so always when none of those lines ends in one. */
  lemma FilterTwice(text: string, e1: seq<string>, p1: seq<string>, e2: seq<string>, p2: seq<string>)
    ensures var kept := Retained(text, e1, p1);
            && (FilteredTree(FilteredTree(text, e1, p1), e2, p2) == FilteredTree(text, e1 + e2, p1 + p2)
                <==> KeptLines(ChopAll(kept), e2, p2) == KeptLines(kept, e2, p2))
            && (NoneEndsInCr(kept) ==>
                  FilteredTree(FilteredTree(text, e1, p1), e2, p2) == FilteredTree(text, e1 + e2, p1 + p2))
  {
    hide Lines, Unlines, KeptLines;
    var kept := Retained(text, e1, p1);
    LinesAreSingle(text);
    KeptAreSingle(Lines(text), e1, p1);
    LinesOfUnlines(kept);
    KeptTwice(Lines(text), e1, p1, e2, p2);
    assert SingleLines(ChopAll(kept));
    KeptAreSingle(ChopAll(kept), e2, p2);
    KeptAreSingle(kept, e2, p2);
    var twice, once := KeptLines(ChopAll(kept), e2, p2), KeptLines(kept, e2, p2);
    if Unlines(twice) == Unlines(once) {
      UnlinesInjective(twice, once);
    }
    if NoneEndsInCr(kept) {
      ChopNothing(kept);
    }
  }

  /** A text on which the two differ: the second pass finds the excluded path only because the
      first dropped a carriage return from the end of its line. */
  lemma FilterTwiceFails()
    ensures FilteredTree(FilteredTree("\ta\r\r\n", [], []), ["a"], []) != FilteredTree("\ta\r\r\n", ["a"], [])
  {
    hide Lines, Unlines, KeptLines, Kept, Chop;
    var text, line, none := "\ta\r\r\n", "\ta\r", [];
    ReturnsAtEnd();
    OneLine(line, none, none);
    OneLine(line, ["a"], none);
    OneLine("\ta", ["a"], none);
    assert ChopAll([line]) == ["\ta"];
    assert none + ["a"] == ["a"] && none + none == none;
    FilterTwice(text, none, none, ["a"], none);
  }

  /** A line of one tab and a path that is not below api/. */
  lemma TabLine(path: string, exact: seq<string>)
    requires !StartsWith(path, "api/")
    ensures Kept(['\t'] + path, exact, []) <==> path !in exact
  {
    hide StartsWith, EndsWith, SplitOnce;
    SplitOnceAt("", '\t', path);
    assert "" + ['\t'] + path == ['\t'] + path;
  }

  lemma ReturnsAtEnd()
    ensures Lines("\ta\r\r\n") == ["\ta\r"] && Chop("\ta\r") == "\ta"
    ensures Kept("\ta\r", [], []) && Kept("\ta\r", ["a"], []) && !Kept("\ta", ["a"], [])
  {
    hide Kept, SplitOnce;
    var first := "\ta\r\r";
    SplitOnceAt(first, '\n', "");
    assert first + ['\n'] + "" == "\ta\r\r\n";
    assert Chop(first) == "\ta\r" && Chop("\ta\r") == "\ta";
    assert ['\t'] + "a\r" == "\ta\r" && ['\t'] + "a" == "\ta" && |"a\r"| != |"a"|;
    TabLine("a\r", []);
    TabLine("a\r", ["a"]);
    TabLine("a", ["a"]);
  }

  lemma OneLine(line: string, exact: seq<string>, prefixes: seq<string>)
    ensures KeptLines([line], exact, prefixes) == if Kept(line, exact, prefixes) then [line] else []
  {
    assert [line][1..] == [];
  }

  lemma {:induction false} KeptAgain(lines: seq<string>, exact: seq<string>, prefixes: seq<string>)
    ensures KeptLines(KeptLines(lines, exact, prefixes), exact, prefixes) == KeptLines(lines, exact, prefixes)
  {
    hide Kept;
    if lines != [] {
      KeptAgain(lines[1..], exact, prefixes);
      var rest := KeptLines(lines[1..], exact, prefixes);
      assert ([lines[0]] + rest)[1..] == rest;
    }
  }

  /** Filtering and chopping never lengthens, and shortens where there is something to chop. */
  lemma {:induction false} ChoppedIsShorter(lines: seq<string>, exact: seq<string>, prefixes: seq<string>)
    ensures |Unlines(KeptLines(ChopAll(lines), exact, prefixes))| <= |Unlines(lines)|
    ensures !NoneEndsInCr(lines) ==> |Unlines(KeptLines(ChopAll(lines), exact, prefixes))| < |Unlines(lines)|
  {
    hide Kept;
    if lines != [] {
      ChoppedIsShorter(lines[1..], exact, prefixes);
      assert ChopAll(lines)[0] == Chop(lines[0]) && ChopAll(lines)[1..] == ChopAll(lines[1..]);
      var rest := KeptLines(ChopAll(lines[1..]), exact, prefixes);
      assert ([Chop(lines[0])] + rest)[1..] == rest;
      assert NoneEndsInCr(lines) <==> !EndsInCr(lines[0]) && NoneEndsInCr(lines[1..]) by {
        assert forall i :: 1 <= i < |lines| ==> lines[i] == lines[1..][i - 1];
      }
    }
  }

  /** Filtering is idempotent exactly on text no retained line of which ends in a carriage return;
      on text without any it always is. */
  lemma IdempotentExactly(text: string, exact: seq<string>, prefixes: seq<string>)
    ensures FilteredTree(FilteredTree(text, exact, prefixes), exact, prefixes) == FilteredTree(text, exact, prefixes)
            <==> NoneEndsInCr(Retained(text, exact, prefixes))
  {
    var kept := Retained(text, exact, prefixes);
    LinesAreSingle(text);
    KeptAreSingle(Lines(text), exact, prefixes);
    LinesOfUnlines(kept);
    if NoneEndsInCr(kept) {
      ChopNothing(kept);
      KeptAgain(Lines(text), exact, prefixes);
    } else {
      ChoppedIsShorter(kept, exact, prefixes);
    }
  }

  lemma {:induction false} LinesWithoutCr(text: string)
    requires CR !in text
    ensures forall i :: 0 <= i < |Lines(text)| ==> CR !in Lines(text)[i]
    decreases |text|
  {
    if text != "" {
      var (line, rest) := SplitOnce(text, '\n');
      if rest.Some? {
        assert forall c :: c in rest.value ==> c in text;
        LinesWithoutCr(rest.value);
      }
    }
  }

  lemma {:induction false} KeptAmong(lines: seq<string>, exact: seq<string>, prefixes: seq<string>)
    ensures forall line :: line in KeptLines(lines, exact, prefixes) ==> line in lines
  {
    hide Kept;
    if lines != [] {
      KeptAmong(lines[1..], exact, prefixes);
    }
  }

  /** Text without carriage returns meets the condition of the two laws. */
  lemma WithoutCr(text: string, exact: seq<string>, prefixes: seq<string>)
    requires CR !in text
    ensures NoneEndsInCr(Retained(text, exact, prefixes))
  {
    LinesWithoutCr(text);
    KeptAmong(Lines(text), exact, prefixes);
    forall i | 0 <= i < |Retained(text, exact, prefixes)|
      ensures !EndsInCr(Retained(text, exact, prefixes)[i])
    {
      var line := Retained(text, exact, prefixes)[i];
      assert line in Lines(text);
    }
  }
}
