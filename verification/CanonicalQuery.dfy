/** The canonical query string of a signed request (signing.rs, canonical_query_string): sort the
    pairs, percent-encode all but letters and digits, join. Text is UTF-8, a character one byte. */
module CanonicalQuery {
  import opened Prelude
  import opened Text
  import opened Percent

  datatype Pair = Pair(key: string, value: string)

  // ---- The order of pairs ----

  /** Bytewise lexicographic order. */
  predicate TextLe(a: string, b: string) {
    if a == "" then true
    else if b == "" then false
    else if a[0] != b[0] then a[0] < b[0]
    else TextLe(a[1..], b[1..])
  }

  predicate PairLe(p: Pair, q: Pair) {
    if p.key != q.key then TextLe(p.key, q.key) else TextLe(p.value, q.value)
  }

  lemma {:induction false} TextOrder(a: string, b: string, c: string)
    ensures TextLe(a, b) || TextLe(b, a)
    ensures TextLe(a, b) && TextLe(b, a) ==> a == b
    ensures TextLe(a, b) && TextLe(b, c) ==> TextLe(a, c)
  {
    if a != "" && b != "" {
      TextOrder(a[1..], b[1..], if c == "" then "" else c[1..]);
      assert a == [a[0]] + a[1..] && b == [b[0]] + b[1..];
    }
  }

  /** `a` ends where `b` goes on, or has the smaller byte where the two first differ. */
  ghost predicate Before(a: string, b: string) {
    || a < b
    || exists k :: 0 <= k < |a| && k < |b| && a[..k] == b[..k] && a[k] as int < b[k] as int
  }

  /** The order is ascending by bytes. */
  lemma {:induction false} TextLeExactly(a: string, b: string)
    ensures TextLe(a, b) <==> a == b || Before(a, b)
    ensures Before(a, b) ==> a != b
  {
    if a != "" && b != "" && a[0] == b[0] {
      TextLeExactly(a[1..], b[1..]);
      assert a == [a[0]] + a[1..] && b == [b[0]] + b[1..];
      BeforeBehind(a[0], a[1..], b[1..]);
    } else if a != "" && b != "" {
      assert a[..0] == b[..0];
    }
  }

  lemma BeforeBehind(c: char, a: string, b: string)
    ensures Before([c] + a, [c] + b) <==> Before(a, b)
  {
    hide Before;
    if Before(a, b) {
      BeforeWithFront(c, a, b);
    }
    if Before([c] + a, [c] + b) {
      BeforeWithoutFront(c, a, b);
    }
  }

  lemma BeforeWithFront(c: char, a: string, b: string)
    requires Before(a, b)
    ensures Before([c] + a, [c] + b)
  {
    if !(a < b) {
      var k :| 0 <= k < |a| && k < |b| && a[..k] == b[..k] && a[k] as int < b[k] as int;
      assert ([c] + a)[..k + 1] == [c] + a[..k] && ([c] + b)[..k + 1] == [c] + b[..k];
    }
  }

  lemma BeforeWithoutFront(c: char, a: string, b: string)
    requires Before([c] + a, [c] + b)
    ensures Before(a, b)
  {
    var x, y := [c] + a, [c] + b;
    if x < y {
      assert a == x[1..] && b == y[1..];
    } else {
      var k :| 0 <= k < |x| && k < |y| && x[..k] == y[..k] && x[k] as int < y[k] as int;
      assert k > 0 && a[..k - 1] == x[..k][1..] && b[..k - 1] == y[..k][1..];
    }
  }

  lemma PairOrder(p: Pair, q: Pair, r: Pair)
    ensures PairLe(p, q) || PairLe(q, p)
    ensures PairLe(p, q) && PairLe(q, p) ==> p == q
    ensures PairLe(p, q) && PairLe(q, r) ==> PairLe(p, r)
  {
    TextOrder(p.key, q.key, r.key);
    TextOrder(q.key, r.key, p.key);
    TextOrder(p.value, q.value, r.value);
  }

  predicate IsSorted(ps: seq<Pair>) {
    forall i, j :: 0 <= i < j < |ps| ==> PairLe(ps[i], ps[j])
  }

  function Insert(p: Pair, ps: seq<Pair>): seq<Pair> {
    if ps == [] || PairLe(p, ps[0]) then [p] + ps else [ps[0]] + Insert(p, ps[1..])
  }

  /** `sort`; for a total order its result is the only sorted arrangement. */
  function Sorted(ps: seq<Pair>): seq<Pair> {
    if ps == [] then [] else Insert(ps[0], Sorted(ps[1..]))
  }

  lemma {:induction false} InsertSorted(p: Pair, ps: seq<Pair>)
    requires IsSorted(ps)
    ensures IsSorted(Insert(p, ps)) && multiset(Insert(p, ps)) == multiset(ps) + multiset{p}
  {
    if ps == [] {
    } else if PairLe(p, ps[0]) {
      forall j | 0 <= j < |ps|
        ensures PairLe(p, ps[j])
      {
        PairOrder(p, ps[0], ps[j]);
      }
    } else {
      InsertSorted(p, ps[1..]);
      assert ps == [ps[0]] + ps[1..];
      PairOrder(p, ps[0], p);
      var rest := Insert(p, ps[1..]);
      forall j | 0 <= j < |rest|
        ensures PairLe(ps[0], rest[j])
      {
        assert rest[j] in multiset(rest);
        assert rest[j] == p || rest[j] in ps[1..];
      }
    }
  }

  lemma NothingSorted()
    ensures IsSorted([])
  {}

  lemma {:induction false} SortedSorts(ps: seq<Pair>)
    ensures IsSorted(Sorted(ps)) && multiset(Sorted(ps)) == multiset(ps)
  {
    hide IsSorted, PairLe, Insert;
    if ps == [] {
      NothingSorted();
    } else {
      SortedSorts(ps[1..]);
      InsertSorted(ps[0], Sorted(ps[1..]));
      assert ps == [ps[0]] + ps[1..];
    }
  }

  lemma FirstIsLeast(a: seq<Pair>, b: seq<Pair>)
    requires IsSorted(a) && IsSorted(b) && multiset(a) == multiset(b) && a != [] && b != []
    ensures PairLe(a[0], b[0])
  {
    assert b[0] in multiset(a);
    var i :| 0 <= i < |a| && a[i] == b[0];
    PairOrder(a[0], a[0], a[0]);
  }

  /** Two sorted arrangements of the same pairs are equal. */
  lemma {:induction false} SortedUnique(a: seq<Pair>, b: seq<Pair>)
    requires IsSorted(a) && IsSorted(b) && multiset(a) == multiset(b)
    ensures a == b
  {
    if a == [] {
      assert |multiset(b)| == 0;
    } else {
      assert |multiset(a)| == |multiset(b)|;
      FirstIsLeast(a, b);
      FirstIsLeast(b, a);
      PairOrder(a[0], b[0], a[0]);
      assert a == [a[0]] + a[1..] && b == [b[0]] + b[1..];
      assert multiset(a[1..]) == multiset(a) - multiset{a[0]};
      assert multiset(b[1..]) == multiset(b) - multiset{b[0]};
      SortedUnique(a[1..], b[1..]);
    }
  }

  // ---- Percent-encoding ----

  /** Letters and digits stay, every other byte is encoded. */
  function Encode(s: string): string {
    EncodeText(s, Alphanumeric)
  }

  lemma DecodesToItself(s: string)
    ensures Decode(Encode(s)) == s
  {
    DecodeEncode(s, Alphanumeric);
  }

  const UPPER_HEX: string := "0123456789ABCDEF"

  /** Byte by byte: letters and digits as they are, any other byte as a percent sign and two
      hexadecimal digits, in upper case. */
  lemma EncodeExactly(c: char, s: string)
    requires c as int < 256
    ensures Encode([c] + s)
            == (if 'a' <= c <= 'z' || 'A' <= c <= 'Z' || '0' <= c <= '9' then [c]
                else "%" + [UPPER_HEX[c as int / 16], UPPER_HEX[c as int % 16]]) + Encode(s)
    ensures Encode("") == ""
  {
    assert ([c] + s)[1..] == s;
    assert forall n :: 0 <= n < 16 ==> HexDigit(n) == UPPER_HEX[n];
  }

  predicate EncodedChar(c: char) {
    Alphanumeric(c) || c == '%'
  }

  lemma {:induction false} EncodeChars(s: string)
    requires IsText(s)
    ensures forall i :: 0 <= i < |Encode(s)| ==> EncodedChar(Encode(s)[i])
  {
    if s != "" {
      EncodeChars(s[1..]);
      assert Encode(s) == EncodeByte(s[0], Alphanumeric) + Encode(s[1..]);
    }
  }

  // ---- The query string and how to read it ----

  predicate IsTextPair(p: Pair) {
    IsText(p.key) && IsText(p.value)
  }

  predicate AllText(ps: seq<Pair>) {
    forall i :: 0 <= i < |ps| ==> IsTextPair(ps[i])
  }

  function EncodePair(p: Pair): string
    requires IsTextPair(p)
  {
    Encode(p.key) + "=" + Encode(p.value)
  }

  function JoinPairs(ps: seq<Pair>): string
    requires AllText(ps)
  {
    if ps == [] then ""
    else if |ps| == 1 then EncodePair(ps[0])
    else EncodePair(ps[0]) + "&" + JoinPairs(ps[1..])
  }

  lemma SortedKeepsText(ps: seq<Pair>)
    requires AllText(ps)
    ensures AllText(Sorted(ps))
  {
    SortedSorts(ps);
    forall i | 0 <= i < |Sorted(ps)|
      ensures IsTextPair(Sorted(ps)[i])
    {
      assert Sorted(ps)[i] in multiset(ps);
    }
  }

  function CanonicalQueryString(ps: seq<Pair>): string
    requires AllText(ps)
  {
    SortedKeepsText(ps);
    JoinPairs(Sorted(ps))
  }

  function ReadPair(t: string): Pair {
    var (k, v) := SplitOnce(t, '=');
    Pair(Decode(k), match v case None => "" case Some(text) => Decode(text))
  }

  /** Splits at ampersands, then each part at its first equals sign, and decodes. */
  function ReadPairs(t: string): seq<Pair>
    decreases |t|
  {
    var (first, rest) := SplitOnce(t, '&');
    [ReadPair(first)] + match rest case None => [] case Some(text) => ReadPairs(text)
  }

  function ReadQuery(t: string): seq<Pair> {
    if t == "" then [] else ReadPairs(t)
  }

  lemma ReadEncodedPair(p: Pair)
    requires IsTextPair(p)
    ensures ReadPair(EncodePair(p)) == p && '&' !in EncodePair(p)
  {
    hide Encode, Decode, SplitOnce;
    EncodeChars(p.key);
    EncodeChars(p.value);
    SplitOnceAt(Encode(p.key), '=', Encode(p.value));
    DecodesToItself(p.key);
    DecodesToItself(p.value);
  }

  /** Reading takes the text before the first ampersand, then goes on. */
  lemma ReadOneOfMany(first: string, rest: string)
    requires '&' !in first
    ensures ReadPairs(first) == [ReadPair(first)]
    ensures ReadPairs(first + "&" + rest) == [ReadPair(first)] + ReadPairs(rest)
  {
    hide ReadPair, SplitOnce;
    SplitOnceAt(first, '&', rest);
    assert first + "&" + rest == first + ['&'] + rest;
  }

  lemma {:induction false} ReadJoined(ps: seq<Pair>)
    requires AllText(ps) && ps != []
    ensures JoinPairs(ps) != "" && ReadPairs(JoinPairs(ps)) == ps
    decreases |ps|
  {
    hide Encode, ReadPair, ReadPairs, SplitOnce, IsText, PairLe;
    var first := EncodePair(ps[0]);
    ReadEncodedPair(ps[0]);
    assert ps == [ps[0]] + ps[1..];
    if |ps| == 1 {
      ReadOneOfMany(first, "");
    } else {
      assert AllText(ps[1..]);
      ReadJoined(ps[1..]);
      ReadOneOfMany(first, JoinPairs(ps[1..]));
    }
  }

  /** Reading the canonical string gives back the pairs, in order. */
  lemma ReadsBackSorted(ps: seq<Pair>)
    requires AllText(ps)
    ensures ReadQuery(CanonicalQueryString(ps)) == Sorted(ps)
    ensures IsSorted(Sorted(ps)) && multiset(Sorted(ps)) == multiset(ps)
  {
    SortedSorts(ps);
    SortedKeepsText(ps);
    if Sorted(ps) != [] {
      ReadJoined(Sorted(ps));
    }
  }

  /** The pairs stand in ascending order of their bytes, by key and then by value. */
  lemma QueryAscends(ps: seq<Pair>, i: nat, j: nat)
    requires AllText(ps) && i < j < |Sorted(ps)|
    ensures var qs := ReadQuery(CanonicalQueryString(ps));
            && qs == Sorted(ps)
            && (Before(qs[i].key, qs[j].key)
                || (qs[i].key == qs[j].key && (qs[i].value == qs[j].value || Before(qs[i].value, qs[j].value))))
  {
    hide Before, TextLe, CanonicalQueryString, ReadQuery, Sorted, AllText;
    ReadsBackSorted(ps);
    var p, q := Sorted(ps)[i], Sorted(ps)[j];
    assert PairLe(p, q);
    TextLeExactly(p.key, q.key);
    TextLeExactly(p.value, q.value);
  }

  lemma InOrder(p: Pair, q: Pair)
    requires Before(p.key, q.key) || (p.key == q.key && p.value == q.value)
    ensures Sorted([q, p]) == [p, q] && Sorted([p]) == [p]
  {
    TextLeExactly(p.key, q.key);
    TextOrder(p.value, p.value, p.value);
    assert PairLe(p, q) && IsSorted([p, q]);
    hide Before, TextLe, PairLe, Sorted, IsSorted;
    SortedSorts([q, p]);
    SortedUnique([p, q], Sorted([q, p]));
    SortedSorts([p]);
    OneSorted(p);
    SortedUnique([p], Sorted([p]));
  }

  lemma OneSorted(p: Pair)
    ensures IsSorted([p])
  {}

  /** How pairs are written, and joined, the smaller one first. */
  lemma QueryIsWritten(p: Pair, q: Pair)
    requires IsTextPair(p) && IsTextPair(q) && (Before(p.key, q.key) || (p.key == q.key && p.value == q.value))
    ensures AllText([]) && AllText([p]) && AllText([q, p])
    ensures CanonicalQueryString([]) == ""
    ensures CanonicalQueryString([p]) == Encode(p.key) + "=" + Encode(p.value)
    ensures CanonicalQueryString([q, p])
            == Encode(p.key) + "=" + Encode(p.value) + "&" + (Encode(q.key) + "=" + Encode(q.value))
  {
    hide Before, TextLe, PairLe, IsSorted, Encode, Insert, IsText;
    assert [p, q][1..] == [q];
    InOrder(p, q);
    assert Sorted([]) == [];
    hide Sorted;
    assert AllText([q]) && AllText([p, q]) && JoinPairs([q]) == EncodePair(q);
    assert JoinPairs([p, q]) == EncodePair(p) + "&" + JoinPairs([q]);
  }

  /** The canonical string depends on the multiset of pairs and on nothing else, and determines it. */
  lemma SameStringExactly(ps: seq<Pair>, qs: seq<Pair>)
    requires AllText(ps) && AllText(qs)
    ensures CanonicalQueryString(ps) == CanonicalQueryString(qs) <==> multiset(ps) == multiset(qs)
  {
    ReadsBackSorted(ps);
    ReadsBackSorted(qs);
    if multiset(ps) == multiset(qs) {
      SortedUnique(Sorted(ps), Sorted(qs));
    }
  }
}
