/** Operations on text that several parts of the program use. */
module Text {
  import opened Prelude

  predicate StartsWith(s: string, prefix: string) {
    |s| >= |prefix| && s[..|prefix|] == prefix
  }

  predicate EndsWith(s: string, suffix: string) {
    |s| >= |suffix| && s[|s| - |suffix|..] == suffix
  }

  /** `split_once`: the text before the first `c`, and the text after it if there is one. */
  function SplitOnce(t: string, c: char): (r: (string, Option<string>))
    ensures c !in r.0
    ensures r.1.None? <==> c !in t
    ensures t == if r.1.Some? then r.0 + [c] + r.1.value else r.0
  {
    if t == "" then ("", None)
    else if t[0] == c then ("", Some(t[1..]))
    else
      var (before, after) := SplitOnce(t[1..], c);
      assert t == [t[0]] + t[1..];
      ([t[0]] + before, after)
  }

  lemma {:induction false} SplitOnceAt(a: string, c: char, b: string)
    requires c !in a
    ensures SplitOnce(a + [c] + b, c) == (a, Some(b)) && SplitOnce(a, c) == (a, None)
  {
    var t := a + [c] + b;
    if a == "" {
      assert t[0] == c && t[1..] == b;
    } else {
      assert a[0] in a && forall x :: x in a[1..] ==> x in a;
      assert t[0] == a[0] && t[1..] == a[1..] + [c] + b;
      SplitOnceAt(a[1..], c, b);
      assert a == [a[0]] + a[1..];
    }
  }
}
