/** Percent-encoding, section 2.1 of RFC 3986. Text is UTF-8, a character one byte. */
module Percent {
  import opened Prelude

  predicate Alphanumeric(c: char) {
    'a' <= c <= 'z' || 'A' <= c <= 'Z' || '0' <= c <= '9'
  }

  function HexDigit(n: nat): char
    requires n < 16
  {
    if n < 10 then ('0' as int + n) as char else ('A' as int + n - 10) as char
  }

  function HexValue(c: char): Option<nat> {
    if '0' <= c <= '9' then Some(c as int - '0' as int)
    else if 'A' <= c <= 'F' then Some(c as int - 'A' as int + 10)
    else if 'a' <= c <= 'f' then Some(c as int - 'a' as int + 10)
    else None
  }

  /** One byte, as it is where `keep` says so. */
  function EncodeByte(c: char, keep: char -> bool): string {
    if keep(c) || c as int >= 256 then [c] else ['%', HexDigit(c as int / 16), HexDigit(c as int % 16)]
  }

  function EncodeText(s: string, keep: char -> bool): string {
    if s == "" then "" else EncodeByte(s[0], keep) + EncodeText(s[1..], keep)
  }

  /** A percent sign and two digits at the start of `t`. */
  predicate TripleFirst(t: string) {
    |t| >= 3 && t[0] == '%' && HexValue(t[1]).Some? && HexValue(t[2]).Some?
  }

  /** A percent sign without two digits behind it is kept. */
  function Decode(t: string): string {
    if t == "" then ""
    else if TripleFirst(t) then
      [(16 * HexValue(t[1]).value + HexValue(t[2]).value) as char] + Decode(t[3..])
    else [t[0]] + Decode(t[1..])
  }

  /** The sixteen digits, in upper and in lower case, and nothing else. */
  lemma HexValueExactly(c: char, n: nat)
    ensures HexValue(c) == Some(n)
            <==> n < 16 && (c == "0123456789ABCDEF"[n] || c == "0123456789abcdef"[n])
  {}

  lemma HexDigitRoundTrip(n: nat)
    requires n < 16
    ensures HexValue(HexDigit(n)) == Some(n)
  {}

  /** Decoding an encoded byte in front of any text. */
  lemma DecodeByte(c: char, keep: char -> bool, rest: string)
    requires !keep(c) && c as int < 256
    ensures Decode(EncodeByte(c, keep) + rest) == [c] + Decode(rest)
  {
    var n := c as int;
    HexDigitRoundTrip(n / 16);
    HexDigitRoundTrip(n % 16);
    assert 16 * (n / 16) + n % 16 == n;
    assert (EncodeByte(c, keep) + rest)[3..] == rest;
  }

  /** Decoding undoes an encoding that leaves no percent sign. */
  lemma {:induction false} DecodeEncode(s: string, keep: char -> bool)
    requires !keep('%')
    ensures Decode(EncodeText(s, keep)) == s
  {
    if s != "" {
      DecodeEncode(s[1..], keep);
      assert s == [s[0]] + s[1..];
      if keep(s[0]) || s[0] as int >= 256 {
        assert ([s[0]] + EncodeText(s[1..], keep))[1..] == EncodeText(s[1..], keep);
      } else {
        DecodeByte(s[0], keep, EncodeText(s[1..], keep));
      }
    }
  }

  /** An encoding that leaves percent signs and hexadecimal digits is undone by decoding up to what
      the text itself had encoded. */
  lemma {:induction false} DecodeEncoded(s: string, keep: char -> bool)
    requires keep('%') && forall c :: HexValue(c).Some? ==> keep(c)
    ensures Decode(EncodeText(s, keep)) == Decode(s)
    decreases |s|
  {
    hide HexValue;
    if s != "" {
      DecodeEncoded(s[1..], keep);
      var e := EncodeText(s[1..], keep);
      if !(keep(s[0]) || s[0] as int >= 256) {
        DecodeByte(s[0], keep, e);
      } else {
        assert EncodeText(s, keep) == [s[0]] + e && ([s[0]] + e)[1..] == e;
        EncodedHead(s[1..], keep);
        if TripleFirst(s) {
          DecodeEncoded(s[3..], keep);
          assert e == [s[1], s[2]] + EncodeText(s[3..], keep);
          assert ([s[0]] + e)[3..] == EncodeText(s[3..], keep);
        }
      }
    }
  }

  /** The first two characters of an encoded text are digits exactly when they were. */
  lemma EncodedHead(t: string, keep: char -> bool)
    requires keep('%') && forall c :: HexValue(c).Some? ==> keep(c)
    ensures var e := EncodeText(t, keep);
            (|e| >= 2 && HexValue(e[0]).Some? && HexValue(e[1]).Some?)
            <==> (|t| >= 2 && HexValue(t[0]).Some? && HexValue(t[1]).Some?)
    ensures |t| >= 2 && HexValue(t[0]).Some? && HexValue(t[1]).Some? ==>
              EncodeText(t, keep) == [t[0], t[1]] + EncodeText(t[2..], keep)
  {
    assert HexValue('%').None?;
    hide HexValue;
    if t != "" {
      EncodedFirst(t, keep);
      if |t| >= 2 && HexValue(t[0]).Some? {
        EncodedFirst(t[1..], keep);
        assert EncodeText(t, keep) == [t[0]] + EncodeText(t[1..], keep);
      }
    }
  }

  lemma EncodedFirst(t: string, keep: char -> bool)
    requires t != "" && keep('%') && HexValue('%').None? && forall c :: HexValue(c).Some? ==> keep(c)
    ensures EncodeText(t, keep) != ""
    ensures HexValue(EncodeText(t, keep)[0]).Some? <==> HexValue(t[0]).Some?
    ensures HexValue(t[0]).Some? ==> EncodeText(t, keep) == [t[0]] + EncodeText(t[1..], keep)
  {
    hide HexValue, HexDigit;
  }

  // ---- When decoding changes nothing ----

  /** Somewhere in `t`, a percent sign is followed by two digits. */
  predicate HasTriple(t: string) {
    exists i :: 0 <= i <= |t| && TripleFirst(t[i..])
  }

  lemma TripleTail(t: string)
    requires t != ""
    ensures HasTriple(t) <==> TripleFirst(t) || HasTriple(t[1..])
  {
    hide TripleFirst;
    assert t[0..] == t;
    if HasTriple(t) {
      var i :| 0 <= i <= |t| && TripleFirst(t[i..]);
      if i > 0 {
        assert t[i..] == t[1..][i - 1..];
      }
    }
    if HasTriple(t[1..]) {
      var i :| 0 <= i <= |t[1..]| && TripleFirst(t[1..][i..]);
      assert t[i + 1..] == t[1..][i..];
    }
  }

  /** Decoding never lengthens; it leaves a text alone exactly when there is nothing encoded. */
  lemma {:induction false} DecodeExactly(t: string)
    ensures |Decode(t)| <= |t|
    ensures if HasTriple(t) then |Decode(t)| < |t| else Decode(t) == t
    decreases |t|
  {
    hide HexValue, HasTriple;
    if t == "" {
      NoTripleInNothing();
    } else {
      TripleTail(t);
      if TripleFirst(t) {
        DecodeExactly(t[3..]);
      } else {
        DecodeExactly(t[1..]);
        assert t == [t[0]] + t[1..];
      }
    }
  }

  lemma NoTripleInNothing()
    ensures !HasTriple("")
  {}

  /** A last character that is no digit stays last. */
  lemma {:induction false} DecodeLast(t: string, c: char)
    requires HexValue(c).None? && c != '%'
    ensures Decode(t + [c]) == Decode(t) + [c]
    decreases |t|
  {
    if t == "" {
      assert ("" + [c])[1..] == "";
    } else if TripleFirst(t) {
      DecodeLast(t[3..], c);
      assert (t + [c])[3..] == t[3..] + [c];
    } else {
      DecodeLast(t[1..], c);
      assert (t + [c])[1..] == t[1..] + [c];
      assert !TripleFirst(t + [c]);
    }
  }
}
