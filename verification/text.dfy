/** String helpers with the semantics of the Java library calls the generator relies on:
    String.join / StringUtils delimited strings, String.replace (replace all, left to right),
    String.startsWith and Integer.toString for non-negative values. */
module Text {

  /** `String.join(sep, parts)`: the parts with `sep` between consecutive ones. */
  function Join(sep: string, parts: seq<string>): (r: string)
    ensures |parts| == 0 ==> r == ""
    ensures |parts| == 1 ==> r == parts[0]
    decreases |parts|
  {
    if |parts| == 0 then ""
    else if |parts| == 1 then parts[0]
    else parts[0] + sep + Join(sep, parts[1..])
  }

  /** The parts written one after the other, with nothing between them. */
  function Concat(parts: seq<string>): (r: string)
    decreases |parts|
  {
    if |parts| == 0 then "" else parts[0] + Concat(parts[1..])
  }

  /** Concatenating two lists of parts one after the other is concatenating their join. */
  lemma {:induction false} ConcatAppend(a: seq<string>, b: seq<string>)
    ensures Concat(a + b) == Concat(a) + Concat(b)
    decreases |a|
  {
    if |a| == 0 {
      assert a + b == b;
    } else {
      assert (a + b)[0] == a[0] && (a + b)[1..] == a[1..] + b;
      ConcatAppend(a[1..], b);
      assert a[0] + (Concat(a[1..]) + Concat(b)) == a[0] + Concat(a[1..]) + Concat(b);
    }
  }

  /** The same join written as an accumulation from the left: each part after the first is
      preceded by the separator. This is the shape of code that emits a separator "only if
      this is not the last element". */
  function JoinLeft(sep: string, parts: seq<string>): (r: string)
    decreases |parts|
  {
    if |parts| == 0 then ""
    else if |parts| == 1 then parts[0]
    else JoinLeft(sep, parts[..|parts| - 1]) + sep + parts[|parts| - 1]
  }

  /** Appending one more part to a joined list adds exactly one separator. */
  lemma {:induction false} JoinSnoc(sep: string, parts: seq<string>, last: string)
    requires |parts| > 0
    ensures Join(sep, parts + [last]) == Join(sep, parts) + sep + last
    decreases |parts|
  {
    if |parts| == 1 {
      assert parts + [last] == [parts[0], last];
      assert (parts + [last])[1..] == [last];
    } else {
      assert (parts + [last])[1..] == parts[1..] + [last];
      JoinSnoc(sep, parts[1..], last);
    }
  }

  /** Both ways of placing separators give the same text. */
  lemma {:induction false} JoinLeftIsJoin(sep: string, parts: seq<string>)
    ensures JoinLeft(sep, parts) == Join(sep, parts)
    decreases |parts|
  {
    if |parts| > 1 {
      var init := parts[..|parts| - 1];
      JoinLeftIsJoin(sep, init);
      JoinSnoc(sep, init, parts[|parts| - 1]);
      assert init + [parts[|parts| - 1]] == parts;
    }
  }

  predicate StartsWith(s: string, prefix: string) {
    |prefix| <= |s| && s[..|prefix|] == prefix
  }

  /** `s.replace(pat, rep)` for a non-empty `pat`: every non-overlapping occurrence, scanning
      from the left, is replaced. */
  function ReplaceAll(s: string, pat: string, rep: string): (r: string)
    requires |pat| > 0
    decreases |s|
  {
    if |s| < |pat| then s
    else if s[..|pat|] == pat then rep + ReplaceAll(s[|pat|..], pat, rep)
    else [s[0]] + ReplaceAll(s[1..], pat, rep)
  }

  /** A pattern that contains a character the text lacks never matches, so nothing changes. */
  lemma {:induction false} ReplaceAllAbsent(s: string, pat: string, rep: string, c: char)
    requires |pat| > 0 && c in pat && c !in s
    ensures ReplaceAll(s, pat, rep) == s
    decreases |s|
  {
    if |s| >= |pat| {
      if s[..|pat|] == pat {
        assert false;
      }
      ReplaceAllAbsent(s[1..], pat, rep, c);
      assert [s[0]] + s[1..] == s;
    }
  }

  /** Removing a leading prefix that ends in a separator the rest does not contain leaves the rest:
      `(p + rest).replace(p, "") == rest`. */
  lemma StripPrefix(prefix: string, rest: string, c: char)
    requires |prefix| > 0 && c in prefix && c !in rest
    ensures ReplaceAll(prefix + rest, prefix, "") == rest
  {
    var s := prefix + rest;
    assert s[..|prefix|] == prefix;
    assert s[|prefix|..] == rest;
    ReplaceAllAbsent(rest, prefix, "", c);
  }

  function DigitChar(d: nat): (c: char)
    requires d < 10
    ensures '0' <= c <= '9'
  {
    "0123456789"[d]
  }

  /** The inverse of DigitChar. */
  function DigitValue(c: char): (d: nat)
    requires '0' <= c <= '9'
    ensures d < 10
  {
    (c as int - '0' as int) as nat
  }

  /** `Integer.toString(n)` for a non-negative `n`: decimal digits, no leading zero. */
  function NatToString(n: nat): (r: string)
    ensures |r| > 0
    ensures forall i :: 0 <= i < |r| ==> '0' <= r[i] <= '9'
    ensures |r| > 1 ==> r[0] != '0'
    decreases n
  {
    if n < 10 then [DigitChar(n)] else NatToString(n / 10) + [DigitChar(n % 10)]
  }

  /** Reading the decimal digits back (most significant first). */
  function ParseNat(s: string): (n: nat)
    requires forall i :: 0 <= i < |s| ==> '0' <= s[i] <= '9'
    decreases |s|
  {
    if |s| == 0 then 0 else 10 * ParseNat(s[..|s| - 1]) + DigitValue(s[|s| - 1])
  }

  /** Decimal rendering round-trips. */
  lemma {:induction false} ParseNatToString(n: nat)
    ensures ParseNat(NatToString(n)) == n
    decreases n
  {
    var s := NatToString(n);
    if n >= 10 {
      ParseNatToString(n / 10);
      assert s[..|s| - 1] == NatToString(n / 10);
    }
  }
}
