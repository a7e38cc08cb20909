/** String operations the processor relies on (`startsWith`, `endsWith`,
    `indexOf`, concatenation of written pieces, decimal rendering of counts). */
module Text {

  predicate StartsWith(s: string, prefix: string) {
    |prefix| <= |s| && s[..|prefix|] == prefix
  }

  predicate EndsWith(s: string, suffix: string) {
    |suffix| <= |s| && s[|s| - |suffix|..] == suffix
  }

  /** `pat` occurs in `s` at index `i`. */
  predicate MatchAt(s: string, pat: string, i: nat) {
    i + |pat| <= |s| && s[i..i + |pat|] == pat
  }

  /** JavaScript's `s.indexOf(pat, from)` for a non-empty pattern:
      the first index at or after `from` where `pat` occurs, or -1. */
  function IndexOf(s: string, pat: string, from: nat): (r: int)
    requires pat != ""
    ensures r == -1 || from <= r
    ensures r >= 0 ==> MatchAt(s, pat, r)
    ensures r >= 0 ==> forall j :: from <= j < r ==> !MatchAt(s, pat, j)
    ensures r == -1 ==> forall j :: from <= j ==> !MatchAt(s, pat, j)
    decreases |s| - from
  {
    if from + |pat| > |s| then -1
    else if s[from..from + |pat|] == pat then from
    else IndexOf(s, pat, from + 1)
  }

  /** A match that lies wholly inside `s` is a match inside `s + t`, and back. */
  lemma MatchAtExtend(s: string, t: string, pat: string, i: nat)
    requires i + |pat| <= |s|
    ensures MatchAt(s + t, pat, i) == MatchAt(s, pat, i)
  {
    assert (s + t)[i..i + |pat|] == s[i..i + |pat|];
  }

  /** Appending text never moves an occurrence that was already found:
      the first occurrence in a prefix is the first occurrence in the whole. */
  lemma IndexOfExtend(s: string, t: string, pat: string, from: nat)
    requires pat != "" && IndexOf(s, pat, from) >= 0
    ensures IndexOf(s + t, pat, from) == IndexOf(s, pat, from)
  {
    var r := IndexOf(s, pat, from);
    var r' := IndexOf(s + t, pat, from);
    MatchAtExtend(s, t, pat, r);
    assert r' >= 0 && r' <= r;
    MatchAtExtend(s, t, pat, r');
  }

  /** Searching `p + s` from past `p` is searching `s`, shifted by `|p|`. */
  lemma {:induction false} IndexOfShift(p: string, s: string, pat: string, k: nat)
    requires pat != ""
    ensures IndexOf(p + s, pat, |p| + k) ==
              if IndexOf(s, pat, k) < 0 then -1 else |p| + IndexOf(s, pat, k)
    decreases |s| - k
  {
    if k + |pat| <= |s| {
      assert (p + s)[|p| + k..|p| + k + |pat|] == s[k..k + |pat|];
      if s[k..k + |pat|] != pat {
        IndexOfShift(p, s, pat, k + 1);
      }
    }
  }

  /** The text of a sequence of writes, in order. */
  function Concat(parts: seq<string>): string {
    if parts == [] then "" else Concat(parts[..|parts| - 1]) + parts[|parts| - 1]
  }

  lemma ConcatPush(parts: seq<string>, s: string)
    ensures Concat(parts + [s]) == Concat(parts) + s
  {
    assert (parts + [s])[..|parts|] == parts;
  }

  lemma ConcatFive(a: string, b: string, c: string, d: string, e: string)
    ensures Concat([a, b, c, d, e]) == a + b + c + d + e
  {
    ConcatPush([], a);
    ConcatPush([a], b);
    ConcatPush([a, b], c);
    ConcatPush([a, b, c], d);
    ConcatPush([a, b, c, d], e);
    assert [a] == [] + [a];
    assert [a, b] == [a] + [b];
    assert [a, b, c] == [a, b] + [c];
    assert [a, b, c, d] == [a, b, c] + [d];
    assert [a, b, c, d, e] == [a, b, c, d] + [e];
  }

  lemma {:induction false} ConcatAppend(a: seq<string>, b: seq<string>)
    ensures Concat(a + b) == Concat(a) + Concat(b)
    decreases |b|
  {
    if b == [] {
      assert a + b == a;
    } else {
      var n := |b| - 1;
      assert (a + b)[..|a + b| - 1] == a + b[..n];
      ConcatAppend(a, b[..n]);
    }
  }

  /** The number a string of decimal digits denotes. */
  function DecimalValue(s: string): nat
    requires forall i :: 0 <= i < |s| ==> '0' <= s[i] <= '9'
  {
    if s == [] then 0
    else DecimalValue(s[..|s| - 1]) * 10 + (s[|s| - 1] as int - '0' as int)
  }

  /** Decimal digits of `n`, as template literals render a count: the
      digits denote `n`, with no leading zero. */
  function NatToString(n: nat): (r: string)
    ensures r != []
    ensures forall i :: 0 <= i < |r| ==> '0' <= r[i] <= '9'
    ensures DecimalValue(r) == n
    ensures r[0] == '0' ==> r == "0"
  {
    if n < 10 then [Digit(n)]
    else
      var r := NatToString(n / 10) + [Digit(n % 10)];
      assert r[..|r| - 1] == NatToString(n / 10);
      r
  }

  function Digit(d: nat): (c: char)
    requires d < 10
    ensures '0' <= c <= '9'
    ensures c as int - '0' as int == d
  {
    "0123456789"[d]
  }
}
