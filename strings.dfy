/** Text helpers shared by the model: Python's `in`, `startswith`, `split`,
    string ordering, and the decimal rendering done by `str(int)` / `"%d"`. */
module Strings {

  predicate StartsWith(s: string, p: string) {
    |p| <= |s| && s[..|p|] == p
  }

  predicate EndsWith(s: string, p: string) {
    |p| <= |s| && s[|s| - |p|..] == p
  }

  /** Python's `p in s` for strings, scanned left to right. */
  predicate Contains(s: string, p: string)
    decreases |s|
  {
    StartsWith(s, p) || (s != [] && Contains(s[1..], p))
  }

  /** `p` occurs in `s` starting at index `i`. */
  predicate OccursAt(s: string, p: string, i: int) {
    0 <= i <= |s| - |p| && s[i..i + |p|] == p
  }

  /** `Contains` holds exactly when `p` occurs at some position of `s`. */
  lemma {:induction false} ContainsIff(s: string, p: string)
    ensures Contains(s, p) <==> exists i :: OccursAt(s, p, i)
    decreases |s|
  {
    if s != [] {
      ContainsIff(s[1..], p);
      if Contains(s[1..], p) {
        var i :| OccursAt(s[1..], p, i);
        assert s[i + 1..i + 1 + |p|] == s[1..][i..i + |p|];
        assert OccursAt(s, p, i + 1);
      }
      if StartsWith(s, p) {
        assert OccursAt(s, p, 0);
      }
      if i :| OccursAt(s, p, i) {
        if i > 0 {
          assert s[1..][i - 1..i - 1 + |p|] == s[i..i + |p|];
          assert OccursAt(s[1..], p, i - 1);
        } else {
          assert StartsWith(s, p);
        }
      }
    } else if StartsWith(s, p) {
      assert OccursAt(s, p, 0);
    }
  }

  // ---- decimal digits ------------------------------------------------------

  predicate IsDigit(c: char) {
    '0' <= c <= '9'
  }

  predicate AllDigits(s: string) {
    forall i :: 0 <= i < |s| ==> IsDigit(s[i])
  }

  function DigitChar(d: nat): (c: char)
    requires d < 10
    ensures IsDigit(c)
  {
    (48 + d) as char
  }

  /** Decimal rendering of a natural number, as Python's `str(n)`:
      no leading zeros, "0" for zero. */
  function NatStr(n: nat): (r: string)
    ensures |r| >= 1 && AllDigits(r)
    ensures (|r| > 1) == (n >= 10)
    decreases n
  {
    if n < 10 then [DigitChar(n)] else NatStr(n / 10) + [DigitChar(n % 10)]
  }

  /** Python's `str(i)` / `"%d" % i` for any integer. */
  function IntStr(i: int): string {
    if i < 0 then "-" + NatStr(-i) else NatStr(i)
  }

  /** The value of a string of decimal digits, as Python's `int(s)`. */
  function DigitsValue(s: string): nat
    requires AllDigits(s)
    decreases |s|
  {
    if s == [] then 0
    else DigitsValue(s[..|s| - 1]) * 10 + (s[|s| - 1] as int - 48)
  }

  /** Parsing the rendering gives back the number. */
  lemma {:induction false} DigitsValueOfNatStr(n: nat)
    ensures DigitsValue(NatStr(n)) == n
    decreases n
  {
    if n >= 10 {
      var r := NatStr(n);
      assert r[..|r| - 1] == NatStr(n / 10);
      DigitsValueOfNatStr(n / 10);
    }
  }

  lemma NatStrInjective(a: nat, b: nat)
    requires NatStr(a) == NatStr(b)
    ensures a == b
  {
    DigitsValueOfNatStr(a);
    DigitsValueOfNatStr(b);
  }

  /** A rendered number followed by "." can be cut off unambiguously: digits
      never contain '.'. This is what keeps index-bearing form keys apart. */
  lemma {:induction false} NatStrDotSplit(a: nat, b: nat, x: string, y: string)
    requires NatStr(a) + "." + x == NatStr(b) + "." + y
    ensures a == b && x == y
  {
    var ra, rb := NatStr(a), NatStr(b);
    var s := ra + "." + x;
    if |ra| < |rb| {
      CharAfter(ra, x);
      assert false;
    } else if |rb| < |ra| {
      CharAfter(rb, y);
      assert false;
    } else {
      assert ra == s[..|ra|] == rb;
      NatStrInjective(a, b);
      assert x == s[|ra| + 1..] == y;
    }
  }

  lemma CharAfter(r: string, x: string)
    ensures (r + "." + x)[|r|] == '.'
  {
  }

  // ---- split / join ----------------------------------------------------------

  /** Python's `s.split(sep)` for a one-character separator: always at least
      one part; an empty string gives `[""]`. */
  function Split(s: string, sep: char): (parts: seq<string>)
    ensures |parts| >= 1
    decreases |s|
  {
    if s == [] then [""]
    else
      var rest := Split(s[1..], sep);
      if s[0] == sep then [""] + rest else [[s[0]] + rest[0]] + rest[1..]
  }

  /** Python's `sep.join(parts)`. */
  function Join(parts: seq<string>, sep: char): string
    requires |parts| >= 1
    decreases |parts|
  {
    if |parts| == 1 then parts[0] else parts[0] + [sep] + Join(parts[1..], sep)
  }

  predicate Free(s: string, c: char) {
    forall i :: 0 <= i < |s| ==> s[i] != c
  }

  // One step of `Split` and `Join` at the front of the string.

  lemma JoinEmptyHead(rest: seq<string>, sep: char)
    requires |rest| >= 1
    ensures Join([""] + rest, sep) == [sep] + Join(rest, sep)
  {
    assert ([""] + rest)[1..] == rest;
  }

  lemma JoinConsHead(c: char, rest: seq<string>, sep: char)
    requires |rest| >= 1
    ensures Join([[c] + rest[0]] + rest[1..], sep) == [c] + Join(rest, sep)
  {
    var parts := [[c] + rest[0]] + rest[1..];
    if |rest| > 1 {
      assert parts[1..] == rest[1..];
    }
  }

  lemma SplitSep(t: string, sep: char)
    ensures Split([sep] + t, sep) == [""] + Split(t, sep)
  {
    assert ([sep] + t)[1..] == t;
  }

  lemma SplitOther(c: char, t: string, sep: char)
    requires c != sep
    ensures Split([c] + t, sep) == [[c] + Split(t, sep)[0]] + Split(t, sep)[1..]
  {
    assert ([c] + t)[1..] == t;
  }

  /** Splitting loses nothing: joining the parts gives the string back. */
  lemma {:induction false} SplitJoin(s: string, sep: char)
    ensures Join(Split(s, sep), sep) == s
    decreases |s|
  {
    if s != [] {
      SplitJoin(s[1..], sep);
      assert s == [s[0]] + s[1..];
      if s[0] == sep {
        SplitSep(s[1..], sep);
        JoinEmptyHead(Split(s[1..], sep), sep);
      } else {
        SplitOther(s[0], s[1..], sep);
        JoinConsHead(s[0], Split(s[1..], sep), sep);
      }
    }
  }

  /** No part of a split contains the separator. */
  lemma {:induction false} SplitPartsFree(s: string, sep: char)
    ensures forall k :: 0 <= k < |Split(s, sep)| ==> Free(Split(s, sep)[k], sep)
    decreases |s|
  {
    if s != [] {
      SplitPartsFree(s[1..], sep);
      var rest := Split(s[1..], sep);
      var parts := Split(s, sep);
      if s[0] != sep {
        forall k | 0 <= k < |parts| ensures Free(parts[k], sep) {
          if k > 0 { assert parts[k] == rest[k]; }
        }
      } else {
        forall k | 0 <= k < |parts| ensures Free(parts[k], sep) {
          if k > 0 { assert parts[k] == rest[k - 1]; }
        }
      }
    }
  }

  /** Conversely, parts free of the separator are recovered by splitting their join. */
  lemma {:induction false} JoinSplit(parts: seq<string>, sep: char)
    requires |parts| >= 1
    requires forall k :: 0 <= k < |parts| ==> Free(parts[k], sep)
    ensures Split(Join(parts, sep), sep) == parts
    decreases |parts|, |parts[0]|
  {
    if |parts| == 1 {
      SplitFree(parts[0], sep);
    } else if parts[0] == [] {
      var rest := parts[1..];
      JoinSplit(rest, sep);
      assert parts == [""] + rest;
      JoinEmptyHead(rest, sep);
      SplitSep(Join(rest, sep), sep);
    } else {
      var p0 := parts[0];
      var shorter := [p0[1..]] + parts[1..];
      forall k | 0 <= k < |shorter| ensures Free(shorter[k], sep) {
        if k > 0 { assert shorter[k] == parts[k]; }
      }
      JoinSplit(shorter, sep);
      assert shorter[1..] == parts[1..];
      assert [p0[0]] + p0[1..] == p0;
      assert parts == [[p0[0]] + shorter[0]] + shorter[1..];
      JoinConsHead(p0[0], shorter, sep);
      SplitOther(p0[0], Join(shorter, sep), sep);
    }
  }

  lemma {:induction false} SplitFree(s: string, sep: char)
    requires Free(s, sep)
    ensures Split(s, sep) == [s]
    decreases |s|
  {
    if s != [] {
      SplitFree(s[1..], sep);
      assert [s[0]] + s[1..] == s;
    }
  }

  // ---- ordering ----------------------------------------------------------------

  /** Python's `a < b` on strings: lexicographic by code point. */
  predicate Less(a: string, b: string)
    decreases |a|
  {
    if a == [] then b != []
    else if b == [] then false
    else if a[0] != b[0] then a[0] < b[0]
    else Less(a[1..], b[1..])
  }

  /** Two different strings are ordered one way and only one way. */
  lemma {:induction false} LessTrichotomy(a: string, b: string)
    ensures !(Less(a, b) && Less(b, a))
    ensures a != b ==> Less(a, b) || Less(b, a)
    decreases |a|
  {
    if a != [] && b != [] && a[0] == b[0] {
      LessTrichotomy(a[1..], b[1..]);
      if a != b {
        assert a == [a[0]] + a[1..] && b == [b[0]] + b[1..];
      }
    }
  }
}
