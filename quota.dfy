/** The edit-quota arithmetic of `edits_left_today` / `edits_left_globally`:
    find the first "Found [at least ]N edits" phrase of the edit-search page,
    read N with its thousands separator removed, and report `max(0, cap - N)`,
    or 0 when there is no such phrase. */
module Quota {
  import opened Strings
  import opened Values

  const FoundWord := "Found "
  const AtLeast := "at least "
  const EditsWord := " edits"

  /** The length of the longest run of decimal digits starting at `j`. */
  function DigitRun(s: string, j: nat): (n: nat)
    requires j <= |s|
    ensures j + n <= |s|
    decreases |s| - j
  {
    if j < |s| && IsDigit(s[j]) then 1 + DigitRun(s, j + 1) else 0
  }

  /** The run is made of digits and is followed by the end or a non-digit. */
  lemma {:induction false} DigitRunMaximal(s: string, j: nat)
    requires j <= |s|
    ensures AllDigits(s[j..j + DigitRun(s, j)])
    ensures j + DigitRun(s, j) == |s| || !IsDigit(s[j + DigitRun(s, j)])
    decreases |s| - j
  {
    if j < |s| && IsDigit(s[j]) {
      DigitRunMaximal(s, j + 1);
      var n := DigitRun(s, j + 1);
      assert s[j..j + 1 + n] == [s[j]] + s[j + 1..j + 1 + n];
    }
  }

  /** A digit run followed by the end or a non-digit is the longest one. */
  lemma {:induction false} DigitRunUnique(s: string, j: nat, n: nat)
    requires j + n <= |s| && AllDigits(s[j..j + n])
    requires j + n == |s| || !IsDigit(s[j + n])
    ensures DigitRun(s, j) == n
    decreases n
  {
    if n > 0 {
      assert s[j..j + n][0] == s[j];
      assert s[j + 1..j + n] == s[j..j + n][1..];
      DigitRunUnique(s, j + 1, n - 1);
    }
  }

  /** The regular expression `Found (?:at least )?([0-9]+(?:,[0-9]+)?) edits`
      tried at position `i`, returning the captured group. The digit runs
      are greedy and can only end before ',' or ' ', so the backtracking
      matcher has at most one way to succeed; this follows it. */
  function MatchAt(s: string, i: nat): Option<string>
    requires i <= |s|
  {
    if !StartsWith(s[i..], FoundWord) then None
    else if StartsWith(s[i + 6..], AtLeast) then MatchCount(s, i + 15)
    else MatchCount(s, i + 6)
  }

  /** The rest of the pattern from `j`: `([0-9]+(?:,[0-9]+)?) edits`. */
  function MatchCount(s: string, j: nat): Option<string>
    requires j <= |s|
  {
    var k := j + DigitRun(s, j);
    if k == j then None
    else if k < |s| && s[k] == ',' && DigitRun(s, k + 1) > 0 then
      var k2 := k + 1 + DigitRun(s, k + 1);
      if StartsWith(s[k2..], EditsWord) then Some(s[j..k2]) else None
    else if StartsWith(s[k..], EditsWord) then Some(s[j..k])
    else None
  }

  /** `re.search`: the leftmost match at or after `i`, with its position. */
  function FindFrom(s: string, i: nat): Option<(nat, string)>
    requires i <= |s|
    decreases |s| - i
  {
    if MatchAt(s, i).Some? then Some((i, MatchAt(s, i).value))
    else if i == |s| then None
    else FindFrom(s, i + 1)
  }

  function FindCount(s: string): Option<(nat, string)> {
    FindFrom(s, 0)
  }

  /** A count as the group captures it: digits, optionally a ',' and more digits. */
  predicate CountGroup(g: string) {
    var parts := Split(g, ',');
    |parts| <= 2 && forall k :: 0 <= k < |parts| ==> parts[k] != [] && AllDigits(parts[k])
  }

  /** The declarative reading of the pattern: at `i` the page reads
      "Found ", optionally "at least ", then the count `g`, then " edits". */
  predicate Phrase(s: string, i: nat, g: string)
    requires i <= |s|
  {
    CountGroup(g)
    && (StartsWith(s[i..], FoundWord + g + EditsWord)
        || StartsWith(s[i..], FoundWord + AtLeast + g + EditsWord))
  }

  // ---- the matcher agrees with the pattern ----------------------------------------

  lemma SliceJoin(s: string, a: nat, b: nat, c: nat)
    requires a <= b <= c <= |s|
    ensures s[a..b] + s[b..c] == s[a..c]
  {
  }

  /** What a prefix says about the characters at an offset. */
  lemma StartsWithPart(s: string, i: nat, p: string, off: nat, len: nat)
    requires i <= |s| && StartsWith(s[i..], p) && off + len <= |p|
    ensures i + off + len <= |s| && s[i + off..i + off + len] == p[off..off + len]
  {
    assert s[i..][..|p|] == p;
    assert s[i + off..i + off + len] == s[i..][..|p|][off..off + len];
  }

  lemma DigitsNoComma(d: string)
    requires AllDigits(d)
    ensures Free(d, ',')
  {
  }

  lemma CountGroupOne(d: string)
    requires d != [] && AllDigits(d)
    ensures CountGroup(d)
  {
    DigitsNoComma(d);
    SplitFree(d, ',');
  }

  lemma CountGroupTwo(d1: string, d2: string)
    requires d1 != [] && AllDigits(d1) && d2 != [] && AllDigits(d2)
    ensures CountGroup(d1 + "," + d2)
  {
    DigitsNoComma(d1);
    DigitsNoComma(d2);
    var parts := [d1, d2];
    assert parts[1..] == [d2];
    JoinSplit(parts, ',');
    assert Join(parts, ',') == d1 + "," + d2;
  }

  /** A count group is one digit run, or two joined by ','. */
  lemma CountGroupShape(g: string)
    requires CountGroup(g)
    ensures var parts := Split(g, ',');
      (|parts| == 1 && g == parts[0]) || (|parts| == 2 && g == parts[0] + "," + parts[1])
  {
    SplitJoin(g, ',');
    var parts := Split(g, ',');
    if |parts| == 2 {
      assert parts[1..] == [parts[1]];
    }
  }

  /** `s` reads `x`, `y`, `z` from `i` exactly when it reads them in turn. */
  lemma StartsWithConcat(s: string, i: nat, x: string, y: string, z: string)
    requires i <= |s|
    ensures StartsWith(s[i..], x + y + z) <==>
      i + |x| + |y| <= |s| && s[i..i + |x|] == x && s[i + |x|..i + |x| + |y|] == y
      && StartsWith(s[i + |x| + |y|..], z)
  {
    var p := x + y + z;
    if StartsWith(s[i..], p) {
      StartsWithPart(s, i, p, 0, |x|);
      StartsWithPart(s, i, p, |x|, |y|);
      StartsWithPart(s, i, p, |x| + |y|, |z|);
      assert p[..|x|] == x && p[|x|..|x| + |y|] == y && p[|x| + |y|..|p|] == z;
    }
    if i + |x| + |y| <= |s| && s[i..i + |x|] == x && s[i + |x|..i + |x| + |y|] == y
      && StartsWith(s[i + |x| + |y|..], z)
    {
      var e := i + |x| + |y|;
      assert s[e..e + |z|] == z;
      assert s[i..e + |z|] == s[i..i + |x|] + s[i + |x|..e] + s[e..e + |z|];
      assert s[i..][..|p|] == s[i..e + |z|];
    }
  }

  /** A digit run, a ',' and a digit run read as a two-part count group. */
  lemma GroupAt(s: string, j: nat, k: nat, k2: nat)
    requires j < k < k2 <= |s| && s[k] == ','
    requires AllDigits(s[j..k]) && AllDigits(s[k + 1..k2]) && k + 1 < k2
    ensures CountGroup(s[j..k2]) && s[j..k2] == s[j..k] + "," + s[k + 1..k2]
  {
    assert s[j..k2] == s[j..k] + s[k..k + 1] + s[k + 1..k2];
    assert s[k..k + 1] == ",";
    CountGroupTwo(s[j..k], s[k + 1..k2]);
  }

  /** Soundness of the count part. */
  lemma MatchCountSound(s: string, j: nat)
    requires j <= |s| && MatchCount(s, j).Some?
    ensures var g := MatchCount(s, j).value;
      CountGroup(g) && j + |g| <= |s| && s[j..j + |g|] == g && StartsWith(s[j + |g|..], EditsWord)
  {
    var k := j + DigitRun(s, j);
    if k < |s| && s[k] == ',' && DigitRun(s, k + 1) > 0 {
      MatchCountSoundTwo(s, j, k);
    } else {
      DigitRunMaximal(s, j);
      CountGroupOne(s[j..k]);
    }
  }

  lemma MatchCountSoundTwo(s: string, j: nat, k: nat)
    requires j <= |s| && k == j + DigitRun(s, j) && k > j
    requires k < |s| && s[k] == ',' && DigitRun(s, k + 1) > 0
    ensures var k2 := k + 1 + DigitRun(s, k + 1);
      CountGroup(s[j..k2]) && StartsWith(s[k2..], EditsWord) <==> MatchCount(s, j).Some?
    ensures MatchCount(s, j).Some? ==> MatchCount(s, j).value == s[j..k + 1 + DigitRun(s, k + 1)]
  {
    DigitRunMaximal(s, j);
    DigitRunMaximal(s, k + 1);
    GroupAt(s, j, k, k + 1 + DigitRun(s, k + 1));
  }

  /** Completeness for a count without a separator. */
  lemma MatchCountCompleteOne(s: string, j: nat, d: string)
    requires d != [] && AllDigits(d) && j + |d| <= |s| && s[j..j + |d|] == d
    requires StartsWith(s[j + |d|..], EditsWord)
    ensures MatchCount(s, j) == Some(d)
  {
    var k := j + |d|;
    assert s[k..][0] == s[k] == ' ';
    DigitRunUnique(s, j, |d|);
  }

  /** Completeness for a count with a separator. */
  lemma MatchCountCompleteTwo(s: string, j: nat, d1: string, d2: string)
    requires d1 != [] && AllDigits(d1) && d2 != [] && AllDigits(d2)
    requires j + |d1| + 1 + |d2| <= |s|
    requires s[j..j + |d1|] == d1 && s[j + |d1|] == ',' && s[j + |d1| + 1..j + |d1| + 1 + |d2|] == d2
    requires StartsWith(s[j + |d1| + 1 + |d2|..], EditsWord)
    ensures MatchCount(s, j) == Some(s[j..j + |d1| + 1 + |d2|])
  {
    var k := j + |d1|;
    var k2 := k + 1 + |d2|;
    DigitRunUnique(s, j, |d1|);
    assert s[k2..][0] == s[k2] == ' ';
    DigitRunUnique(s, k + 1, |d2|);
  }

  /** Completeness of the count part. */
  lemma MatchCountComplete(s: string, j: nat, g: string)
    requires j + |g| <= |s| && CountGroup(g) && s[j..j + |g|] == g
    requires StartsWith(s[j + |g|..], EditsWord)
    ensures MatchCount(s, j) == Some(g)
  {
    CountGroupShape(g);
    var parts := Split(g, ',');
    if |parts| == 1 {
      MatchCountCompleteOne(s, j, g);
    } else {
      var d1 := parts[0];
      var d2 := parts[1];
      var k := j + |d1|;
      assert s[j..k] == s[j..j + |g|][..|d1|];
      assert s[k] == s[j..j + |g|][|d1|];
      assert s[k + 1..j + |g|] == s[j..j + |g|][|d1| + 1..];
      MatchCountCompleteTwo(s, j, d1, d2);
    }
  }

  /** The text before the count: "Found " and, when it follows, "at least ". */
  lemma MatchAtPrefix(s: string, i: nat)
    requires i <= |s| && StartsWith(s[i..], FoundWord)
    ensures var a := if StartsWith(s[i + 6..], AtLeast) then AtLeast else "";
      i + 6 + |a| <= |s| && s[i..i + 6 + |a|] == FoundWord + a
  {
    if StartsWith(s[i + 6..], AtLeast) {
      assert s[i..i + 15] == s[i..i + 6] + s[i + 6..i + 15];
    }
  }

  /** Soundness: whatever the matcher captures is a count phrase at `i`. */
  lemma MatchAtSound(s: string, i: nat)
    requires i <= |s| && MatchAt(s, i).Some?
    ensures Phrase(s, i, MatchAt(s, i).value)
  {
    MatchAtPrefix(s, i);
    if StartsWith(s[i + 6..], AtLeast) {
      var g := MatchCount(s, i + 15).value;
      MatchCountSound(s, i + 15);
      StartsWithConcat(s, i, FoundWord + AtLeast, g, EditsWord);
    } else {
      var g := MatchCount(s, i + 6).value;
      MatchCountSound(s, i + 6);
      assert FoundWord + "" == FoundWord;
      StartsWithConcat(s, i, FoundWord, g, EditsWord);
    }
  }

  /** A count group starts with a digit. */
  lemma CountGroupHead(g: string)
    requires CountGroup(g)
    ensures g != [] && IsDigit(g[0])
  {
    CountGroupShape(g);
    assert Split(g, ',')[0][0] == g[0];
  }

  /** Completeness: a count phrase at `i` is what the matcher captures there. */
  lemma MatchAtComplete(s: string, i: nat, g: string)
    requires i <= |s| && Phrase(s, i, g)
    ensures MatchAt(s, i) == Some(g)
  {
    CountGroupHead(g);
    if StartsWith(s[i..], FoundWord + AtLeast + g + EditsWord) {
      MatchAtCompleteAtLeast(s, i, g);
    } else {
      MatchAtCompletePlain(s, i, g);
    }
  }

  lemma MatchAtCompleteAtLeast(s: string, i: nat, g: string)
    requires i <= |s| && CountGroup(g)
    requires StartsWith(s[i..], FoundWord + AtLeast + g + EditsWord)
    ensures MatchAt(s, i) == Some(g)
  {
    StartsWithConcat(s, i, FoundWord + AtLeast, g, EditsWord);
    assert s[i..i + 6] == s[i..i + 15][..6];
    assert s[i + 6..i + 15] == s[i..i + 15][6..];
    MatchCountComplete(s, i + 15, g);
  }

  lemma MatchAtCompletePlain(s: string, i: nat, g: string)
    requires i <= |s| && CountGroup(g) && g != [] && IsDigit(g[0])
    requires StartsWith(s[i..], FoundWord + g + EditsWord)
    ensures MatchAt(s, i) == Some(g)
  {
    StartsWithConcat(s, i, FoundWord, g, EditsWord);
    assert s[i + 6..][0] == s[i + 6] == g[0];
    MatchCountComplete(s, i + 6, g);
  }

  /** The matcher captures exactly the count phrases. */
  lemma MatchAtIff(s: string, i: nat, g: string)
    requires i <= |s|
    ensures MatchAt(s, i) == Some(g) <==> Phrase(s, i, g)
  {
    if MatchAt(s, i) == Some(g) {
      MatchAtSound(s, i);
    }
    if Phrase(s, i, g) {
      MatchAtComplete(s, i, g);
    }
  }

  /** The search finds the leftmost count phrase at or after `from`, and
      finds nothing exactly when there is none. */
  lemma {:induction false} FindFromLeftmost(s: string, from: nat)
    requires from <= |s|
    ensures FindFrom(s, from).Some? ==>
      var (i, g) := FindFrom(s, from).value;
      from <= i <= |s| && Phrase(s, i, g)
      && forall i', g' :: from <= i' < i ==> !Phrase(s, i', g')
    ensures FindFrom(s, from).None? <==> forall i', g' :: from <= i' <= |s| ==> !Phrase(s, i', g')
    decreases |s| - from
  {
    if MatchAt(s, from).Some? {
      MatchAtSound(s, from);
    } else {
      forall g' ensures !Phrase(s, from, g') {
        if Phrase(s, from, g') { MatchAtComplete(s, from, g'); }
      }
      if from < |s| {
        FindFromLeftmost(s, from + 1);
      }
    }
  }

  // ---- the count and the quota ---------------------------------------------------

  /** `re.sub(r"[^0-9]+", "", g)`: the digits of `g`, in order. */
  function DigitsOnly(g: string): (r: string)
    ensures AllDigits(r)
    decreases |g|
  {
    if g == [] then []
    else (if IsDigit(g[0]) then [g[0]] else []) + DigitsOnly(g[1..])
  }

  /** The count a captured group stands for: `int(...)` of its digits. */
  function CountValue(g: string): nat {
    DigitsValue(DigitsOnly(g))
  }

  lemma {:induction false} DigitsOnlyOfDigits(d: string)
    requires AllDigits(d)
    ensures DigitsOnly(d) == d
    decreases |d|
  {
    if d != [] {
      DigitsOnlyOfDigits(d[1..]);
      assert [d[0]] + d[1..] == d;
    }
  }

  lemma {:induction false} DigitsOnlyAppend(a: string, b: string)
    ensures DigitsOnly(a + b) == DigitsOnly(a) + DigitsOnly(b)
    decreases |a|
  {
    if a != [] {
      DigitsOnlyAppend(a[1..], b);
      assert (a + b)[1..] == a[1..] + b;
    } else {
      assert a + b == b;
    }
  }

  /** With the separator dropped, "1,200" counts as 1200: a grouped count
      reads as the concatenation of its digit runs. */
  lemma CountValueGroup(g: string)
    requires CountGroup(g)
    ensures var parts := Split(g, ',');
      CountValue(g) == DigitsValue(if |parts| == 1 then parts[0] else parts[0] + parts[1])
  {
    CountGroupShape(g);
    var parts := Split(g, ',');
    if |parts| == 1 {
      DigitsOnlyOfDigits(g);
    } else {
      DigitsOnlyAppend(parts[0] + ",", parts[1]);
      DigitsOnlyAppend(parts[0], ",");
      assert DigitsOnly(",") == [];
      DigitsOnlyOfDigits(parts[0]);
      DigitsOnlyOfDigits(parts[1]);
      assert DigitsOnly(parts[0] + ",") == parts[0];
      assert DigitsOnly(g) == parts[0] + parts[1];
    }
  }

  /** What a quota function returns for the page: nothing left when no count
      phrase is found, else the cap less the first count found, never below 0. */
  function Remaining(cap: int, page: string): int {
    match FindCount(page)
    case None => 0
    case Some((_, g)) => if cap - CountValue(g) > 0 then cap - CountValue(g) else 0
  }

  /** The quota is never negative and never above a non-negative cap, and it
      is `max(0, cap - n)` for the first count phrase when there is one. */
  lemma RemainingBounds(cap: int, page: string)
    ensures 0 <= Remaining(cap, page)
    ensures cap >= 0 ==> Remaining(cap, page) <= cap
    ensures (forall i, g :: 0 <= i <= |page| ==> !Phrase(page, i, g)) ==> Remaining(cap, page) == 0
    ensures FindCount(page).Some? ==>
      var (i, g) := FindCount(page).value;
      i <= |page| && Phrase(page, i, g) && Remaining(cap, page) == (if cap - CountValue(g) > 0 then cap - CountValue(g) else 0)
  {
    FindFromLeftmost(page, 0);
  }

  lemma PhrasePlainExample()
    ensures Phrase("Found 400 edits", 0, "400")
  {
    CountGroupOne("400");
    assert "Found 400 edits"[0..] == FoundWord + "400" + EditsWord;
  }

  lemma CountValuePlainExample()
    ensures CountValue("400") == 400
  {
    DigitsOnlyOfDigits("400");
    assert "400"[..2] == "40" && "40"[..1] == "4" && "4"[..0] == [];
  }

  /** "Found 400 edits" against a cap of 1000 leaves 600. */
  lemma RemainingExamplePlain()
    ensures Remaining(1000, "Found 400 edits") == 600
  {
    var page := "Found 400 edits";
    PhrasePlainExample();
    MatchAtComplete(page, 0, "400");
    assert FindCount(page) == Some((0, "400"));
    CountValuePlainExample();
  }

  lemma SplitGroupedExample()
    ensures Split("1,200", ',') == ["1", "200"]
  {
    JoinSplit(["1", "200"], ',');
    assert ["1", "200"][1..] == ["200"];
    assert Join(["1", "200"], ',') == "1,200";
  }

  lemma DigitsValueExample()
    ensures DigitsValue("1" + "200") == 1200
  {
    assert "1" + "200" == "1200";
    assert "1200"[..3] == "120" && "120"[..2] == "12" && "12"[..1] == "1" && "1"[..0] == [];
  }

  lemma CountValueGroupedExample()
    ensures CountValue("1,200") == 1200
  {
    SplitGroupedExample();
    CountGroupTwo("1", "200");
    assert "1" + "," + "200" == "1,200";
    CountValueGroup("1,200");
    DigitsValueExample();
  }

  lemma PhraseGroupedExample()
    ensures Phrase("Found at least 1,200 edits", 0, "1,200")
  {
    CountGroupTwo("1", "200");
    assert "1" + "," + "200" == "1,200";
    assert "Found at least 1,200 edits"[0..] == FoundWord + AtLeast + "1,200" + EditsWord;
  }

  /** "Found at least 1,200 edits" against a cap of 1000 leaves nothing. */
  lemma RemainingExampleGrouped()
    ensures Remaining(1000, "Found at least 1,200 edits") == 0
  {
    var page := "Found at least 1,200 edits";
    PhraseGroupedExample();
    MatchAtComplete(page, 0, "1,200");
    assert FindCount(page) == Some((0, "1,200"));
    CountValueGroupedExample();
  }
}
