/** The `JavaVersion` constructor (index.ts): the first match of the unanchored
    regular expression `(\d+?)\.(\d+?)\.(\d+?)(?:_(\d+))?` in a string, its
    digit groups read with `parseInt`, a missing fourth group read as "0".
    No match makes the constructor throw; here it is `None`. */
module JavaVersion {
  import opened Wrappers
  import opened JsString

  datatype Version = Version(major: nat, minor: nat, patch: nat, update: nat)

  // ---------------------------------------------------------------------------
  // The regular expression, stated declaratively

  /** `s[p..c]` matches `(\d+?)\.(\d+?)\.(\d+?)` with the three groups
      `s[p..a]`, `s[a+1..b]` and `s[b+1..c]`. */
  ghost predicate GroupsAt(s: string, p: nat, a: nat, b: nat, c: nat) {
    p < a && a + 1 < b && b + 1 < c <= |s|
    && Digits(s, p, a) && s[a] == '.'
    && Digits(s, a + 1, b) && s[b] == '.'
    && Digits(s, b + 1, c)
  }

  /** The regular expression matches somewhere in `s`. */
  ghost predicate HasMatch(s: string) {
    exists p: nat, a: nat, b: nat, c: nat :: GroupsAt(s, p, a, b, c)
  }

  /** No match starts before position `p`: the search is leftmost. */
  ghost predicate NoMatchBefore(s: string, p: nat) {
    forall q: nat, a: nat, b: nat, c: nat :: q < p ==> !GroupsAt(s, q, a, b, c)
  }

  /** Backtracking tries the lazy groups shortest first, the first group
      outermost, so among the splits at `p` it takes the lexicographically
      least `(a, b, c)`. */
  ghost predicate LazyChoice(s: string, p: nat, a: nat, b: nat, c: nat) {
    GroupsAt(s, p, a, b, c)
    && (forall a': nat, b': nat, c': nat :: GroupsAt(s, p, a', b', c') ==> a <= a')
    && (forall b': nat, c': nat :: GroupsAt(s, p, a, b', c') ==> b <= b')
    && (forall c': nat :: GroupsAt(s, p, a, b, c') ==> c <= c')
  }

  // ---------------------------------------------------------------------------
  // The matcher

  /** The end of the longest run of digits that starts at `i`. */
  function RunEnd(s: string, i: nat): (e: nat)
    requires i <= |s|
    ensures i <= e <= |s| && Digits(s, i, e)
    ensures e == |s| || !IsDigit(s[e])
    decreases |s| - i
  {
    if i < |s| && IsDigit(s[i]) then RunEnd(s, i + 1) else i
  }

  /** The optional greedy group `(?:_(\d+))?` at position `i`: an underscore
      and the longest digit run after it, or 0 when it does not match. */
  function UpdateAt(s: string, i: nat): nat
    requires i <= |s|
  {
    if i + 1 < |s| && s[i] == '_' && IsDigit(s[i + 1]) then
      var e := RunEnd(s, i + 1);
      ParseInt(s[i + 1..e])
    else 0
  }

  /** An attempt of the whole expression anchored at `p`. A lazy `\d+?`
      followed by `\.` can only stop where the digits stop, and the third lazy
      group, followed only by an optional group, stops after one digit. */
  function MatchAt(s: string, p: nat): (r: Option<Version>)
    requires p <= |s|
    ensures r.Some? ==> r.value.patch < 10
  {
    var a := RunEnd(s, p);
    if a == p || a >= |s| || s[a] != '.' then None
    else
      var b := RunEnd(s, a + 1);
      if b == a + 1 || b >= |s| || s[b] != '.' then None
      else if b + 1 >= |s| || !IsDigit(s[b + 1]) then None
      else Some(Version(ParseInt(s[p..a]), ParseInt(s[a + 1..b]),
                        DigitValue(s[b + 1]), UpdateAt(s, b + 2)))
  }

  /** `String.prototype.match` without the `g` flag: the leftmost start
      position from `i` on at which the expression matches. */
  function Search(s: string, i: nat): (r: Option<Version>)
    requires i <= |s|
    ensures r.Some? ==> r.value.patch < 10
    decreases |s| - i
  {
    if i == |s| then None
    else match MatchAt(s, i)
      case Some(v) => Some(v)
      case None => Search(s, i + 1)
  }

  /** `new JavaVersion(version)`; `None` where the constructor throws. */
  function Parse(version: string): (r: Option<Version>)
    ensures r.Some? ==> r.value.patch < 10
  {
    Search(version, 0)
  }

  // ---------------------------------------------------------------------------
  // The matcher is the regular expression

  /** A digit run that stops at a non-digit is the longest run. */
  lemma {:induction false} RunEndAt(s: string, i: nat, e: nat)
    requires i <= e < |s| && Digits(s, i, e) && !IsDigit(s[e])
    ensures RunEnd(s, i) == e
    decreases e - i
  {
    if i < e {
      RunEndAt(s, i + 1, e);
    }
  }

  /** At a position where some split exists, `MatchAt` takes the lazy one. */
  lemma MatchAtLazy(s: string, p: nat, a: nat, b: nat, c: nat)
    requires GroupsAt(s, p, a, b, c)
    ensures RunEnd(s, p) == a && RunEnd(s, a + 1) == b
    ensures LazyChoice(s, p, a, b, b + 2)
    ensures MatchAt(s, p) == Some(Version(ParseInt(s[p..a]), ParseInt(s[a + 1..b]),
                                          DigitValue(s[b + 1]), UpdateAt(s, b + 2)))
  {
    RunEndAt(s, p, a);
    RunEndAt(s, a + 1, b);
    forall a': nat, b': nat, c': nat | GroupsAt(s, p, a', b', c') ensures a <= a' && (a' == a ==> b <= b') {
      RunEndAt(s, p, a');
      RunEndAt(s, a' + 1, b');
    }
  }

  /** A match that starts at or after `i` is found by the search from `i`. */
  lemma {:induction false} SearchFinds(s: string, i: nat, q: nat, a: nat, b: nat, c: nat)
    requires i <= q && GroupsAt(s, q, a, b, c)
    ensures Search(s, i).Some?
    decreases |s| - i
  {
    MatchAtLazy(s, q, a, b, c);
    if i < q && MatchAt(s, i).None? {
      SearchFinds(s, i + 1, q, a, b, c);
    }
  }

  /** The search passes over positions where no split starts. */
  lemma {:induction false} SearchSkips(s: string, i: nat, p: nat)
    requires i <= p <= |s| && NoMatchBefore(s, p)
    ensures Search(s, i) == Search(s, p)
    decreases p - i
  {
    if i < p {
      if MatchAt(s, i).Some? {
        var a := RunEnd(s, i);
        var b := RunEnd(s, a + 1);
        assert GroupsAt(s, i, a, b, b + 2);
        assert false;
      }
      SearchSkips(s, i + 1, p);
    }
  }

  /** Parsing fails exactly when the expression matches nowhere. */
  lemma ParseFailsIffNoMatch(s: string)
    ensures Parse(s).None? <==> !HasMatch(s)
  {
    if HasMatch(s) {
      var p, a, b, c :| GroupsAt(s, p, a, b, c);
      SearchFinds(s, 0, p, a, b, c);
    } else if Parse(s).Some? {
      SearchSkips(s, 0, |s|);
      assert false;
    }
  }

  /** When the leftmost match starts at `p` and the lazy groups end at `a`,
      `b` and `c`, parsing yields exactly those groups and the update. */
  lemma ParseIsLeftmostLazyMatch(s: string, p: nat, a: nat, b: nat, c: nat)
    requires NoMatchBefore(s, p) && LazyChoice(s, p, a, b, c)
    ensures c == b + 2
    ensures Parse(s) == Some(Version(ParseInt(s[p..a]), ParseInt(s[a + 1..b]),
                                     ParseInt(s[b + 1..c]), UpdateAt(s, c)))
  {
    MatchAtLazy(s, p, a, b, c);
    SearchSkips(s, 0, p);
    assert s[b + 1..c] == [s[b + 1]];
  }

  /** The update group is the longest digit run after an underscore that
      immediately follows the single patch digit. */
  lemma UpdateIsGreedy(s: string, i: nat, e: nat)
    requires i + 1 < e <= |s| && s[i] == '_' && Digits(s, i + 1, e)
    requires e == |s| || !IsDigit(s[e])
    ensures UpdateAt(s, i) == ParseInt(s[i + 1..e])
  {
    if e < |s| {
      RunEndAt(s, i + 1, e);
    } else {
      RunEndToEnd(s, i + 1);
    }
  }

  lemma {:induction false} RunEndToEnd(s: string, i: nat)
    requires i <= |s| && Digits(s, i, |s|)
    ensures RunEnd(s, i) == |s|
    decreases |s| - i
  {
    if i < |s| {
      RunEndToEnd(s, i + 1);
    }
  }

  // ---------------------------------------------------------------------------
  // Examples

  /** A match at the very start is the one parsing returns. */
  lemma ParseAtStart(s: string, a: nat, b: nat)
    requires GroupsAt(s, 0, a, b, b + 2)
    ensures Parse(s) == Some(Version(ParseInt(s[..a]), ParseInt(s[a + 1..b]),
                                     DigitValue(s[b + 1]), UpdateAt(s, b + 2)))
  {
    MatchAtLazy(s, 0, a, b, b + 2);
    assert s[0..a] == s[..a];
  }

  /** The positions of the groups in "1.8.0_151", with or without a carriage return. */
  lemma Java8Update151Shape(s: string)
    requires s == "1.8.0_151" || s == "1.8.0_151\r"
    ensures GroupsAt(s, 0, 1, 3, 5) && s[5] == '_' && 9 <= |s| && Digits(s, 6, 9)
    ensures |s| == 9 || !IsDigit(s[9])
    ensures s[..1] == "1" && s[2..3] == "8" && DigitValue(s[4]) == 0 && s[6..9] == "151"
  {
  }

  lemma SmallDecimals()
    ensures ParseInt("151") == 151
    ensures ParseInt("1") == 1 && ParseInt("8") == 8 && ParseInt("9") == 9 && ParseInt("0") == 0
  {
    assert "151"[..2] == "15" && "15"[..1] == "1";
  }

  lemma ParseJava8Update151(s: string)
    requires s == "1.8.0_151" || s == "1.8.0_151\r"
    ensures Parse(s) == Some(Version(1, 8, 0, 151))
  {
    Java8Update151Shape(s);
    ParseAtStart(s, 1, 3);
    UpdateIsGreedy(s, 5, 9);
    SmallDecimals();
  }

  /** A full four-part version. */
  lemma ParseFull()
    ensures Parse("1.8.0_151") == Some(Version(1, 8, 0, 151))
  {
    ParseJava8Update151("1.8.0_151");
  }

  /** A version line that keeps a carriage return still parses fully. */
  lemma ParseCarriageReturn()
    ensures Parse("1.8.0_151\r") == Some(Version(1, 8, 0, 151))
  {
    ParseJava8Update151("1.8.0_151\r");
  }

  /** The positions of the groups in three strings with no update read. */
  lemma NoUpdateShape(s: string)
    requires s == "9.0.1" || s == "1.8.10" || s == "1.8.10_5"
    ensures GroupsAt(s, 0, 1, 3, 5) && UpdateAt(s, 5) == 0
    ensures s == "9.0.1" ==> s[..1] == "9" && s[2..3] == "0" && DigitValue(s[4]) == 1
    ensures s != "9.0.1" ==> s[..1] == "1" && s[2..3] == "8" && DigitValue(s[4]) == 1
  {
  }

  lemma ParseNoUpdateAt(s: string)
    requires s == "9.0.1" || s == "1.8.10" || s == "1.8.10_5"
    ensures s == "9.0.1" ==> Parse(s) == Some(Version(9, 0, 1, 0))
    ensures s != "9.0.1" ==> Parse(s) == Some(Version(1, 8, 1, 0))
  {
    NoUpdateShape(s);
    ParseAtStart(s, 1, 3);
    SmallDecimals();
  }

  /** Without `_N` the update is 0. */
  lemma ParseNoUpdate()
    ensures Parse("9.0.1") == Some(Version(9, 0, 1, 0))
  {
    ParseNoUpdateAt("9.0.1");
  }

  /** The lazy third group takes one digit: "1.8.10" has patch 1, and the
      "_N" after two patch digits is not read. */
  lemma ParseLazyPatch()
    ensures Parse("1.8.10") == Some(Version(1, 8, 1, 0))
    ensures Parse("1.8.10_5") == Some(Version(1, 8, 1, 0))
  {
    ParseNoUpdateAt("1.8.10");
    ParseNoUpdateAt("1.8.10_5");
  }

  /** Fewer than three dot-separated groups: the constructor throws. */
  lemma ParseTooShort()
    ensures Parse("1.8") == None
  {
    ParseFailsIffNoMatch("1.8");
  }
}
