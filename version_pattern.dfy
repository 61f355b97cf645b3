/**
 * The regular expression `latest_versions` applies to each link text,
 * `Python (?P<version>\d\.\d+) \((?P<status>.*)\)`, with `re.search`
 * semantics: the leftmost position where it matches, `\d+` taking every
 * following digit, and `.*` (which never crosses a line break) running to
 * the last ")" on its line.
 */
module VersionPattern {
  import opened Wrappers

  predicate IsDigit(c: char) {
    '0' <= c <= '9'
  }

  /** The two groups of a match. */
  datatype Split = Split(version: string, status: string)

  /** What the `version` group accepts: `\d\.\d+`. */
  predicate IsVersion(v: string) {
    && |v| >= 3
    && IsDigit(v[0])
    && v[1] == '.'
    && forall k | 2 <= k < |v| :: IsDigit(v[k])
  }

  /** The text a match with groups `sp` covers. */
  function Render(sp: Split): string {
    "Python " + sp.version + " (" + sp.status + ")"
  }

  /** The pattern, with groups `sp`, matches `t` at offset `i`. */
  ghost predicate MatchesAt(t: string, i: int, sp: Split) {
    && IsVersion(sp.version)
    && '\n' !in sp.status
    && 0 <= i
    && i + |Render(sp)| <= |t|
    && t[i..i + |Render(sp)|] == Render(sp)
  }

  /** End of the run of digits that starts at `j`. */
  function DigitsEnd(t: string, j: nat): (e: nat)
    requires j <= |t|
    ensures j <= e <= |t|
    ensures forall k | j <= k < e :: IsDigit(t[k])
    ensures e == |t| || !IsDigit(t[e])
    decreases |t| - j
  {
    if j < |t| && IsDigit(t[j]) then DigitsEnd(t, j + 1) else j
  }

  /** The first line break at or after `k`, or the end: where `.` stops matching. */
  function LineEnd(t: string, k: nat): (e: nat)
    requires k <= |t|
    ensures k <= e <= |t|
    ensures forall m | k <= m < e :: t[m] != '\n'
    ensures e == |t| || t[e] == '\n'
    decreases |t| - k
  {
    if k < |t| && t[k] != '\n' then LineEnd(t, k + 1) else k
  }

  /** The last ")" in `t[k..e]`: where the greedy `.*\)` settles. */
  function LastParen(t: string, k: nat, e: nat): (r: Option<nat>)
    requires k <= e <= |t|
    ensures r.Some? ==> k <= r.value < e && t[r.value] == ')'
    ensures r.Some? ==> forall m | r.value < m < e :: t[m] != ')'
    ensures r.None? ==> forall m | k <= m < e :: t[m] != ')'
    decreases e - k
  {
    if e == k then None
    else if t[e - 1] == ')' then Some(e - 1)
    else LastParen(t, k, e - 1)
  }

  /** The match the regular expression engine finds when it starts at offset `i`. */
  function MatchAt(t: string, i: nat): Option<Split>
    requires i <= |t|
  {
    if i + 9 <= |t| && t[i..i + 7] == "Python " && IsDigit(t[i + 7]) && t[i + 8] == '.' then
      var j := DigitsEnd(t, i + 9);
      if i + 9 < j && j + 2 <= |t| && t[j] == ' ' && t[j + 1] == '(' then
        match LastParen(t, j + 2, LineEnd(t, j + 2))
        case Some(p) => Some(Split(t[i + 7..j], t[j + 2..p]))
        case None => None
      else None
    else None
  }

  /** The text from `i` to the ")" at `p` is the rendering of the two groups it encloses. */
  lemma RenderedAt(t: string, i: nat, j: nat, p: nat)
    requires i + 7 <= j && j + 2 <= p < |t|
    requires t[i..i + 7] == "Python " && t[j] == ' ' && t[j + 1] == '(' && t[p] == ')'
    ensures t[i..p + 1] == Render(Split(t[i + 7..j], t[j + 2..p]))
  {
    var r := Render(Split(t[i + 7..j], t[j + 2..p]));
    assert |r| == p + 1 - i;
    forall k | 0 <= k < |r|
      ensures r[k] == t[i + k]
    {
      if k < 7 {
        assert r[k] == "Python "[k] == t[i..i + 7][k];
      } else if k < j - i {
        assert r[k] == t[i + 7..j][k - 7];
      } else if k == j - i {
        assert r[k] == ' ';
      } else if k == j - i + 1 {
        assert r[k] == '(';
      } else if k < p - i {
        assert r[k] == t[j + 2..p][k - (j - i + 2)];
      } else {
        assert r[k] == ')';
      }
    }
  }

  /** The groups between "Python " at `i`, a digit run ending at `j` and a ")" at `p` form a match. */
  lemma MatchesBetween(t: string, i: nat, j: nat, p: nat)
    requires i + 9 < j && j + 2 <= p < |t|
    requires t[i..i + 7] == "Python " && IsDigit(t[i + 7]) && t[i + 8] == '.'
    requires forall k | i + 9 <= k < j :: IsDigit(t[k])
    requires t[j] == ' ' && t[j + 1] == '(' && t[p] == ')'
    requires forall m | j + 2 <= m < p :: t[m] != '\n'
    ensures MatchesAt(t, i, Split(t[i + 7..j], t[j + 2..p]))
  {
    var sp := Split(t[i + 7..j], t[j + 2..p]);
    RenderedAt(t, i, j, p);
    assert IsVersion(sp.version) by {
      forall k | 2 <= k < |sp.version|
        ensures IsDigit(sp.version[k])
      {
        assert sp.version[k] == t[i + 7 + k];
      }
    }
    assert '\n' !in sp.status by {
      forall k | 0 <= k < |sp.status|
        ensures sp.status[k] != '\n'
      {
        assert sp.status[k] == t[j + 2 + k];
      }
    }
  }

  /** Whatever the engine finds at an offset is a match there. */
  lemma MatchAtSound(t: string, i: nat)
    requires i <= |t| && MatchAt(t, i).Some?
    ensures MatchesAt(t, i, MatchAt(t, i).value)
  {
    var j := DigitsEnd(t, i + 9);
    var e := LineEnd(t, j + 2);
    var p := LastParen(t, j + 2, e).value;
    assert MatchAt(t, i) == Some(Split(t[i + 7..j], t[j + 2..p]));
    MatchesBetween(t, i, j, p);
  }

  /** A match at `i` spelled out character by character. */
  lemma MatchedParts(t: string, i: nat, sp: Split)
    requires MatchesAt(t, i, sp)
    ensures t[i..i + 7] == "Python "
    ensures forall k | 0 <= k < |sp.version| :: t[i + 7 + k] == sp.version[k]
    ensures t[i + 7 + |sp.version|] == ' ' && t[i + 8 + |sp.version|] == '('
    ensures forall k | 0 <= k < |sp.status| :: t[i + 9 + |sp.version| + k] == sp.status[k]
    ensures t[i + 9 + |sp.version| + |sp.status|] == ')'
  {
    var v, s := sp.version, sp.status;
    var r := t[i..i + |Render(sp)|];
    assert r == Render(sp);
    assert t[i..i + 7] == r[..7];
    forall k | 0 <= k < |v|
      ensures t[i + 7 + k] == v[k]
    {
      assert t[i + 7 + k] == r[7 + k];
    }
    assert t[i + 7 + |v|] == r[7 + |v|];
    assert t[i + 8 + |v|] == r[8 + |v|];
    forall k | 0 <= k < |s|
      ensures t[i + 9 + |v| + k] == s[k]
    {
      assert t[i + 9 + |v| + k] == r[9 + |v| + k];
    }
    assert t[i + 9 + |v| + |s|] == r[9 + |v| + |s|];
  }

  lemma DigitsEndAt(t: string, from: nat, j: nat)
    requires from <= j < |t|
    requires forall k | from <= k < j :: IsDigit(t[k])
    requires !IsDigit(t[j])
    ensures DigitsEnd(t, from) == j
  {
  }

  lemma LineEndBeyond(t: string, k: nat, q: nat)
    requires k <= q < |t|
    requires forall m | k <= m <= q :: t[m] != '\n'
    ensures q < LineEnd(t, k)
  {
  }

  /** The engine's steps at offset `i`, once each of them is known to succeed. */
  lemma MatchAtSteps(t: string, i: nat, j: nat, p: nat)
    requires i + 9 < j && j + 2 <= |t|
    requires t[i..i + 7] == "Python " && IsDigit(t[i + 7]) && t[i + 8] == '.'
    requires DigitsEnd(t, i + 9) == j && t[j] == ' ' && t[j + 1] == '('
    requires LastParen(t, j + 2, LineEnd(t, j + 2)) == Some(p)
    ensures MatchAt(t, i) == Some(Split(t[i + 7..j], t[j + 2..p]))
  {
  }

  /** After "Python " at `i`, a version `v` followed by " " is exactly the engine's digit run. */
  lemma VersionRunAt(t: string, i: nat, v: string)
    requires IsVersion(v) && i + 7 + |v| < |t|
    requires forall k | 0 <= k < |v| :: t[i + 7 + k] == v[k]
    requires t[i + 7 + |v|] == ' '
    ensures IsDigit(t[i + 7]) && t[i + 8] == '.'
    ensures DigitsEnd(t, i + 9) == i + 7 + |v|
    ensures t[i + 7..i + 7 + |v|] == v
  {
    var j := i + 7 + |v|;
    assert t[i + 7] == v[0] && t[i + 8] == v[1];
    forall k | i + 9 <= k < j
      ensures IsDigit(t[k])
    {
      assert t[k] == v[k - i - 7];
    }
    DigitsEndAt(t, i + 9, j);
    forall k | 0 <= k < |v|
      ensures t[i + 7..j][k] == v[k]
    {
    }
  }

  /** A one-line status `s` closed by ")" at `k + |s|`: the greedy `.*\)` reaches at least that ")". */
  lemma StatusRunAt(t: string, k: nat, s: string)
    requires '\n' !in s && k + |s| < |t|
    requires forall m | 0 <= m < |s| :: t[k + m] == s[m]
    requires t[k + |s|] == ')'
    ensures LastParen(t, k, LineEnd(t, k)).Some?
    ensures k + |s| <= LastParen(t, k, LineEnd(t, k)).value
  {
    var q := k + |s|;
    forall m | k <= m <= q
      ensures t[m] != '\n'
    {
      if m < q {
        assert t[m] == s[m - k];
      }
    }
    LineEndBeyond(t, k, q);
  }

  /** The engine at `i`, when the text there is spelled out as a version and a one-line status. */
  lemma MatchAtParts(t: string, i: nat, v: string, s: string)
    requires IsVersion(v) && '\n' !in s && i + 9 + |v| + |s| < |t|
    requires t[i..i + 7] == "Python "
    requires forall k | 0 <= k < |v| :: t[i + 7 + k] == v[k]
    requires t[i + 7 + |v|] == ' ' && t[i + 8 + |v|] == '('
    requires forall k | 0 <= k < |s| :: t[i + 9 + |v| + k] == s[k]
    requires t[i + 9 + |v| + |s|] == ')'
    ensures MatchAt(t, i).Some?
    ensures MatchAt(t, i).value.version == v
    ensures |s| <= |MatchAt(t, i).value.status|
  {
    var j := i + 7 + |v|;
    VersionRunAt(t, i, v);
    StatusRunAt(t, j + 2, s);
    var p := LastParen(t, j + 2, LineEnd(t, j + 2)).value;
    MatchAtSteps(t, i, j, p);
  }

  /**
   * Whenever the pattern can match at an offset, the engine finds a match
   * there with the same version and the longest status.
   */
  lemma MatchAtGreedy(t: string, i: nat, other: Split)
    requires i <= |t| && MatchesAt(t, i, other)
    ensures MatchAt(t, i).Some?
    ensures MatchAt(t, i).value.version == other.version
    ensures |other.status| <= |MatchAt(t, i).value.status|
  {
    MatchedParts(t, i, other);
    MatchAtParts(t, i, other.version, other.status);
  }

  /** The first offset, from `i` on, at which the engine finds a match. */
  function FirstMatchOffset(t: string, i: nat): (r: Option<nat>)
    requires i <= |t|
    ensures r.Some? ==> i <= r.value <= |t| && MatchAt(t, r.value).Some?
    ensures r.Some? ==> forall m | i <= m < r.value :: MatchAt(t, m).None?
    ensures r.None? ==> forall k | i <= k <= |t| :: MatchAt(t, k).None?
    decreases |t| - i
  {
    if MatchAt(t, i).Some? then Some(i)
    else if i == |t| then None
    else FirstMatchOffset(t, i + 1)
  }

  /** `re.search(pattern, t)`: the groups of the match at the first offset that has one. */
  function Search(t: string): (r: Option<Split>)
    ensures r.None? <==> forall k | 0 <= k <= |t| :: MatchAt(t, k).None?
    ensures r.Some? ==> IsVersion(r.value.version) && '\n' !in r.value.status
  {
    match FirstMatchOffset(t, 0)
    case Some(k) => MatchAtSound(t, k); MatchAt(t, k)
    case None => None
  }

  /**
   * `version, status = text_match.groups() if text_match else (a_tag.text, '')`:
   * the groups of the leftmost match, or the raw text and an empty status.
   */
  function VersionSplit(text: string): (r: Split)
    ensures Search(text).None? ==> r == Split(text, "")
    ensures Search(text).Some? ==> IsVersion(r.version) && '\n' !in r.status
  {
    match Search(text)
    case Some(sp) => sp
    case None => Split(text, "")
  }

  /** When `re.search` finds something, the pattern matches somewhere. */
  lemma SearchFindsMatch(text: string)
    ensures Search(text).Some? ==> exists i, sp :: MatchesAt(text, i, sp)
  {
    if Search(text).Some? {
      var i := FirstMatchOffset(text, 0).value;
      MatchAtSound(text, i);
    }
  }

  /** With no match anywhere, the split is the raw text and an empty status. */
  lemma VersionSplitNoMatch(text: string)
    requires forall i, sp :: !MatchesAt(text, i, sp)
    ensures VersionSplit(text) == Split(text, "")
  {
    SearchFindsMatch(text);
  }

  /** Where the engine finds nothing, the pattern cannot match. */
  lemma NoMatchBefore(text: string, i: nat)
    requires i <= |text|
    requires forall m | 0 <= m < i :: MatchAt(text, m).None?
    ensures forall j, sp | 0 <= j < i :: !MatchesAt(text, j, sp)
  {
    forall j, sp | 0 <= j < i
      ensures !MatchesAt(text, j, sp)
    {
      if MatchesAt(text, j, sp) {
        MatchAtGreedy(text, j, sp);
      }
    }
  }

  /** Every match at `i` is dominated by the one the engine finds there. */
  lemma BestAt(text: string, i: nat, found: Split)
    requires i <= |text| && MatchAt(text, i) == Some(found)
    ensures forall sp | MatchesAt(text, i, sp) ::
      sp.version == found.version && |sp.status| <= |found.status|
  {
    forall sp | MatchesAt(text, i, sp)
      ensures sp.version == found.version && |sp.status| <= |found.status|
    {
      MatchAtGreedy(text, i, sp);
    }
  }

  /**
   * `found` is a match at `i`, no offset before `i` matches, and every
   * match at `i` has the same version and a status no longer than `found`'s.
   */
  ghost predicate LeftmostLongest(text: string, i: int, found: Split) {
    && MatchesAt(text, i, found)
    && (forall j, sp | 0 <= j < i :: !MatchesAt(text, j, sp))
    && (forall sp | MatchesAt(text, i, sp) ::
          sp.version == found.version && |sp.status| <= |found.status|)
  }

  /**
   * Otherwise the split is the pair of groups of a match at the leftmost
   * offset where one exists, with the longest status possible there.
   */
  lemma VersionSplitLeftmost(text: string, i0: int, sp0: Split)
    requires MatchesAt(text, i0, sp0)
    ensures exists i :: LeftmostLongest(text, i, VersionSplit(text))
  {
    MatchAtGreedy(text, i0, sp0);
    var i := FirstMatchOffset(text, 0).value;
    var found := MatchAt(text, i).value;
    assert VersionSplit(text) == found;
    MatchAtSound(text, i);
    NoMatchBefore(text, i);
    BestAt(text, i, found);
    assert LeftmostLongest(text, i, found);
  }

  /** A text that is exactly "Python ", a version, " (", a one-line status and ")": the engine recovers both. */
  lemma MatchAtWhole(t: string, v: string, s: string)
    requires IsVersion(v) && '\n' !in s && |t| == 10 + |v| + |s|
    requires t[0..7] == "Python "
    requires forall k | 0 <= k < |v| :: t[7 + k] == v[k]
    requires t[7 + |v|] == ' ' && t[8 + |v|] == '('
    requires forall k | 0 <= k < |s| :: t[9 + |v| + k] == s[k]
    requires t[|t| - 1] == ')'
    ensures MatchAt(t, 0) == Some(Split(v, s))
  {
    var j := 7 + |v|;
    VersionRunAt(t, 0, v);
    forall m | j + 2 <= m <= |t| - 1
      ensures t[m] != '\n'
    {
      if m < |t| - 1 {
        assert t[m] == s[m - j - 2];
      }
    }
    LineEndBeyond(t, j + 2, |t| - 1);
    assert LineEnd(t, j + 2) == |t|;
    assert LastParen(t, j + 2, |t|) == Some(|t| - 1);
    MatchAtSteps(t, 0, j, |t| - 1);
    assert t[7..j] == v;
    forall k | 0 <= k < |s|
      ensures t[j + 2..|t| - 1][k] == s[k]
    {
    }
    assert t[j + 2..|t| - 1] == s;
  }

  /** The engine, started at the front of a rendering, recovers both groups. */
  lemma MatchAtRender(sp: Split)
    requires IsVersion(sp.version) && '\n' !in sp.status
    ensures MatchAt(Render(sp), 0) == Some(sp)
  {
    var t := Render(sp);
    assert t[0..|t|] == t;
    MatchedParts(t, 0, sp);
    MatchAtWhole(t, sp.version, sp.status);
  }

  /**
   * Round trip: a text that is exactly the rendering of a version and a
   * one-line status splits back into those two groups, whatever parentheses
   * the status holds.
   */
  lemma VersionSplitRender(sp: Split)
    requires IsVersion(sp.version) && '\n' !in sp.status
    ensures VersionSplit(Render(sp)) == sp
  {
    MatchAtRender(sp);
  }

  /** The link text of a released version. */
  lemma VersionSplitStable()
    ensures VersionSplit("Python 3.11 (stable)") == Split("3.11", "stable")
  {
    var sp := Split("3.11", "stable");
    assert Render(sp) == "Python 3.11 (stable)";
    VersionSplitRender(sp);
  }

  /** The status runs to the last ")" of the text, inner parentheses included. */
  lemma VersionSplitNestedParens()
    ensures VersionSplit("Python 3.9 (security (EOL))") == Split("3.9", "security (EOL)")
  {
    var sp := Split("3.9", "security (EOL)");
    assert Render(sp) == "Python 3.9 (security (EOL))";
    VersionSplitRender(sp);
  }

  /** A link text that never mentions a version is kept whole, with no status. */
  lemma VersionSplitAllVersions()
    ensures VersionSplit("All versions") == Split("All versions", "")
  {
    var t := "All versions";
    forall i | 0 <= i <= |t|
      ensures MatchAt(t, i).None?
    {
      if i + 9 <= |t| {
        assert t[i] != 'P';
        assert t[i..i + 7][0] == t[i];
      }
    }
  }
}
