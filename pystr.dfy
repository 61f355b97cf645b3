/**
 * The few Python `str` operations the scraper applies to extracted text:
 * `strip()` with no argument, the `in` substring test and `replace('\n', ' ')`.
 */
module PyStr {

  /** Python's `str.isspace` for one character: the characters `strip()` removes. */
  predicate IsSpace(c: char) {
    || ('\t' <= c <= '\r')
    || ('\U{1c}' <= c <= '\U{1f}')
    || c == ' '
    || c == '\U{85}'
    || c == '\U{a0}'
    || c == '\U{1680}'
    || ('\U{2000}' <= c <= '\U{200a}')
    || c == '\U{2028}'
    || c == '\U{2029}'
    || c == '\U{202f}'
    || c == '\U{205f}'
    || c == '\U{3000}'
  }

  /** `s.lstrip()`: drops the leading whitespace and nothing else. */
  function TrimStart(s: string): (r: string)
    ensures |r| <= |s| && r == s[|s| - |r|..]
    ensures r == [] || !IsSpace(r[0])
    ensures forall k | 0 <= k < |s| - |r| :: IsSpace(s[k])
    decreases |s|
  {
    if s != [] && IsSpace(s[0]) then TrimStart(s[1..]) else s
  }

  /** `s.rstrip()`: drops the trailing whitespace and nothing else. */
  function TrimEnd(s: string): (r: string)
    ensures |r| <= |s| && r == s[..|r|]
    ensures r == [] || !IsSpace(r[|r| - 1])
    ensures forall k | |r| <= k < |s| :: IsSpace(s[k])
    decreases |s|
  {
    if s != [] && IsSpace(s[|s| - 1]) then TrimEnd(s[..|s| - 1]) else s
  }

  /** `r` is the slice of `s` at `lo` and only whitespace lies around it. */
  ghost predicate SliceWithin(s: string, lo: int, r: string) {
    && 0 <= lo <= |s| - |r|
    && r == s[lo..lo + |r|]
    && (forall k | 0 <= k < lo :: IsSpace(s[k]))
    && (forall k | lo + |r| <= k < |s| :: IsSpace(s[k]))
  }

  /**
   * `s.strip()`: the result is a slice of `s` that neither starts nor ends with
   * whitespace, and everything cut off on either side is whitespace.
   */
  function Strip(s: string): (r: string)
    ensures r == [] || (!IsSpace(r[0]) && !IsSpace(r[|r| - 1]))
    ensures exists lo :: SliceWithin(s, lo, r)
  {
    var t := TrimStart(s);
    WithinTrims(s, t, TrimEnd(t));
    TrimEnd(t)
  }

  /**
   * A suffix `t` of `s` after leading whitespace, and a prefix `r` of `t`
   * before trailing whitespace: `r` is a slice of `s` with only whitespace around it.
   */
  lemma WithinTrims(s: string, t: string, r: string)
    requires |t| <= |s| && t == s[|s| - |t|..]
    requires forall k | 0 <= k < |s| - |t| :: IsSpace(s[k])
    requires |r| <= |t| && r == t[..|r|]
    requires forall k | |r| <= k < |t| :: IsSpace(t[k])
    ensures SliceWithin(s, |s| - |t|, r)
  {
    var lo := |s| - |t|;
    assert r == s[lo..lo + |r|];
    forall k | lo + |r| <= k < |s|
      ensures IsSpace(s[k])
    {
      assert s[k] == t[k - lo];
    }
  }

  /** `s.startswith(p)`. */
  predicate StartsWith(s: string, p: string) {
    |p| <= |s| && s[..|p|] == p
  }

  /** Python's `p in t` for strings: `p` occurs somewhere in `t`. */
  predicate Contains(t: string, p: string)
    decreases |t|
  {
    StartsWith(t, p) || (t != [] && Contains(t[1..], p))
  }

  /** `p` sits in `t` at offset `i`. */
  ghost predicate OccursAt(t: string, p: string, i: int) {
    0 <= i <= |t| - |p| && t[i..i + |p|] == p
  }

  /** `Contains` holds exactly when `p` sits at some offset of `t`. */
  lemma {:induction false} ContainsAt(t: string, p: string)
    ensures Contains(t, p) <==> exists i :: OccursAt(t, p, i)
    decreases |t|
  {
    if StartsWith(t, p) {
      assert OccursAt(t, p, 0);
    }
    if t != [] {
      ContainsAt(t[1..], p);
      if Contains(t[1..], p) {
        var i :| OccursAt(t[1..], p, i);
        assert OccursAt(t, p, i + 1);
      }
      if exists i :: OccursAt(t, p, i) {
        var i :| OccursAt(t, p, i);
        if i > 0 {
          assert OccursAt(t[1..], p, i - 1);
        }
      }
    } else {
      if exists i :: OccursAt(t, p, i) {
        var i :| OccursAt(t, p, i);
        assert i == 0 && p == [] && StartsWith(t, p);
      }
    }
  }

  /** `s.replace('\n', ' ')`: every line break becomes a space, nothing else moves. */
  function ReplaceNewlines(s: string): (r: string)
    ensures |r| == |s|
    ensures forall k | 0 <= k < |s| :: r[k] == (if s[k] == '\n' then ' ' else s[k])
    ensures '\n' !in r
    decreases |s|
  {
    if s == [] then []
    else ReplaceNewlines(s[..|s| - 1]) + [if s[|s| - 1] == '\n' then ' ' else s[|s| - 1]]
  }
}
