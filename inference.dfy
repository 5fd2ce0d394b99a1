/**
 * Region and service inference from the normalised URL, as the first capture
 * group of two case-insensitive regular expressions:
 *
 *   region:  ([a-z0-9-]+)\.\w+\.amazonaws\.com(?:\/|:|$)
 *   service: (\w+)\.amazonaws\.com(?:\/|:|$)
 *
 * `exec` reports the match that starts leftmost. Neither character class
 * contains '.', so once the start is fixed the end of each greedy group is
 * fixed too: the models scan start positions from the left and check the one
 * possible shape at each.
 */
module Inference {
  import opened Wrappers
  import opened Text

  const SUFFIX := ".amazonaws.com"

  /** Every character of `u[lo..hi]` matches `[a-z0-9-]` (case-insensitively). */
  predicate LabelRun(u: string, lo: nat, hi: nat)
    requires lo <= hi <= |u|
  {
    forall k :: lo <= k < hi ==> IsLabelChar(u[k])
  }

  /** Every character of `u[lo..hi]` matches `\w`. */
  predicate WordRun(u: string, lo: nat, hi: nat)
    requires lo <= hi <= |u|
  {
    forall k :: lo <= k < hi ==> IsWordChar(u[k])
  }

  /** `\.amazonaws\.com(?:\/|:|$)` matches at `f`, ignoring case. */
  predicate SuffixAt(u: string, f: nat) {
    f + |SUFFIX| <= |u|
    && Lower(u[f..f + |SUFFIX|]) == SUFFIX
    && (f + |SUFFIX| == |u| || u[f + |SUFFIX|] == '/' || u[f + |SUFFIX|] == ':')
  }

  /**
   * The region expression matches from `s`, its group spanning `u[s..e]` and
   * the `\w+` label spanning `u[e + 1..f]`.
   */
  predicate RegionMatch(u: string, s: nat, e: nat, f: nat) {
    s < e && e + 1 < f <= |u|
    && LabelRun(u, s, e) && u[e] == '.' && WordRun(u, e + 1, f) && SuffixAt(u, f)
  }

  /** The service expression matches from `s`, its group spanning `u[s..f]`. */
  predicate ServiceMatch(u: string, s: nat, f: nat) {
    s < f <= |u| && WordRun(u, s, f) && SuffixAt(u, f)
  }

  /** The end of the longest run of label characters starting at `i`. */
  function LabelEnd(u: string, i: nat): (e: nat)
    requires i <= |u|
    ensures i <= e <= |u| && LabelRun(u, i, e)
    ensures e == |u| || !IsLabelChar(u[e])
    decreases |u| - i
  {
    if i < |u| && IsLabelChar(u[i]) then LabelEnd(u, i + 1) else i
  }

  /** The end of the longest run of word characters starting at `i`. */
  function WordEnd(u: string, i: nat): (e: nat)
    requires i <= |u|
    ensures i <= e <= |u| && WordRun(u, i, e)
    ensures e == |u| || !IsWordChar(u[e])
    decreases |u| - i
  {
    if i < |u| && IsWordChar(u[i]) then WordEnd(u, i + 1) else i
  }

  /** The region group when the region expression matches from `s`. */
  function RegionAt(u: string, s: nat): (r: Option<string>)
    requires s <= |u|
    ensures r.Some? ==> exists e: nat, f: nat :: RegionMatch(u, s, e, f) && r.value == u[s..e]
    ensures r.None? ==> forall e: nat, f: nat :: !RegionMatch(u, s, e, f)
  {
    var e := LabelEnd(u, s);
    if s < e < |u| && u[e] == '.' then
      var f := WordEnd(u, e + 1);
      if e + 1 < f && SuffixAt(u, f) then
        assert RegionMatch(u, s, e, f);
        Some(u[s..e])
      else
        assert forall e': nat, f': nat :: !RegionMatch(u, s, e', f') by {
          forall e': nat, f': nat | RegionMatch(u, s, e', f') ensures false {
            RunEndsAt(u, s, e', e);
            WordEndsAt(u, e + 1, f', f);
          }
        }
        None
    else
      assert forall e': nat, f': nat :: !RegionMatch(u, s, e', f') by {
        forall e': nat, f': nat | RegionMatch(u, s, e', f') ensures false {
          RunEndsAt(u, s, e', e);
        }
      }
      None
  }

  /** The service group when the service expression matches from `s`. */
  function ServiceAt(u: string, s: nat): (r: Option<string>)
    requires s <= |u|
    ensures r.Some? ==> exists f: nat :: ServiceMatch(u, s, f) && r.value == u[s..f]
    ensures r.None? ==> forall f: nat :: !ServiceMatch(u, s, f)
  {
    var f := WordEnd(u, s);
    if s < f && SuffixAt(u, f) then
      assert ServiceMatch(u, s, f);
      Some(u[s..f])
    else
      assert forall f': nat :: !ServiceMatch(u, s, f') by {
        forall f': nat | ServiceMatch(u, s, f') ensures false {
          WordEndsAt(u, s, f', f);
        }
      }
      None
  }

  /** No region match starts in `[lo, hi)`. */
  ghost predicate NoRegionMatchIn(u: string, lo: nat, hi: nat) {
    forall s: nat, e: nat, f: nat :: lo <= s < hi ==> !RegionMatch(u, s, e, f)
  }

  /** No service match starts in `[lo, hi)`. */
  ghost predicate NoServiceMatchIn(u: string, lo: nat, hi: nat) {
    forall s: nat, f: nat :: lo <= s < hi ==> !ServiceMatch(u, s, f)
  }

  /** The leftmost start, at or after `i`, of a region match; -1 when there is none. */
  function RegionStartFrom(u: string, i: nat): (s: int)
    requires i <= |u|
    ensures s == -1 || i <= s < |u|
    ensures s == -1 ==> NoRegionMatchIn(u, i, |u| + 1)
    ensures s >= 0 ==> NoRegionMatchIn(u, i, s) && RegionAt(u, s).Some?
    decreases |u| - i
  {
    if RegionAt(u, i).Some? then i
    else if i == |u| then -1
    else RegionStartFrom(u, i + 1)
  }

  /** The leftmost start, at or after `i`, of a service match; -1 when there is none. */
  function ServiceStartFrom(u: string, i: nat): (s: int)
    requires i <= |u|
    ensures s == -1 || i <= s < |u|
    ensures s == -1 ==> NoServiceMatchIn(u, i, |u| + 1)
    ensures s >= 0 ==> NoServiceMatchIn(u, i, s) && ServiceAt(u, s).Some?
    decreases |u| - i
  {
    if ServiceAt(u, i).Some? then i
    else if i == |u| then -1
    else ServiceStartFrom(u, i + 1)
  }

  /**
   * `/([a-z0-9-]+)\.\w+\.amazonaws\.com(?:\/|:|$)/i.exec(url)[1]`: the group of
   * the leftmost match, which is a whole label (it starts the URL or follows a
   * character outside `[a-z0-9-]`); None when the expression does not match,
   * where the script's `[1]` on a null result throws.
   */
  function InferRegion(url: string): (r: Option<string>)
    ensures r.None? <==> forall s: nat, e: nat, f: nat :: !RegionMatch(url, s, e, f)
    ensures r.Some? ==>
              exists s: nat, e: nat, f: nat ::
                RegionMatch(url, s, e, f) && r.value == url[s..e]
                && NoRegionMatchIn(url, 0, s)
                && (s == 0 || !IsLabelChar(url[s - 1]))
  {
    var s := RegionStartFrom(url, 0);
    if s < 0 then
      None
    else
      var e: nat, f: nat :| RegionMatch(url, s, e, f) && RegionAt(url, s).value == url[s..e];
      assert s > 0 && IsLabelChar(url[s - 1]) ==> RegionMatch(url, s - 1, e, f);
      RegionAt(url, s)
  }

  /**
   * `/(\w+)\.amazonaws\.com(?:\/|:|$)/i.exec(url)[1]`: the group of the leftmost
   * match, the maximal run of word characters right before the suffix; None
   * when the expression does not match.
   */
  function InferService(url: string): (r: Option<string>)
    ensures r.None? <==> forall s: nat, f: nat :: !ServiceMatch(url, s, f)
    ensures r.Some? ==>
              exists s: nat, f: nat ::
                ServiceMatch(url, s, f) && r.value == url[s..f]
                && NoServiceMatchIn(url, 0, s)
                && (s == 0 || !IsWordChar(url[s - 1]))
  {
    var s := ServiceStartFrom(url, 0);
    if s < 0 then
      None
    else
      var f: nat :| ServiceMatch(url, s, f) && ServiceAt(url, s).value == url[s..f];
      assert s > 0 && IsWordChar(url[s - 1]) ==> ServiceMatch(url, s - 1, f);
      ServiceAt(url, s)
  }

  /** An explicit region option is used verbatim; otherwise the region is inferred. */
  function ResolveRegion(regionOption: Option<string>, url: string): (r: Option<string>)
    ensures regionOption.Some? ==> r == regionOption
    ensures regionOption.None? ==> r == InferRegion(url)
  {
    if regionOption.Some? then regionOption else InferRegion(url)
  }

  /** A match that starts the URL is the one reported. */
  lemma RegionMatchFromStart(u: string, e: nat, f: nat)
    requires RegionMatch(u, 0, e, f)
    ensures InferRegion(u) == Some(u[..e])
  {
    var r := InferRegion(u);
    assert r.Some?;
    var s: nat, e': nat, f': nat :| RegionMatch(u, s, e', f') && r.value == u[s..e'] && NoRegionMatchIn(u, 0, s);
    assert RegionMatch(u, 0, e, f);
    assert s == 0;
    assert !IsLabelChar(u[e']) && !IsLabelChar(u[e]);
    RunEndsAt(u, 0, e', e);
  }

  /** A match that starts the URL is the one reported. */
  lemma ServiceMatchFromStart(u: string, f: nat)
    requires ServiceMatch(u, 0, f)
    ensures InferService(u) == Some(u[..f])
  {
    var r := InferService(u);
    assert r.Some?;
    var s: nat, f': nat :| ServiceMatch(u, s, f') && r.value == u[s..f'] && NoServiceMatchIn(u, 0, s);
    assert ServiceMatch(u, 0, f);
    assert s == 0;
    SuffixStartsWithDot(u, f');
    SuffixStartsWithDot(u, f);
    WordEndsAt(u, 0, f', f);
  }

  lemma SuffixStartsWithDot(u: string, f: nat)
    requires SuffixAt(u, f)
    ensures f < |u| && u[f] == '.'
  {
    assert Lower(u[f..f + |SUFFIX|])[0] == LowerChar(u[f]);
  }

  lemma SuffixLiteral(u: string, f: nat)
    requires f + |SUFFIX| == |u| && u[f..] == SUFFIX
    ensures SuffixAt(u, f)
  {
    assert u[f..f + |SUFFIX|] == u[f..];
    assert IsLowerCase(SUFFIX);
    LowerIsLowerCase(SUFFIX);
  }

  lemma RunEndsAt(u: string, s: nat, e': nat, e: nat)
    requires s <= e' < |u| && LabelRun(u, s, e') && !IsLabelChar(u[e'])
    requires s <= e <= |u| && LabelRun(u, s, e) && (e == |u| || !IsLabelChar(u[e]))
    ensures e' == e
  {
  }

  lemma WordEndsAt(u: string, s: nat, f': nat, f: nat)
    requires s <= f' < |u| && WordRun(u, s, f') && !IsWordChar(u[f'])
    requires s <= f <= |u| && WordRun(u, s, f) && (f == |u| || !IsWordChar(u[f]))
    ensures f' == f
  {
  }
}
