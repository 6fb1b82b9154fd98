/** The cache-version stamp of scripts/build.js: the service worker's text
    goes through one `String.prototype.replace` with the regular expression
    `/const CACHE_NAME = '1mb-[^']+'/` (no `g` flag, so only the leftmost
    match) and the replacement `const CACHE_NAME = '1mb-<sha>'`. The
    replacement string is expanded as ECMA-262 (section 22.1.3.19.1,
    GetSubstitution) prescribes for a pattern without capture groups. */
module BuildStamp {
  import opened Base

  /** The literal part of the pattern before `[^']+`. */
  const Lead := "const CACHE_NAME = '1mb-"

  /** The regular expression matches `s[i..j]`: the lead, one or more
      characters other than a single quote, and a single quote. */
  predicate RegexMatchesAt(s: string, i: nat, j: nat) {
    && i + |Lead| < j - 1 && j <= |s|
    && s[i..i + |Lead|] == Lead
    && s[j - 1] == '\''
    && forall m :: i + |Lead| <= m < j - 1 ==> s[m] != '\''
  }

  /** The first single quote at or after `from`. */
  function FirstQuote(s: string, from: nat): (k: Option<nat>)
    ensures k.Some? ==> from <= k.value < |s| && s[k.value] == '\''
    ensures forall m :: from <= m < |s| && (k.None? || m < k.value) ==> s[m] != '\''
    decreases |s| - from
  {
    if from >= |s| then None
    else if s[from] == '\'' then Some(from)
    else FirstQuote(s, from + 1)
  }

  /** Where a match starting at `i` ends: greedy `[^']+` runs up to the
      first quote after the lead, which must not come right after it. */
  function MatchAt(s: string, i: nat): (r: Option<nat>)
    ensures forall j: nat :: r == Some(j) <==> RegexMatchesAt(s, i, j)
  {
    if i + |Lead| <= |s| && s[i..i + |Lead|] == Lead then
      match FirstQuote(s, i + |Lead|)
      case None => None
      case Some(k) => if k > i + |Lead| then Some(k + 1) else None
    else None
  }

  /** The leftmost match starting at or after `from`. */
  function FindFrom(s: string, from: nat): (r: Option<(nat, nat)>)
    ensures r.Some? ==> from <= r.value.0 && RegexMatchesAt(s, r.value.0, r.value.1)
    ensures r.Some? ==> forall i: nat, j: nat :: from <= i < r.value.0 ==> !RegexMatchesAt(s, i, j)
    ensures r.None? ==> forall i: nat, j: nat :: from <= i ==> !RegexMatchesAt(s, i, j)
    decreases |s| - from
  {
    if from > |s| then None
    else match MatchAt(s, from)
      case Some(j) => Some((from, j))
      case None => FindFrom(s, from + 1)
  }

  /** The replacement string with its `$` patterns expanded for a pattern
      without capture groups: `$$` is a dollar sign, `$&` the match, `` $` ``
      the text before it, `$'` the text after it; any other `$` stays. */
  function Substitute(r: string, matched: string, before: string, after: string): string
    decreases |r|
  {
    if r == [] then []
    else if r[0] == '$' && |r| >= 2 && r[1] in "$&`'" then
      var piece := if r[1] == '$' then "$" else if r[1] == '&' then matched else if r[1] == '`' then before else after;
      piece + Substitute(r[2..], matched, before, after)
    else [r[0]] + Substitute(r[1..], matched, before, after)
  }

  /** The replacement the build writes. */
  function Stamped(sha: string): string {
    Lead + sha + "'"
  }

  /** `content.replace(/const CACHE_NAME = '1mb-[^']+'/, replacement)` */
  function Stamp(content: string, sha: string): string {
    match FindFrom(content, 0)
    case None => content
    case Some((i, j)) =>
      content[..i] + Substitute(Stamped(sha), content[i..j], content[..i], content[j..]) + content[j..]
  }

  /** A replacement without `$` is inserted as it is. */
  lemma {:induction false} SubstitutePlain(r: string, matched: string, before: string, after: string)
    requires '$' !in r
    ensures Substitute(r, matched, before, after) == r
    decreases |r|
  {
    if r != [] {
      SubstitutePlain(r[1..], matched, before, after);
    }
  }

  /** Without a match the content is returned unchanged. */
  lemma StampNoMatch(content: string, sha: string)
    requires forall i: nat, j: nat :: !RegexMatchesAt(content, i, j)
    ensures Stamp(content, sha) == content
  {
  }

  /** With a match, only the leftmost one is replaced; the text before and
      after it is kept. */
  lemma StampLeftmost(content: string, sha: string, i: nat, j: nat)
    requires '$' !in sha
    requires RegexMatchesAt(content, i, j)
    requires forall i': nat, j': nat :: i' < i ==> !RegexMatchesAt(content, i', j')
    ensures Stamp(content, sha) == content[..i] + Stamped(sha) + content[j..]
  {
    var r := FindFrom(content, 0);
    assert r.Some? && r.value.0 == i;
    assert MatchAt(content, i) == Some(r.value.1) == Some(j);
    assert '$' !in Stamped(sha);
    SubstitutePlain(Stamped(sha), content[i..j], content[..i], content[j..]);
  }

  /** A cache name with an empty version (`'1mb-'`) is not matched. */
  lemma EmptyVersionNotMatched(content: string, i: nat, j: nat)
    requires i + |Lead| < |content| && content[i..i + |Lead|] == Lead && content[i + |Lead|] == '\''
    ensures !RegexMatchesAt(content, i, j)
  {
  }

  /** The lead has its only '-' at its end, so two occurrences of it cannot
      overlap. */
  lemma LeadNoOverlap(t: string, a: nat, b: nat)
    requires a < b < a + |Lead| && b + |Lead| <= |t|
    requires t[b..b + |Lead|] == Lead
    ensures t[a..a + |Lead|] != Lead
  {
    assert t[a + |Lead| - 1] == Lead[a + |Lead| - 1 - b];
    assert forall k :: 0 <= k < |Lead| - 1 ==> Lead[k] != '-';
  }

  /** The text before a match shares no match with the stamped text: a
      candidate before `i` that ends before the quote inside the lead is
      judged on the same characters, and one closer to `i` overlaps the
      lead. */
  lemma NoEarlierMatch(s: string, t: string, i: nat, i': nat, j': nat)
    requires i + |Lead| <= |s| && i + |Lead| <= |t|
    requires s[..i + |Lead|] == t[..i + |Lead|]
    requires s[i..i + |Lead|] == Lead
    requires forall j: nat :: !RegexMatchesAt(s, i', j)
    requires i' < i
    ensures !RegexMatchesAt(t, i', j')
  {
    assert t[i..i + |Lead|] == s[i..i + |Lead|];
    if i' + |Lead| > i {
      LeadNoOverlap(t, i', i);
    } else if t[i'..i' + |Lead|] == Lead {
      assert t[i'..i' + |Lead|] == s[i'..i' + |Lead|];
      assert Lead[19] == '\'' && s[i + 19] == '\'';
      var k := FirstQuote(s, i' + |Lead|);
      assert k.Some? && k.value <= i + 19;
      assert !RegexMatchesAt(s, i', k.value + 1);
      assert k.value == i' + |Lead|;
      assert t[k.value] == s[k.value];
    }
  }

  /** The stamped name is itself a match, ending at its closing quote. */
  lemma StampedMatches(pre: string, sha: string, post: string)
    requires sha != [] && '\'' !in sha
    ensures RegexMatchesAt(pre + Stamped(sha) + post, |pre|, |pre| + |Stamped(sha)|)
  {
    var t := pre + Stamped(sha) + post;
    var i, e := |pre|, |pre| + |Stamped(sha)|;
    assert t[i..e] == Stamped(sha);
    assert t[i..i + |Lead|] == Lead;
    forall m | i + |Lead| <= m < e - 1
      ensures t[m] != '\''
    {
      assert t[m] == sha[m - i - |Lead|];
    }
  }

  /** Stamping keeps the text up to the end of the lead. */
  lemma StampKeepsLead(content: string, sha: string, i: nat, j: nat)
    requires RegexMatchesAt(content, i, j)
    ensures var t := content[..i] + Stamped(sha) + content[j..];
            i + |Lead| <= |t| && t[..i + |Lead|] == content[..i + |Lead|]
  {
  }

  /** The stamped text has no match before the one the stamp wrote. */
  lemma StampedNoEarlierMatch(content: string, sha: string, i: nat, j: nat)
    requires RegexMatchesAt(content, i, j)
    requires forall i': nat, j': nat :: i' < i ==> !RegexMatchesAt(content, i', j')
    ensures forall i': nat, j': nat :: i' < i ==> !RegexMatchesAt(content[..i] + Stamped(sha) + content[j..], i', j')
  {
    var t := content[..i] + Stamped(sha) + content[j..];
    StampKeepsLead(content, sha, i, j);
    forall i': nat, j': nat | i' < i
      ensures !RegexMatchesAt(t, i', j')
    {
      NoEarlierMatch(content, t, i, i', j');
    }
  }

  /** Stamping twice is stamping once, for a version that is non-empty and
      holds neither a single quote nor a dollar sign (a git hash or a
      base-36 time stamp). */
  lemma StampIdempotent(content: string, sha: string)
    requires sha != [] && '\'' !in sha && '$' !in sha
    ensures Stamp(Stamp(content, sha), sha) == Stamp(content, sha)
  {
    var r := FindFrom(content, 0);
    if r.Some? {
      var (i, j) := r.value;
      StampLeftmost(content, sha, i, j);
      var t := content[..i] + Stamped(sha) + content[j..];
      StampedNoEarlierMatch(content, sha, i, j);
      var e := i + |Stamped(sha)|;
      StampedMatches(content[..i], sha, content[j..]);
      StampLeftmost(t, sha, i, e);
      assert t[..i] == content[..i];
      assert t[e..] == content[j..];
    }
  }

  /** An unversioned name is left alone whatever the version. */
  lemma StampExampleEmpty(sha: string)
    ensures Stamp("const CACHE_NAME = '1mb-';", sha) == "const CACHE_NAME = '1mb-';"
  {
    var s := "const CACHE_NAME = '1mb-';";
    forall i: nat, j: nat
      ensures !RegexMatchesAt(s, i, j)
    {
      if i == 0 {
        assert s[|Lead|] == '\'';
      } else if i + |Lead| <= |s| {
        assert s[i] != 'c';
      }
    }
    StampNoMatch(s, sha);
  }
}
