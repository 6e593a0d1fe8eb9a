/**
  The colour lookup of an inline element's `style` attribute: the leftmost
  match of the case-insensitive pattern `color\s*:\s*(#[0-9a-fA-F]{3,6})`,
  written as a scanner. The pattern is not anchored, so it also matches the
  tail of `background-color:`, and it takes at most six hex digits greedily.
 */
module ColorScan {
  import opened Wrappers
  import opened JsString

  predicate IsHexDigit(c: char) {
    ('0' <= c <= '9') || ('a' <= c <= 'f') || ('A' <= c <= 'F')
  }

  /**
    The five letters of `color`, in either case, start at `i`. Case-insensitive
    matching without the `u` flag folds no other character onto these letters.
   */
  predicate WordAt(s: string, i: nat) {
    i + 5 <= |s| && (s[i] == 'c' || s[i] == 'C') && (s[i + 1] == 'o' || s[i + 1] == 'O')
    && (s[i + 2] == 'l' || s[i + 2] == 'L') && (s[i + 3] == 'o' || s[i + 3] == 'O')
    && (s[i + 4] == 'r' || s[i + 4] == 'R')
  }

  /** Every character in `[a, b)` is `\s`. */
  predicate SpacesIn(s: string, a: nat, b: nat)
    requires a <= b <= |s|
  {
    forall m | a <= m < b :: IsJsSpace(s[m])
  }

  /** Index of the first non-`\s` character at or after `i` (the greedy `\s*`). */
  function SkipSpaces(s: string, i: nat): (j: nat)
    requires i <= |s|
    ensures i <= j <= |s| && SpacesIn(s, i, j)
    ensures j == |s| || !IsJsSpace(s[j])
    decreases |s| - i
  {
    if i < |s| && IsJsSpace(s[i]) then SkipSpaces(s, i + 1) else i
  }

  /** The greedy `\s*` has only one place to stop. */
  lemma {:induction false} SkipSpacesStopsAt(s: string, i: nat, j: nat)
    requires i <= j < |s| && SpacesIn(s, i, j) && !IsJsSpace(s[j])
    ensures SkipSpaces(s, i) == j
    decreases j - i
  {
    if i < j {
      assert IsJsSpace(s[i]);
      SkipSpacesStopsAt(s, i + 1, j);
    }
  }

  /** Every character in `[a, b)` is a hex digit. */
  predicate HexIn(s: string, a: nat, b: nat)
    requires a <= b <= |s|
  {
    forall m | a <= m < b :: IsHexDigit(s[m])
  }

  /** Length of the run of hex digits at `i`, capped at `limit` (the greedy `{3,6}`). */
  function HexRun(s: string, i: nat, limit: nat): (n: nat)
    requires i <= |s|
    ensures n <= limit && i + n <= |s| && HexIn(s, i, i + n)
    ensures n == limit || i + n == |s| || !IsHexDigit(s[i + n])
    decreases limit
  {
    if limit > 0 && i < |s| && IsHexDigit(s[i]) then 1 + HexRun(s, i + 1, limit - 1) else 0
  }

  /** The greedy run has only one length. */
  lemma {:induction false} HexRunStopsAt(s: string, i: nat, limit: nat, n: nat)
    requires n <= limit && i + n <= |s| && HexIn(s, i, i + n)
    requires n == limit || i + n == |s| || !IsHexDigit(s[i + n])
    ensures HexRun(s, i, limit) == n
    decreases limit
  {
    if n > 0 {
      assert IsHexDigit(s[i]);
      HexRunStopsAt(s, i + 1, limit - 1, n - 1);
    }
  }

  /** Position of the `:` when `color` at `i` is followed by `\s*` and a colon. */
  function ColonAfterWord(s: string, i: nat): Option<nat>
    requires i <= |s|
  {
    if !WordAt(s, i) then None
    else
      var j := SkipSpaces(s, i + 5);
      if j < |s| && s[j] == ':' then Some(j) else None
  }

  /** Position of the `#` when the colon at `j` is followed by `\s*` and a hash. */
  function HashAfterColon(s: string, j: nat): Option<nat>
    requires j < |s|
  {
    var k := SkipSpaces(s, j + 1);
    if k < |s| && s[k] == '#' then Some(k) else None
  }

  /** The group `#` plus three to six hex digits when the hash sits at `k`. */
  function GroupAfterHash(s: string, k: nat): Option<string>
    requires k < |s|
  {
    var n := HexRun(s, k + 1, 6);
    if n < 3 then None else Some(s[k..k + 1 + n])
  }

  /** The captured group of a match that starts at `i`, if the pattern matches there. */
  function MatchAt(s: string, i: nat): Option<string>
    requires i <= |s|
  {
    match ColonAfterWord(s, i)
    case None => None
    case Some(j) =>
      match HashAfterColon(s, j)
      case None => None
      case Some(k) => GroupAfterHash(s, k)
  }

  /** `group` sits at `k` and is `#` with three to six hex digits, followed by no further hex digit unless six were taken. */
  predicate GroupAt(s: string, k: nat, group: string) {
    4 <= |group| <= 7 && k + |group| <= |s| && group == s[k..k + |group|] && s[k] == '#'
    && HexIn(s, k + 1, k + |group|)
    && (|group| == 7 || k + |group| == |s| || !IsHexDigit(s[k + |group|]))
  }

  /** `color`, spaces, `:` at `j`, spaces, `#` at `k`, when the match starts at `i`. */
  predicate PrefixAt(s: string, i: nat, j: nat, k: nat) {
    i + 5 <= j < k < |s| && WordAt(s, i)
    && SpacesIn(s, i + 5, j) && s[j] == ':' && SpacesIn(s, j + 1, k)
  }

  /**
    What the pattern means, independently of the scanner: the pattern matches
    at `i` with captured `group` for some positions `j` of the colon and `k`
    of the `#`.
   */
  ghost predicate PatternAt(s: string, i: nat, group: string) {
    exists j: nat, k: nat :: PrefixAt(s, i, j, k) && GroupAt(s, k, group)
  }

  /** A group the scanner captures is a match of the pattern. */
  lemma MatchAtSound(s: string, i: nat)
    requires i <= |s| && MatchAt(s, i).Some?
    ensures PatternAt(s, i, MatchAt(s, i).value)
  {
    var j := ColonAfterWord(s, i).value;
    var k := HashAfterColon(s, j).value;
    var g := GroupAfterHash(s, k).value;
    assert PrefixAt(s, i, j, k);
    assert GroupAt(s, k, g);
  }

  lemma ColonStage(s: string, i: nat, j: nat, k: nat)
    requires PrefixAt(s, i, j, k)
    ensures ColonAfterWord(s, i) == Some(j)
  {
    SkipSpacesStopsAt(s, i + 5, j);
  }

  lemma HashStage(s: string, i: nat, j: nat, k: nat)
    requires PrefixAt(s, i, j, k) && s[k] == '#'
    ensures HashAfterColon(s, j) == Some(k)
  {
    SkipSpacesStopsAt(s, j + 1, k);
  }

  lemma GroupStage(s: string, k: nat, group: string)
    requires k < |s| && GroupAt(s, k, group)
    ensures GroupAfterHash(s, k) == Some(group)
  {
    HexRunStopsAt(s, k + 1, 6, |group| - 1);
  }

  /** A match of the pattern is what the scanner captures. */
  lemma MatchAtComplete(s: string, i: nat, group: string)
    requires i <= |s| && PatternAt(s, i, group)
    ensures MatchAt(s, i) == Some(group)
  {
    var j: nat, k: nat :| PrefixAt(s, i, j, k) && GroupAt(s, k, group);
    ColonStage(s, i, j, k);
    HashStage(s, i, j, k);
    GroupStage(s, k, group);
  }

  /** No match starts in `[i, p)`. */
  predicate NoMatchBetween(s: string, i: nat, p: nat)
    requires p <= |s|
  {
    forall q | i <= q < p :: MatchAt(s, q).None?
  }

  /** Start of the leftmost match at or after position `i` (the search of `String.prototype.match`). */
  function LeftmostFrom(s: string, i: nat): (r: Option<nat>)
    requires i <= |s|
    ensures r.Some? ==> i <= r.value < |s| && MatchAt(s, r.value).Some? && NoMatchBetween(s, i, r.value)
    ensures r.None? ==> NoMatchBetween(s, i, |s|)
    decreases |s| - i
  {
    if i == |s| then None
    else if MatchAt(s, i).Some? then Some(i)
    else LeftmostFrom(s, i + 1)
  }

  /** The search stops at the first match: a match at `p` with none before it is what it finds. */
  lemma LeftmostFromFindsFirst(s: string, i: nat, p: nat)
    requires i <= p < |s| && MatchAt(s, p).Some? && NoMatchBetween(s, i, p)
    ensures LeftmostFrom(s, i) == Some(p)
  {
    var r := LeftmostFrom(s, i);
    // The search finds a match, not one before `p`, where nothing matches, and not one after the match at `p`.
    assert r.Some?;
    assert r.value >= p;
    assert r.value <= p;
  }

  /** `style.match(/color\s*:\s*(#[0-9a-fA-F]{3,6})/i)`, giving the captured group. */
  function FindColor(style: string): Option<string>
  {
    match LeftmostFrom(style, 0)
    case Some(p) => MatchAt(style, p)
    case None => None
  }

  /** A found group is `#` and three to six hex digits, and it is the group of the leftmost match. */
  lemma FindColorIsLeftmostMatch(style: string)
    ensures FindColor(style).Some? ==>
      exists p | 0 <= p <= |style| :: PatternAt(style, p, FindColor(style).value)
        && forall q, g | 0 <= q < p :: !PatternAt(style, q, g)
    ensures FindColor(style).None? ==> forall q, g | 0 <= q <= |style| :: !PatternAt(style, q, g)
  {
    var r := FindColor(style);
    if r.Some? {
      var p := LeftmostFrom(style, 0).value;
      MatchAtSound(style, p);
      forall q, g | 0 <= q < p ensures !PatternAt(style, q, g) {
        if PatternAt(style, q, g) { MatchAtComplete(style, q, g); }
      }
    } else {
      forall q, g | 0 <= q <= |style| ensures !PatternAt(style, q, g) {
        if PatternAt(style, q, g) { MatchAtComplete(style, q, g); }
      }
    }
  }

  /** Every captured group is `#` followed by three to six hex digits. */
  lemma FoundGroupShape(style: string)
    requires FindColor(style).Some?
    ensures var g := FindColor(style).value;
      4 <= |g| <= 7 && g[0] == '#' && forall m | 1 <= m < |g| :: IsHexDigit(g[m])
  {
    var p := LeftmostFrom(style, 0).value;
    var g := FindColor(style).value;
    MatchAtSound(style, p);
    var j: nat, k: nat :| PrefixAt(style, p, j, k) && GroupAt(style, k, g);
    forall m | 1 <= m < |g| ensures IsHexDigit(g[m]) {
      assert g[m] == style[k + m];
    }
  }
}
