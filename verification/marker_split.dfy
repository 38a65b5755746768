/**
 * The one regular-expression split `processLog` performs:
 * `message.split("^.*AppLog" + "\t")` with Java's `String.split(regex)` rules.
 *
 * `^` anchors at the start of the message only, and `.` matches any character but a
 * line terminator, so the pattern can match once at most: from index 0 through the
 * LAST `AppLog<TAB>` that lies on the first line (the greedy `.*` backs off from the
 * end of the line). A positive-width match at index 0 leaves an empty leading part,
 * and trailing empty parts are dropped, so the split yields
 *   - `[message]` when nothing matches,
 *   - `[]` when the match reaches the end of the message,
 *   - `["", payload]` otherwise, where payload is the text after the match.
 */
module MarkerSplit {
  import opened Wrappers

  /** The literal tail of the pattern: `AppLog` followed by the tab delimiter. */
  const Marker: string := "AppLog\t"

  /** Characters Java's `.` does not match (no DOTALL, no UNIX_LINES). */
  predicate IsLineTerminator(c: char) {
    c == '\n' || c == '\r' || c == '\U{85}' || c == '\U{2028}' || c == '\U{2029}'
  }

  /** True when `s` holds no line terminator. */
  predicate OneLine(s: string) {
    forall i :: 0 <= i < |s| ==> !IsLineTerminator(s[i])
  }

  /** True when the marker occurs in `s` at index `k`. */
  predicate MarkerAt(s: string, k: int) {
    0 <= k && k + |Marker| <= |s| && s[k..k + |Marker|] == Marker
  }

  /** True when `^.*AppLog<TAB>` can match `s[..k + |Marker|]`: the marker at `k`, and no line terminator before it. */
  predicate MatchAt(s: string, k: int) {
    MarkerAt(s, k) && OneLine(s[..k])
  }

  /** True when `k` is where the greedy match places the marker: the last possible place. */
  ghost predicate GreedyMatchAt(s: string, k: int) {
    MatchAt(s, k) && forall j :: k < j ==> !MatchAt(s, j)
  }

  /** The index of the first line terminator of `s`, or `|s|` when there is none. */
  function LineEnd(s: string): (n: nat)
    ensures n <= |s|
    ensures OneLine(s[..n])
    ensures n < |s| ==> IsLineTerminator(s[n])
  {
    if |s| == 0 then 0
    else if IsLineTerminator(s[0]) then 0
    else
      var n := 1 + LineEnd(s[1..]);
      assert s[..n] == [s[0]] + s[1..][..n - 1];
      n
  }

  /** The last index at or below `k` where the marker occurs, searching downwards as the backtracking `.*` does. */
  function LastMarkerFrom(s: string, k: nat): (r: Option<nat>)
    decreases k
    ensures r.Some? ==> r.value <= k && MarkerAt(s, r.value)
    ensures r.Some? ==> forall j :: r.value < j <= k ==> !MarkerAt(s, j)
    ensures r.None? ==> forall j :: 0 <= j <= k ==> !MarkerAt(s, j)
  {
    if MarkerAt(s, k) then Some(k)
    else if k == 0 then None
    else LastMarkerFrom(s, k - 1)
  }

  /** Where the pattern's match ends in `s`, if it matches at all. */
  function MatchEnd(s: string): (r: Option<nat>)
    ensures r.Some? ==> |Marker| <= r.value <= |s| && GreedyMatchAt(s, r.value - |Marker|)
    ensures r.None? ==> forall k :: !MatchAt(s, k)
  {
    var n := LineEnd(s);
    MatchesStayOnFirstLine(s);
    match LastMarkerFrom(s, n)
    case None => None
    case Some(k) =>
      OneLinePrefix(s, k, n);
      Some(k + |Marker|)
  }

  /** A match never starts past the first line terminator. */
  lemma MatchesStayOnFirstLine(s: string)
    ensures forall k :: MatchAt(s, k) ==> k <= LineEnd(s)
  {
    var n := LineEnd(s);
    forall k | MatchAt(s, k) ensures k <= n {
      forall i | 0 <= i < k ensures !IsLineTerminator(s[i]) {
        assert s[..k][i] == s[i];
      }
    }
  }

  /** A prefix of a one-line prefix is one line too. */
  lemma OneLinePrefix(s: string, k: nat, n: nat)
    requires k <= n <= |s|
    requires OneLine(s[..n])
    ensures OneLine(s[..k])
  {
    assert s[..k] == s[..n][..k];
  }

  /** `message.split("^.*AppLog\t")`, parts as Java returns them. */
  function Split(s: string): (parts: seq<string>)
    ensures |parts| <= 2
    ensures |parts| == 1 ==> parts == [s]
    ensures |parts| == 2 ==> parts[0] == "" && parts[1] != "" && |parts[1]| < |s| && s[|s| - |parts[1]|..] == parts[1]
  {
    match MatchEnd(s)
    case None => [s]
    case Some(e) => if e == |s| then [] else ["", s[e..]]
  }

  /** The payload `processLog` keeps: the second of exactly two parts. */
  function Payload(s: string): (r: Option<string>)
    ensures r.Some? <==> |Split(s)| == 2
    ensures r.Some? ==> r.value == Split(s)[1]
  {
    var parts := Split(s);
    if |parts| == 2 then Some(parts[1]) else None
  }

  /** The split yields one, zero or two parts, and which one is decided by the greedy match. */
  lemma SplitShape(s: string)
    ensures |Split(s)| == 1 <==> forall k :: !MatchAt(s, k)
    ensures |Split(s)| == 1 ==> Split(s) == [s]
    ensures |Split(s)| == 0 <==> GreedyMatchAt(s, |s| - |Marker|)
    ensures |Split(s)| == 2 ==> Split(s)[0] == ""
    ensures |Split(s)| in {0, 1, 2}
  {
    match MatchEnd(s)
    case None =>
    case Some(e) =>
      if GreedyMatchAt(s, |s| - |Marker|) && e != |s| {
        GreedyUnique(s, |s| - |Marker|, e - |Marker|);
      }
  }

  /** At most one place is the greedy one. */
  lemma GreedyUnique(s: string, k1: int, k2: int)
    requires GreedyMatchAt(s, k1) && GreedyMatchAt(s, k2)
    ensures k1 == k2
  {
  }

  /**
   * Exactly two parts come out precisely when the greedy match leaves a non-empty
   * rest, and the payload is that rest: everything after the last `AppLog<TAB>`
   * of the first line.
   */
  lemma PayloadIsTextAfterGreedyMatch(s: string, p: string)
    ensures Payload(s) == Some(p) <==>
      exists k :: GreedyMatchAt(s, k) && k + |Marker| < |s| && p == s[k + |Marker|..]
  {
    var e := MatchEnd(s);
    if exists k :: GreedyMatchAt(s, k) && k + |Marker| < |s| && p == s[k + |Marker|..] {
      var k :| GreedyMatchAt(s, k) && k + |Marker| < |s| && p == s[k + |Marker|..];
      assert MatchAt(s, k);
      GreedyUnique(s, k, e.value - |Marker|);
      assert Split(s) == ["", p];
    }
    if Payload(s) == Some(p) {
      assert Split(s) == ["", s[e.value..]];
      assert GreedyMatchAt(s, e.value - |Marker|);
    }
  }

  /** Any occurrence of the marker ends in the tab delimiter. */
  lemma MarkerEndsInTab(s: string, j: int)
    ensures MarkerAt(s, j) ==> s[j + |Marker| - 1] == '\t'
  {
    if MarkerAt(s, j) {
      assert s[j..j + |Marker|][|Marker| - 1] == s[j + |Marker| - 1];
    }
  }

  /**
   * A message made of a one-line prefix, the marker and a payload without tabs
   * splits into the empty prefix part and exactly that payload.
   */
  lemma SplitOfTaggedLine(prefix: string, payload: string)
    requires OneLine(prefix)
    requires '\t' !in payload
    requires payload != ""
    ensures Split(prefix + Marker + payload) == ["", payload]
  {
    var s := prefix + Marker + payload;
    var k := |prefix|;
    assert s[k..k + |Marker|] == Marker;
    assert s[..k] == prefix;
    assert s[k + |Marker|..] == payload;
    forall i | k + |Marker| <= i < |s| ensures s[i] != '\t' {
      assert s[i] == payload[i - k - |Marker|];
    }
    forall j | k < j ensures !MarkerAt(s, j) {
      MarkerEndsInTab(s, j);
    }
    assert GreedyMatchAt(s, k);
    PayloadIsTextAfterGreedyMatch(s, payload);
  }
}
