/**
 * The YouTube URL pattern of `isYouTubeVideo` and `getYouTubeVideoId`,
 * matched with the `i` flag: either `youtube.com/` followed by one of four
 * alternatives (a channel-style `[^/]+/.+/`, the keywords `v/`, `e/` or
 * `embed/`, or a `.*` run up to `?v=` or `&v=`), or `youtu.be/`; then a
 * capture group of 11 characters from the class `[^"&?/\s]`. It is
 * written as a hand-made matcher over strings. The pattern has one capture
 * group, so a match is fully described by where it starts and which way
 * through the alternatives it took (a `Path`); the group is then the 11
 * characters that follow the prefix.
 *
 * Two views are given and proved to agree:
 *  - declarative: `Accepts(s, p, path)` says that the pattern can match at
 *    `p` along `path`, and `Precedes` is the order in which ECMAScript's
 *    backtracking tries paths (alternatives left to right, greedy `.+` and
 *    `.*` longest first);
 *  - operational: `MatchAt` tries the paths in that order at one position,
 *    `Search` tries positions left to right, as `RegExp.prototype.exec`
 *    does for a pattern without the `g` and `y` flags.
 */
module YouTubeUrl {
  import opened Wrappers
  import opened Text

  /** Length of the capture group `([^"&?\/\s]{11})`. */
  const IdLength: nat := 11

  const LongHost: string := "youtube.com/"
  const ShortHost: string := "youtu.be/"

  /** One character of the class `[^"&?\/\s]`. */
  predicate IsIdChar(c: char) {
    c != '"' && c != '&' && c != '?' && c != '/' && !IsWhitespace(c)
  }

  /** A string the capture group can hold: exactly 11 allowed characters. */
  predicate IsVideoId(id: string) {
    |id| == IdLength && forall i :: 0 <= i < |id| ==> IsIdChar(id[i])
  }

  /** The capture group can match the 11 characters of `s` starting at `q`. */
  predicate IdAt(s: string, q: nat) {
    q + IdLength <= |s| && forall k :: q <= k < q + IdLength ==> IsIdChar(s[k])
  }

  /** The literal `lit` (written in lower case) occurs at `p` under the `i` flag. */
  predicate LitAt(s: string, p: nat, lit: string) {
    p + |lit| <= |s| && forall k :: 0 <= k < |lit| ==> Fold(s[p + k]) == lit[k]
  }

  /** The ways through the alternatives in front of the capture group. */
  datatype Path =
    | ChannelPath(slash: nat)  // youtube.com/ [^/]+ / .+ /  whose last `/` is at `slash`
    | VPath                    // youtube.com/v/
    | EmbedPath                // youtube.com/embed/
    | EPath                    // youtube.com/e/
    | QueryPath(mark: nat)     // youtube.com/ .* [?&] v=  whose `?` or `&` is at `mark`
    | ShortPath                // youtu.be/

  /** Where the capture group starts when the match starts at `p` along `path`. */
  function IdStart(p: nat, path: Path): nat {
    match path
    case ChannelPath(e) => e + 1
    case VPath => p + |LongHost| + 2
    case EmbedPath => p + |LongHost| + 6
    case EPath => p + |LongHost| + 2
    case QueryPath(f) => f + 3
    case ShortPath => p + |ShortHost|
  }

  /** `[^/]+/.+/` from `a`: a non-empty run without `/` up to the slash at `b`,
      then a non-empty run without line terminators up to the slash at `e`. */
  ghost predicate ChannelSegments(s: string, a: nat, b: nat, e: nat) {
    && a < b && b + 1 < e < |s|
    && s[b] == '/' && s[e] == '/'
    && (forall k :: a <= k < b ==> s[k] != '/')
    && (forall k :: b < k < e ==> !IsLineTerminator(s[k]))
  }

  /** `[^/]+/.+/` from `a` can end with the slash at `e`. */
  ghost predicate ChannelRun(s: string, a: nat, e: nat) {
    exists b: nat :: ChannelSegments(s, a, b, e)
  }

  /** `.*[?&]v=` from `a`: a run without line terminators up to the `?` or `&` at `f`. */
  ghost predicate QuerySegments(s: string, a: nat, f: nat) {
    && a <= f < |s|
    && (s[f] == '?' || s[f] == '&')
    && LitAt(s, f + 1, "v=")
    && (forall k :: a <= k < f ==> !IsLineTerminator(s[k]))
  }

  /** The part of the pattern before the capture group matches at `p` along `path`. */
  ghost predicate Prefix(s: string, p: nat, path: Path) {
    match path
    case ShortPath => LitAt(s, p, ShortHost)
    case ChannelPath(e) => LitAt(s, p, LongHost) && ChannelRun(s, p + |LongHost|, e)
    case VPath => LitAt(s, p, LongHost) && LitAt(s, p + |LongHost|, "v/")
    case EmbedPath => LitAt(s, p, LongHost) && LitAt(s, p + |LongHost|, "embed/")
    case EPath => LitAt(s, p, LongHost) && LitAt(s, p + |LongHost|, "e/")
    case QueryPath(f) => LitAt(s, p, LongHost) && QuerySegments(s, p + |LongHost|, f)
  }

  /** The whole pattern matches at `p` along `path`. */
  ghost predicate Accepts(s: string, p: nat, path: Path) {
    Prefix(s, p, path) && IdAt(s, IdStart(p, path))
  }

  /** Position of an alternative in the pattern, left to right. */
  function Rank(path: Path): nat {
    match path
    case ChannelPath(_) => 0
    case VPath => 1
    case EmbedPath => 2
    case EPath => 3
    case QueryPath(_) => 4
    case ShortPath => 5
  }

  /** The position a greedy quantifier stopped at (0 where there is none). */
  function Reach(path: Path): nat {
    match path
    case ChannelPath(e) => e
    case QueryPath(f) => f
    case _ => 0
  }

  /** Backtracking tries `x` before `y`: an earlier alternative, or the same
      alternative with its greedy quantifier consuming more. */
  predicate Precedes(x: Path, y: Path) {
    Rank(x) < Rank(y) || (Rank(x) == Rank(y) && Reach(x) > Reach(y))
  }

  /** The match `RegExp.prototype.exec` reports: the leftmost start, and at it the
      path backtracking reaches first. */
  ghost predicate FirstMatch(s: string, p: nat, path: Path) {
    && Accepts(s, p, path)
    && (forall p': nat, path' :: p' < p ==> !Accepts(s, p', path'))
    && (forall other :: Accepts(s, p, other) ==> !Precedes(other, path))
  }

  /** Capture group 1 of a match. */
  function Capture(s: string, p: nat, path: Path): (id: string)
    requires IdAt(s, IdStart(p, path))
    ensures IsVideoId(id)
  {
    s[IdStart(p, path)..IdStart(p, path) + IdLength]
  }

  // ---------------------------------------------------------------------
  // The matcher

  /** First `/` at or after `i`: how far `[^/]+` can reach. */
  function FirstSlash(s: string, i: nat): (r: Option<nat>)
    requires i <= |s|
    ensures r.Some? ==> i <= r.value < |s| && s[r.value] == '/'
    ensures r.Some? ==> forall k :: i <= k < r.value ==> s[k] != '/'
    ensures r.None? ==> forall k :: i <= k < |s| ==> s[k] != '/'
    decreases |s| - i
  {
    if i == |s| then None
    else if s[i] == '/' then Some(i)
    else FirstSlash(s, i + 1)
  }

  /** First line terminator at or after `i`, or the end: how far `.` can reach. */
  function LineEnd(s: string, i: nat): (r: nat)
    requires i <= |s|
    ensures i <= r <= |s|
    ensures r < |s| ==> IsLineTerminator(s[r])
    ensures forall k :: i <= k < r ==> !IsLineTerminator(s[k])
    decreases |s| - i
  {
    if i == |s| || IsLineTerminator(s[i]) then i else LineEnd(s, i + 1)
  }

  /** What must follow a greedy run for the rest of the pattern to match. */
  datatype Anchor = SlashAnchor | QueryAnchor

  predicate AnchoredAt(s: string, kind: Anchor, i: nat) {
    match kind
    case SlashAnchor => i < |s| && s[i] == '/' && IdAt(s, i + 1)
    case QueryAnchor => i < |s| && (s[i] == '?' || s[i] == '&') && LitAt(s, i + 1, "v=") && IdAt(s, i + 3)
  }

  /** Greedy backtracking: the largest `i` in `[lo, hi)` at which the rest matches. */
  function LastAnchor(s: string, kind: Anchor, lo: nat, hi: nat): (r: Option<nat>)
    ensures r.Some? ==> lo <= r.value < hi && AnchoredAt(s, kind, r.value)
    ensures r.Some? ==> forall k :: r.value < k < hi ==> !AnchoredAt(s, kind, k)
    ensures r.None? ==> forall k :: lo <= k < hi ==> !AnchoredAt(s, kind, k)
    decreases hi - lo
  {
    if hi <= lo then None
    else if AnchoredAt(s, kind, hi - 1) then Some(hi - 1)
    else LastAnchor(s, kind, lo, hi - 1)
  }

  /** `[^/]+/.+/` then the group, from `a`: the slash before the group, if any. */
  function TryChannel(s: string, a: nat): (r: Option<nat>)
    requires a <= |s|
    ensures r.Some? ==> FirstSlash(s, a).Some? && ChannelSegments(s, a, FirstSlash(s, a).value, r.value)
    ensures r.Some? ==> IdAt(s, r.value + 1)
  {
    match FirstSlash(s, a)
    case None => None
    case Some(b) => if b == a then None else LastAnchor(s, SlashAnchor, b + 2, LineEnd(s, b + 1))
  }

  /** `.*[?&]v=` then the group, from `a`: the `?` or `&`, if any. */
  function TryQuery(s: string, a: nat): (r: Option<nat>)
    requires a <= |s|
    ensures r.Some? ==> QuerySegments(s, a, r.value) && IdAt(s, r.value + 3)
  {
    LastAnchor(s, QueryAnchor, a, LineEnd(s, a))
  }

  /** The first alternative of the pattern, after `youtube.com/` has matched at `p`. */
  function MatchLong(s: string, p: nat): (r: Option<Path>)
    requires LitAt(s, p, LongHost)
  {
    var a := p + |LongHost|;
    var channel := TryChannel(s, a);
    if channel.Some? then Some(ChannelPath(channel.value))
    else if LitAt(s, a, "v/") && IdAt(s, a + 2) then Some(VPath)
    else if LitAt(s, a, "embed/") && IdAt(s, a + 6) then Some(EmbedPath)
    else if LitAt(s, a, "e/") && IdAt(s, a + 2) then Some(EPath)
    else
      match TryQuery(s, a)
      case Some(f) => Some(QueryPath(f))
      case None => None
  }

  /** The path backtracking finds at start position `p`, if any. */
  function MatchAt(s: string, p: nat): (r: Option<Path>)
  {
    var long := if LitAt(s, p, LongHost) then MatchLong(s, p) else None;
    if long.Some? then long
    else if LitAt(s, p, ShortHost) && IdAt(s, p + |ShortHost|) then Some(ShortPath)
    else None
  }

  /** Whatever path the first alternative returns does match. */
  lemma MatchLongSound(s: string, p: nat)
    requires LitAt(s, p, LongHost)
    ensures MatchLong(s, p).Some? ==> Accepts(s, p, MatchLong(s, p).value)
  {
  }

  /** Whatever path backtracking returns does match. */
  lemma MatchAtSound(s: string, p: nat)
    ensures MatchAt(s, p).Some? ==> Accepts(s, p, MatchAt(s, p).value)
  {
    if LitAt(s, p, LongHost) {
      MatchLongSound(s, p);
    }
  }

  /** Backtracking fails at every start in `[lo, hi)`. */
  ghost predicate NoMatchIn(s: string, lo: nat, hi: nat)
    decreases hi - lo
  {
    lo >= hi || (MatchAt(s, lo).None? && NoMatchIn(s, lo + 1, hi))
  }

  /** One start of a failing run fails. */
  lemma {:induction false} NoMatchInAt(s: string, lo: nat, hi: nat, p: nat)
    requires NoMatchIn(s, lo, hi) && lo <= p < hi
    ensures MatchAt(s, p).None?
    decreases hi - lo
  {
    if lo < p {
      NoMatchInAt(s, lo + 1, hi, p);
    }
  }

  /** The leftmost start at or after `p` where the pattern matches. */
  function Search(s: string, p: nat): (r: Option<(nat, Path)>)
    ensures r.Some? ==> p <= r.value.0 && MatchAt(s, r.value.0) == Some(r.value.1)
    decreases |s| + 1 - p
  {
    if p > |s| then None
    else
      var here := MatchAt(s, p);
      if here.Some? then Some((p, here.value))
      else Search(s, p + 1)
  }

  /** A failing start is skipped. */
  lemma SearchSkips(s: string, p: nat)
    requires p <= |s| && MatchAt(s, p).None?
    ensures Search(s, p) == Search(s, p + 1)
  {
  }

  /** `Search` skips only starts where backtracking fails, and fails only
      when every remaining start fails. */
  lemma {:induction false} SearchIsLeftmost(s: string, p: nat)
    ensures Search(s, p).Some? ==> NoMatchIn(s, p, Search(s, p).value.0)
    ensures Search(s, p).None? ==> NoMatchIn(s, p, |s| + 1)
    decreases |s| + 1 - p
  {
    if p <= |s| && MatchAt(s, p).None? {
      SearchIsLeftmost(s, p + 1);
      SearchSkips(s, p);
    }
  }

  /** `getYouTubeVideoId(url)`: capture group 1 of `url.match(regex)`, or `null`. */
  function VideoId(url: string): (r: Option<string>)
    ensures r.Some? ==> IsVideoId(r.value)
  {
    match Search(url, 0)
    case None => None
    case Some((p, path)) =>
      MatchAtSound(url, p);
      Some(Capture(url, p, path))
  }

  /** `isYouTubeVideo(url)`: `false` for a falsy url, else `regex.test(url)`. */
  function IsYouTubeVideo(url: Option<string>): bool {
    if url.None? || url.value == "" then false else Search(url.value, 0).Some?
  }

  // ---------------------------------------------------------------------
  // The matcher agrees with the declarative semantics

  /** Two different paths are always ordered one way or the other. */
  lemma PrecedesTotal(x: Path, y: Path)
    requires x != y
    ensures Precedes(x, y) || Precedes(y, x)
  {
  }

  /** If `[^/]+/.+/` followed by the group can end at `e`, `TryChannel` finds it
      or a later slash. */
  lemma TryChannelComplete(s: string, a: nat, e: nat)
    requires a <= |s| && ChannelRun(s, a, e) && IdAt(s, e + 1)
    ensures TryChannel(s, a).Some? && e <= TryChannel(s, a).value
  {
    var b: nat :| ChannelSegments(s, a, b, e);
    assert s[b] == '/';
    var first := FirstSlash(s, a);
    assert first.Some?;
    assert first.value == b;
    var c := LineEnd(s, b + 1);
    assert !IsLineTerminator(s[e]);
    assert e < c;
    assert AnchoredAt(s, SlashAnchor, e);
  }

  /** If `.*[?&]v=` followed by the group can end with its mark at `f`,
      `TryQuery` finds it or a later mark. */
  lemma TryQueryComplete(s: string, a: nat, f: nat)
    requires a <= |s| && QuerySegments(s, a, f) && IdAt(s, f + 3)
    ensures TryQuery(s, a).Some? && f <= TryQuery(s, a).value
  {
    assert !IsLineTerminator(s[f]);
    assert f < LineEnd(s, a);
    assert AnchoredAt(s, QueryAnchor, f);
  }

  /** If `[^/]+/.+/` can end at `e`, backtracking takes that alternative,
      with its last slash at `e` or later. */
  lemma ChannelIsTriedFirst(s: string, p: nat, e: nat)
    requires Accepts(s, p, ChannelPath(e))
    ensures MatchAt(s, p).Some? && MatchAt(s, p).value.ChannelPath?
    ensures e <= MatchAt(s, p).value.slash
  {
    TryChannelComplete(s, p + |LongHost|, e);
  }

  /** If `v/`, `embed/` or `e/` matches, backtracking takes it or an earlier alternative. */
  lemma KeywordIsTriedFirst(s: string, p: nat, other: Path)
    requires other == VPath || other == EmbedPath || other == EPath
    requires Accepts(s, p, other)
    ensures MatchAt(s, p).Some? && Rank(MatchAt(s, p).value) <= Rank(other)
  {
  }

  /** If `.*[?&]v=` can end with its mark at `f`, backtracking takes an earlier
      alternative or this one with its mark at `f` or later. */
  lemma QueryIsTriedFirst(s: string, p: nat, f: nat)
    requires Accepts(s, p, QueryPath(f))
    ensures MatchAt(s, p).Some? && !Precedes(QueryPath(f), MatchAt(s, p).value)
  {
    TryQueryComplete(s, p + |LongHost|, f);
  }

  /** If `youtu.be/` matches, backtracking finds some path. */
  lemma ShortIsTried(s: string, p: nat)
    requires Accepts(s, p, ShortPath)
    ensures MatchAt(s, p).Some?
  {
  }

  /** At one start position, `MatchAt` fails exactly when no path matches, and
      otherwise returns the path that backtracking tries first. */
  lemma MatchAtIsFirstPath(s: string, p: nat)
    ensures MatchAt(s, p).None? <==> forall path :: !Accepts(s, p, path)
    ensures MatchAt(s, p).Some? ==>
      forall other :: Accepts(s, p, other) ==> !Precedes(other, MatchAt(s, p).value)
  {
    MatchAtSound(s, p);
    forall other | Accepts(s, p, other)
      ensures MatchAt(s, p).Some? && !Precedes(other, MatchAt(s, p).value)
    {
      match other
      case ChannelPath(e) => ChannelIsTriedFirst(s, p, e);
      case QueryPath(f) => QueryIsTriedFirst(s, p, f);
      case ShortPath => ShortIsTried(s, p);
      case _ => KeywordIsTriedFirst(s, p, other);
    }
  }

  /** When `Search` from 0 fails, the pattern matches nowhere in `s`. */
  lemma {:induction false} NoMatchAnywhere(s: string)
    requires Search(s, 0).None?
    ensures forall p: nat, path :: !Accepts(s, p, path)
  {
    SearchIsLeftmost(s, 0);
    forall p: nat, path ensures !Accepts(s, p, path) {
      if p <= |s| {
        NoMatchInAt(s, 0, |s| + 1, p);
        MatchAtIsFirstPath(s, p);
      }
    }
  }

  /** Where `Search` from 0 stops is the first match. */
  lemma SearchFindsFirstMatch(s: string)
    requires Search(s, 0).Some?
    ensures FirstMatch(s, Search(s, 0).value.0, Search(s, 0).value.1)
  {
    var p0 := Search(s, 0).value.0;
    SearchIsLeftmost(s, 0);
    MatchAtSound(s, p0);
    MatchAtIsFirstPath(s, p0);
    forall p': nat, path' | p' < p0 ensures !Accepts(s, p', path') {
      NoMatchInAt(s, 0, p0, p');
      MatchAtIsFirstPath(s, p');
    }
  }

  /** There is at most one first match. */
  lemma FirstMatchUnique(s: string, p: nat, path: Path, q: nat, other: Path)
    requires FirstMatch(s, p, path) && FirstMatch(s, q, other)
    ensures p == q && path == other
  {
    assert p == q;
    if path != other {
      PrecedesTotal(path, other);
    }
  }

  /**
   * `getYouTubeVideoId` returns `null` exactly when the pattern matches
   * nowhere, and otherwise capture group 1 of the first match in the sense of
   * ECMAScript: the leftmost start, and there the first path backtracking tries.
   */
  lemma VideoIdIsFirstMatch(url: string)
    ensures VideoId(url).None? <==> forall p: nat, path :: !Accepts(url, p, path)
    ensures forall p: nat, path :: FirstMatch(url, p, path) ==> VideoId(url) == Some(Capture(url, p, path))
    ensures VideoId(url).Some? ==>
      exists p: nat, path :: FirstMatch(url, p, path) && VideoId(url).value == Capture(url, p, path)
  {
    if Search(url, 0).None? {
      NoMatchAnywhere(url);
    } else {
      var p0, path0 := Search(url, 0).value.0, Search(url, 0).value.1;
      SearchFindsFirstMatch(url);
      assert VideoId(url) == Some(Capture(url, p0, path0));
      forall p: nat, path | FirstMatch(url, p, path) ensures p == p0 && path == path0 {
        FirstMatchUnique(url, p, path, p0, path0);
      }
    }
  }

  /**
   * `isYouTubeVideo` is false for an absent or empty url; otherwise it holds
   * exactly when the pattern matches somewhere, which is exactly when
   * `getYouTubeVideoId` on the same url returns an id.
   */
  lemma IsYouTubeVideoAgreesWithVideoId(url: Option<string>)
    ensures url.None? || url.value == "" ==> !IsYouTubeVideo(url)
    ensures IsYouTubeVideo(url) <==> url.Some? && VideoId(url.value).Some?
    ensures IsYouTubeVideo(url) <==> url.Some? && exists p: nat, path :: Accepts(url.value, p, path)
  {
    if url.Some? {
      VideoIdIsFirstMatch(url.value);
    }
  }

  /** A returned id is 11 allowed characters copied from `url` right after a
      matched `youtube.com/...` or `youtu.be/` prefix. */
  lemma VideoIdShape(url: string)
    requires VideoId(url).Some?
    ensures IsVideoId(VideoId(url).value)
    ensures exists p: nat, path ::
      && Prefix(url, p, path)
      && IdStart(p, path) + IdLength <= |url|
      && VideoId(url).value == url[IdStart(p, path)..IdStart(p, path) + IdLength]
  {
    VideoIdIsFirstMatch(url);
  }
}
