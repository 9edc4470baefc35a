/**
 * The URL shapes the YouTube pattern is meant for, and what it extracts from
 * them. Host names and path keywords are parameters constrained only by
 * `LitAt`, so each lemma covers every upper/lower-case spelling of them.
 * Each lemma shows that the intended match is the first match in the sense
 * of `FirstMatch` and reads the id off it with `VideoIdIsFirstMatch`.
 */
module YouTubeForms {
  import opened Wrappers
  import opened Text
  import opened YouTubeUrl

  /** No character of `pre` can begin `youtube.com/` or `youtu.be/` (as in `https://www.`). */
  predicate NoHostStart(pre: string) {
    forall i :: 0 <= i < |pre| ==> Fold(pre[i]) != 'y'
  }

  /** No character of `t` is a `/`. */
  predicate NoSlash(t: string) {
    forall i :: 0 <= i < |t| ==> t[i] != '/'
  }

  /** One character of a literal match. */
  lemma LitAtChar(s: string, p: nat, lit: string, k: nat)
    requires LitAt(s, p, lit) && k < |lit|
    ensures Fold(s[p + k]) == lit[k]
  {
  }

  /** One character of a literal, if the literal matches. */
  lemma LitAtCharIf(s: string, p: nat, lit: string, k: nat)
    requires k < |lit|
    ensures LitAt(s, p, lit) ==> p + k < |s| && Fold(s[p + k]) == lit[k]
  {
  }

  /** Every match starts with a character that folds to `y`. */
  lemma PrefixStartsWithY(s: string, p: nat, path: Path)
    ensures Prefix(s, p, path) ==> p < |s| && Fold(s[p]) == 'y'
  {
    assert LongHost[0] == 'y' && ShortHost[0] == 'y';
    LitAtCharIf(s, p, LongHost, 0);
    LitAtCharIf(s, p, ShortHost, 0);
  }

  /** Nothing matches before `|pre|` when `pre` has no character folding to `y`. */
  lemma NoMatchInPrefix(pre: string, rest: string)
    requires NoHostStart(pre)
    ensures forall p: nat, path :: p < |pre| ==> !Accepts(pre + rest, p, path)
  {
    var s := pre + rest;
    forall p: nat, path | p < |pre| ensures !Accepts(s, p, path) {
      assert s[p] == pre[p];
      PrefixStartsWithY(s, p, path);
    }
  }

  /** Where a youtube.com host is spelt out at `|pre|`, `youtu.be/` is not. */
  lemma LongHostAt(pre: string, host: string, rest: string)
    requires |host| == |LongHost| && LitAt(host, 0, LongHost)
    ensures LitAt(pre + host + rest, |pre|, LongHost)
    ensures !LitAt(pre + host + rest, |pre|, ShortHost)
  {
    var s := pre + host + rest;
    forall k | 0 <= k < |host| ensures s[|pre| + k] == host[k] { }
    LitAtChar(host, 0, LongHost, 5);
    assert s[|pre| + 5] == host[5];
    LitAtCharIf(s, |pre|, ShortHost, 5);
  }

  /** `[^/]+/.+/` cannot match at all from `a`. */
  ghost predicate NoChannel(s: string, a: nat) {
    forall e :: !ChannelRun(s, a, e)
  }

  /** `[^/]+/.+/` needs two slashes after the host; with at most one it fails. */
  lemma NoChannelWithOneSlash(s: string, a: nat, only: nat)
    requires forall k :: a <= k < |s| && s[k] == '/' ==> k == only
    ensures NoChannel(s, a)
  {
  }

  /** `youtu.be/` comes last: it is first when `youtube.com/` is not there. */
  lemma ShortIsFirst(s: string, p: nat)
    requires !LitAt(s, p, LongHost)
    ensures forall other :: Precedes(other, ShortPath) ==> !Accepts(s, p, other)
  {
  }

  /** `v/` is first when `[^/]+/.+/` cannot match. */
  lemma VIsFirst(s: string, p: nat)
    requires NoChannel(s, p + |LongHost|)
    ensures forall other :: Precedes(other, VPath) ==> !Accepts(s, p, other)
  {
  }

  /** `embed/` is first when neither `[^/]+/.+/` nor `v/` can match. */
  lemma EmbedIsFirst(s: string, p: nat)
    requires NoChannel(s, p + |LongHost|) && !LitAt(s, p + |LongHost|, "v/")
    ensures forall other :: Precedes(other, EmbedPath) ==> !Accepts(s, p, other)
  {
  }

  /** `.*[?&]v=` ending at `f` is first when no earlier alternative can match
      and no later mark can. */
  lemma QueryIsFirst(s: string, p: nat, a: nat, f: nat)
    requires a == p + |LongHost|
    requires NoChannel(s, a)
    requires !LitAt(s, a, "v/") && !LitAt(s, a, "embed/") && !LitAt(s, a, "e/")
    requires forall f' :: f < f' ==> !QuerySegments(s, a, f')
    ensures forall other :: Precedes(other, QueryPath(f)) ==> !Accepts(s, p, other)
  {
  }

  /**
   * `youtu.be/<id>`: the id is the 11 characters after the host. Nothing has
   * to follow them, and when more allowed characters follow, the id is the
   * first 11 of them.
   */
  lemma ShortForm(pre: string, host: string, rest: string)
    requires NoHostStart(pre)
    requires |host| == |ShortHost| && LitAt(host, 0, ShortHost)
    requires IdAt(rest, 0)
    ensures VideoId(pre + host + rest) == Some(rest[..IdLength])
  {
    var s := pre + host + rest;
    var p := |pre|;
    assert s == pre + (host + rest);
    NoMatchInPrefix(pre, host + rest);
    forall k | 0 <= k < |host| ensures s[p + k] == host[k] { }
    LitAtChar(host, 0, ShortHost, 5);
    assert s[p + 5] == host[5];
    LitAtCharIf(s, p, LongHost, 5);
    assert LitAt(s, p, ShortHost);
    forall k | 0 <= k < IdLength ensures s[p + |host| + k] == rest[k] { }
    assert Accepts(s, p, ShortPath);
    ShortIsFirst(s, p);
    assert FirstMatch(s, p, ShortPath);
    VideoIdIsFirstMatch(s);
    assert Capture(s, p, ShortPath) == rest[..IdLength];
  }

  /** The characters of `pre + host + rest`, piece by piece. */
  lemma Pieces(pre: string, host: string, rest: string)
    ensures var s := pre + host + rest;
      && |s| == |pre| + |host| + |rest|
      && (forall k :: 0 <= k < |pre| ==> s[k] == pre[k])
      && (forall k :: 0 <= k < |host| ==> s[|pre| + k] == host[k])
      && (forall k :: 0 <= k < |rest| ==> s[|pre| + |host| + k] == rest[k])
  {
  }

  /** The text after the host in the watch form. */
  lemma WatchRest(key: string, id: string, tail: string)
    requires |key| == 2 && LitAt(key, 0, "v=")
    requires IsVideoId(id)
    requires forall i :: 0 <= i < |tail| ==> IsIdChar(tail[i])
    ensures var r := "watch?" + key + id + tail;
      && |r| == 8 + IdLength + |tail|
      && r[0] == 'w' && r[5] == '?' && r[6] == key[0] && r[7] == key[1]
      && (forall j :: 0 <= j < 5 ==> !IsLineTerminator(r[j]))
      && (forall j :: 0 <= j < |r| ==> r[j] != '/')
      && (forall j :: 5 < j < |r| ==> r[j] != '?' && r[j] != '&')
      && (forall j :: 0 <= j < IdLength ==> r[8 + j] == id[j])
  {
    var r := "watch?" + key + id + tail;
    LitAtChar(key, 0, "v=", 0);
    LitAtChar(key, 0, "v=", 1);
    FoldOnto(key[0], 'v');
    FoldOnto(key[1], '=');
    forall j | 0 <= j < |r| ensures r[j] != '/' && (5 < j ==> r[j] != '?' && r[j] != '&') {
      if 8 + IdLength <= j {
        assert r[j] == tail[j - 8 - IdLength];
      } else if 8 <= j {
        assert r[j] == id[j - 8];
      } else if 6 <= j {
        assert r[j] == key[j - 6];
      }
    }
  }

  /** After `youtube.com/` at `p` comes `watch?`, the key, the id and a tail
      without `/`, `?` or `&`: the query alternative is the first to match. */
  lemma WatchAfterHost(s: string, p: nat, key: string, id: string, tail: string)
    requires LitAt(s, p, LongHost)
    requires |key| == 2 && LitAt(key, 0, "v=")
    requires IsVideoId(id)
    requires forall i :: 0 <= i < |tail| ==> IsIdChar(tail[i])
    requires var r := "watch?" + key + id + tail;
      && p + |LongHost| + |r| == |s|
      && forall j :: 0 <= j < |r| ==> s[p + |LongHost| + j] == r[j]
    ensures Accepts(s, p, QueryPath(p + |LongHost| + 5))
    ensures forall other :: Precedes(other, QueryPath(p + |LongHost| + 5)) ==> !Accepts(s, p, other)
    ensures Capture(s, p, QueryPath(p + |LongHost| + 5)) == id
  {
    var rest := "watch?" + key + id + tail;
    var a := p + |LongHost|;
    WatchRest(key, id, tail);
    forall k | a <= k < |s| ensures s[k] != '/' && (k > a + 5 ==> s[k] != '?' && s[k] != '&') {
      assert s[k] == rest[k - a];
    }
    NoChannelWithOneSlash(s, a, a);
    assert LitAt(s, a + 6, "v=") by {
      assert s[a + 6] == key[0] && s[a + 7] == key[1];
      LitAtChar(key, 0, "v=", 0);
      LitAtChar(key, 0, "v=", 1);
    }
    forall k | a <= k < a + 5 ensures !IsLineTerminator(s[k]) {
      assert s[k] == rest[k - a];
    }
    forall k | a + 8 <= k < a + 8 + IdLength ensures IsIdChar(s[k]) {
      assert s[k] == rest[k - a] == id[k - a - 8];
    }
    var path := QueryPath(a + 5);
    assert QuerySegments(s, a, a + 5);
    assert Accepts(s, p, path);
    assert s[a] == rest[0] == 'w';
    LitAtCharIf(s, a, "v/", 0);
    LitAtCharIf(s, a, "embed/", 0);
    LitAtCharIf(s, a, "e/", 0);
    forall f' | a + 5 < f' ensures !QuerySegments(s, a, f') { }
    QueryIsFirst(s, p, a, a + 5);
    assert Capture(s, p, path) == s[a + 8..a + 8 + IdLength];
    assert s[a + 8..a + 8 + IdLength] == id;
  }

  /** `youtube.com/watch?v=<id>`: `.*[?&]v=` stops at the last `?v=` or `&v=`,
      which is the one after `watch` when nothing after the id has `?` or `&`. */
  lemma WatchForm(pre: string, host: string, key: string, id: string, tail: string)
    requires NoHostStart(pre)
    requires |host| == |LongHost| && LitAt(host, 0, LongHost)
    requires |key| == 2 && LitAt(key, 0, "v=")
    requires IsVideoId(id)
    requires forall i :: 0 <= i < |tail| ==> IsIdChar(tail[i])
    ensures VideoId(pre + host + "watch?" + key + id + tail) == Some(id)
  {
    var rest := "watch?" + key + id + tail;
    var s := pre + host + rest;
    assert s == pre + host + "watch?" + key + id + tail;
    var p := |pre|;
    assert s == pre + (host + rest);
    NoMatchInPrefix(pre, host + rest);
    LongHostAt(pre, host, rest);
    Pieces(pre, host, rest);
    WatchAfterHost(s, p, key, id, tail);
    var path := QueryPath(p + |LongHost| + 5);
    assert FirstMatch(s, p, path);
    VideoIdIsFirstMatch(s);
  }

  /** In `key + id + tail` the only slash ends the keyword. */
  lemma KeywordRest(key: string, id: string, tail: string)
    requires 0 < |key| && key[|key| - 1] == '/' && NoSlash(key[..|key| - 1])
    requires IsVideoId(id) && NoSlash(tail)
    ensures var r := key + id + tail;
      forall j :: 0 <= j < |r| && r[j] == '/' ==> j == |key| - 1
  {
    var r := key + id + tail;
    forall j | 0 <= j < |r| && j != |key| - 1 ensures r[j] != '/' {
      if |key| + IdLength <= j {
        assert r[j] == tail[j - |key| - IdLength];
      } else if |key| <= j {
        assert r[j] == id[j - |key|];
      } else {
        assert r[j] == key[..|key| - 1][j];
      }
    }
  }

  /** After the host at `a` come the keyword, the id and a tail without `/`:
      `[^/]+/.+/` cannot match and the id follows the keyword. */
  lemma KeywordAfterHost(s: string, a: nat, key: string, id: string, tail: string)
    requires 0 < |key| && key[|key| - 1] == '/' && NoSlash(key[..|key| - 1])
    requires IsVideoId(id) && NoSlash(tail)
    requires var r := key + id + tail;
      && a + |r| == |s|
      && forall j :: 0 <= j < |r| ==> s[a + j] == r[j]
    ensures NoChannel(s, a)
    ensures IdAt(s, a + |key|)
    ensures s[a..a + |key|] == key
    ensures s[a + |key|..a + |key| + IdLength] == id
  {
    var rest := key + id + tail;
    KeywordRest(key, id, tail);
    forall k | a <= k < |s| && s[k] == '/' ensures k == a + |key| - 1 {
      assert s[k] == rest[k - a];
    }
    NoChannelWithOneSlash(s, a, a + |key| - 1);
    forall k | a + |key| <= k < a + |key| + IdLength ensures IsIdChar(s[k]) {
      assert s[k] == rest[k - a] == id[k - a - |key|];
    }
    assert s[a..a + |key|] == key by {
      forall j | 0 <= j < |key| ensures s[a + j] == key[j] {
        assert s[a + j] == rest[j];
      }
    }
    assert s[a + |key|..a + |key| + IdLength] == id by {
      forall j | 0 <= j < IdLength ensures s[a + |key| + j] == id[j] {
        assert s[a + |key| + j] == rest[|key| + j];
      }
    }
  }

  /** `youtube.com/<key><id><tail>` where `key` is a one-slash keyword such as
      `embed/` or `v/` and no slash follows the id. */
  lemma KeywordForm(pre: string, host: string, key: string, id: string, tail: string)
    requires NoHostStart(pre)
    requires |host| == |LongHost| && LitAt(host, 0, LongHost)
    requires 0 < |key| && key[|key| - 1] == '/' && NoSlash(key[..|key| - 1])
    requires IsVideoId(id) && NoSlash(tail)
    ensures var s := pre + host + key + id + tail;
      forall p: nat, path :: p < |pre| ==> !Accepts(s, p, path)
    ensures var s := pre + host + key + id + tail;
      && NoChannel(s, |pre| + |LongHost|)
      && IdAt(s, |pre| + |LongHost| + |key|)
      && s[|pre| + |LongHost|..|pre| + |LongHost| + |key|] == key
      && s[|pre| + |LongHost| + |key|..|pre| + |LongHost| + |key| + IdLength] == id
      && LitAt(s, |pre|, LongHost)
  {
    var rest := key + id + tail;
    var s := pre + host + rest;
    assert s == pre + host + key + id + tail;
    assert s == pre + (host + rest);
    NoMatchInPrefix(pre, host + rest);
    LongHostAt(pre, host, rest);
    Pieces(pre, host, rest);
    KeywordAfterHost(s, |pre| + |LongHost|, key, id, tail);
  }

  /** `youtube.com/embed/<id>`, followed by anything without a slash. */
  lemma EmbedForm(pre: string, host: string, key: string, id: string, tail: string)
    requires NoHostStart(pre)
    requires |host| == |LongHost| && LitAt(host, 0, LongHost)
    requires |key| == 6 && LitAt(key, 0, "embed/")
    requires IsVideoId(id) && NoSlash(tail)
    ensures VideoId(pre + host + key + id + tail) == Some(id)
  {
    var s := pre + host + key + id + tail;
    var p := |pre|;
    var a := p + |LongHost|;
    forall k | 0 <= k < 5 ensures key[k] != '/' {
      LitAtChar(key, 0, "embed/", k);
    }
    LitAtChar(key, 0, "embed/", 5);
    FoldOnto(key[5], '/');
    KeywordForm(pre, host, key, id, tail);
    assert LitAt(s, a, "embed/") by {
      forall k | 0 <= k < 6 ensures Fold(s[a + k]) == "embed/"[k] {
        assert s[a + k] == s[a..a + 6][k] == key[k];
        LitAtChar(key, 0, "embed/", k);
      }
    }
    assert Accepts(s, p, EmbedPath);
    LitAtCharIf(s, a, "v/", 0);
    LitAtChar(s, a, "embed/", 0);
    EmbedIsFirst(s, p);
    assert FirstMatch(s, p, EmbedPath);
    VideoIdIsFirstMatch(s);
  }

  /** `youtube.com/v/<id>`, followed by anything without a slash. */
  lemma VForm(pre: string, host: string, key: string, id: string, tail: string)
    requires NoHostStart(pre)
    requires |host| == |LongHost| && LitAt(host, 0, LongHost)
    requires |key| == 2 && LitAt(key, 0, "v/")
    requires IsVideoId(id) && NoSlash(tail)
    ensures VideoId(pre + host + key + id + tail) == Some(id)
  {
    var s := pre + host + key + id + tail;
    var p := |pre|;
    var a := p + |LongHost|;
    LitAtChar(key, 0, "v/", 0);
    LitAtChar(key, 0, "v/", 1);
    FoldOnto(key[0], 'v');
    FoldOnto(key[1], '/');
    KeywordForm(pre, host, key, id, tail);
    assert LitAt(s, a, "v/") by {
      assert s[a] == key[0] && s[a + 1] == key[1];
    }
    assert Accepts(s, p, VPath);
    VIsFirst(s, p);
    assert FirstMatch(s, p, VPath);
    VideoIdIsFirstMatch(s);
  }
}
