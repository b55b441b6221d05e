/** The request-URL helpers of the HTTP client wrapper: path normalisation,
    segment-wise pattern matching with `{param}` wildcards, the decision
    whether a response to a URL is announced with a toast, and the status
    check the client applies to every response. */
module AxiosInstance {
  import opened Wrappers
  import opened JsString
  import opened Sequences

  /** Endpoints whose responses are announced; `{name}` stands for any single
      non-empty segment. */
  const ToastPatterns: seq<string> := [
    "merchant/reset/password",
    "terminal/create",
    "terminal/reset/device",
    "terminal/reset/password",
    "terminal/{id}/delete",
    "history/{merchant}/trx"
  ]

  // ---------------------------------------------------------------------------
  // Slashes

  /** `s.replace(/^\/+/, '')`. */
  function StripLeadingSlashes(s: string): (r: string)
    ensures |r| <= |s| && r == s[|s| - |r|..]
    ensures r != [] ==> r[0] != '/'
    ensures forall i :: 0 <= i < |s| - |r| ==> s[i] == '/'
  {
    if s != [] && s[0] == '/' then StripLeadingSlashes(s[1..]) else s
  }

  /** `s.replace(/\/+$/, '')`. */
  function StripTrailingSlashes(s: string): (r: string)
    ensures |r| <= |s| && r == s[..|r|]
    ensures r != [] ==> r[|r| - 1] != '/'
    ensures forall i :: |r| <= i < |s| ==> s[i] == '/'
  {
    if s != [] && s[|s| - 1] == '/' then StripTrailingSlashes(s[..|s| - 1]) else s
  }

  /** Both leading and trailing runs of '/' removed; slashes inside are kept
      (TrimSlashesFramed). */
  function TrimSlashes(s: string): (r: string)
    ensures r == [] || (r[0] != '/' && r[|r| - 1] != '/')
  {
    StripTrailingSlashes(StripLeadingSlashes(s))
  }

  /** Trimming removes only slashes: the result is a slice of s, and
      everything before and after that slice is '/'. */
  lemma TrimSlashesFramed(s: string)
    ensures exists lo :: SlashFramed(s, lo, TrimSlashes(s))
  {
    var l := StripLeadingSlashes(s);
    var r := StripTrailingSlashes(l);
    assert r == TrimSlashes(s);
    FramedBySlashes(s, l, r);
    assert SlashFramed(s, |s| - |l|, r);
  }

  /** A suffix after a run of '/', cut before a run of '/', is framed by slashes. */
  lemma FramedBySlashes(s: string, l: string, r: string)
    requires |l| <= |s| && l == s[|s| - |l|..]
    requires forall i :: 0 <= i < |s| - |l| ==> s[i] == '/'
    requires |r| <= |l| && r == l[..|r|]
    requires forall i :: |r| <= i < |l| ==> l[i] == '/'
    ensures SlashFramed(s, |s| - |l|, r)
  {
    var lo := |s| - |l|;
    SliceOfSuffix(s, lo, |r|);
    forall i | lo + |r| <= i < |s|
      ensures s[i] == '/'
    {
      assert s[i] == l[i - lo];
    }
  }

  lemma SliceOfSuffix(s: string, lo: nat, k: nat)
    requires lo + k <= |s|
    ensures s[lo..][..k] == s[lo..lo + k]
  {
  }

  /** s is r at offset lo with only '/' before and after it. */
  predicate SlashFramed(s: string, lo: int, r: string) {
    0 <= lo <= |s| - |r| && r == s[lo..lo + |r|]
    && (forall i :: 0 <= i < lo ==> s[i] == '/')
    && (forall i :: lo + |r| <= i < |s| ==> s[i] == '/')
  }

  /** What trimming leaves is an infix of s, so it holds no character s lacks. */
  lemma TrimSlashesAvoids(s: string, c: char)
    requires c !in s
    ensures c !in TrimSlashes(s)
  {
    var l := StripLeadingSlashes(s);
    var r := TrimSlashes(s);
    forall i | 0 <= i < |r|
      ensures r[i] != c
    {
      assert r[i] == l[i] == s[|s| - |l| + i];
    }
  }

  predicate NoEdgeSlashes(s: string) {
    s == [] || (s[0] != '/' && s[|s| - 1] != '/')
  }

  /** Trimming leaves alone a string with no slash at either end. */
  lemma TrimSlashesKeeps(s: string)
    requires NoEdgeSlashes(s)
    ensures TrimSlashes(s) == s
  {
    assert StripLeadingSlashes(s) == s;
    assert StripTrailingSlashes(s) == s;
  }

  // ---------------------------------------------------------------------------
  // normalizePath

  predicate StartsWith(s: string, p: string) {
    |p| <= |s| && s[..|p|] == p
  }

  /** `/^https?:\/\//i`: an absolute http or https URL, the scheme in any case. */
  predicate IsHttpUrl(raw: string) {
    (|raw| >= 7 && ToLowerAscii(raw[..7]) == "http://")
    || (|raw| >= 8 && ToLowerAscii(raw[..8]) == "https://")
  }

  /** `normalizePath(u)`: the request path relative to the API base, without
      query, fragment or edge slashes. `prefix` is the pathname of the API base
      without trailing slashes; `pathname` stands for `new URL(raw).pathname`. */
  function NormalizePath(u: Option<string>, prefix: string, pathname: string -> string): (r: string)
    ensures NoEdgeSlashes(r)
    ensures (u.None? || u.value == "") ==> r == ""
  {
    if u.None? || u.value == "" then ""
    else
      var raw := BeforeFirst(BeforeFirst(u.value, '#'), '?');
      var raw := if IsHttpUrl(raw) then pathname(raw) else raw;
      var raw := if prefix != "" && StartsWith(raw, prefix + "/") then raw[|prefix| + 1..] else raw;
      TrimSlashes(raw)
  }

  /** A URL parser whose pathnames hold no '?' and no '#', as the URL standard's
      path state guarantees for http and https URLs. */
  ghost predicate CleanPathnames(pathname: string -> string) {
    forall s :: '?' !in pathname(s) && '#' !in pathname(s)
  }

  /** The normalised path never contains '?' or '#'. */
  lemma NormalizeNoQueryOrHash(u: Option<string>, prefix: string, pathname: string -> string)
    requires CleanPathnames(pathname)
    ensures '?' !in NormalizePath(u, prefix, pathname) && '#' !in NormalizePath(u, prefix, pathname)
  {
    if u.Some? && u.value != "" {
      var raw0 := BeforeFirst(u.value, '#');
      var raw1 := BeforeFirst(raw0, '?');
      assert '#' !in raw1 by {
        forall i | 0 <= i < |raw1|
          ensures raw1[i] != '#'
        {
          assert raw1[i] == raw0[i];
        }
      }
      var raw2 := if IsHttpUrl(raw1) then pathname(raw1) else raw1;
      var raw3 := if prefix != "" && StartsWith(raw2, prefix + "/") then raw2[|prefix| + 1..] else raw2;
      assert '?' !in raw3 && '#' !in raw3 by {
        forall i | 0 <= i < |raw3|
          ensures raw3[i] != '?' && raw3[i] != '#'
        {
          if raw3 != raw2 {
            assert raw3[i] == raw2[|prefix| + 1 + i];
          }
        }
      }
      TrimSlashesAvoids(raw3, '?');
      TrimSlashesAvoids(raw3, '#');
    }
  }

  /** `prefix + "/"` in front of a relative path is removed, and nothing else is. */
  lemma NormalizeStripsPrefix(prefix: string, rest: string, pathname: string -> string)
    requires prefix != "" && '?' !in prefix + rest && '#' !in prefix + rest
    requires !IsHttpUrl(prefix + "/" + rest)
    ensures NormalizePath(Some(prefix + "/" + rest), prefix, pathname) == TrimSlashes(rest)
  {
    var raw := prefix + "/" + rest;
    NoSeparator(raw, '#');
    NoSeparator(raw, '?');
    assert raw[..|prefix + "/"|] == prefix + "/";
    assert raw[|prefix| + 1..] == rest;
  }

  /** A relative path that does not begin with `prefix + "/"` is only trimmed:
      runs of slashes inside it are not collapsed. */
  lemma NormalizeKeepsOtherPaths(raw: string, prefix: string, pathname: string -> string)
    requires raw != "" && '?' !in raw && '#' !in raw && !IsHttpUrl(raw)
    requires prefix == "" || !StartsWith(raw, prefix + "/")
    ensures NormalizePath(Some(raw), prefix, pathname) == TrimSlashes(raw)
  {
    NoSeparator(raw, '#');
    NoSeparator(raw, '?');
  }

  lemma NoSeparator(s: string, c: char)
    requires c !in s
    ensures BeforeFirst(s, c) == s
  {
  }

  // ---------------------------------------------------------------------------
  // matchPattern

  /** `/^\{[^}]+\}$/`: a segment that is a named wildcard. */
  predicate IsParam(seg: string) {
    |seg| >= 3 && seg[0] == '{' && seg[|seg| - 1] == '}'
    && forall i :: 1 <= i < |seg| - 1 ==> seg[i] != '}'
  }

  /** A wildcard takes any non-empty segment; any other segment only itself. */
  predicate SegmentMatches(seg: string, val: string) {
    if IsParam(seg) then val != "" else seg == val
  }

  /** Segment lists of the same length that match position by position. */
  predicate SegmentsMatch(a: seq<string>, b: seq<string>)
    decreases |a|
  {
    if a == [] then b == []
    else b != [] && SegmentMatches(a[0], b[0]) && SegmentsMatch(a[1..], b[1..])
  }

  lemma {:induction false} SegmentsMatchIff(a: seq<string>, b: seq<string>)
    ensures SegmentsMatch(a, b) <==>
      |a| == |b| && forall i :: 0 <= i < |a| ==> SegmentMatches(a[i], b[i])
    decreases |a|
  {
    if a != [] && b != [] {
      SegmentsMatchIff(a[1..], b[1..]);
      if |a| == |b| && forall i :: 0 <= i < |a| ==> SegmentMatches(a[i], b[i]) {
        assert forall i :: 0 <= i < |a| - 1 ==> a[1..][i] == a[i + 1] && b[1..][i] == b[i + 1];
      }
      if SegmentsMatch(a, b) {
        forall i | 0 <= i < |a|
          ensures SegmentMatches(a[i], b[i])
        {
          if i > 0 {
            assert a[1..][i - 1] == a[i] && b[1..][i - 1] == b[i];
          }
        }
      }
    }
  }

  /** The matching rule: both trimmed paths empty, or their segment lists match. */
  predicate Matches(pattern: string, path: string) {
    var p1, p2 := TrimSlashes(pattern), TrimSlashes(path);
    (p1 == "" && p2 == "") || SegmentsMatch(Split(p1, '/'), Split(p2, '/'))
  }

  /** `matchPattern(pattern, path)`. */
  method MatchPattern(pattern: string, path: string) returns (m: bool)
    ensures m == Matches(pattern, path)
  {
    var p1 := TrimSlashes(pattern);
    var p2 := TrimSlashes(path);
    if p1 == "" && p2 == "" {
      return true;
    }
    var a := Split(p1, '/');
    var b := Split(p2, '/');
    if |a| != |b| {
      SegmentsMatchIff(a, b);
      return false;
    }
    for i := 0 to |a|
      invariant forall j :: 0 <= j < i ==> SegmentMatches(a[j], b[j])
    {
      var seg := a[i];
      var val := b[i];
      var isParam := IsParam(seg);
      if isParam {
        if val == "" {
          SegmentsMatchIff(a, b);
          return false;
        }
      } else if seg != val {
        SegmentsMatchIff(a, b);
        return false;
      }
    }
    SegmentsMatchIff(a, b);
    return true;
  }

  /** Two paths that are empty after trimming match. */
  lemma EmptyMatchesEmpty(pattern: string, path: string)
    requires TrimSlashes(pattern) == "" && TrimSlashes(path) == ""
    ensures Matches(pattern, path)
  {
  }

  /** Different segment counts never match (unless both sides are empty). */
  lemma SegmentCountMismatch(pattern: string, path: string)
    requires |Split(TrimSlashes(pattern), '/')| != |Split(TrimSlashes(path), '/')|
    ensures !Matches(pattern, path)
  {
    EmptySplit();
    SegmentsMatchIff(Split(TrimSlashes(pattern), '/'), Split(TrimSlashes(path), '/'));
  }

  lemma EmptySplit()
    ensures Split("", '/') == [""]
  {
  }

  /** A pattern without wildcards matches exactly the paths equal to it after trimming. */
  lemma WildcardFreeMatchesItself(pattern: string, path: string)
    requires forall k :: 0 <= k < |Split(TrimSlashes(pattern), '/')| ==> !IsParam(Split(TrimSlashes(pattern), '/')[k])
    ensures Matches(pattern, path) <==> TrimSlashes(pattern) == TrimSlashes(path)
  {
    var p1, p2 := TrimSlashes(pattern), TrimSlashes(path);
    var a, b := Split(p1, '/'), Split(p2, '/');
    SegmentsMatchIff(a, b);
    if Matches(pattern, path) && !(p1 == "" && p2 == "") {
      assert a == b by {
        forall i | 0 <= i < |a|
          ensures a[i] == b[i]
        {
          assert SegmentMatches(a[i], b[i]);
        }
      }
      JoinSplit(p1, '/');
      JoinSplit(p2, '/');
    }
  }

  /** A segment: non-empty and without '/'. */
  predicate IsSegment(x: string) {
    x != "" && '/' !in x
  }

  function Path3(l: string, x: string, r: string): string {
    l + "/" + x + "/" + r
  }


  lemma SplitPath3(l: string, x: string, r: string)
    requires '/' !in l && '/' !in x && '/' !in r
    ensures Split(Path3(l, x, r), '/') == [l, x, r]
  {
    SplitFirst(l, '/', x + "/" + r);
    SplitFirst(x, '/', r);
    SplitNoSeparator(r, '/');
    assert l + "/" + x + "/" + r == l + ['/'] + (x + ['/'] + r);
  }

  lemma Split3Path(p: string)
    requires |Split(p, '/')| == 3
    ensures p == Path3(Split(p, '/')[0], Split(p, '/')[1], Split(p, '/')[2])
  {
    var parts := Split(p, '/');
    JoinSplit(p, '/');
    var l, x, r := parts[0], parts[1], parts[2];
    assert parts[1..][1..] == [r];
    assert Join(parts[1..], '/') == x + ['/'] + r;
    assert p == l + ['/'] + (x + ['/'] + r);
    Assoc(l + ['/'], x + ['/'], r);
    Assoc(l + ['/'], x, ['/']);
  }

  /** A three-segment pattern with a wildcard in the middle matches exactly the
      paths made of its first segment, any segment, and its last segment. */
  lemma MiddleParamMatches(l: string, param: string, r: string, path: string)
    requires IsSegment(l) && IsSegment(r) && !IsParam(l) && !IsParam(r)
    requires IsParam(param) && '/' !in param
    ensures Matches(Path3(l, param, r), path) <==>
      exists x {:trigger Path3(l, x, r)} :: IsSegment(x) && TrimSlashes(path) == Path3(l, x, r)
  {
    var pattern := Path3(l, param, r);
    Path3Shape(l, param, r);
    if Matches(pattern, path) {
      MiddleParamForward(pattern, l, param, r, path);
    }
    if exists x {:trigger Path3(l, x, r)} :: IsSegment(x) && TrimSlashes(path) == Path3(l, x, r) {
      var x :| IsSegment(x) && TrimSlashes(path) == Path3(l, x, r);
      MiddleParamBackward(pattern, l, param, r, x, path);
    }
  }

  /** Three segments joined by '/' have no edge slash and split back into the three. */
  lemma Path3Shape(l: string, x: string, r: string)
    requires IsSegment(l) && IsSegment(r) && '/' !in x
    ensures NoEdgeSlashes(Path3(l, x, r)) && Split(Path3(l, x, r), '/') == [l, x, r]
  {
    SplitPath3(l, x, r);
    var p := Path3(l, x, r);
    assert p[0] == l[0];
    assert p[|p| - 1] == r[|r| - 1];
  }

  lemma MiddleParamForward(pattern: string, l: string, param: string, r: string, path: string)
    requires NoEdgeSlashes(pattern) && Split(pattern, '/') == [l, param, r]
    requires !IsParam(l) && !IsParam(r) && IsParam(param)
    requires Matches(pattern, path)
    ensures exists x {:trigger Path3(l, x, r)} :: IsSegment(x) && TrimSlashes(path) == Path3(l, x, r)
  {
    TrimSlashesKeeps(pattern);
    var p2 := TrimSlashes(path);
    var b := Split(p2, '/');
    SegmentsMatchIff([l, param, r], b);
    assert |b| == 3 && SegmentMatches(param, b[1]);
    Split3Path(p2);
    assert SegmentMatches(l, b[0]) && SegmentMatches(r, b[2]);
    assert IsSegment(b[1]) && p2 == Path3(l, b[1], r);
  }

  lemma MiddleParamBackward(pattern: string, l: string, param: string, r: string, x: string, path: string)
    requires NoEdgeSlashes(pattern) && Split(pattern, '/') == [l, param, r]
    requires IsSegment(l) && IsSegment(r) && IsParam(param)
    requires IsSegment(x) && TrimSlashes(path) == Path3(l, x, r)
    ensures Matches(pattern, path)
  {
    TrimSlashesKeeps(pattern);
    SplitPath3(l, x, r);
    SegmentsMatchIff([l, param, r], [l, x, r]);
  }

  // ---------------------------------------------------------------------------
  // shouldToastForUrl, validateStatus

  /** `shouldToastForUrl(url)`: some toast pattern matches the normalised URL. */
  predicate ShouldToastForUrl(url: Option<string>, prefix: string, pathname: string -> string) {
    var path := NormalizePath(Some(url.GetOr("")), prefix, pathname);
    exists i :: 0 <= i < |ToastPatterns| && Matches(ToastPatterns[i], path)
  }

  /** The toasted paths in their own terms: one of the four fixed endpoints,
      a terminal deletion, or a merchant's transaction history, each with a
      non-empty identifier segment. */
  ghost predicate ToastPath(path: string) {
    path in {"merchant/reset/password", "terminal/create", "terminal/reset/device", "terminal/reset/password"}
    || (exists x {:trigger Path3("terminal", x, "delete")} :: IsSegment(x) && path == Path3("terminal", x, "delete"))
    || (exists x {:trigger Path3("history", x, "trx")} :: IsSegment(x) && path == Path3("history", x, "trx"))
  }

  /** The toast decision agrees with `ToastPath` on the normalised URL. */
  lemma ToastPaths(url: Option<string>, prefix: string, pathname: string -> string)
    ensures ShouldToastForUrl(url, prefix, pathname) <==>
      ToastPath(NormalizePath(Some(url.GetOr("")), prefix, pathname))
  {
    var path := NormalizePath(Some(url.GetOr("")), prefix, pathname);
    FixedToastPatterns();
    TerminalDeleteShape();
    HistoryTrxShape();
    WildcardSegment("terminal", "{id}", "delete");
    WildcardSegment("history", "{merchant}", "trx");
    Path3Shape("terminal", "{id}", "delete");
    Path3Shape("history", "{merchant}", "trx");
    PatternListMatches(ToastPatterns, "terminal", "{id}", "delete", "history", "{merchant}", "trx", path);
    ToastPathIsListed(path);
  }

  /** The four fixed toast patterns hold no wildcard and no edge slash. */
  lemma FixedToastPatterns()
    ensures |ToastPatterns| == 6
    ensures forall j :: 0 <= j < 4 ==> '{' !in ToastPatterns[j] && NoEdgeSlashes(ToastPatterns[j])
  {
  }

  lemma TerminalDeleteShape()
    ensures ToastPatterns[4] == Path3("terminal", "{id}", "delete")
  {
  }

  lemma HistoryTrxShape()
    ensures ToastPatterns[5] == Path3("history", "{merchant}", "trx")
  {
  }

  /** The shape of a pattern with a wildcard between two plain segments. */
  lemma WildcardSegment(l: string, param: string, r: string)
    requires l in {"terminal", "history"} && r in {"delete", "trx"} && param in {"{id}", "{merchant}"}
    ensures IsSegment(l) && IsSegment(r) && !IsParam(l) && !IsParam(r)
    ensures IsParam(param) && '/' !in param
  {
  }

  /** `ToastPath` restated over the first four entries of the pattern list. */
  lemma ToastPathIsListed(path: string)
    ensures ToastPath(path) <==>
      path in ToastPatterns[..4]
      || (exists x {:trigger Path3("terminal", x, "delete")} :: IsSegment(x) && path == Path3("terminal", x, "delete"))
      || (exists x {:trigger Path3("history", x, "trx")} :: IsSegment(x) && path == Path3("history", x, "trx"))
  {
    assert ToastPatterns[..4] == ["merchant/reset/password", "terminal/create", "terminal/reset/device", "terminal/reset/password"];
  }

  /** A list of four fixed patterns followed by two patterns of the shape
      `l/{param}/r` matches a trimmed path exactly when the path is one of the
      fixed four or has the shape of one of the other two. */
  lemma PatternListMatches(pats: seq<string>, a: string, p: string, b: string,
                           c: string, q: string, d: string, path: string)
    requires |pats| == 6 && NoEdgeSlashes(path)
    requires forall j :: 0 <= j < 4 ==> '{' !in pats[j] && NoEdgeSlashes(pats[j])
    requires NoEdgeSlashes(pats[4]) && Split(pats[4], '/') == [a, p, b]
    requires NoEdgeSlashes(pats[5]) && Split(pats[5], '/') == [c, q, d]
    requires IsSegment(a) && IsSegment(b) && !IsParam(a) && !IsParam(b) && IsParam(p)
    requires IsSegment(c) && IsSegment(d) && !IsParam(c) && !IsParam(d) && IsParam(q)
    ensures (exists i :: 0 <= i < |pats| && Matches(pats[i], path)) <==>
      path in pats[..4]
      || (exists x {:trigger Path3(a, x, b)} :: IsSegment(x) && path == Path3(a, x, b))
      || (exists x {:trigger Path3(c, x, d)} :: IsSegment(x) && path == Path3(c, x, d))
  {
    if exists i :: 0 <= i < |pats| && Matches(pats[i], path) {
      var i :| 0 <= i < |pats| && Matches(pats[i], path);
      MatchedPatternListed(pats, a, p, b, c, q, d, i, path);
    }
    if path in pats[..4] {
      var j :| 0 <= j < 4 && pats[..4][j] == path;
      MatchesReflexive(path);
      assert Matches(pats[j], path);
    } else if exists x {:trigger Path3(a, x, b)} :: IsSegment(x) && path == Path3(a, x, b) {
      var x :| IsSegment(x) && path == Path3(a, x, b);
      TrimSlashesKeeps(path);
      MiddleParamBackward(pats[4], a, p, b, x, path);
    } else if exists x {:trigger Path3(c, x, d)} :: IsSegment(x) && path == Path3(c, x, d) {
      var x :| IsSegment(x) && path == Path3(c, x, d);
      TrimSlashesKeeps(path);
      MiddleParamBackward(pats[5], c, q, d, x, path);
    }
  }

  lemma MatchedPatternListed(pats: seq<string>, a: string, p: string, b: string,
                             c: string, q: string, d: string, i: int, path: string)
    requires |pats| == 6 && NoEdgeSlashes(path)
    requires forall j :: 0 <= j < 4 ==> '{' !in pats[j] && NoEdgeSlashes(pats[j])
    requires NoEdgeSlashes(pats[4]) && Split(pats[4], '/') == [a, p, b]
    requires NoEdgeSlashes(pats[5]) && Split(pats[5], '/') == [c, q, d]
    requires IsSegment(a) && IsSegment(b) && !IsParam(a) && !IsParam(b) && IsParam(p)
    requires IsSegment(c) && IsSegment(d) && !IsParam(c) && !IsParam(d) && IsParam(q)
    requires 0 <= i < 6 && Matches(pats[i], path)
    ensures path in pats[..4]
      || (exists x {:trigger Path3(a, x, b)} :: IsSegment(x) && path == Path3(a, x, b))
      || (exists x {:trigger Path3(c, x, d)} :: IsSegment(x) && path == Path3(c, x, d))
  {
    if i < 4 {
      FixedMatchListed(pats, i, path);
    } else if i == 4 {
      MatchedMiddleParam(pats[i], a, p, b, path);
    } else {
      MatchedMiddleParam(pats[i], c, q, d, path);
    }
  }

  lemma FixedMatchListed(pats: seq<string>, i: int, path: string)
    requires |pats| == 6 && NoEdgeSlashes(path)
    requires 0 <= i < 4 && '{' !in pats[i] && NoEdgeSlashes(pats[i])
    requires Matches(pats[i], path)
    ensures path in pats[..4]
  {
    var fixed := pats[..4];
    assert fixed[i] == pats[i];
    FixedPatternOnlyItself(pats[i], path);
  }

  lemma MatchedMiddleParam(pattern: string, l: string, param: string, r: string, path: string)
    requires NoEdgeSlashes(pattern) && Split(pattern, '/') == [l, param, r] && NoEdgeSlashes(path)
    requires !IsParam(l) && !IsParam(r) && IsParam(param)
    requires Matches(pattern, path)
    ensures exists x {:trigger Path3(l, x, r)} :: IsSegment(x) && path == Path3(l, x, r)
  {
    TrimSlashesKeeps(path);
    MiddleParamForward(pattern, l, param, r, path);
  }

  /** A pattern without '{' matches a trimmed path only when they are equal. */
  lemma FixedPatternOnlyItself(pattern: string, path: string)
    requires '{' !in pattern && NoEdgeSlashes(pattern) && NoEdgeSlashes(path)
    requires Matches(pattern, path)
    ensures pattern == path
  {
    TrimSlashesKeeps(pattern);
    TrimSlashesKeeps(path);
    SplitHasNoParam(pattern);
    WildcardFreeMatchesItself(pattern, path);
  }

  /** Every pattern matches its own text: a wildcard segment is never empty. */
  lemma MatchesReflexive(p: string)
    ensures Matches(p, p)
  {
    var a := Split(TrimSlashes(p), '/');
    SegmentsMatchIff(a, a);
  }

  /** Without '{' in a string, none of its segments is a wildcard. */
  lemma SplitHasNoParam(s: string)
    requires '{' !in s
    ensures forall k :: 0 <= k < |Split(s, '/')| ==> !IsParam(Split(s, '/')[k])
  {
    SplitAvoids(s, '/', '{');
    forall k | 0 <= k < |Split(s, '/')|
      ensures !IsParam(Split(s, '/')[k])
    {
      assert '{' !in Split(s, '/')[k];
    }
  }

  /** A character absent from a string is absent from every piece of its split. */
  lemma {:induction false} SplitAvoids(s: string, sep: char, c: char)
    requires c !in s
    ensures forall k :: 0 <= k < |Split(s, sep)| ==> c !in Split(s, sep)[k]
  {
    if s != [] {
      assert c !in s[1..];
      SplitAvoids(s[1..], sep, c);
      var rest := Split(s[1..], sep);
      assert c !in rest[0];
      if s[0] != sep {
        assert c !in [s[0]] + rest[0];
      }
    }
  }

  /** A request without a URL is never announced. */
  lemma NoUrlNoToast(prefix: string, pathname: string -> string)
    ensures !ShouldToastForUrl(None, prefix, pathname)
  {
    ToastPaths(None, prefix, pathname);
    assert NormalizePath(Some(""), prefix, pathname) == "";
    ToastPathIsListed("");
  }

  /** `validateStatus`: exactly the 2xx statuses count as success. */
  function ValidateStatus(status: int): (ok: bool)
    ensures ok <==> status / 100 == 2
  {
    status >= 200 && status < 300
  }
}
