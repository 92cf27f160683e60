/**
 * The Path attribute of the flash cookie (packages/adapter-sveltekit/src/index.ts): a path a cookie may carry
 * that still matches the page.
 */
module CookiePath {
  import opened Prelude

  predicate IsControl(c: char) {
    c < '\U{0020}' || c == '\U{007F}'
  }

  /** What a cookie's Path attribute may hold: no semicolon, no control character. */
  predicate IsValid(path: string) {
    forall c <- path :: c != ';' && !IsControl(c)
  }

  /** Section 5.1.4 of RFC 6265: a request path path-matches a cookie path. */
  predicate PathMatches(request: string, cookie: string) {
    || request == cookie
    || (IsPrefix(cookie, request) && cookie != "" && cookie[|cookie| - 1] == '/')
    || (IsPrefix(cookie, request) && |cookie| < |request| && request[|cookie|] == '/')
  }

  predicate IsPrefix(s: string, of: string) {
    |s| <= |of| && of[..|s|] == s
  }

  /** `lastIndexOf('/', from)`; -1 when there is none. */
  function LastSlash(path: string, from: nat): (r: int)
    requires from < |path|
    ensures -1 <= r <= from && (r >= 0 ==> path[r] == '/')
    ensures forall k :: r < k <= from ==> path[k] != '/'
  {
    if path[from] == '/' then from else if from == 0 then -1 else LastSlash(path, from - 1)
  }

  /** No directory of the page deeper than the one that ends at `end` is a path a cookie may carry. */
  ghost predicate DeeperAreInvalid(page: string, end: int) {
    forall k {:trigger page[..k + 1]} :: Max(end, -1) < k < |page| && page[k] == '/' ==> !IsValid(page[..k + 1])
  }

  /** Any cookie path that matches an invalid page is, or is just short of, one of its directories. */
  lemma MatchingPathsAreDirectories(page: string, cookie: string) returns (k: nat)
    requires IsValid(cookie) && PathMatches(page, cookie) && !IsValid(page) && page != "" && page[0] == '/'
    ensures k < |page| && page[k] == '/' && IsValid(page[..k + 1]) && |cookie| <= k + 1
  {
    if cookie != "" && cookie[|cookie| - 1] == '/' {
      k := |cookie| - 1;
      assert page[..k + 1] == cookie && page[k] == cookie[k];
    } else {
      k := |cookie|;
      assert page[..k + 1] == cookie + ['/'];
    }
  }

  /** A cookie path: it matches the page, may be sent, and nothing longer is both. */
  ghost predicate IsNarrowest(page: string, r: string) {
    && IsValid(r) && PathMatches(page, r)
    && forall other {:trigger PathMatches(page, other)} :: IsValid(other) && PathMatches(page, other) ==> |other| <= |r|
  }

  lemma DeepestDirectoryIsNarrowest(page: string, end: nat)
    requires page != "" && page[0] == '/' && !IsValid(page) && end < |page| && page[end] == '/'
    requires IsValid(page[..end + 1]) && DeeperAreInvalid(page, end)
    ensures IsNarrowest(page, page[..end + 1])
  {
    assert IsPrefix(page[..end + 1], page);
    forall other | IsValid(other) && PathMatches(page, other) ensures |other| <= end + 1 {
      var k := MatchingPathsAreDirectories(page, other);
      var directory := page[..k + 1];
      assert k <= end;
    }
  }

  lemma PageIsNarrowest(page: string)
    requires IsValid(page)
    ensures IsNarrowest(page, page)
  {
  }

  method CookiePathFor(pagePath: string) returns (r: string)
    requires pagePath != "" && pagePath[0] == '/'
    ensures IsNarrowest(pagePath, r)
    ensures !IsValid(pagePath) ==> r != "" && r[|r| - 1] == '/' && IsPrefix(r, pagePath)
    ensures IsValid(pagePath) ==> r == pagePath
  {
    hide IsValid;
    hide IsNarrowest;
    if IsValid(pagePath) {
      PageIsNarrowest(pagePath);
      return pagePath;
    }
    var end := LastSlash(pagePath, |pagePath| - 1);
    while end > 0 && !IsValid(pagePath[..end + 1])
      invariant 0 <= end < |pagePath| && pagePath[end] == '/'
      invariant DeeperAreInvalid(pagePath, end)
    {
      end := LastSlash(pagePath, end - 1);
    }
    if end == 0 { RootIsValid(pagePath); }
    DeepestDirectoryIsNarrowest(pagePath, end);
    r := if end > 0 then pagePath[..end + 1] else "/";
    assert r == pagePath[..end + 1];
  }

  lemma RootIsValid(page: string)
    requires page != "" && page[0] == '/'
    ensures IsValid(page[..1]) && page[..1] == "/"
  {
  }

  /** There is only one such path. */
  lemma NarrowestIsUnique(page: string, a: string, b: string)
    requires IsNarrowest(page, a) && IsNarrowest(page, b)
    ensures a == b
  {
    assert |a| <= |b| && |b| <= |a|;
  }

  // ---------------------------------------------------------------- the page

  /** A redirect stays on this origin: anything that is not a plain absolute path becomes "/". */
  function SameOrigin(path: Option<string>): (r: string)
    ensures r != "" && r[0] == '/'
  {
    match path
    case None => "/"
    case Some(p) =>
      if p == "" || p[0] != '/' || (|p| > 1 && p[1] == '/') || '\\' in p || (exists c <- p :: IsControl(c)) then "/" else p
  }

  /** Asked again about its own answer, it keeps it. */
  lemma SameOriginIsStable(path: Option<string>)
    ensures SameOrigin(Some(SameOrigin(path))) == SameOrigin(path)
  {
    assert forall c <- "/" :: c == '/' && !IsControl(c);
  }

  /** What may stand in a redirect target: an absolute path of this origin, nothing a browser reads as another one. */
  predicate IsLocal(p: string) {
    && |p| > 0 && p[0] == '/' && !(|p| > 1 && p[1] == '/')
    && forall c <- p :: c != '\\' && ' ' <= c && c != '\U{007F}'
  }

  /** Every answer is such a path, and every such path is its own answer; everything else becomes "/". */
  lemma SameOriginExactly(path: Option<string>)
    ensures IsLocal(SameOrigin(path))
    ensures SameOrigin(path) == if path.Some? && IsLocal(path.value) then path.value else "/"
  {
    assert forall c <- "/" :: c == '/';
  }

  /** A cookie's Path attribute is read up to the next semicolon: a valid path is read whole, and has no control character. */
  lemma ValidExactly(path: string)
    ensures IsValid(path) <==> forall i :: 0 <= i < |path| ==> path[i] != ';' && ' ' <= path[i] && path[i] != '\U{007F}'
  {
    if IsValid(path) {
      forall i | 0 <= i < |path| ensures path[i] != ';' && ' ' <= path[i] && path[i] != '\U{007F}' { assert path[i] in path; }
    }
  }
}
