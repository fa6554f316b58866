/** Whether one compiled route matches a request: path, method and headers. */
module Matching {
  import opened Collections
  import opened Text
  import opened Types

  predicate EndsWithSlash(s: string) {
    s != "" && s[|s| - 1] == '/'
  }

  /** A string prefix that stops at a path-element boundary. */
  predicate PrefixMatches(prefix: string, path: string) {
    HasPrefix(path, prefix) && (|path| == |prefix| || path[|prefix|] == '/' || EndsWithSlash(prefix))
  }

  predicate PathMatches(rule: PathRule, path: string) {
    match rule.kind
    case Exact => path == rule.path
    case Prefix => PrefixMatches(rule.path, path)
    case OtherKind(_) => false
  }

  predicate HeaderMatches(hm: HeaderMatch, headers: seq<(string, string)>) {
    hm.kind.ExactHeader? && exists i :: 0 <= i < |headers| && EqIgnoreCase(headers[i].0, hm.name) && headers[i].1 == hm.value
  }

  /** Method and headers: the dimensions beside the path. */
  predicate ExtraMatches(r: RouteConfig, verb: string, headers: seq<(string, string)>) {
    && (r.methodMatch == "" || r.methodMatch == verb)
    && (forall i :: 0 <= i < |r.headerMatches| ==> HeaderMatches(r.headerMatches[i], headers))
  }

  predicate AnyPathMatches(paths: seq<PathRule>, path: string) {
    paths == [] || exists i :: 0 <= i < |paths| && PathMatches(paths[i], path)
  }

  /** `route_matches`. */
  predicate RouteMatches(r: RouteConfig, req: Request) {
    AnyPathMatches(r.paths, req.path) && ExtraMatches(r, req.verb, req.headers)
  }

  function Hits(req: Request): RouteConfig -> bool {
    (r: RouteConfig) => RouteMatches(r, req)
  }

  // ---- Specificity ----

  predicate FirstIsExact(r: RouteConfig) {
    r.paths != [] && r.paths[0].kind.Exact?
  }

  function FirstLength(r: RouteConfig): nat {
    if r.paths == [] then 0 else |r.paths[0].path|
  }

  /** The comparator of the candidate sort: exact paths, then longer paths, then more headers. */
  predicate MoreSpecific(a: RouteConfig, b: RouteConfig) {
    if FirstIsExact(a) != FirstIsExact(b) then FirstIsExact(a)
    else if FirstLength(a) != FirstLength(b) then FirstLength(a) > FirstLength(b)
    else |a.headerMatches| > |b.headerMatches|
  }

  lemma MoreSpecificIsOrder()
    ensures StrictWeakOrder(MoreSpecific)
  {
  }

  // ---- Path elements ----

  /** The path split at slashes. */
  function Elements(s: string): (r: seq<string>)
    ensures r != []
  {
    if s == "" then [""]
    else if s[0] == '/' then [""] + Elements(s[1..])
    else var rest := Elements(s[1..]); [[s[0]] + rest[0]] + rest[1..]
  }

  /** Element-wise prefix; a trailing slash demands one element more. */
  predicate ElementPrefix(prefix: string, path: string) {
    var p, q := Elements(prefix), Elements(path);
    |p| <= |q| && if EndsWithSlash(prefix) then q[..|p| - 1] == p[..|p| - 1] else q[..|p|] == p
  }

  lemma SlashElements(s: string)
    requires EndsWithSlash(s)
    ensures |Elements(s)| >= 2
  {
    if |s| > 1 && s[0] != '/' {
      SlashElements(s[1..]);
    }
  }

  // ---- What splitting means ----

  /** Elements put together again. */
  function Joined(es: seq<string>): string
    requires es != []
  {
    if |es| == 1 then es[0] else es[0] + "/" + Joined(es[1..])
  }

  /** Splitting loses nothing, and no element holds a slash. */
  lemma {:induction false} ElementsSplit(s: string)
    ensures Joined(Elements(s)) == s
    ensures forall i :: 0 <= i < |Elements(s)| ==> '/' !in Elements(s)[i]
  {
    if s != "" {
      ElementsSplit(s[1..]);
      var rest := Elements(s[1..]);
      assert s == [s[0]] + s[1..];
      if s[0] == '/' {
        assert Elements(s)[1..] == rest;
        assert Joined(Elements(s)) == "" + "/" + Joined(rest);
      } else {
        var es := Elements(s);
        assert es[1..] == rest[1..] && es[0] == [s[0]] + rest[0];
        if |rest| > 1 {
          assert Joined(es) == [s[0]] + rest[0] + "/" + Joined(rest[1..]);
          assert Joined(rest) == rest[0] + "/" + Joined(rest[1..]);
        }
      }
    }
  }

  lemma ElementsHead(s: string)
    requires s != ""
    ensures var rest := Elements(s[1..]);
      Elements(s) == if s[0] == '/' then [""] + rest else [[s[0]] + rest[0]] + rest[1..]
  {
  }

  /** A slash between two strings separates their elements. */
  lemma {:induction false} ElementsConcat(a: string, b: string)
    ensures Elements(a + "/" + b) == Elements(a) + Elements(b)
  {
    var s := a + "/" + b;
    if a == "" {
      assert s[1..] == b && s[0] == '/';
      ElementsHead(s);
    } else {
      assert s[1..] == a[1..] + "/" + b && s[0] == a[0];
      ElementsConcat(a[1..], b);
      ElementsHead(s);
      ElementsHead(a);
      HeadOfConcat([a[0]], Elements(a[1..]), Elements(b));
    }
  }

  lemma HeadOfConcat(c: string, x: seq<string>, y: seq<string>)
    requires x != []
    ensures [c + (x + y)[0]] + (x + y)[1..] == [c + x[0]] + x[1..] + y
    ensures [""] + (x + y) == [""] + x + y
  {
  }

  lemma {:induction false} NoSlashElement(s: string)
    requires '/' !in s
    ensures Elements(s) == [s]
  {
    if s != "" {
      NoSlashElement(s[1..]);
      assert s == [s[0]] + s[1..];
    }
  }

  /** The elements begin with those asked for; an empty last one, after a slash, stands for any. */
  predicate Begins(path: seq<string>, asked: seq<string>) {
    && |asked| <= |path|
    && forall i :: 0 <= i < |asked| ==> path[i] == asked[i] || (0 < i == |asked| - 1 && asked[i] == "")
  }

  lemma {:induction false} SlashIsEmptyLast(s: string)
    ensures EndsWithSlash(s) <==> |Elements(s)| > 1 && Elements(s)[|Elements(s)| - 1] == ""
  {
    if s != "" {
      SlashIsEmptyLast(s[1..]);
      var rest := Elements(s[1..]);
      if |s| == 1 {
        assert s[1..] == "";
      } else {
        assert s[1..][|s| - 2] == s[|s| - 1];
      }
    }
  }

  lemma BeginsIsPrefix(prefix: string, path: string)
    ensures ElementPrefix(prefix, path) <==> Begins(Elements(path), Elements(prefix))
  {
    var p, q := Elements(prefix), Elements(path);
    SlashIsEmptyLast(prefix);
    if |p| <= |q| {
      var n := if EndsWithSlash(prefix) then |p| - 1 else |p|;
      if q[..n] == p[..n] {
        forall i | 0 <= i < n ensures q[i] == p[i] {
          assert q[..n][i] == p[..n][i];
        }
      }
    }
  }

  lemma FirstElement(s: string)
    ensures Elements(s)[0] == "" <==> s == "" || s[0] == '/'
  {
  }

  lemma ConsPrefix(a: string, b: string, p: seq<string>, q: seq<string>, n: nat)
    requires n <= |p| && n <= |q|
    ensures ([b] + q)[..n + 1] == ([a] + p)[..n + 1] <==> a == b && q[..n] == p[..n]
  {
    assert ([b] + q)[..n + 1] == [b] + q[..n];
    assert ([a] + p)[..n + 1] == [a] + p[..n];
    assert ([b] + q[..n])[1..] == q[..n] && ([a] + p[..n])[1..] == p[..n];
    assert ([b] + q[..n])[0] == b && ([a] + p[..n])[0] == a;
  }

  /** Byte-wise prefix matching respects path elements: `/foo` matches `/foo` and `/foo/bar`
      but not `/foobar`; `/foo/` matches what lies below `/foo` but not `/foo` itself. */
  lemma {:induction false} PrefixIsElementwise(prefix: string, path: string)
    ensures PrefixMatches(prefix, path) <==> ElementPrefix(prefix, path)
  {
    FirstElement(path);
    if prefix == "" {
      assert Elements(path)[..1] == [Elements(path)[0]];
    } else if prefix == "/" {
      assert Elements("/") == ["", ""] by { assert "/"[1..] == ""; }
      assert Elements(path)[..1] == [Elements(path)[0]];
      assert HasPrefix(path, "/") <==> path != "" && path[0] == '/';
    } else if path == "" {
      FirstElement(prefix);
      if EndsWithSlash(prefix) {
        SlashElements(prefix);
      } else if prefix[0] == '/' {
        assert |Elements(prefix)| >= 2;
      } else {
        assert Elements(path)[..1] == [""] && Elements(prefix)[..1] == [Elements(prefix)[0]];
      }
    } else {
      TailPrefix(prefix, path);
      if prefix[0] == path[0] {
        SameHead(prefix, path);
        PrefixIsElementwise(prefix[1..], path[1..]);
        assert |prefix| < |path| ==> path[|prefix|] == path[1..][|prefix| - 1];
        assert prefix[1..] != "" ==> prefix[1..][|prefix| - 2] == prefix[|prefix| - 1];
      } else {
        DifferentHead(prefix, path);
      }
    }
  }

  /** Dropping an equal first character from both sides. */
  lemma SameHead(prefix: string, path: string)
    requires prefix != "" && prefix != "/" && path != "" && prefix[0] == path[0]
    ensures ElementPrefix(prefix, path) <==> ElementPrefix(prefix[1..], path[1..])
  {
    var p, q := Elements(prefix[1..]), Elements(path[1..]);
    var slash := EndsWithSlash(prefix);
    assert prefix == [prefix[0]] + prefix[1..];
    assert EndsWithSlash(prefix[1..]) == slash;
    if slash {
      SlashElements(prefix[1..]);
    }
    if |p| <= |q| {
      var n := if slash then |p| - 1 else |p|;
      if prefix[0] == '/' {
        ConsPrefix("", "", p, q, n);
      } else {
        LetterHead([prefix[0]], p, q, n);
      }
    }
  }

  lemma LetterHead(c: string, p: seq<string>, q: seq<string>, n: nat)
    requires 1 <= n <= |p| && n <= |q|
    ensures ([c + q[0]] + q[1..])[..n] == ([c + p[0]] + p[1..])[..n] <==> q[..n] == p[..n]
  {
    ConsPrefix(c + p[0], c + q[0], p[1..], q[1..], n - 1);
    ConsPrefix(p[0], q[0], p[1..], q[1..], n - 1);
    assert [p[0]] + p[1..] == p && [q[0]] + q[1..] == q;
    assert (c + p[0])[|c|..] == p[0] && (c + q[0])[|c|..] == q[0];
  }

  lemma DifferentHead(prefix: string, path: string)
    requires prefix != "" && prefix != "/" && path != "" && prefix[0] != path[0]
    ensures !ElementPrefix(prefix, path)
  {
    var p, q := Elements(prefix), Elements(path);
    if EndsWithSlash(prefix) {
      SlashElements(prefix);
    }
    assert p[0] != q[0] by {
      FirstElement(prefix);
      FirstElement(path);
      assert prefix[0] != '/' ==> p[0][0] == prefix[0];
      assert path[0] != '/' ==> q[0][0] == path[0];
    }
    var n := if EndsWithSlash(prefix) then |p| - 1 else |p|;
    if n <= |q| {
      assert q[..n][0] == q[0] && p[..n][0] == p[0];
    }
  }

  lemma TailPrefix(prefix: string, path: string)
    requires prefix != "" && path != ""
    ensures HasPrefix(path, prefix) <==> prefix[0] == path[0] && HasPrefix(path[1..], prefix[1..])
  {
    if |prefix| <= |path| {
      assert path[..|prefix|] == [path[0]] + path[1..][..|prefix| - 1];
      assert prefix == [prefix[0]] + prefix[1..];
      assert ([path[0]] + path[1..][..|prefix| - 1])[1..] == path[1..][..|prefix| - 1];
    }
  }
}
