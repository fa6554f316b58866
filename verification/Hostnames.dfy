/** Hostname patterns: exact names, `*.suffix` wildcards spanning any number of labels, and
    the catch-all `*`; and how a route's hostnames are intersected with a listener's. */
module Hostnames {
  import opened Collections
  import opened Text

  predicate IsWildcard(h: string) {
    HasPrefix(h, "*.")
  }

  /** Whether hostname pattern `pattern` claims the request host `host`. */
  predicate Claims(pattern: string, host: string) {
    var p, h := Lower(pattern), Lower(host);
    if p == "*" then true
    else if IsWildcard(p) then HasSuffix(h, p[1..]) && |h| > |p| - 1
    else h == p
  }

  /** `host` is `x.suffix` for some non-empty `x`. */
  ghost predicate Under(host: string, suffix: string) { exists x: string :: x != "" && host == x + "." + suffix }

  ghost predicate WildcardOf(pattern: string, suffix: string) { pattern == "*." + suffix }

  /** `*` claims every host, `*.suffix` every host under the suffix, any other pattern itself,
      up to letter case. */
  lemma ClaimsExactly(pattern: string, host: string)
    ensures var p, h := Lower(pattern), Lower(host);
      Claims(pattern, host) <==>
        || p == "*"
        || (exists suffix :: WildcardOf(p, suffix) && Under(h, suffix))
        || ((forall suffix :: !WildcardOf(p, suffix)) && h == p)
  {
    var p, h := Lower(pattern), Lower(host);
    WildcardExactly(p);
    if IsWildcard(p) {
      assert p == "*." + p[2..] && p[1..] == "." + p[2..];
      forall suffix | WildcardOf(p, suffix) ensures suffix == p[2..] {}
      if HasSuffix(h, p[1..]) && |h| > |p| - 1 {
        var x := h[..|h| - (|p| - 1)];
        assert h == x + p[1..] && x + "." + p[2..] == x + p[1..];
        assert Under(h, p[2..]);
      }
      if Under(h, p[2..]) {
        var x: string :| x != "" && h == x + "." + p[2..];
        assert h == x + p[1..];
      }
    }
  }

  lemma WildcardExactly(p: string)
    ensures IsWildcard(p) <==> exists suffix :: WildcardOf(p, suffix)
  {
    if IsWildcard(p) {
      assert p == "*." + p[2..];
      assert WildcardOf(p, p[2..]);
    }
    if suffix :| WildcardOf(p, suffix) {
      assert p[..2] == "*.";
    }
  }

  /** `intersect_hostnames`: the more specific of two overlapping hostnames, lower-cased. */
  function IntersectHostnames(listener: string, route: string): Option<string> {
    var l, r := Lower(listener), Lower(route);
    match (IsWildcard(listener), IsWildcard(route))
    case (false, false) => if l == r then Some(l) else None
    case (true, false) => if HasSuffix(r, l[1..]) && |r| > |l| - 1 then Some(r) else None
    case (false, true) => if HasSuffix(l, r[1..]) && |l| > |r| - 1 then Some(l) else None
    case (true, true) =>
      if l[1..] == r[1..] then Some(l)
      else if HasSuffix(r[1..], l[1..]) then Some(r)
      else if HasSuffix(l[1..], r[1..]) then Some(l)
      else None
  }

  lemma WildcardLower(h: string)
    ensures IsWildcard(Lower(h)) <==> IsWildcard(h)
    ensures Lower(h) == "*" <==> h == "*"
  {
    if |h| >= 2 {
      assert Lower(h)[..2] == [LowerChar(h[0]), LowerChar(h[1])];
      assert h[..2] == [h[0], h[1]];
    }
    assert |h| == 1 ==> h == [h[0]] && Lower(h) == [LowerChar(h[0])];
  }

  /** The hosts an optional pattern stands for. */
  predicate ClaimedBy(pattern: Option<string>, host: string) {
    pattern.Some? && Claims(pattern.value, host)
  }

  lemma ClaimsLower(pattern: string, host: string)
    ensures Claims(Lower(pattern), host) == Claims(pattern, host)
    ensures Claims(pattern, Lower(host)) == Claims(pattern, host)
  {
    LowerIdempotent(pattern);
    LowerIdempotent(host);
  }

  /** A pair of patterns is intersected correctly unless exactly one of them is `*`. */
  ghost predicate PairIntersects(l: string, r: string) {
    forall host: string :: ClaimedBy(IntersectHostnames(l, r), host) <==> Claims(l, host) && Claims(r, host)
  }

  lemma IntersectSound(l: string, r: string, host: string)
    requires l == "*" <==> r == "*"
    ensures ClaimedBy(IntersectHostnames(l, r), host) <==> Claims(l, host) && Claims(r, host)
  {
    WildcardLower(l);
    WildcardLower(r);
    LowerIdempotent(l);
    LowerIdempotent(r);
    var ll, rl, h := Lower(l), Lower(r), Lower(host);
    if IsWildcard(l) && IsWildcard(r) {
      if HasSuffix(h, ll[1..]) && HasSuffix(h, rl[1..]) {
        if |ll| <= |rl| {
          SuffixesNest(h, rl[1..], ll[1..]);
        } else {
          SuffixesNest(h, ll[1..], rl[1..]);
        }
      }
      if HasSuffix(h, rl[1..]) && HasSuffix(rl[1..], ll[1..]) {
        SuffixOfSuffix(h, rl[1..], ll[1..]);
      }
      if HasSuffix(h, ll[1..]) && HasSuffix(ll[1..], rl[1..]) {
        SuffixOfSuffix(h, ll[1..], rl[1..]);
      }
    }
  }

  /** A host that `p` claims. */
  function Witness(p: string): (host: string)
    ensures Claims(p, host)
  {
    WildcardLower(p);
    if IsWildcard(p) then
      LowerSuffix(p, 1);
      LowerSuffix("a" + p[1..], 1);
      assert Lower("a" + p[1..])[1..] == Lower(p)[1..];
      "a" + p[1..]
    else p
  }

  /** Intersection is exact if and only if the literal `*` appears on both sides or neither. */
  lemma IntersectExact(l: string, r: string)
    ensures PairIntersects(l, r) <==> (l == "*" <==> r == "*")
  {
    if l == "*" <==> r == "*" {
      forall host: string
        ensures ClaimedBy(IntersectHostnames(l, r), host) <==> Claims(l, host) && Claims(r, host)
      {
        IntersectSound(l, r, host);
      }
    } else {
      WildcardLower(l);
      WildcardLower(r);
      var other := if l == "*" then r else l;
      assert Lower("*") == "*";
      assert IntersectHostnames(l, r).None?;
      var host := Witness(other);
      assert Claims(l, host) && Claims(r, host);
    }
  }

  // ---- Effective hostnames ----

  function IntersectList(lh: string, rh: string): seq<string> {
    match IntersectHostnames(lh, rh)
    case None => []
    case Some(h) => [h]
  }

  /** What one listener contributes. */
  function PerListener(listener: Option<string>, routes: seq<string>): seq<string> {
    match listener
    case None => if routes == [] then ["*"] else Map(routes, Lower)
    case Some(lh) =>
      if routes == [] then [Lower(lh)] else FlatMap(routes, rh => IntersectList(lh, rh))
  }

  function EffectiveHostnames(listeners: seq<Option<string>>, routes: seq<string>): seq<string> {
    BTreeOf(FlatMap(listeners, l => PerListener(l, routes)))
  }

  lemma PerListenerMember(listener: Option<string>, routes: seq<string>, x: string)
    ensures listener.Some? && routes != [] ==>
      (x in PerListener(listener, routes) <==>
       exists j :: 0 <= j < |routes| && IntersectHostnames(listener.value, routes[j]) == Some(x))
  {
    if listener.Some? && routes != [] {
      var f := rh => IntersectList(listener.value, rh);
      FlatMapMember(routes, f, x);
      assert forall j :: 0 <= j < |routes| ==> (x in f(routes[j]) <==> IntersectHostnames(listener.value, routes[j]) == Some(x));
    }
  }

  /** The set filled by the nested loops of `compute_effective_hostnames_inner`. */
  method ComputeEffectiveHostnames(listeners: seq<Option<string>>, routes: seq<string>) returns (r: seq<string>)
    ensures r == EffectiveHostnames(listeners, routes)
  {
    var f := l => PerListener(l, routes);
    r := [];
    if listeners == [] {
      return;
    }
    for i := 0 to |listeners|
      invariant StrictlySorted(r)
      invariant forall x :: x in r <==> x in FlatMap(listeners[..i], f)
    {
      ghost var before := r;
      match listeners[i] {
        case None =>
          if routes == [] {
            BTreeInsertKeeps(r, "*");
            r := BTreeInsert(r, "*");
          } else {
            for j := 0 to |routes|
              invariant StrictlySorted(r)
              invariant forall x :: x in r <==> x in before || x in Map(routes, Lower)[..j]
            {
              BTreeInsertKeeps(r, Lower(routes[j]));
              r := BTreeInsert(r, Lower(routes[j]));
            }
          }
        case Some(lh) =>
          if routes == [] {
            BTreeInsertKeeps(r, Lower(lh));
            r := BTreeInsert(r, Lower(lh));
          } else {
            var g := rh => IntersectList(lh, rh);
            for j := 0 to |routes|
              invariant StrictlySorted(r)
              invariant forall x :: x in r <==> x in before || x in FlatMap(routes[..j], g)
            {
              FlatMapStep(routes, j, g);
              match IntersectHostnames(lh, routes[j]) {
                case None =>
                case Some(h) =>
                  BTreeInsertKeeps(r, h);
                  r := BTreeInsert(r, h);
              }
            }
            assert routes[..|routes|] == routes;
          }
      }
      FlatMapStep(listeners, i, f);
      assert forall x :: x in r <==> x in before || x in f(listeners[i]);
    }
    assert listeners[..|listeners|] == listeners;
    BTreeOfContents(FlatMap(listeners, f));
    OrderedSetUnique(r, EffectiveHostnames(listeners, routes));
  }

  predicate ListenerClaims(listener: Option<string>, host: string) {
    listener.None? || Claims(listener.value, host)
  }

  ghost predicate RouteClaims(routes: seq<string>, host: string) {
    routes == [] || exists j :: 0 <= j < |routes| && Claims(routes[j], host)
  }

  /** One of the two hostnames is the literal `*`, which intersection takes for a plain name. */
  predicate HalfStar(l: string, r: string) { (l == "*") != (r == "*") }

  function OtherThanStar(l: string, r: string): string { if l == "*" then r else l }

  lemma IntersectClaims(l: string, r: string, host: string)
    ensures ClaimedBy(IntersectHostnames(l, r), host) ==> Claims(l, host) && Claims(r, host)
    ensures HalfStar(l, r) ==> IntersectHostnames(l, r).None?
    ensures !HalfStar(l, r) && Claims(l, host) && Claims(r, host) ==> ClaimedBy(IntersectHostnames(l, r), host)
  {
    if HalfStar(l, r) {
      WildcardLower(l);
      WildcardLower(r);
      assert Lower("*") == "*";
    } else {
      IntersectSound(l, r, host);
    }
  }

  /** What one listener contributes claims only hosts both sides claim, and all of them but
      those of a hostname paired with a literal `*`. */
  lemma PerListenerDenotes(listener: Option<string>, routes: seq<string>, host: string)
    ensures (exists x :: x in PerListener(listener, routes) && Claims(x, host)) ==>
            ListenerClaims(listener, host) && RouteClaims(routes, host)
    ensures ListenerClaims(listener, host) && RouteClaims(routes, host) ==>
            (exists x :: x in PerListener(listener, routes) && Claims(x, host)) ||
            (listener.Some? && exists j :: 0 <= j < |routes| && HalfStar(listener.value, routes[j]) &&
                                           Claims(OtherThanStar(listener.value, routes[j]), host))
  {
    if listener.None? {
      if routes == [] {
        assert "*" in PerListener(listener, routes) && Claims("*", host) by { WildcardLower("*"); }
      } else {
        var low := PerListener(listener, routes);
        forall j | 0 <= j < |routes| ensures low[j] in low && Claims(low[j], host) == Claims(routes[j], host) {
          ClaimsLower(routes[j], host);
        }
      }
    } else if routes == [] {
      ClaimsLower(listener.value, host);
      assert Lower(listener.value) in PerListener(listener, routes);
    } else {
      PairsDenote(listener.value, routes, host);
    }
  }

  lemma PairsDenote(lh: string, routes: seq<string>, host: string)
    requires routes != []
    ensures (exists x :: x in PerListener(Some(lh), routes) && Claims(x, host)) ==> Claims(lh, host) && RouteClaims(routes, host)
    ensures Claims(lh, host) && RouteClaims(routes, host) ==>
            (exists x :: x in PerListener(Some(lh), routes) && Claims(x, host)) ||
            (exists j :: 0 <= j < |routes| && HalfStar(lh, routes[j]) && Claims(OtherThanStar(lh, routes[j]), host))
  {
    if x :| x in PerListener(Some(lh), routes) && Claims(x, host) {
      PerListenerMember(Some(lh), routes, x);
      var j :| 0 <= j < |routes| && IntersectHostnames(lh, routes[j]) == Some(x);
      IntersectClaims(lh, routes[j], host);
    }
    if Claims(lh, host) && RouteClaims(routes, host) {
      var j :| 0 <= j < |routes| && Claims(routes[j], host);
      IntersectClaims(lh, routes[j], host);
      if HalfStar(lh, routes[j]) {
        assert Claims(OtherThanStar(lh, routes[j]), host);
      } else {
        PerListenerMember(Some(lh), routes, IntersectHostnames(lh, routes[j]).value);
      }
    }
  }

  ghost predicate EffectiveClaims(listeners: seq<Option<string>>, routes: seq<string>, host: string) {
    exists x :: x in EffectiveHostnames(listeners, routes) && Claims(x, host)
  }

  ghost predicate BothClaim(listeners: seq<Option<string>>, routes: seq<string>, host: string) {
    exists i :: 0 <= i < |listeners| && ListenerClaims(listeners[i], host) && RouteClaims(routes, host)
  }

  lemma EffectiveMember(listeners: seq<Option<string>>, routes: seq<string>, x: string)
    ensures x in EffectiveHostnames(listeners, routes) <==> exists i :: 0 <= i < |listeners| && x in PerListener(listeners[i], routes)
  {
    var f := l => PerListener(l, routes);
    BTreeOfContents(FlatMap(listeners, f));
    FlatMapMember(listeners, f, x);
    assert forall i :: 0 <= i < |listeners| ==> f(listeners[i]) == PerListener(listeners[i], routes);
  }

  /** An effective hostname claims only hosts some listener and the route claim. */
  lemma EffectiveSound(listeners: seq<Option<string>>, routes: seq<string>, host: string)
    ensures EffectiveClaims(listeners, routes, host) ==> BothClaim(listeners, routes, host)
  {
    if x :| x in EffectiveHostnames(listeners, routes) && Claims(x, host) {
      EffectiveMember(listeners, routes, x);
      var i :| 0 <= i < |listeners| && x in PerListener(listeners[i], routes);
      PerListenerDenotes(listeners[i], routes, host);
    }
  }

  /** Every hostname paired with a literal `*` is covered by some effective hostname. */
  ghost predicate StarsCovered(listeners: seq<Option<string>>, routes: seq<string>) {
    forall i, j :: 0 <= i < |listeners| && 0 <= j < |routes| && listeners[i].Some? && HalfStar(listeners[i].value, routes[j]) ==>
      EffectiveClaims(listeners, routes, OtherThanStar(listeners[i].value, routes[j]))
  }

  /** Claiming a pattern, read as a host, is claiming all its hosts. */
  lemma ClaimsTransitive(x: string, p: string, host: string)
    requires Claims(x, p) && Claims(p, host)
    ensures Claims(x, host)
  {
    var xl, pl, h := Lower(x), Lower(p), Lower(host);
    WildcardLower(x);
    if xl != "*" && IsWildcard(xl) && IsWildcard(pl) {
      assert HasSuffix(pl, xl[1..]) && |xl| - 1 <= |pl[1..]|;
      assert pl == [pl[0]] + pl[1..];
      SuffixesNest(pl, pl[1..], xl[1..]);
      SuffixOfSuffix(h, pl[1..], xl[1..]);
    }
  }

  /** A host of `p` so far below it that a hostname shorter than `n` claiming it claims `p`. */
  lemma FarHost(p: string, n: nat) returns (host: string)
    requires p != "*"
    ensures Claims(p, host)
    ensures forall x :: |x| < n && Claims(x, host) ==> Claims(x, p)
  {
    if IsWildcard(p) {
      var label_ := seq(n, _ => 'a');
      host := label_ + p[1..];
      if n == 0 {
        host := Witness(p);
      } else {
        FarClaimed(p, n, host);
        forall x | |x| < n && Claims(x, host) ensures Claims(x, p) {
          FarOnly(p, n, host, x);
        }
      }
    } else {
      host := p;
      WildcardLower(p);
    }
  }

  lemma FarClaimed(p: string, n: nat, host: string)
    requires IsWildcard(p) && n > 0 && host == seq(n, _ => 'a') + p[1..]
    ensures Claims(p, host)
  {
    WildcardLower(p);
    LowerSuffix(p, 1);
    LowerSuffix(host, n);
    assert host[n..] == p[1..];
    assert |p| > 1;
  }

  lemma FarOnly(p: string, n: nat, host: string, x: string)
    requires IsWildcard(p) && n > 0 && host == seq(n, _ => 'a') + p[1..] && |x| < n && Claims(x, host)
    ensures Claims(x, p)
  {
    WildcardLower(x);
    var xl, pl, h := Lower(x), Lower(p), Lower(host);
    if xl != "*" && IsWildcard(xl) {
      assert xl[1] == '.' by { assert xl[..2] == "*."; }
      LowerSuffix(p, 1);
      LowerSuffix(host, n);
      assert host[n..] == p[1..];
      assert h == h[..n] + pl[1..];
      DotSuffix(h[..n], pl[1..], xl[1..]);
      SuffixOfTail(pl, xl[1..]);
    }
  }

  lemma SuffixOfTail(s: string, t: string)
    requires s != "" && HasSuffix(s[1..], t)
    ensures HasSuffix(s, t) && |s| > |t|
  {
    assert s == [s[0]] + s[1..];
    SuffixOfSuffix(s, s[1..], t);
  }

  /** A suffix that starts with a dot starts behind a label without one. */
  lemma DotSuffix(a: string, s: string, t: string)
    requires '.' !in a && t != "" && t[0] == '.' && HasSuffix(a + s, t)
    ensures HasSuffix(s, t)
  {
    var k := |a + s| - |t|;
    assert (a + s)[k..][0] == '.';
    assert (a + s)[k..] == s[k - |a|..];
  }

  /** A host whose claims are all claims on `p`. */
  lemma FarFromAll(p: string, xs: seq<string>) returns (host: string)
    requires p != "*"
    ensures Claims(p, host) && forall x :: x in xs && Claims(x, host) ==> Claims(x, p)
  {
    var n := Longest(xs);
    host := FarHost(p, n + 1);
  }

  function Longest(xs: seq<string>): (n: nat)
    ensures forall x :: x in xs ==> |x| <= n
  {
    if xs == [] then 0 else
      var rest := Longest(xs[1..]);
      if |xs[0]| > rest then |xs[0]| else rest
  }

  /** Effective hostnames denote the intersection: a host is claimed by one of them exactly
      when some listener claims it and some route hostname (or the lack of any) does. */
  lemma EffectiveDenotes(listeners: seq<Option<string>>, routes: seq<string>, host: string)
    requires StarsCovered(listeners, routes)
    ensures EffectiveClaims(listeners, routes, host) <==> BothClaim(listeners, routes, host)
  {
    EffectiveSound(listeners, routes, host);
    if i :| 0 <= i < |listeners| && ListenerClaims(listeners[i], host) && RouteClaims(routes, host) {
      PerListenerDenotes(listeners[i], routes, host);
      if x :| x in PerListener(listeners[i], routes) && Claims(x, host) {
        EffectiveMember(listeners, routes, x);
      } else {
        var lh := listeners[i].value;
        var j :| 0 <= j < |routes| && HalfStar(lh, routes[j]) && Claims(OtherThanStar(lh, routes[j]), host);
        var x :| x in EffectiveHostnames(listeners, routes) && Claims(x, OtherThanStar(lh, routes[j]));
        ClaimsTransitive(x, OtherThanStar(lh, routes[j]), host);
      }
    }
  }

  /** For all hosts at once, they do so if and only if every hostname paired with a literal `*`
      is covered. */
  lemma EffectiveDenotesExactly(listeners: seq<Option<string>>, routes: seq<string>)
    ensures StarsCovered(listeners, routes) <==>
      forall host: string :: EffectiveClaims(listeners, routes, host) <==> BothClaim(listeners, routes, host)
  {
    if StarsCovered(listeners, routes) {
      forall host: string ensures EffectiveClaims(listeners, routes, host) <==> BothClaim(listeners, routes, host) {
        EffectiveDenotes(listeners, routes, host);
      }
    }
    if forall host: string :: EffectiveClaims(listeners, routes, host) <==> BothClaim(listeners, routes, host) {
      forall i, j | 0 <= i < |listeners| && 0 <= j < |routes| && listeners[i].Some? && HalfStar(listeners[i].value, routes[j])
        ensures EffectiveClaims(listeners, routes, OtherThanStar(listeners[i].value, routes[j]))
      {
        UncoveredShows(listeners, routes, i, j);
      }
    }
  }

  lemma UncoveredShows(listeners: seq<Option<string>>, routes: seq<string>, i: nat, j: nat)
    requires i < |listeners| && j < |routes| && listeners[i].Some? && HalfStar(listeners[i].value, routes[j])
    requires forall host: string :: EffectiveClaims(listeners, routes, host) <==> BothClaim(listeners, routes, host)
    ensures EffectiveClaims(listeners, routes, OtherThanStar(listeners[i].value, routes[j]))
  {
    var lh := listeners[i].value;
    var other := OtherThanStar(lh, routes[j]);
    var host := FarFromAll(other, EffectiveHostnames(listeners, routes));
    assert Claims("*", host) by { WildcardLower("*"); }
    assert Claims(lh, host) && Claims(routes[j], host);
    assert ListenerClaims(listeners[i], host) && RouteClaims(routes, host);
    assert BothClaim(listeners, routes, host);
    var x :| x in EffectiveHostnames(listeners, routes) && Claims(x, host);
    assert Claims(x, other);
  }

  /** The list is strictly sorted, and depends only on which hostnames occur: permuting or
      repeating either input changes nothing. */
  lemma EffectiveCanonical(l1: seq<Option<string>>, l2: seq<Option<string>>, r1: seq<string>, r2: seq<string>)
    requires forall l :: l in l1 <==> l in l2
    requires forall r :: r in r1 <==> r in r2
    ensures StrictlySorted(EffectiveHostnames(l1, r1))
    ensures EffectiveHostnames(l1, r1) == EffectiveHostnames(l2, r2)
  {
    BTreeOfContents(FlatMap(l1, l => PerListener(l, r1)));
    BTreeOfContents(FlatMap(l2, l => PerListener(l, r2)));
    forall x ensures x in EffectiveHostnames(l1, r1) ==> x in EffectiveHostnames(l2, r2) {
      EffectiveIncluded(l1, l2, r1, r2, x);
    }
    forall x ensures x in EffectiveHostnames(l2, r2) ==> x in EffectiveHostnames(l1, r1) {
      EffectiveIncluded(l2, l1, r2, r1, x);
    }
    OrderedSetUnique(EffectiveHostnames(l1, r1), EffectiveHostnames(l2, r2));
  }

  lemma EffectiveIncluded(l1: seq<Option<string>>, l2: seq<Option<string>>, r1: seq<string>, r2: seq<string>, x: string)
    requires forall l :: l in l1 ==> l in l2
    requires forall r :: r in r1 <==> r in r2
    ensures x in EffectiveHostnames(l1, r1) ==> x in EffectiveHostnames(l2, r2)
  {
    var f1, f2 := l => PerListener(l, r1), l => PerListener(l, r2);
    BTreeOfContents(FlatMap(l1, f1));
    BTreeOfContents(FlatMap(l2, f2));
    if x in EffectiveHostnames(l1, r1) {
      FlatMapMember(l1, f1, x);
      var i :| 0 <= i < |l1| && x in f1(l1[i]);
      assert l1[i] in l2;
      var k :| 0 <= k < |l2| && l2[k] == l1[i];
      PerListenerIncluded(l1[i], r1, r2, x);
      assert x in f2(l2[k]);
      FlatMapMember(l2, f2, x);
    }
  }

  lemma PerListenerIncluded(listener: Option<string>, r1: seq<string>, r2: seq<string>, x: string)
    requires forall r :: r in r1 <==> r in r2
    requires x in PerListener(listener, r1)
    ensures x in PerListener(listener, r2)
  {
    assert r1 == [] <==> r2 == [] by {
      assert r1 != [] ==> r1[0] in r2;
      assert r2 != [] ==> r2[0] in r1;
    }
    if r1 != [] {
      PerListenerMember(listener, r1, x);
      PerListenerMember(listener, r2, x);
      if listener.None? {
        var j :| 0 <= j < |r1| && x == Lower(r1[j]);
        assert r1[j] in r2;
        var k :| 0 <= k < |r2| && r2[k] == r1[j];
        assert PerListener(listener, r2)[k] == x;
      } else {
        var j :| 0 <= j < |r1| && IntersectHostnames(listener.value, r1[j]) == Some(x);
        assert r1[j] in r2;
        var k :| 0 <= k < |r2| && r2[k] == r1[j];
      }
    }
  }
}
