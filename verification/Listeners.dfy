/** Listener isolation: binding a request host to the single most specific listener, by the
    scores of `select_most_specific_listener`. */
module Listeners {
  import opened Collections
  import opened Text
  import opened Hostnames

  const CATCH_ALL_SCORE: nat := 1
  const WILDCARD_SCORE: nat := 1000
  const EXACT_SCORE: nat := 10_000

  predicate ExactFor(lh: string, host: string) {
    lh != "" && !IsWildcard(lh) && EqIgnoreCase(lh, host)
  }

  predicate WildcardFor(lh: string, host: string) {
    IsWildcard(lh) && HasSuffix(Lower(host), Lower(lh)[1..]) && |host| > |lh| - 1
  }

  predicate Serves(lh: string, host: string) {
    lh == "" || WildcardFor(lh, host) || ExactFor(lh, host)
  }

  /** The score of a listener hostname that claims the host; a wildcard counts the length of
      its suffix after `*.`. */
  function Score(lh: string, host: string): Option<nat> {
    if lh == "" then Some(CATCH_ALL_SCORE)
    else if IsWildcard(lh) then
      if WildcardFor(lh, host) then Some(WILDCARD_SCORE + |lh| - 2) else None
    else if EqIgnoreCase(lh, host) then Some(EXACT_SCORE)
    else None
  }

  function Scored(host: string): string -> bool {
    (lh: string) => Score(lh, host).Some?
  }

  function HigherScore(host: string): (string, string) -> bool {
    (a: string, b: string) => GetOr(Score(a, host), 0) > GetOr(Score(b, host), 0)
  }

  /** The first listener of highest score. */
  function SelectListener(host: string, lhs: seq<string>): Option<string> {
    Best(lhs, Scored(host), HigherScore(host))
  }

  lemma HigherScoreIsOrder(host: string)
    ensures StrictWeakOrder(HigherScore(host))
  {
  }

  method SelectMostSpecificListener(host: string, lhs: seq<string>) returns (best: Option<string>)
    ensures best == SelectListener(host, lhs)
  {
    best := None;
    var bestScore: nat := 0;
    HigherScoreIsOrder(host);
    for i := 0 to |lhs|
      invariant best == Best(lhs[..i], Scored(host), HigherScore(host))
      invariant best.Some? ==> Score(best.value, host) == Some(bestScore)
    {
      BestSnoc(lhs, i, Scored(host), HigherScore(host));
      var score := Score(lhs[i], host);
      if score.Some? && (best.None? || score.value > bestScore) {
        best, bestScore := Some(lhs[i]), score.value;
      }
    }
    assert lhs[..|lhs|] == lhs;
  }

  // ---- What isolation promises ----

  /** Exact beats wildcard, a longer wildcard beats a shorter one, anything beats catch-all. */
  ghost predicate MostSpecific(lh: string, lhs: seq<string>, host: string) {
    && lh in lhs && Serves(lh, host)
    && ((exists x :: x in lhs && ExactFor(x, host)) ==> ExactFor(lh, host))
    && (!ExactFor(lh, host) ==> forall x :: x in lhs && WildcardFor(x, host) ==> WildcardFor(lh, host) && |x| <= |lh|)
  }

  /** No wildcard suffix of the host can score as high as an exact match. */
  predicate SuffixesScoreBelowExact(host: string) {
    IsWildcard(host) || forall i :: 0 < i < |host| && host[i] == '.' ==> |host| - i - 1 < 9000
  }

  /** A claiming wildcard is a dot of the host and what follows it. */
  lemma WildcardDot(lh: string, host: string)
    requires WildcardFor(lh, host)
    ensures var i := |host| - (|lh| - 1); 0 < i < |host| && host[i] == '.' && Lower(host[i..]) == Lower(lh[1..])
  {
    var i := |host| - (|lh| - 1);
    LowerSuffix(lh, 1);
    LowerSuffix(host, i);
    assert lh[1] == '.' by { assert lh[..2] == "*."; }
    assert Lower(host)[i..][0] == Lower(lh)[1..][0];
  }

  /** What serving means by what hostnames claim: no hostname serves every host; one serves the
      hosts it claims, but for the literal `*`, which serves the host spelled so. */
  lemma ServesExactly(lh: string, host: string)
    ensures WildcardFor(lh, host) <==> IsWildcard(lh) && Claims(lh, host)
    ensures ExactFor(lh, host) <==> lh != "" && !IsWildcard(lh) && if lh == "*" then host == "*" else Claims(lh, host)
    ensures Serves(lh, host) <==> lh == "" || if lh == "*" then host == "*" else Claims(lh, host)
  {
    WildcardLower(lh);
    WildcardLower(host);
    assert Lower("*") == "*";
  }

  lemma ServesScored(lh: string, host: string)
    ensures Serves(lh, host) <==> Scored(host)(lh)
  {
    assert IsWildcard("") == false;
  }

  lemma SelectionSound(host: string, lhs: seq<string>)
    requires SuffixesScoreBelowExact(host)
    ensures SelectListener(host, lhs).None? <==> forall x :: x in lhs ==> !Serves(x, host)
    ensures SelectListener(host, lhs).Some? ==> MostSpecific(SelectListener(host, lhs).value, lhs, host)
  {
    var p, less := Scored(host), HigherScore(host);
    forall x ensures Serves(x, host) <==> p(x) { ServesScored(x, host); }
    if SelectListener(host, lhs).Some? {
      HigherScoreIsOrder(host);
      var k := BestPosition(lhs, p, less);
      var lh := lhs[k];
      forall x | x in lhs && Serves(x, host) ensures Score(x, host).value <= Score(lh, host).value {
        var j :| 0 <= j < |lhs| && lhs[j] == x;
        assert !less(lhs[j], lhs[k]);
      }
      forall x | x in lhs && WildcardFor(x, host) && !IsWildcard(host) ensures Score(x, host).value < EXACT_SCORE {
        WildcardDot(x, host);
      }
      forall x | x in lhs && ExactFor(x, host) ensures !IsWildcard(host) {
        WildcardLower(x);
        WildcardLower(host);
      }
    }
  }

  /** Isolation holds for every listener list exactly when no dot of the host leaves a suffix
      of 9000 bytes or more behind it. DNS names are far shorter. */
  lemma SelectionExact(host: string)
    ensures SuffixesScoreBelowExact(host) <==>
      forall lhs: seq<string> :: SelectListener(host, lhs).Some? ==> MostSpecific(SelectListener(host, lhs).value, lhs, host)
  {
    if SuffixesScoreBelowExact(host) {
      forall lhs: seq<string> ensures SelectListener(host, lhs).Some? ==> MostSpecific(SelectListener(host, lhs).value, lhs, host) {
        SelectionSound(host, lhs);
      }
    } else {
      var i :| 0 < i < |host| && host[i] == '.' && |host| - i - 1 >= 9000;
      LongWildcardWins(host, i);
    }
  }

  lemma WildcardOfDot(host: string, i: nat)
    requires 0 < i < |host| && host[i] == '.'
    ensures WildcardFor("*" + host[i..], host)
  {
    var wild := "*" + host[i..];
    LowerSuffix(host, i);
    LowerSuffix(wild, 1);
    assert wild[1..] == host[i..] && wild[..2] == "*.";
  }

  /** A listener list on which a long wildcard beats the exact hostname. */
  lemma LongWildcardWins(host: string, i: nat)
    requires !IsWildcard(host)
    requires 0 < i < |host| && host[i] == '.' && |host| - i - 1 >= 9000
    ensures var lhs := ["*" + host[i..], host];
            SelectListener(host, lhs).Some? && !MostSpecific(SelectListener(host, lhs).value, lhs, host)
  {
    var wild := "*" + host[i..];
    var lhs := [wild, host];
    WildcardOfDot(host, i);
    HigherScoreIsOrder(host);
    assert Score(wild, host).Some? && Score(wild, host).value >= EXACT_SCORE;
    assert Score(host, host) == Some(EXACT_SCORE);
    assert IsBestAt(lhs, Scored(host), HigherScore(host), 0);
    BestUnique(lhs, Scored(host), HigherScore(host), 0);
    assert host in lhs && ExactFor(host, host) && !ExactFor(wild, host);
  }

  /** With hostnames distinct up to case, the answer does not depend on the order of the list. */
  lemma SelectionOrderFree(host: string, a: seq<string>, b: seq<string>)
    requires SuffixesScoreBelowExact(host)
    requires forall x :: x in a <==> x in b
    requires forall x, y :: x in a && y in a && EqIgnoreCase(x, y) ==> x == y
    ensures SelectListener(host, a) == SelectListener(host, b)
  {
    SelectionSound(host, a);
    SelectionSound(host, b);
    if SelectListener(host, a).Some? {
      var x, y := SelectListener(host, a).value, SelectListener(host, b).value;
      if WildcardFor(x, host) && WildcardFor(y, host) && !ExactFor(x, host) && !ExactFor(y, host) {
        SameLengthWildcards(x, y, host);
      }
    }
  }

  lemma SameLengthWildcards(x: string, y: string, host: string)
    requires WildcardFor(x, host) && WildcardFor(y, host) && |x| == |y|
    ensures EqIgnoreCase(x, y)
  {
    assert Lower(x)[1..] == Lower(y)[1..];
    assert x[0] == '*' && y[0] == '*' by { assert x[..2] == "*." && y[..2] == "*."; }
    assert Lower(x) == [Lower(x)[0]] + Lower(x)[1..];
    assert Lower(y) == [Lower(y)[0]] + Lower(y)[1..];
  }

  // ---- The host bucket inside a listener ----

  /** The longest wildcard bucket: the first dot from position `i` on whose suffix has one. */
  function Walk(keys: set<string>, host: string, i: nat): Option<string>
    requires i <= |host|
    decreases |host| - i
  {
    if i == |host| then None
    else if host[i] == '.' && "*" + host[i..] in keys then Some("*" + host[i..])
    else Walk(keys, host, i + 1)
  }

  function BucketOf(keys: set<string>, host: string): Option<string> {
    if host in keys then Some(host)
    else
      var wild := Walk(keys, host, 0);
      if wild.Some? then wild else if "*" in keys then Some("*") else None
  }

  function FindDot(s: string): (r: Option<nat>)
    ensures r.None? <==> forall i :: 0 <= i < |s| ==> s[i] != '.'
    ensures r.Some? ==> r.value < |s| && s[r.value] == '.' && forall i :: 0 <= i < r.value ==> s[i] != '.'
  {
    if s == "" then None
    else if s[0] == '.' then Some(0)
    else
      var rest := FindDot(s[1..]);
      assert forall i :: 0 < i < |s| ==> s[i] == s[1..][i - 1];
      if rest.None? then None else Some(rest.value + 1)
  }

  lemma {:induction false} WalkSkips(keys: set<string>, host: string, i: nat, j: nat)
    requires i <= j <= |host|
    requires forall m :: i <= m < j ==> !(host[m] == '.' && "*" + host[m..] in keys)
    ensures Walk(keys, host, i) == Walk(keys, host, j)
    decreases j - i
  {
    if i < j {
      WalkSkips(keys, host, i + 1, j);
    }
  }

  /** The dot-by-dot loop: drop a label, look the wildcard up, repeat. */
  method FindWildcardBucket(keys: set<string>, host: string) returns (found: Option<string>)
    ensures found == Walk(keys, host, 0)
  {
    var search := host;
    ghost var offset := 0;
    var dot := FindDot(search);
    while dot.Some?
      invariant 0 <= offset <= |host| && search == host[offset..] && dot == FindDot(search)
      invariant Walk(keys, host, 0) == Walk(keys, host, offset)
      decreases |search|
    {
      ghost var at := offset + dot.value;
      forall m | offset <= m < at ensures host[m] != '.' {
        assert search[m - offset] == host[m];
      }
      WalkSkips(keys, host, offset, at);
      assert host[at] == search[dot.value] == '.';
      assert search[dot.value..] == host[at..];
      var key := "*" + search[dot.value..];
      if key in keys {
        return Some(key);
      }
      search := search[dot.value + 1..];
      offset := at + 1;
      dot := FindDot(search);
    }
    forall m | offset <= m < |host| ensures host[m] != '.' {
      assert search[m - offset] == host[m];
    }
    WalkSkips(keys, host, offset, |host|);
    found := None;
  }

  /** The wildcard found is the longest available. */
  lemma {:induction false} WalkLongest(keys: set<string>, host: string, i: nat)
    requires i <= |host|
    ensures Walk(keys, host, i).None? <==> forall j :: i <= j < |host| && host[j] == '.' ==> "*" + host[j..] !in keys
    ensures Walk(keys, host, i).Some? ==>
      exists k :: i <= k < |host| && host[k] == '.' && Walk(keys, host, i).value == "*" + host[k..] && "*" + host[k..] in keys &&
                  forall j :: i <= j < k && host[j] == '.' ==> "*" + host[j..] !in keys
    decreases |host| - i
  {
    if i < |host| && !(host[i] == '.' && "*" + host[i..] in keys) {
      WalkLongest(keys, host, i + 1);
    }
  }

  // ---- What a bucket means ----

  /** A host key takes the host: its own name, a wildcard of one of its suffixes, or `*`; byte
      by byte, as map keys are compared. */
  predicate Fits(key: string, host: string) {
    key == host || key == "*" || (IsWildcard(key) && HasSuffix(host, key[1..]))
  }

  /** The host's own key, or the longest that fits. */
  ghost predicate IsBucket(keys: set<string>, host: string, key: string) {
    && key in keys && Fits(key, host)
    && (key == host || (host !in keys && forall other :: other in keys && Fits(other, host) ==> |other| <= |key|))
  }

  /** A fitting wildcard is `*` before a dot of the host and what follows it. */
  lemma FitsAtDot(key: string, host: string)
    requires IsWildcard(key) && HasSuffix(host, key[1..])
    ensures var j := |host| - (|key| - 1); 0 <= j < |host| && host[j] == '.' && key == "*" + host[j..]
  {
    assert key[..2] == "*.";
    assert key == [key[0]] + key[1..] && key[0] == '*' && key[1] == '.';
    var j := |host| - (|key| - 1);
    assert host[j] == host[j..][0] == key[1..][0];
  }

  lemma DotFits(host: string, j: nat)
    requires j < |host| && host[j] == '.'
    ensures IsWildcard("*" + host[j..]) && HasSuffix(host, ("*" + host[j..])[1..])
  {
    var key := "*" + host[j..];
    assert key[..2] == [key[0], key[1]] == "*.";
    assert key[1..] == host[j..];
  }

  lemma WalkIsLongest(keys: set<string>, host: string, other: string)
    requires other in keys && IsWildcard(other) && HasSuffix(host, other[1..])
    ensures Walk(keys, host, 0).Some? && |other| <= |Walk(keys, host, 0).value|
  {
    WalkLongest(keys, host, 0);
    FitsAtDot(other, host);
  }

  lemma WalkFits(keys: set<string>, host: string)
    ensures Walk(keys, host, 0).Some? ==>
      var key := Walk(keys, host, 0).value; key in keys && IsWildcard(key) && HasSuffix(host, key[1..])
  {
    WalkLongest(keys, host, 0);
    if Walk(keys, host, 0).Some? {
      var k :| 0 <= k < |host| && host[k] == '.' && Walk(keys, host, 0).value == "*" + host[k..] && "*" + host[k..] in keys;
      DotFits(host, k);
    }
  }

  lemma BucketIs(keys: set<string>, host: string)
    ensures BucketOf(keys, host).Some? ==> IsBucket(keys, host, BucketOf(keys, host).value)
    ensures BucketOf(keys, host).None? ==> forall key :: key in keys ==> !Fits(key, host)
  {
    WalkFits(keys, host);
    if host !in keys {
      forall other | other in keys && IsWildcard(other) && HasSuffix(host, other[1..])
        ensures Walk(keys, host, 0).Some? && |other| <= |Walk(keys, host, 0).value|
      {
        WalkIsLongest(keys, host, other);
      }
      assert !IsWildcard("*");
    }
  }

  lemma SameLengthFits(a: string, b: string, host: string)
    requires Fits(a, host) && Fits(b, host) && a != host && b != host && |a| == |b|
    ensures a == b
  {
    assert !IsWildcard("*");
    if IsWildcard(a) && IsWildcard(b) {
      FitsAtDot(a, host);
      FitsAtDot(b, host);
    }
    assert IsWildcard(a) ==> |a| >= 2;
    assert IsWildcard(b) ==> |b| >= 2;
  }

  /** The walk finds a bucket exactly when some key fits, and it is the one described. */
  lemma BucketExactly(keys: set<string>, host: string, key: string)
    ensures BucketOf(keys, host) == Some(key) <==> IsBucket(keys, host, key)
  {
    BucketIs(keys, host);
    if IsBucket(keys, host, key) && key != host {
      SameLengthFits(key, BucketOf(keys, host).value, host);
    }
  }

  /** For a lower-case host that does not start with a dot, a lower-case key fits exactly when
      it claims the host. */
  lemma FitsIsClaims(key: string, host: string)
    requires key == Lower(key) && host == Lower(host) && (host != "" ==> host[0] != '.')
    ensures Fits(key, host) <==> Claims(key, host)
  {
    if IsWildcard(key) {
      if HasSuffix(host, key[1..]) {
        FitsAtDot(key, host);
      }
      if key == host {
        assert host[1..] == key[1..];
      }
    }
  }

  /** So among lower-case keys a bucket is found whenever one claims the host, and no claiming
      key but the host itself is longer. */
  lemma LongestClaimFound(keys: set<string>, host: string, key: string)
    requires host == Lower(host) && (host != "" ==> host[0] != '.')
    requires forall k :: k in keys ==> k == Lower(k)
    requires key in keys && Claims(key, host)
    ensures BucketOf(keys, host).Some? && Claims(BucketOf(keys, host).value, host)
    ensures BucketOf(keys, host).value == host || |key| <= |BucketOf(keys, host).value|
  {
    BucketIs(keys, host);
    FitsIsClaims(key, host);
    FitsIsClaims(BucketOf(keys, host).value, host);
  }

  ghost predicate BucketsClaim(host: string) {
    forall keys: set<string> :: BucketOf(keys, host).Some? ==> Claims(BucketOf(keys, host).value, host)
  }

  lemma ClaimsItself(host: string)
    ensures Claims(host, host)
  {
    if IsWildcard(Lower(host)) {
      assert Lower(host)[|Lower(host)| - (|Lower(host)| - 1)..] == Lower(host)[1..];
    }
  }

  lemma ShorterFitClaims(key: string, host: string)
    requires IsWildcard(key) && HasSuffix(host, key[1..]) && |key| <= |host|
    ensures Claims(key, host)
  {
    var j := |host| - (|key| - 1);
    WildcardLower(key);
    LowerSuffix(host, j);
    LowerSuffix(key, 1);
    assert key[1..] == host[j..];
  }

  /** A key that takes the host claims it, unless it is the wildcard of all of a host that
      starts with a dot. */
  lemma FitClaims(key: string, host: string)
    requires Fits(key, host)
    ensures Claims(key, host) || (host != "" && host[0] == '.' && key == "*" + host)
  {
    if key == host {
      ClaimsItself(host);
    } else if key == "*" {
      assert Lower("*") == "*";
    } else if |key| <= |host| {
      ShorterFitClaims(key, host);
    } else {
      FitsAtDot(key, host);
      assert host[0..] == host;
    }
  }

  /** The bucket found claims the host, for every set of keys, if and only if the host does not
      start with a dot; one that does also falls into the wildcard of all of itself. */
  lemma BucketClaimsExactly(host: string)
    ensures BucketsClaim(host) <==> (host != "" ==> host[0] != '.')
  {
    if host != "" && host[0] == '.' {
      var keys := {"*" + host};
      WholeHostWildcard(host);
      assert !(BucketOf(keys, host).Some? ==> Claims(BucketOf(keys, host).value, host));
    } else {
      forall keys: set<string> | BucketOf(keys, host).Some? ensures Claims(BucketOf(keys, host).value, host) {
        BucketIs(keys, host);
        FitClaims(BucketOf(keys, host).value, host);
      }
    }
  }

  lemma WholeHostWildcard(host: string)
    requires host != "" && host[0] == '.'
    ensures BucketOf({"*" + host}, host) == Some("*" + host) && !Claims("*" + host, host)
  {
    var key := "*" + host;
    assert host[0..] == host;
    DotFits(host, 0);
    WildcardLower(key);
    BucketExactly({key}, host, key);
    assert |key| != |host|;
    assert |Lower(key)| - 1 == |Lower(host)|;
  }
}
