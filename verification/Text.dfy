/** Strings as the controller compares them. A `char` stands for one byte of UTF-8, so
    lengths, prefixes and the lexicographic order are those of Rust's `str`. */
module Text {
  import opened Collections

  function LowerChar(c: char): char {
    if 'A' <= c <= 'Z' then (c as int + 32) as char else c
  }

  /** `to_ascii_lowercase`. */
  function Lower(s: string): (r: string)
    ensures |r| == |s|
    ensures forall i :: 0 <= i < |s| ==> r[i] == LowerChar(s[i])
  {
    seq(|s|, i requires 0 <= i < |s| => LowerChar(s[i]))
  }

  lemma LowerIdempotent(s: string)
    ensures Lower(Lower(s)) == Lower(s)
  {
  }

  /** `eq_ignore_ascii_case`. */
  predicate EqIgnoreCase(a: string, b: string) {
    Lower(a) == Lower(b)
  }

  /** The same letter, in either case. */
  predicate SameLetter(a: char, b: char) {
    a == b || ('A' <= a <= 'Z' && b as int - a as int == 32) || ('A' <= b <= 'Z' && a as int - b as int == 32)
  }

  /** Equal up to letter case: the same letters in the same places. */
  lemma EqIgnoreCaseExactly(a: string, b: string)
    ensures EqIgnoreCase(a, b) <==> |a| == |b| && forall i :: 0 <= i < |a| ==> SameLetter(a[i], b[i])
  {
    if EqIgnoreCase(a, b) {
      forall i | 0 <= i < |a| ensures SameLetter(a[i], b[i]) {
        assert Lower(a)[i] == Lower(b)[i];
      }
    } else if |a| == |b| {
      var i :| 0 <= i < |a| && Lower(a)[i] != Lower(b)[i];
    }
  }

  predicate HasPrefix(s: string, t: string) {
    |t| <= |s| && s[..|t|] == t
  }

  predicate HasSuffix(s: string, t: string) {
    |t| <= |s| && s[|s| - |t|..] == t
  }

  lemma PrefixExactly(s: string, t: string)
    ensures HasPrefix(s, t) <==> exists u :: s == t + u
  {
    if HasPrefix(s, t) {
      assert s == t + s[|t|..];
    }
  }

  lemma SuffixExactly(s: string, t: string)
    ensures HasSuffix(s, t) <==> exists u :: s == u + t
  {
    if HasSuffix(s, t) {
      assert s == s[..|s| - |t|] + t;
    }
  }

  lemma LowerSuffix(s: string, i: nat)
    requires i <= |s|
    ensures Lower(s[i..]) == Lower(s)[i..]
  {
  }

  lemma SuffixOfSuffix(s: string, t: string, u: string)
    requires HasSuffix(s, t) && HasSuffix(t, u)
    ensures HasSuffix(s, u)
  {
    assert s[|s| - |u|..] == s[|s| - |t|..][|t| - |u|..];
  }

  /** Two suffixes of one string are suffixes of each other, shorter of longer. */
  lemma SuffixesNest(s: string, t: string, u: string)
    requires HasSuffix(s, t) && HasSuffix(s, u) && |u| <= |t|
    ensures HasSuffix(t, u)
  {
    assert t[|t| - |u|..] == s[|s| - |t|..][|t| - |u|..] == s[|s| - |u|..];
  }

  // ---- Lexicographic order (`Ord` of `String`) ----

  predicate LexLess(a: string, b: string) {
    b != [] && (a == [] || a[0] < b[0] || (a[0] == b[0] && LexLess(a[1..], b[1..])))
  }

  /** The strings agree up to `k`, where the first has ended or has the smaller character. */
  predicate FirstDiffersAt(a: string, b: string, k: nat) {
    && k <= |a| && k < |b| && a[..k] == b[..k]
    && (k == |a| || a[k] < b[k])
  }

  lemma {:induction false} LexLessExactly(a: string, b: string)
    ensures LexLess(a, b) <==> exists k: nat :: FirstDiffersAt(a, b, k)
  {
    if b != [] && a != [] && a[0] == b[0] {
      LexLessExactly(a[1..], b[1..]);
      if k: nat :| FirstDiffersAt(a[1..], b[1..], k) {
        assert a[..k + 1] == [a[0]] + a[1..][..k] && b[..k + 1] == [b[0]] + b[1..][..k];
        assert FirstDiffersAt(a, b, k + 1);
      }
      if k: nat :| FirstDiffersAt(a, b, k) {
        assert k > 0;
        assert a[1..][..k - 1] == a[..k][1..] && b[1..][..k - 1] == b[..k][1..];
        assert FirstDiffersAt(a[1..], b[1..], k - 1);
      }
    } else {
      if LexLess(a, b) {
        assert FirstDiffersAt(a, b, 0);
      }
      if k: nat :| FirstDiffersAt(a, b, k) && k > 0 {
        assert a[..k][0] == b[..k][0];
      }
    }
  }

  lemma {:induction false} LexAsymmetric(a: string, b: string)
    requires LexLess(a, b)
    ensures !LexLess(b, a) && a != b
  {
    if a != [] && a[0] == b[0] {
      LexAsymmetric(a[1..], b[1..]);
    }
  }

  lemma {:induction false} LexSplit(a: string, b: string, c: string)
    requires LexLess(a, c)
    ensures LexLess(a, b) || LexLess(b, c)
  {
    if a != [] && b != [] && a[0] == b[0] == c[0] {
      LexSplit(a[1..], b[1..], c[1..]);
    }
  }

  lemma {:induction false} LexTotal(a: string, b: string)
    ensures a == b || LexLess(a, b) || LexLess(b, a)
  {
    if a != [] && b != [] && a[0] == b[0] {
      LexTotal(a[1..], b[1..]);
      assert a == [a[0]] + a[1..] && b == [b[0]] + b[1..];
    }
  }

  lemma LexIsOrder()
    ensures StrictWeakOrder(LexLess)
    ensures forall a: string, b: string :: a == b || LexLess(a, b) || LexLess(b, a)
  {
    forall a: string, b: string ensures LexLess(a, b) ==> !LexLess(b, a) && a != b {
      if LexLess(a, b) { LexAsymmetric(a, b); }
    }
    forall a: string, b: string, c: string ensures LexLess(a, c) ==> LexLess(a, b) || LexLess(b, c) {
      if LexLess(a, c) { LexSplit(a, b, c); }
    }
    forall a: string, b: string ensures a == b || LexLess(a, b) || LexLess(b, a) {
      LexTotal(a, b);
    }
  }

  // ---- Ordered string sets (`BTreeSet<String>`) ----

  ghost predicate StrictlySorted(s: seq<string>) {
    forall i, j :: 0 <= i < j < |s| ==> LexLess(s[i], s[j])
  }

  function BTreeInsert(s: seq<string>, x: string): seq<string> {
    if s == [] || LexLess(x, s[0]) then [x] + s
    else if s[0] == x then s
    else [s[0]] + BTreeInsert(s[1..], x)
  }

  lemma {:induction false} BTreeInsertMember(s: seq<string>, x: string, y: string)
    ensures y in BTreeInsert(s, x) <==> y == x || y in s
  {
    if !(s == [] || LexLess(x, s[0]) || s[0] == x) {
      BTreeInsertMember(s[1..], x, y);
    }
  }

  lemma {:induction false} BTreeInsertKeeps(s: seq<string>, x: string)
    requires StrictlySorted(s)
    ensures StrictlySorted(BTreeInsert(s, x))
    ensures forall y :: y in BTreeInsert(s, x) <==> y == x || y in s
  {
    LexIsOrder();
    forall y ensures y in BTreeInsert(s, x) <==> y == x || y in s { BTreeInsertMember(s, x, y); }
    if s == [] || s[0] == x {
    } else if LexLess(x, s[0]) {
      forall j | 0 <= j < |s| ensures LexLess(x, s[j]) {
        assert j > 0 ==> LexLess(s[0], s[j]);
      }
    } else {
      BTreeInsertKeeps(s[1..], x);
      var t := BTreeInsert(s[1..], x);
      forall j | 0 <= j < |t| ensures LexLess(s[0], t[j]) {
        assert t[j] in t;
        if t[j] != x {
          var k :| 0 < k < |s| && s[k] == t[j];
        }
      }
    }
  }

  function BTreeOf(xs: seq<string>): seq<string> {
    if xs == [] then [] else BTreeInsert(BTreeOf(xs[..|xs| - 1]), xs[|xs| - 1])
  }

  lemma {:induction false} BTreeOfContents(xs: seq<string>)
    ensures StrictlySorted(BTreeOf(xs))
    ensures forall y :: y in BTreeOf(xs) <==> y in xs
  {
    if xs != [] {
      BTreeOfContents(xs[..|xs| - 1]);
      BTreeInsertKeeps(BTreeOf(xs[..|xs| - 1]), xs[|xs| - 1]);
      assert xs == xs[..|xs| - 1] + [xs[|xs| - 1]];
    }
  }

  /** An ordered set lists its elements in one way only. */
  lemma OrderedSetUnique(a: seq<string>, b: seq<string>)
    requires StrictlySorted(a) && StrictlySorted(b)
    requires forall x :: x in a <==> x in b
    ensures a == b
  {
    LexIsOrder();
    StrictlySortedUnique(a, b, LexLess);
  }
}
