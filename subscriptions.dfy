/**
 * The subscription list `listen_context` as a value: removing an entry, and
 * the text of the regular expression that JavaScript builds from the list
 * when it is passed to `String.prototype.match`.
 */
module Subscriptions {

  /** `s` with every entry equal to `d` dropped and the others kept in order
      (the list `removeListeningContext` builds). */
  function Without(s: seq<string>, d: string): (r: seq<string>)
    ensures |r| <= |s|
    ensures d !in r
    ensures forall x :: x in r ==> x in s
  {
    if s == [] then []
    else if s[0] == d then Without(s[1..], d)
    else [s[0]] + Without(s[1..], d)
  }

  /** `r` is `s` with some entries deleted and the rest in their order. */
  ghost predicate SubsequenceOf(r: seq<string>, s: seq<string>)
    decreases |s|
  {
    r == [] ||
    (s != [] &&
     ((r[0] == s[0] && SubsequenceOf(r[1..], s[1..])) || SubsequenceOf(r, s[1..])))
  }

  /** Filtering distributes over concatenation; this is what lets the
      element-by-element loop build the filtered list. */
  lemma {:induction false} WithoutConcat(a: seq<string>, b: seq<string>, d: string)
    ensures Without(a + b, d) == Without(a, d) + Without(b, d)
  {
    if a != [] {
      assert (a + b)[0] == a[0];
      assert (a + b)[1..] == a[1..] + b;
      WithoutConcat(a[1..], b, d);
    } else {
      assert a + b == b;
    }
  }

  /** Filtering one more entry: it is kept exactly when it differs from `d`. */
  lemma WithoutSnoc(s: seq<string>, x: string, d: string)
    ensures Without(s + [x], d) == Without(s, d) + (if x == d then [] else [x])
  {
    WithoutConcat(s, [x], d);
    assert [x][1..] == [];
  }

  /** The surviving entries keep their relative order. */
  lemma {:induction false} WithoutIsSubsequence(s: seq<string>, d: string)
    ensures SubsequenceOf(Without(s, d), s)
  {
    if s != [] {
      WithoutIsSubsequence(s[1..], d);
      var r := Without(s, d);
      if s[0] != d {
        assert r[0] == s[0] && r[1..] == Without(s[1..], d);
      }
    }
  }

  /** Every occurrence of `d` goes and every other entry keeps its number of
      occurrences. */
  lemma {:induction false} WithoutCounts(s: seq<string>, d: string)
    ensures multiset(Without(s, d)) == multiset(s)[d := 0]
  {
    if s != [] {
      WithoutCounts(s[1..], d);
      assert s == [s[0]] + s[1..];
      assert multiset(s) == multiset{s[0]} + multiset(s[1..]);
    }
  }

  /** Removing a context that is not subscribed leaves the list as it was. */
  lemma {:induction false} WithoutAbsent(s: seq<string>, d: string)
    requires d !in s
    ensures Without(s, d) == s
  {
    if s != [] {
      assert s[0] != d;
      WithoutAbsent(s[1..], d);
      assert [s[0]] + s[1..] == s;
    }
  }

  /** Removing the same context twice gives the list of removing it once. */
  lemma {:induction false} WithoutIdempotent(s: seq<string>, d: string)
    ensures Without(Without(s, d), d) == Without(s, d)
  {
    WithoutAbsent(Without(s, d), d);
  }

  /** Removing one context, then another, is the same as the other order. */
  lemma {:induction false} WithoutCommutes(s: seq<string>, a: string, b: string)
    ensures Without(Without(s, a), b) == Without(Without(s, b), a)
  {
    if s != [] {
      WithoutCommutes(s[1..], a, b);
      if s[0] != a && s[0] != b {
        assert Without(Without(s, a), b) == [s[0]] + Without(Without(s[1..], a), b);
        assert Without(Without(s, b), a) == [s[0]] + Without(Without(s[1..], b), a);
      }
    }
  }

  /** Adding a context and then removing it restores the list exactly when it
      was not subscribed before; otherwise every earlier copy goes too. */
  lemma AddThenRemove(s: seq<string>, d: string)
    ensures Without(s + [d], d) == Without(s, d)
    ensures d !in s ==> Without(s + [d], d) == s
  {
    WithoutSnoc(s, d, d);
    if d !in s {
      WithoutAbsent(s, d);
    }
  }

  /** The source text of the regular expression made from the list: JavaScript
      converts an array to a string by joining its entries with ",". */
  function Pattern(s: seq<string>): (r: string)
    ensures s != [] ==> s[0] <= r
    ensures |s| >= 2 ==> |r| > |s[0]| && r[|s[0]|] == ','
  {
    if s == [] then ""
    else if |s| == 1 then s[0]
    else s[0] + "," + Pattern(s[1..])
  }

  /** Subscribing one more context appends ",<context>" to a non-empty pattern. */
  lemma {:induction false} PatternSnoc(s: seq<string>, c: string)
    requires s != []
    ensures Pattern(s + [c]) == Pattern(s) + "," + c
  {
    if |s| == 1 {
      assert (s + [c])[1..] == [c];
    } else {
      assert (s + [c])[1..] == s[1..] + [c];
      PatternSnoc(s[1..], c);
    }
  }

  /** The pattern is as long as all entries together plus one separator
      between each two neighbours. */
  function TotalLength(s: seq<string>): (n: nat)
  {
    if s == [] then 0 else |s[0]| + TotalLength(s[1..])
  }

  lemma {:induction false} PatternLength(s: seq<string>)
    requires s != []
    ensures |Pattern(s)| == TotalLength(s) + |s| - 1
  {
    if |s| > 1 {
      PatternLength(s[1..]);
    }
  }

  /** Every entry is at most as long as all entries together. */
  lemma {:induction false} TotalLengthAtLeast(s: seq<string>, j: nat)
    requires j < |s|
    ensures TotalLength(s) >= |s[j]|
  {
    if j > 0 {
      TotalLengthAtLeast(s[1..], j - 1);
    }
  }
}
