/** Sort keys that turn the order of text around. */
module TextKeys {

  /** Python's order on strings: by code point, a proper prefix first. */
  predicate TextLess(s: string, t: string) {
    t != [] && (s == [] || s[0] < t[0] || (s[0] == t[0] && TextLess(s[1..], t[1..])))
  }

  /** Python's order on tuples of integers: element by element, a proper prefix first. */
  predicate TupleLess(a: seq<int>, b: seq<int>)
    decreases |a|
  {
    b != [] && (a == [] || a[0] < b[0] || (a[0] == b[0] && TupleLess(a[1..], b[1..])))
  }

  /** The code points negated, and a last element. */
  function NegatedKey(s: string, last: int): (key: seq<int>)
    ensures |key| == |s| + 1
    ensures forall k :: 0 <= k < |s| ==> key[k] == -(s[k] as int)
    ensures key[|s|] == last
  {
    if s == [] then [last] else [-(s[0] as int)] + NegatedKey(s[1..], last)
  }

  /** `descending_text_key` */
  function DescendingTextKey(s: string): seq<int> {
    NegatedKey(s, 0)
  }

  /** The key of descending names of summary buckets, which ends in the negated length. */
  function DescendingNameKey(s: string): seq<int> {
    NegatedKey(s, -|s|)
  }

  predicate ProperPrefix(s: string, t: string) {
    |s| < |t| && s == t[..|s|]
  }

  /** The longer text goes on with a character whose code is at most `bound`. */
  predicate GoesOnBelow(s: string, t: string, bound: int) {
    ProperPrefix(s, t) && t[|s|] as int <= bound
  }

  lemma TupleStep(x: int, a: seq<int>, y: int, b: seq<int>)
    ensures TupleLess([x] + a, [y] + b) <==> x < y || (x == y && TupleLess(a, b))
  {
    assert ([x] + a)[1..] == a && ([y] + b)[1..] == b;
  }

  lemma TextStep(s: string, t: string)
    requires s != [] && t != []
    ensures TextLess(t, s) <==> t[0] < s[0] || (t[0] == s[0] && TextLess(t[1..], s[1..]))
  {
  }

  lemma FirstsDiffer(s: string, t: string)
    requires s != [] && t != [] && s[0] != t[0]
    ensures s != t && !ProperPrefix(s, t) && !ProperPrefix(t, s)
  {
    assert |s| <= |t| ==> t[..|s|][0] == t[0];
    assert |t| <= |s| ==> s[..|t|][0] == s[0];
  }

  /** What the order of two keys should be. */
  predicate KeysLess(s: string, a: int, t: string, b: int) {
    if s == t then a > b
    else if ProperPrefix(s, t) then t[|s|] as int <= a
    else if ProperPrefix(t, s) then s[|t|] as int > b
    else TextLess(t, s)
  }

  lemma KeysLessOfRest(s: string, a: int, t: string, b: int)
    requires s != [] && t != [] && s[0] == t[0]
    ensures KeysLess(s, a, t, b) <==> KeysLess(s[1..], a, t[1..], b)
  {
    FirstsAgree(s, t);
    TextStep(s, t);
  }

  lemma KeysLessOfFirsts(s: string, a: int, t: string, b: int)
    requires s != [] && t != [] && s[0] != t[0]
    ensures KeysLess(s, a, t, b) <==> t[0] < s[0]
  {
    FirstsDiffer(s, t);
    TextStep(s, t);
  }

  /** How two such keys compare, whatever their last elements. */
  lemma {:induction false} KeyOrder(s: string, a: int, t: string, b: int)
    ensures TupleLess(NegatedKey(s, -a), NegatedKey(t, -b)) <==> KeysLess(s, a, t, b)
    decreases |s|
  {
    if s == [] {
      EmptyKeyOrder(a, t, b);
    } else if t == [] {
      TupleStep(-(s[0] as int), NegatedKey(s[1..], -a), -b, []);
    } else {
      TupleStep(-(s[0] as int), NegatedKey(s[1..], -a), -(t[0] as int), NegatedKey(t[1..], -b));
      if s[0] == t[0] {
        KeyOrder(s[1..], a, t[1..], b);
        KeysLessOfRest(s, a, t, b);
      } else {
        KeysLessOfFirsts(s, a, t, b);
      }
    }
  }

  lemma EmptyKeyOrder(a: int, t: string, b: int)
    ensures TupleLess(NegatedKey("", -a), NegatedKey(t, -b)) <==> KeysLess("", a, t, b)
  {
    if t == [] {
      TupleStep(-a, [], -b, []);
    } else {
      TupleStep(-a, [], -(t[0] as int), NegatedKey(t[1..], -b));
    }
  }

  lemma FirstsAgree(s: string, t: string)
    requires s != [] && t != [] && s[0] == t[0]
    ensures s == t <==> s[1..] == t[1..]
    ensures ProperPrefix(s, t) <==> ProperPrefix(s[1..], t[1..])
    ensures ProperPrefix(t, s) <==> ProperPrefix(t[1..], s[1..])
  {
    assert s == [s[0]] + s[1..] && t == [t[0]] + t[1..];
    if ProperPrefix(s[1..], t[1..]) {
      assert t[..|s|] == [t[0]] + t[1..][..|s| - 1];
    }
    if ProperPrefix(t[1..], s[1..]) {
      assert s[..|t|] == [s[0]] + s[1..][..|t| - 1];
    }
    if ProperPrefix(s, t) {
      assert s[1..] == t[..|s|][1..] == t[1..][..|s| - 1];
    }
    if ProperPrefix(t, s) {
      assert t[1..] == s[..|t|][1..] == s[1..][..|t| - 1];
    }
  }

  lemma {:induction false} PrefixIsLess(s: string, t: string)
    requires ProperPrefix(s, t)
    ensures TextLess(s, t) && !TextLess(t, s)
    decreases |s|
  {
    if s != [] {
      assert s[0] == t[..|s|][0] == t[0];
      FirstsAgree(s, t);
      PrefixIsLess(s[1..], t[1..]);
    }
  }

  lemma {:induction false} NotLessThanItself(s: string)
    ensures !TextLess(s, s)
  {
    if s != [] {
      NotLessThanItself(s[1..]);
    }
  }

  /** The keys of two texts are in the reverse of the texts' order. */
  predicate Reverses(key: seq<int>, other: seq<int>, s: string, t: string) {
    TupleLess(key, other) <==> TextLess(t, s)
  }

  /** Two keys order two texts in reverse unless one text goes on, past the other, at or below its last element. */
  lemma ReversedIff(s: string, a: int, t: string, b: int, key: seq<int>, other: seq<int>)
    requires s == t ==> a == b
    requires key == NegatedKey(s, -a) && other == NegatedKey(t, -b)
    ensures Reverses(key, other, s, t) <==> !GoesOnBelow(s, t, a) && !GoesOnBelow(t, s, b)
  {
    KeyOrder(s, a, t, b);
    if s == t {
      NotLessThanItself(s);
    } else if ProperPrefix(s, t) {
      PrefixIsLess(s, t);
    } else if ProperPrefix(t, s) {
      PrefixIsLess(t, s);
    }
  }

  /** A text extends the other by a NUL first. */
  predicate ExtendsByNul(s: string, t: string) {
    ProperPrefix(s, t) && t[|s|] == '\0'
  }

  /** The key ending in zero reverses the order exactly when neither text extends the other by a NUL. */
  lemma TextKeyReversesIff(s: string, t: string)
    ensures Reverses(DescendingTextKey(s), DescendingTextKey(t), s, t) <==> !ExtendsByNul(s, t) && !ExtendsByNul(t, s)
  {
    ReversedIff(s, 0, t, 0, DescendingTextKey(s), DescendingTextKey(t));
  }

  /**
   * The key ending in the negated length reverses it exactly when neither text extends the other by a
   * character whose code is at most the length of the shorter one.
   */
  lemma NameKeyReversesIff(s: string, t: string)
    ensures Reverses(DescendingNameKey(s), DescendingNameKey(t), s, t) <==> !GoesOnBelow(s, t, |s|) && !GoesOnBelow(t, s, |t|)
  {
    ReversedIff(s, |s|, t, |t|, DescendingNameKey(s), DescendingNameKey(t));
  }
}
