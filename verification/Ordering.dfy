/** What several models share: string order and letter case, JavaScript's stable sort, and sums. */
module Ordering {

  datatype Option<+T> = None | Some(value: T)

  // ── String order ──────────────────────────────────────────────────────────

  /** JavaScript's `<` on strings, where no character lies above U+FFFF; above, it compares scalar values. */
  predicate Less(a: string, b: string) {
    if b == "" then false
    else if a == "" then true
    else if a[0] != b[0] then a[0] < b[0]
    else Less(a[1..], b[1..])
  }

  predicate AtMost(a: string, b: string) { !Less(b, a) }

  lemma {:induction false} LessIsStrictOrder(a: string, b: string, c: string)
    ensures !Less(a, a)
    ensures a == b || Less(a, b) || Less(b, a)
    ensures !(Less(a, b) && Less(b, a))
    ensures Less(a, b) && Less(b, c) ==> Less(a, c)
    decreases |a| + |b| + |c|
  {
    if a != "" { LessIsStrictOrder(a[1..], if b != "" then b[1..] else b, if c != "" then c[1..] else c); }
    if a != "" && b != "" && a[0] == b[0] && a[1..] == b[1..] { assert a == [a[0]] + a[1..] == b; }
  }

  /** After what they share, one text ends or has the smaller character. */
  lemma {:induction false} LessByCharacter(a: string, b: string)
    ensures Less(a, b) <==>
      exists k | 0 <= k <= |a| && k < |b| :: a[..k] == b[..k] && (k == |a| || a[k] < b[k])
  {
    if a == "" || b == "" || a[0] != b[0] {
      assert a[..0] == b[..0];
    } else {
      var x, y := a[1..], b[1..];
      LessByCharacter(x, y);
      forall k | 0 <= k < |a| && k < |b| - 1 ensures x[..k] == y[..k] <==> a[..k + 1] == b[..k + 1] {
        assert a[..k + 1] == [a[0]] + x[..k] && b[..k + 1] == [b[0]] + y[..k];
      }
      if k :| 0 <= k <= |a| && k < |b| && a[..k] == b[..k] && (k == |a| || a[k] < b[k]) {
        assert x[..k - 1] == y[..k - 1];
      }
    }
  }

  lemma {:induction false} LessOfConcat(a: string, x: string, b: string, y: string)
    requires |a| == |b|
    ensures Less(a + x, b + y) <==> Less(a, b) || (a == b && Less(x, y))
  {
    if a == "" {
      assert a + x == x && b + y == y;
    } else {
      assert (a + x)[1..] == a[1..] + x && (b + y)[1..] == b[1..] + y;
      LessOfConcat(a[1..], x, b[1..], y);
      if a[0] == b[0] {
        assert a == b <==> a[1..] == b[1..] by { assert a == [a[0]] + a[1..] && b == [b[0]] + b[1..]; }
      }
    }
  }

  // ── Letter case ───────────────────────────────────────────────────────────

  function LowerOf(c: char): char { if 'A' <= c <= 'Z' then c - 'A' + 'a' else c }

  /** toLowerCase() of ASCII text. */
  function Lowered(s: string): string { seq(|s|, i requires 0 <= i < |s| => LowerOf(s[i])) }

  // ── Stable sorting ────────────────────────────────────────────────────────

  ghost predicate TotalPreorder<T(!new)>(le: (T, T) -> bool) {
    && (forall a, b :: le(a, b) || le(b, a))
    && (forall a, b, c :: le(a, b) && le(b, c) ==> le(a, c))
  }

  ghost predicate SortedBy<T>(le: (T, T) -> bool, s: seq<T>) {
    forall i, j | 0 <= i < j < |s| :: le(s[i], s[j])
  }

  function Insert<T>(le: (T, T) -> bool, x: T, s: seq<T>): seq<T> {
    if s == [] || le(x, s[0]) then [x] + s else [s[0]] + Insert(le, x, s[1..])
  }

  /** What a stable comparison sort returns: an insertion sort that never moves an element past its equal. */
  function StableSort<T>(le: (T, T) -> bool, s: seq<T>): seq<T> {
    if s == [] then [] else Insert(le, s[0], StableSort(le, s[1..]))
  }

  /** The elements of `s` that tie with `k`, in the order they stand in. */
  function Ties<T>(le: (T, T) -> bool, k: T, s: seq<T>): seq<T> {
    if s == [] then []
    else (if le(s[0], k) && le(k, s[0]) then [s[0]] else []) + Ties(le, k, s[1..])
  }

  lemma {:induction false} InsertIsSorted<T(!new)>(le: (T, T) -> bool, x: T, s: seq<T>)
    requires TotalPreorder(le) && SortedBy(le, s)
    ensures SortedBy(le, Insert(le, x, s))
    ensures multiset(Insert(le, x, s)) == multiset([x]) + multiset(s)
  {
    if s != [] && !le(x, s[0]) {
      InsertIsSorted(le, x, s[1..]);
      var t := Insert(le, x, s[1..]);
      assert s == [s[0]] + s[1..];
      forall e | e in t ensures le(s[0], e) {
        assert e in multiset(t);
        if e != x { assert e in multiset(s[1..]); }
      }
    } else {
      assert [x] + s == Insert(le, x, s);
      forall e | e in s ensures le(x, e) { }
    }
  }

  lemma {:induction false} StableSortIsSorted<T(!new)>(le: (T, T) -> bool, s: seq<T>)
    requires TotalPreorder(le)
    ensures SortedBy(le, StableSort(le, s))
    ensures multiset(StableSort(le, s)) == multiset(s)
    ensures |StableSort(le, s)| == |s|
  {
    if s != [] {
      StableSortIsSorted(le, s[1..]);
      InsertIsSorted(le, s[0], StableSort(le, s[1..]));
      assert s == [s[0]] + s[1..];
    }
    assert |multiset(StableSort(le, s))| == |StableSort(le, s)|;
  }

  lemma {:induction false} InsertKeepsTies<T(!new)>(le: (T, T) -> bool, k: T, x: T, s: seq<T>)
    requires TotalPreorder(le)
    ensures Ties(le, k, Insert(le, x, s)) == Ties(le, k, [x] + s)
  {
    assert ([x] + s)[1..] == s;
    if s != [] && !le(x, s[0]) {
      InsertKeepsTies(le, k, x, s[1..]);
      assert ([s[0]] + Insert(le, x, s[1..]))[1..] == Insert(le, x, s[1..]);
      assert ([x] + s[1..])[1..] == s[1..];
    }
  }

  /** Stability: sorting leaves the elements of every tie in their original order. */
  lemma {:induction false} StableSortKeepsTies<T(!new)>(le: (T, T) -> bool, k: T, s: seq<T>)
    requires TotalPreorder(le)
    ensures Ties(le, k, StableSort(le, s)) == Ties(le, k, s)
  {
    if s != [] {
      StableSortKeepsTies(le, k, s[1..]);
      InsertKeepsTies(le, k, s[0], StableSort(le, s[1..]));
      assert ([s[0]] + StableSort(le, s[1..]))[1..] == StableSort(le, s[1..]);
    }
  }

  ghost predicate NoTies<T>(le: (T, T) -> bool, s: seq<T>) {
    forall x, y | x in s && y in s && le(x, y) && le(y, x) :: x == y
  }

  lemma {:induction false} SortedHeads<T(!new)>(le: (T, T) -> bool, a: seq<T>, b: seq<T>)
    requires SortedBy(le, a) && SortedBy(le, b) && multiset(a) == multiset(b) && NoTies(le, a) && a != []
    ensures b != [] && a[0] == b[0]
  {
    assert |b| == |multiset(b)| == |multiset(a)| == |a|;
    assert a[0] in multiset(b) && b[0] in multiset(a);
  }

  lemma SortedTail<T>(le: (T, T) -> bool, a: seq<T>)
    requires a != [] && SortedBy(le, a)
    ensures SortedBy(le, a[1..]) && (NoTies(le, a) ==> NoTies(le, a[1..]))
  {
  }

  lemma TailsMatch<T>(a: seq<T>, b: seq<T>)
    requires a != [] && b != [] && a[0] == b[0] && multiset(a) == multiset(b)
    ensures multiset(a[1..]) == multiset(b[1..])
  {
    assert a == [a[0]] + a[1..] && b == [b[0]] + b[1..];
    assert multiset(a[1..]) == multiset(a) - multiset([a[0]]);
    assert multiset(b[1..]) == multiset(b) - multiset([b[0]]);
  }

  /** A list without ties has one sorted order, whatever order it came in. */
  lemma {:induction false} SortedOrderIsUnique<T(!new)>(le: (T, T) -> bool, a: seq<T>, b: seq<T>)
    requires SortedBy(le, a) && SortedBy(le, b) && multiset(a) == multiset(b) && NoTies(le, a)
    ensures a == b
  {
    if a == [] {
      assert |multiset(b)| == 0;
    } else {
      SortedHeads(le, a, b);
      hide SortedBy, NoTies;
      SortedTail(le, a);
      SortedTail(le, b);
      TailsMatch(a, b);
      SortedOrderIsUnique(le, a[1..], b[1..]);
      assert a == [a[0]] + a[1..] && b == [b[0]] + b[1..];
    }
  }

  // ── Sums and permutations ─────────────────────────────────────────────────

  function SumOf<T>(f: T -> int, s: seq<T>): int {
    if s == [] then 0 else f(s[0]) + SumOf(f, s[1..])
  }

  lemma {:induction false} SumOfConcat<T>(f: T -> int, a: seq<T>, b: seq<T>)
    ensures SumOf(f, a + b) == SumOf(f, a) + SumOf(f, b)
  {
    if a == [] {
      assert a + b == b;
    } else {
      assert (a + b)[1..] == a[1..] + b;
      SumOfConcat(f, a[1..], b);
    }
  }

  /** The list without its i-th element. */
  function Without<T>(s: seq<T>, i: nat): (r: seq<T>)
    requires i < |s|
    ensures |r| == |s| - 1 && forall j | 0 <= j < |r| :: r[j] == s[if j < i then j else j + 1]
  {
    s[..i] + s[i + 1..]
  }

  lemma {:induction false} TakeOut<T>(s: seq<T>, i: nat)
    requires i < |s|
    ensures multiset(s) == multiset([s[i]]) + multiset(Without(s, i))
    ensures multiset(Without(s, i)) == multiset(s) - multiset([s[i]])
    ensures s == s[..i] + ([s[i]] + s[i + 1..])
  {
    assert s == s[..i] + ([s[i]] + s[i + 1..]);
  }

  lemma {:induction false} MovedToFront<T>(s: seq<T>, x: T) returns (p: seq<T>)
    requires x in s
    ensures p != [] && p[0] == x && multiset(p) == multiset(s) && forall y :: y in p <==> y in s
  {
    var i :| 0 <= i < |s| && s[i] == x;
    p := [x] + Without(s, i);
    TakeOut(s, i);
    forall y ensures y in p <==> y in s { assert y in multiset(p) <==> y in multiset(s); }
  }

  /** Finds the head of one list in a permutation of it; without it the lists are permutations still. */
  lemma {:induction false} MatchHead<T>(a: seq<T>, b: seq<T>) returns (i: nat)
    requires a != [] && multiset(a) == multiset(b)
    ensures i < |b| && b[i] == a[0] && multiset(a[1..]) == multiset(Without(b, i))
  {
    assert a[0] in multiset(b);
    i :| 0 <= i < |b| && b[i] == a[0];
    TakeOut(b, i);
    TakeOut(a, 0);
    assert Without(a, 0) == a[1..];
  }

  /** Where each element of a list stands in a permutation of it: every place once. */
  lemma {:induction false} Places<T>(a: seq<T>, b: seq<T>) returns (at: seq<nat>)
    requires multiset(a) == multiset(b)
    ensures |at| == |a| == |b| && (forall k | 0 <= k < |a| :: at[k] < |b| && b[at[k]] == a[k])
    ensures forall j, k | 0 <= j < k < |a| :: at[j] != at[k]
    ensures forall i | 0 <= i < |b| :: i in at
  {
    assert |a| == |multiset(a)| == |multiset(b)| == |b|;
    at := [];
    if a != [] {
      var i := MatchHead(a, b);
      var rest := Places(a[1..], Without(b, i));
      at := [i] + seq(|rest|, k requires 0 <= k < |rest| => if rest[k] < i then rest[k] else rest[k] + 1);
      forall j | 0 <= j < |b| ensures j in at {
        if j != i {
          var h: nat := if j < i then j else j - 1;
          assert h in rest;
          var k :| 0 <= k < |rest| && rest[k] == h;
          assert at[k + 1] == j;
        }
      }
    }
  }

  /** A listing of a set has each element once. */
  lemma ListedOnceEach<T>(l: seq<T>, s: set<T>)
    requires multiset(l) == multiset(s)
    ensures forall i, j | 0 <= i < j < |l| :: l[i] != l[j]
    ensures forall x :: x in l <==> x in s
  {
    forall x ensures x in l <==> x in s { assert x in multiset(l) <==> x in multiset(s); }
    forall i, j | 0 <= i < j < |l| ensures l[i] != l[j] {
      TakeOut(l, i);
      assert Without(l, i)[j - 1] == l[j] && l[j] in multiset(Without(l, i));
    }
  }

  /** A sum does not depend on the order of the list. */
  lemma {:induction false} SumOfPermutation<T>(f: T -> int, a: seq<T>, b: seq<T>)
    requires multiset(a) == multiset(b)
    ensures SumOf(f, a) == SumOf(f, b)
  {
    if a == [] {
      assert |multiset(b)| == 0;
    } else {
      var i := MatchHead(a, b);
      SumOfPermutation(f, a[1..], Without(b, i));
      SumOfConcat(f, b[..i], [b[i]] + b[i + 1..]);
      SumOfConcat(f, b[..i], b[i + 1..]);
      TakeOut(b, i);
      assert ([b[i]] + b[i + 1..])[1..] == b[i + 1..];
    }
  }

  /** `fa` and `fb` are the images of `a` and `b` under one map: permuting the one permutes the other. */
  lemma {:induction false} ImagesOfPermutation<A, B>(a: seq<A>, b: seq<A>, fa: seq<B>, fb: seq<B>)
    requires |a| == |fa| && |b| == |fb| && multiset(a) == multiset(b)
    requires forall i, j | 0 <= i < |a| && 0 <= j < |b| && a[i] == b[j] :: fa[i] == fb[j]
    ensures multiset(fa) == multiset(fb)
  {
    assert |a| == |multiset(a)| == |multiset(b)| == |b|;
    if a != [] {
      var i := MatchHead(a, b);
      ImagesOfPermutation(a[1..], Without(b, i), fa[1..], Without(fb, i));
      TakeOut(fb, i);
      TakeOut(fa, 0);
      assert Without(fa, 0) == fa[1..];
    }
  }
}
