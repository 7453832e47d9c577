// Total orders and the stable sort that every sorted list and ordered query of the program shares.

module Ordering {

  datatype Option<+T> = None | Some(value: T)

  /** A sort key: a tuple of the program, flattened to integers and compared lexicographically. */
  type Key = seq<int>

  predicate Less(a: Key, b: Key)
    decreases |a|
  {
    |b| > 0 && (|a| == 0 || a[0] < b[0] || (a[0] == b[0] && Less(a[1..], b[1..])))
  }

  /** Text compared by code point; the 0 that ends it makes a proper prefix come first. */
  function TextKey(s: string): (k: Key)
    ensures |k| == |s| + 1
  {
    if s == [] then [0] else [s[0] as int + 1] + TextKey(s[1..])
  }

  /** A nullable column under ORDER BY: NULLS LAST. */
  function NullableKey(s: Option<string>): Key
  {
    match s
    case Some(text) => [0] + TextKey(text)
    case None => [1]
  }

  lemma {:induction false} LessIrreflexive(a: Key)
    ensures !Less(a, a)
    decreases |a|
  {
    if a != [] {
      LessIrreflexive(a[1..]);
    }
  }

  lemma {:induction false} LessTransitive(a: Key, b: Key, c: Key)
    requires Less(a, b) && Less(b, c)
    ensures Less(a, c)
    decreases |a|
  {
    if a != [] && a[0] == b[0] == c[0] {
      LessTransitive(a[1..], b[1..], c[1..]);
    }
  }

  lemma {:induction false} LessTotal(a: Key, b: Key)
    ensures Less(a, b) || a == b || Less(b, a)
    decreases |a|
  {
    if a != [] && b != [] && a[0] == b[0] {
      LessTotal(a[1..], b[1..]);
      assert a[1..] == b[1..] ==> a == [a[0]] + a[1..] == b;
    }
  }

  lemma AtMostTransitive(a: Key, b: Key, c: Key)
    requires !Less(b, a) && !Less(c, b)
    ensures !Less(c, a)
  {
    LessTotal(a, b);
    LessTotal(b, c);
    LessIrreflexive(a);
    if Less(a, b) && Less(b, c) {
      LessTransitive(a, b, c);
    }
    if Less(c, a) && Less(a, c) {
      LessTransitive(a, c, a);
    }
  }

  // ---- What the keys compare

  /** Texts in code point order: they agree up to where the first ends or has the smaller character. */
  predicate TextBefore(s: string, t: string) {
    exists i :: 0 <= i <= |s| && i < |t| && s[..i] == t[..i] && (i == |s| || s[i] < t[i])
  }

  /** NULLS LAST. */
  predicate NullableBefore(s: Option<string>, t: Option<string>) {
    s.Some? && (t.None? || TextBefore(s.value, t.value))
  }

  lemma TextBeforeTails(s: string, t: string)
    requires s != [] && t != [] && s[0] == t[0]
    ensures TextBefore(s, t) <==> TextBefore(s[1..], t[1..])
  {
    if TextBefore(s, t) {
      var i :| 0 <= i <= |s| && i < |t| && s[..i] == t[..i] && (i == |s| || s[i] < t[i]);
      assert i > 0;
      assert s[1..][..i - 1] == s[..i][1..] == t[..i][1..] == t[1..][..i - 1];
      assert i - 1 == |s[1..]| || s[1..][i - 1] < t[1..][i - 1];
    }
    if i :| 0 <= i <= |s[1..]| && i < |t[1..]| && s[1..][..i] == t[1..][..i]
            && (i == |s[1..]| || s[1..][i] < t[1..][i]) {
      assert s[..i + 1] == [s[0]] + s[1..][..i] && t[..i + 1] == [t[0]] + t[1..][..i];
      assert i + 1 == |s| || s[i + 1] < t[i + 1];
    }
  }

  lemma HeadsDecide(s: string, t: string)
    requires s != [] && t != [] && s[0] != t[0]
    ensures TextBefore(s, t) <==> s[0] < t[0]
  {
    assert s[..0] == t[..0];
    forall i | 0 < i <= |s| && i < |t| ensures s[..i] != t[..i] {
      assert s[..i][0] != t[..i][0];
    }
  }

  /** A text column decides a comparison before the columns after it. */
  lemma {:induction false} TextDecides(s: string, t: string, a: Key, b: Key)
    ensures Less(TextKey(s) + a, TextKey(t) + b) <==> TextBefore(s, t) || (s == t && Less(a, b))
    decreases |s|
  {
    var k, l := TextKey(s) + a, TextKey(t) + b;
    if s != [] && t != [] {
      assert k[1..] == TextKey(s[1..]) + a && l[1..] == TextKey(t[1..]) + b;
      TextDecides(s[1..], t[1..], a, b);
      assert s == [s[0]] + s[1..] && t == [t[0]] + t[1..];
      if s[0] == t[0] { TextBeforeTails(s, t); } else { HeadsDecide(s, t); }
    } else if s == [] && t == [] {
      assert k[1..] == a && l[1..] == b;
    } else if s == [] {
      assert s[..0] == t[..0];
    }
  }

  lemma NumberDecides(m: int, n: int, a: Key, b: Key)
    ensures Less([m] + a, [n] + b) <==> m < n || (m == n && Less(a, b))
  {
    assert ([m] + a)[1..] == a && ([n] + b)[1..] == b;
  }

  lemma InFront(m: int, k: Key, a: Key)
    ensures [m] + k + a == [m] + (k + a)
  {}

  lemma PresentDecide(s: string, t: string, a: Key, b: Key)
    ensures Less([0] + TextKey(s) + a, [0] + TextKey(t) + b) <==> TextBefore(s, t) || (s == t && Less(a, b))
  {
    InFront(0, TextKey(s), a);
    InFront(0, TextKey(t), b);
    NumberDecides(0, 0, TextKey(s) + a, TextKey(t) + b);
    TextDecides(s, t, a, b);
  }

  lemma FirstDecides(k: Key, l: Key)
    requires k != [] && l != [] && k[0] != l[0]
    ensures Less(k, l) <==> k[0] < l[0]
  {}

  /** A nullable column likewise. */
  lemma NullableDecides(s: Option<string>, t: Option<string>, a: Key, b: Key)
    ensures Less(NullableKey(s) + a, NullableKey(t) + b) <==> NullableBefore(s, t) || (s == t && Less(a, b))
  {
    if s.Some? && t.Some? {
      PresentDecide(s.value, t.value, a, b);
    } else if s.None? && t.None? {
      NumberDecides(1, 1, a, b);
    } else {
      FirstDecides(NullableKey(s) + a, NullableKey(t) + b);
    }
  }

  ghost predicate Sorted<T>(s: seq<T>, key: T -> Key)
  {
    forall i, j :: 0 <= i < j < |s| ==> !Less(key(s[j]), key(s[i]))
  }

  /** Insertion before the first element that is not smaller: equal keys keep their order. */
  function Insert<T>(x: T, s: seq<T>, key: T -> Key): (r: seq<T>)
    ensures |r| == |s| + 1
  {
    if s == [] then [x]
    else if Less(key(s[0]), key(x)) then [s[0]] + Insert(x, s[1..], key)
    else [x] + s
  }

  function SortBy<T>(s: seq<T>, key: T -> Key): (r: seq<T>)
    ensures |r| == |s|
  {
    if s == [] then [] else Insert(s[0], SortBy(s[1..], key), key)
  }

  lemma {:induction false} InsertPermutes<T>(x: T, s: seq<T>, key: T -> Key)
    ensures multiset(Insert(x, s, key)) == multiset([x]) + multiset(s)
  {
    if s != [] {
      InsertPermutes(x, s[1..], key);
      assert s == [s[0]] + s[1..];
    }
  }

  /** Sorting rearranges: nothing is lost, nothing is duplicated. */
  lemma {:induction false} SortPermutes<T>(s: seq<T>, key: T -> Key)
    ensures multiset(SortBy(s, key)) == multiset(s)
  {
    if s != [] {
      SortPermutes(s[1..], key);
      InsertPermutes(s[0], SortBy(s[1..], key), key);
      assert s == [s[0]] + s[1..];
    }
  }

  lemma PrependSorted<T>(x: T, s: seq<T>, key: T -> Key)
    requires Sorted(s, key) && forall y :: y in s ==> !Less(key(y), key(x))
    ensures Sorted([x] + s, key)
  {
    var r := [x] + s;
    forall i, j | 0 <= i < j < |r| ensures !Less(key(r[j]), key(r[i])) {
      if i == 0 { assert r[j] in s; } else { assert r[i] == s[i - 1] && r[j] == s[j - 1]; }
    }
  }

  lemma LessIsAsymmetric(a: Key, b: Key)
    requires Less(a, b)
    ensures !Less(b, a)
  {
    if Less(b, a) {
      LessTransitive(a, b, a);
      LessIrreflexive(a);
    }
  }

  lemma {:induction false} InsertSorted<T>(x: T, s: seq<T>, key: T -> Key)
    requires Sorted(s, key)
    ensures Sorted(Insert(x, s, key), key)
  {
    if s != [] && Less(key(s[0]), key(x)) {
      var head, tail := s[0], Insert(x, s[1..], key);
      SortedTail(s, key);
      InsertSorted(x, s[1..], key);
      InsertPermutes(x, s[1..], key);
      forall y | y in tail ensures !Less(key(y), key(head)) {
        assert y in multiset(tail);
        if y in s[1..] { SortedHeadIsLeast(s, y, key); } else { LessIsAsymmetric(key(head), key(x)); }
      }
      PrependSorted(head, tail, key);
    } else if s != [] {
      forall y | y in s ensures !Less(key(y), key(x)) {
        SortedHeadIsLeast(s, y, key);
        AtMostTransitive(key(x), key(s[0]), key(y));
      }
      PrependSorted(x, s, key);
    }
  }

  lemma {:induction false} SortSorts<T>(s: seq<T>, key: T -> Key)
    ensures Sorted(SortBy(s, key), key)
  {
    if s != [] {
      SortSorts(s[1..], key);
      InsertSorted(s[0], SortBy(s[1..], key), key);
    }
  }

  ghost predicate KeysSeparate<T>(s: seq<T>, key: T -> Key)
  {
    forall x, y :: x in s && y in s && key(x) == key(y) ==> x == y
  }

  lemma SortedHeadIsLeast<T>(a: seq<T>, x: T, key: T -> Key)
    requires Sorted(a, key) && x in a
    ensures !Less(key(x), key(a[0]))
  {
    LessIrreflexive(key(a[0]));
  }

  lemma SortedTail<T>(a: seq<T>, key: T -> Key)
    requires Sorted(a, key) && a != []
    ensures Sorted(a[1..], key)
  {
    var t := a[1..];
    forall i, j | 0 <= i < j < |t| ensures !Less(key(t[j]), key(t[i])) {
      assert t[i] == a[i + 1] && t[j] == a[j + 1];
    }
  }

  lemma TailMultiset<T>(a: seq<T>)
    requires a != []
    ensures multiset(a[1..]) == multiset(a) - multiset([a[0]])
  {
    assert a == [a[0]] + a[1..];
  }

  /** Two sorted arrangements of the same elements are the same sequence. */
  lemma {:induction false} SortedIsUnique<T>(a: seq<T>, b: seq<T>, key: T -> Key)
    requires Sorted(a, key) && Sorted(b, key)
    requires multiset(a) == multiset(b)
    requires KeysSeparate(a, key)
    ensures a == b
    decreases |a|
  {
    assert |multiset(a)| == |a| && |multiset(b)| == |b|;
    if a != [] {
      var x, y := a[0], b[0];
      assert x == y by {
        assert x in multiset(b) && y in multiset(a);
        SortedHeadIsLeast(a, y, key);
        SortedHeadIsLeast(b, x, key);
        LessTotal(key(x), key(y));
      }
      TailMultiset(a);
      TailMultiset(b);
      SortedTail(a, key);
      SortedTail(b, key);
      assert KeysSeparate(a[1..], key) by {
        forall u | u in a[1..] ensures u in a {}
      }
      SortedIsUnique(a[1..], b[1..], key);
      assert a == [x] + a[1..] && b == [y] + b[1..];
    }
  }

  /** Sorting forgets the order its input arrived in, as soon as keys separate the elements. */
  lemma SortForgetsOrder<T>(s: seq<T>, t: seq<T>, key: T -> Key)
    requires multiset(s) == multiset(t)
    requires KeysSeparate(s, key)
    ensures SortBy(s, key) == SortBy(t, key)
  {
    SortSorts(s, key);
    SortSorts(t, key);
    SortPermutes(s, key);
    SortPermutes(t, key);
    var a := SortBy(s, key);
    forall x | x in a ensures x in s { assert x in multiset(a); }
    SortedIsUnique(a, SortBy(t, key), key);
  }

  lemma SortKeepsMembers<T>(s: seq<T>, key: T -> Key)
    ensures forall x :: x in SortBy(s, key) <==> x in s
  {
    SortPermutes(s, key);
    forall x ensures x in SortBy(s, key) <==> x in s {
      assert x in multiset(SortBy(s, key)) <==> x in multiset(s);
    }
  }

  /** Taking one occurrence out of two arrangements of the same elements leaves arrangements again. */
  lemma RemoveFromBoth<T>(a: seq<T>, b: seq<T>, i: nat, j: nat)
    requires multiset(a) == multiset(b)
    requires i < |a| && j < |b| && a[i] == b[j]
    ensures multiset(a[..i] + a[i+1..]) == multiset(b[..j] + b[j+1..])
  {
    SplitMultiset(a, i);
    SplitMultiset(b, j);
  }

  lemma SplitMultiset<T>(a: seq<T>, i: nat)
    requires i < |a|
    ensures multiset(a[..i] + a[i+1..]) == multiset(a) - multiset{a[i]}
  {
    assert a == a[..i] + ([a[i]] + a[i+1..]);
    assert multiset(a) == multiset(a[..i]) + (multiset{a[i]} + multiset(a[i+1..]));
  }

  predicate NoRepeats<T(==)>(s: seq<T>) {
    forall i, j :: 0 <= i < j < |s| ==> s[i] != s[j]
  }

  lemma {:induction false} InsertKeepsDistinct<T>(x: T, s: seq<T>, key: T -> Key)
    requires NoRepeats(s) && x !in s
    ensures NoRepeats(Insert(x, s, key))
    ensures forall y :: y in Insert(x, s, key) <==> y == x || y in s
  {
    if s != [] {
      var head, rest := s[0], s[1..];
      assert s == [head] + rest;
      forall i | 0 <= i < |rest| ensures rest[i] != head { assert rest[i] == s[i + 1]; }
      InsertKeepsDistinct(x, rest, key);
      DistinctHalves([head], Insert(x, rest, key));
      DistinctHalves([x], s);
    }
  }

  lemma {:induction false} SortKeepsDistinct<T>(s: seq<T>, key: T -> Key)
    requires NoRepeats(s)
    ensures NoRepeats(SortBy(s, key))
  {
    if s != [] {
      SortKeepsDistinct(s[1..], key);
      SortKeepsMembers(s[1..], key);
      InsertKeepsDistinct(s[0], SortBy(s[1..], key), key);
    }
  }

  lemma DistinctHalves<T>(a: seq<T>, b: seq<T>)
    requires NoRepeats(a) && NoRepeats(b) && forall x, y :: x in a && y in b ==> x != y
    ensures NoRepeats(a + b)
  {
    var s := a + b;
    forall i, j | 0 <= i < j < |s| ensures s[i] != s[j] {
      if i < |a| <= j { assert s[i] in a && s[j] in b; }
    }
  }

  lemma {:induction false} SameElementsSameMultiset<T>(a: seq<T>, b: seq<T>)
    requires NoRepeats(a) && NoRepeats(b)
    requires forall x :: x in a <==> x in b
    ensures multiset(a) == multiset(b)
  {
    forall x ensures multiset(a)[x] == multiset(b)[x] {
      OnceOnly(a, x);
      OnceOnly(b, x);
    }
  }

  lemma {:induction false} OnceOnly<T>(a: seq<T>, x: T)
    requires NoRepeats(a)
    ensures multiset(a)[x] == if x in a then 1 else 0
  {
    if a != [] {
      assert a == [a[0]] + a[1..];
      OnceOnly(a[1..], x);
      assert a[0] !in a[1..];
    }
  }

  /** What each element contributes, one after another. */
  function Flat<A, B>(s: seq<A>, f: A -> seq<B>): seq<B> {
    if s == [] then [] else f(s[0]) + Flat(s[1..], f)
  }

  lemma {:induction false} FlatJoined<A, B>(a: seq<A>, b: seq<A>, f: A -> seq<B>)
    ensures Flat(a + b, f) == Flat(a, f) + Flat(b, f)
  {
    if a == [] {
      assert a + b == b;
    } else {
      assert (a + b)[1..] == a[1..] + b;
      FlatJoined(a[1..], b, f);
    }
  }

  lemma FlatFirst<A, B>(x: A, rest: seq<A>, f: A -> seq<B>)
    ensures Flat([x] + rest, f) == f(x) + Flat(rest, f)
  {
    assert ([x] + rest)[1..] == rest;
  }

  lemma JoinedMultisets<T>(a: seq<T>, b: seq<T>, c: seq<T>)
    ensures multiset(a + (b + c)) == multiset(b) + multiset(a + c)
  {}

  lemma FlatTakeOut<A, B>(a: seq<A>, i: nat, f: A -> seq<B>)
    requires i < |a|
    ensures multiset(Flat(a, f)) == multiset(f(a[i])) + multiset(Flat(a[..i] + a[i + 1..], f))
  {
    var front, back := a[..i], a[i + 1..];
    assert a == front + ([a[i]] + back);
    FlatJoined(front, [a[i]] + back, f);
    FlatJoined(front, back, f);
    FlatFirst(a[i], back, f);
    JoinedMultisets(Flat(front, f), f(a[i]), Flat(back, f));
  }

  lemma RestsPermute<T>(a: seq<T>, b: seq<T>, i: nat)
    requires multiset(a) == multiset(b) && a != [] && i < |b| && b[i] == a[0]
    ensures multiset(a[1..]) == multiset(b[..i] + b[i + 1..])
  {
    RemoveFromBoth(a, b, 0, i);
    assert a[..0] + a[1..] == a[1..];
  }

  /** Contributions are rearranged when the elements are. */
  lemma {:induction false} FlatPermutes<A, B>(a: seq<A>, b: seq<A>, f: A -> seq<B>)
    requires multiset(a) == multiset(b)
    ensures multiset(Flat(a, f)) == multiset(Flat(b, f))
    decreases |a|
  {
    assert |a| == |multiset(a)| == |b|;
    if a != [] {
      assert a[0] in multiset(b);
      var i :| 0 <= i < |b| && b[i] == a[0];
      RestsPermute(a, b, i);
      FlatPermutes(a[1..], b[..i] + b[i + 1..], f);
      FlatTakeOut(b, i, f);
    }
  }

  // ---- A sort forgets the order of its input exactly when its keys tell the elements apart

  /** The first element with a key. */
  function FirstWith<T>(s: seq<T>, key: T -> Key, k: Key): Option<T> {
    if s == [] then None else if key(s[0]) == k then Some(s[0]) else FirstWith(s[1..], key, k)
  }

  lemma {:induction false} FirstWithJoined<T>(a: seq<T>, b: seq<T>, key: T -> Key, k: Key)
    ensures FirstWith(a + b, key, k) == if FirstWith(a, key, k).Some? then FirstWith(a, key, k)
            else FirstWith(b, key, k)
  {
    if a == [] {
      assert a + b == b;
    } else {
      assert (a + b)[1..] == a[1..] + b;
      FirstWithJoined(a[1..], b, key, k);
    }
  }

  lemma {:induction false} NoneWith<T>(s: seq<T>, key: T -> Key, k: Key)
    requires forall x :: x in s ==> key(x) != k
    ensures FirstWith(s, key, k) == None
  {
    if s != [] { NoneWith(s[1..], key, k); }
  }

  lemma {:induction false} InsertKeepsFirst<T>(x: T, s: seq<T>, key: T -> Key, k: Key)
    ensures FirstWith(Insert(x, s, key), key, k) == if key(x) == k then Some(x) else FirstWith(s, key, k)
  {
    LessIrreflexive(k);
    if s != [] && Less(key(s[0]), key(x)) {
      var r := Insert(x, s, key);
      assert r[0] == s[0] && r[1..] == Insert(x, s[1..], key);
      InsertKeepsFirst(x, s[1..], key, k);
    } else {
      assert ([x] + s)[1..] == s;
    }
  }

  /** Equal keys keep their order. */
  lemma {:induction false} SortKeepsFirst<T>(s: seq<T>, key: T -> Key, k: Key)
    ensures FirstWith(SortBy(s, key), key, k) == FirstWith(s, key, k)
  {
    if s != [] {
      SortKeepsFirst(s[1..], key, k);
      InsertKeepsFirst(s[0], SortBy(s[1..], key), key, k);
    }
  }

  ghost predicate ForgetsOrder<T(!new)>(s: seq<T>, key: T -> Key) {
    forall t: seq<T> :: multiset(t) == multiset(s) ==> SortBy(t, key) == SortBy(s, key)
  }

  /** Bringing one element to the front. */
  function Fronted<T>(s: seq<T>, i: nat): (t: seq<T>)
    requires i < |s|
    ensures multiset(t) == multiset(s)
  {
    assert s == s[..i] + [s[i]] + s[i + 1..];
    [s[i]] + s[..i] + s[i + 1..]
  }

  lemma TiesShow<T(!new)>(s: seq<T>, key: T -> Key, i: nat, j: nat)
    requires i < |s| && j < |s| && s[i] != s[j] && key(s[i]) == key(s[j])
    ensures !ForgetsOrder(s, key)
  {
    SortKeepsFirst(Fronted(s, i), key, key(s[i]));
    SortKeepsFirst(Fronted(s, j), key, key(s[i]));
    assert SortBy(Fronted(s, i), key) != SortBy(Fronted(s, j), key);
  }

  lemma ForgetsOrderExactly<T(!new)>(s: seq<T>, key: T -> Key)
    ensures ForgetsOrder(s, key) <==> KeysSeparate(s, key)
  {
    if KeysSeparate(s, key) {
      forall t: seq<T> | multiset(t) == multiset(s) ensures SortBy(t, key) == SortBy(s, key) {
        SortForgetsOrder(s, t, key);
      }
    } else {
      var x, y :| x in s && y in s && key(x) == key(y) && x != y;
      var i :| 0 <= i < |s| && s[i] == x;
      var j :| 0 <= j < |s| && s[j] == y;
      TiesShow(s, key, i, j);
    }
  }

  // ---- A change that leaves keys alone commutes with the sort

  function Each<T>(s: seq<T>, f: T -> T): (t: seq<T>)
    ensures |t| == |s| && forall i :: 0 <= i < |s| ==> t[i] == f(s[i])
  {
    seq(|s|, i requires 0 <= i < |s| => f(s[i]))
  }

  lemma EachFirst<T>(x: T, s: seq<T>, f: T -> T)
    ensures Each([x] + s, f) == [f(x)] + Each(s, f)
  {}

  lemma {:induction false} InsertEach<T(!new)>(x: T, s: seq<T>, key: T -> Key, f: T -> T)
    requires forall y :: key(f(y)) == key(y)
    ensures Insert(f(x), Each(s, f), key) == Each(Insert(x, s, key), f)
  {
    if s == [] {
      assert Each([], f) == [];
      EachFirst(x, [], f);
    } else {
      var head, rest := s[0], s[1..];
      assert s == [head] + rest;
      EachFirst(head, rest, f);
      InsertEach(x, rest, key, f);
      EachFirst(head, Insert(x, rest, key), f);
      EachFirst(x, s, f);
      assert Each(s, f)[1..] == Each(rest, f);
    }
  }

  lemma {:induction false} SortEach<T(!new)>(s: seq<T>, key: T -> Key, f: T -> T)
    requires forall y :: key(f(y)) == key(y)
    ensures SortBy(Each(s, f), key) == Each(SortBy(s, key), f)
  {
    if s == [] {
      assert Each([], f) == [];
    } else {
      assert s == [s[0]] + s[1..];
      EachFirst(s[0], s[1..], f);
      assert Each(s, f)[1..] == Each(s[1..], f);
      SortEach(s[1..], key, f);
      InsertEach(s[0], SortBy(s[1..], key), key, f);
    }
  }

  lemma {:induction false} EachPermutes<T>(s: seq<T>, t: seq<T>, f: T -> T)
    requires multiset(s) == multiset(t)
    ensures multiset(Each(s, f)) == multiset(Each(t, f))
  {
    var one := (x: T) => [f(x)];
    EachIsFlat(s, f, one);
    EachIsFlat(t, f, one);
    FlatPermutes(s, t, one);
  }

  lemma {:induction false} EachIsFlat<T>(s: seq<T>, f: T -> T, one: T -> seq<T>)
    requires forall x :: x in s ==> one(x) == [f(x)]
    ensures Each(s, f) == Flat(s, one)
  {
    if s == [] {
      assert Each(s, f) == [];
    } else {
      assert s == [s[0]] + s[1..];
      EachFirst(s[0], s[1..], f);
      EachIsFlat(s[1..], f, one);
    }
  }
}
