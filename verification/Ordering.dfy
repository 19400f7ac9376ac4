/** Lexicographic order on integer sequences, and sorting by an integer-sequence key. */
module Ordering {

  predicate LexLess(a: seq<int>, b: seq<int>) {
    if b == [] then false
    else if a == [] then true
    else if a[0] != b[0] then a[0] < b[0]
    else LexLess(a[1..], b[1..])
  }

  predicate LexLeq(a: seq<int>, b: seq<int>) {
    a == b || LexLess(a, b)
  }

  lemma {:induction false} LexTrichotomy(a: seq<int>, b: seq<int>)
    ensures a == b || LexLess(a, b) || LexLess(b, a)
    ensures !(LexLess(a, b) && LexLess(b, a))
    ensures !LexLess(a, a)
  {
    if a != [] {
      LexTrichotomy(a[1..], a[1..]);
      if b != [] {
        LexTrichotomy(a[1..], b[1..]);
        assert a == [a[0]] + a[1..] && b == [b[0]] + b[1..];
      }
    }
  }

  lemma {:induction false} LexTransitive(a: seq<int>, b: seq<int>, c: seq<int>)
    requires LexLess(a, b) && LexLess(b, c)
    ensures LexLess(a, c)
  {
    if a != [] && a[0] == b[0] == c[0] {
      LexTransitive(a[1..], b[1..], c[1..]);
    }
  }

  lemma LexLeqTransitive(a: seq<int>, b: seq<int>, c: seq<int>)
    requires LexLeq(a, b) && LexLeq(b, c)
    ensures LexLeq(a, c)
  {
    if LexLess(a, b) && LexLess(b, c) {
      LexTransitive(a, b, c);
    }
  }

  /** The code points of a text, the values its comparison looks at. */
  function Codes(text: string): seq<int> {
    seq(|text|, i requires 0 <= i < |text| => text[i] as int)
  }

  lemma CodesInjective(a: string, b: string)
    requires Codes(a) == Codes(b)
    ensures a == b
  {
    assert |a| == |Codes(a)| == |b|;
    forall i | 0 <= i < |a| ensures a[i] == b[i] {
      assert Codes(a)[i] == Codes(b)[i];
    }
  }

  // ---------------------------------------------------------------- what the order is

  /** Two sequences agree up to a position at which the first one ends, or holds the lesser number. */
  ghost predicate SeqLess(a: seq<int>, b: seq<int>) {
    exists n :: 0 <= n <= |a| && n < |b| && a[..n] == b[..n] && (n == |a| || a[n] < b[n])
  }

  lemma {:induction false} LexLessMeans(a: seq<int>, b: seq<int>)
    ensures LexLess(a, b) <==> SeqLess(a, b)
  {
    if b == [] {
    } else if a == [] || a[0] != b[0] {
      FirstDiffers(a, b);
    } else {
      LexLessMeans(a[1..], b[1..]);
      TailsDecide(a, b);
    }
  }

  lemma FirstDiffers(a: seq<int>, b: seq<int>)
    requires b != [] && (a == [] || a[0] != b[0])
    ensures SeqLess(a, b) <==> a == [] || a[0] < b[0]
  {
    assert a[..0] == b[..0] == [];
    forall n | 0 < n <= |a| && n < |b| ensures a[..n] != b[..n] {
      assert a[..n][0] == a[0] && b[..n][0] == b[0];
    }
  }

  lemma TailsDecide(a: seq<int>, b: seq<int>)
    requires a != [] && b != [] && a[0] == b[0]
    ensures SeqLess(a, b) <==> SeqLess(a[1..], b[1..])
  {
    if SeqLess(a, b) {
      var n :| 0 <= n <= |a| && n < |b| && a[..n] == b[..n] && (n == |a| || a[n] < b[n]);
      assert a[1..][..n - 1] == a[..n][1..] && b[1..][..n - 1] == b[..n][1..];
    }
    if SeqLess(a[1..], b[1..]) {
      var n :| && 0 <= n <= |a[1..]| && n < |b[1..]| && a[1..][..n] == b[1..][..n]
               && (n == |a[1..]| || a[1..][n] < b[1..][n]);
      assert a[..n + 1] == [a[0]] + a[1..][..n] && b[..n + 1] == [b[0]] + b[1..][..n];
    }
  }

  /** The order of texts by their characters. */
  ghost predicate TextLess(a: string, b: string) {
    exists n :: 0 <= n <= |a| && n < |b| && a[..n] == b[..n] && (n == |a| || a[n] < b[n])
  }

  lemma PrefixCodes(a: string, b: string, n: nat)
    requires n <= |a| && n <= |b|
    ensures a[..n] == b[..n] <==> Codes(a)[..n] == Codes(b)[..n]
  {
    if Codes(a)[..n] == Codes(b)[..n] {
      forall i | 0 <= i < n ensures a[..n][i] == b[..n][i] {
        assert Codes(a)[..n][i] == Codes(b)[..n][i];
      }
    }
    if a[..n] == b[..n] {
      forall i | 0 <= i < n ensures Codes(a)[..n][i] == Codes(b)[..n][i] {
        assert a[..n][i] == b[..n][i];
      }
    }
  }

  /** The code points of texts are in the order of the texts. */
  lemma TextOrder(a: string, b: string)
    ensures LexLess(Codes(a), Codes(b)) <==> TextLess(a, b)
  {
    LexLessMeans(Codes(a), Codes(b));
    if TextLess(a, b) {
      var n :| 0 <= n <= |a| && n < |b| && a[..n] == b[..n] && (n == |a| || a[n] < b[n]);
      PrefixCodes(a, b, n);
      assert n < |a| ==> Codes(a)[n] < Codes(b)[n];
    }
    if SeqLess(Codes(a), Codes(b)) {
      var n :| 0 <= n <= |Codes(a)| && n < |Codes(b)| && Codes(a)[..n] == Codes(b)[..n]
               && (n == |Codes(a)| || Codes(a)[n] < Codes(b)[n]);
      PrefixCodes(a, b, n);
      assert n < |a| ==> a[n] < b[n];
    }
  }

  lemma TextTrichotomy(a: string, b: string)
    ensures a == b || TextLess(a, b) || TextLess(b, a)
    ensures !(TextLess(a, b) && TextLess(b, a)) && !TextLess(a, a)
  {
    TextOrder(a, b);
    TextOrder(b, a);
    TextOrder(a, a);
    LexTrichotomy(Codes(a), Codes(b));
    if Codes(a) == Codes(b) {
      CodesInjective(a, b);
    }
  }

  predicate SortedBy<T>(key: T -> seq<int>, items: seq<T>) {
    forall i, k :: 0 <= i < k < |items| ==> LexLeq(key(items[i]), key(items[k]))
  }

  function Insert<T>(key: T -> seq<int>, item: T, sorted: seq<T>): seq<T> {
    if sorted == [] || LexLess(key(item), key(sorted[0])) then [item] + sorted
    else [sorted[0]] + Insert(key, item, sorted[1..])
  }

  /** A stable sort: an item goes after those with an equal key. */
  function Sort<T>(key: T -> seq<int>, items: seq<T>): seq<T> {
    if items == [] then []
    else Insert(key, items[|items| - 1], Sort(key, items[..|items| - 1]))
  }

  lemma {:induction false} InsertAdds<T>(key: T -> seq<int>, item: T, sorted: seq<T>)
    ensures multiset(Insert(key, item, sorted)) == multiset(sorted) + multiset{item}
  {
    if sorted != [] && !LexLess(key(item), key(sorted[0])) {
      InsertAdds(key, item, sorted[1..]);
      assert sorted == [sorted[0]] + sorted[1..];
    }
  }

  lemma SortedPrepend<T>(key: T -> seq<int>, first: T, rest: seq<T>)
    requires SortedBy(key, rest) && forall x :: x in rest ==> LexLeq(key(first), key(x))
    ensures SortedBy(key, [first] + rest)
  {
  }

  lemma {:induction false} InsertSorted<T>(key: T -> seq<int>, item: T, sorted: seq<T>)
    requires SortedBy(key, sorted)
    ensures multiset(Insert(key, item, sorted)) == multiset(sorted) + multiset{item}
    ensures SortedBy(key, Insert(key, item, sorted))
  {
    InsertAdds(key, item, sorted);
    if sorted != [] {
      LexTrichotomy(key(item), key(sorted[0]));
      forall x | x in sorted ensures LexLeq(key(sorted[0]), key(x)) {
        FirstIsLeast(key, sorted, x);
      }
      if LexLess(key(item), key(sorted[0])) {
        forall x | x in sorted ensures LexLeq(key(item), key(x)) {
          LexLeqTransitive(key(item), key(sorted[0]), key(x));
        }
        SortedPrepend(key, item, sorted);
      } else {
        var rest := Insert(key, item, sorted[1..]);
        InsertSorted(key, item, sorted[1..]);
        forall x | x in rest ensures LexLeq(key(sorted[0]), key(x)) {
          assert x in multiset(rest);
          assert x == item || x in sorted[1..];
        }
        SortedPrepend(key, sorted[0], rest);
      }
    }
  }

  lemma SameLength<T>(a: seq<T>, b: seq<T>)
    requires multiset(a) == multiset(b)
    ensures |a| == |b|
  {
    assert |multiset(a)| == |a| && |multiset(b)| == |b|;
  }

  lemma {:induction false} SortSorted<T>(key: T -> seq<int>, items: seq<T>)
    ensures multiset(Sort(key, items)) == multiset(items)
    ensures SortedBy(key, Sort(key, items))
    ensures |Sort(key, items)| == |items|
    decreases |items|
  {
    if items != [] {
      var before, last := items[..|items| - 1], items[|items| - 1];
      SortSorted(key, before);
      InsertSorted(key, last, Sort(key, before));
      assert items == before + [last];
    }
    SameLength(Sort(key, items), items);
  }

  lemma SortMembers<T>(key: T -> seq<int>, items: seq<T>)
    ensures forall x :: x in Sort(key, items) <==> x in items
  {
    SortSorted(key, items);
    forall x ensures x in Sort(key, items) <==> x in items {
      assert x in multiset(Sort(key, items)) <==> x in multiset(items);
    }
  }

  ghost predicate NoDup<T>(items: seq<T>) {
    forall i, k :: 0 <= i < k < |items| ==> items[i] != items[k]
  }

  lemma {:induction false} NoDupMultiset<T>(items: seq<T>)
    ensures NoDup(items) <==> forall x :: multiset(items)[x] <= 1
    decreases |items|
  {
    if items != [] {
      var before, last := items[..|items| - 1], items[|items| - 1];
      NoDupMultiset(before);
      assert items == before + [last];
      assert multiset(items) == multiset(before) + multiset{last};
      if NoDup(items) {
        assert last !in before;
        assert NoDup(before) by {
          forall i, k | 0 <= i < k < |before| ensures before[i] != before[k] {
            assert items[i] != items[k];
          }
        }
      }
      if forall x :: multiset(items)[x] <= 1 {
        assert forall x :: multiset(before)[x] <= multiset(items)[x];
        assert multiset(before)[last] == 0;
      }
    }
  }

  lemma SortNoDup<T>(key: T -> seq<int>, items: seq<T>)
    requires NoDup(items)
    ensures NoDup(Sort(key, items))
  {
    SortSorted(key, items);
    NoDupMultiset(items);
    NoDupMultiset(Sort(key, items));
  }

  lemma NonEmptyHasMember<T>(items: seq<T>)
    ensures items != [] <==> exists x :: x in items
  {
    if items != [] {
      assert items[0] in items;
    }
  }

  // ---------------------------------------------------------------- a set in the order of a key

  ghost predicate InjectiveOn<T>(key: T -> seq<int>, items: set<T>) {
    forall x, y :: x in items && y in items && key(x) == key(y) ==> x == y
  }

  predicate IsLeast<T(==)>(key: T -> seq<int>, items: set<T>, x: T) {
    x in items && forall y :: y in items ==> LexLeq(key(x), key(y))
  }

  lemma {:induction false} LeastExists<T>(key: T -> seq<int>, items: set<T>)
    requires items != {}
    ensures exists x :: IsLeast(key, items, x)
    decreases |items|
  {
    var a :| a in items;
    if items == {a} {
      assert IsLeast(key, items, a);
    } else {
      var others := items - {a};
      assert others != {} by {
        assert items == others + {a};
      }
      LeastExists(key, others);
      var b :| IsLeast(key, others, b);
      LexTrichotomy(key(a), key(b));
      if LexLess(key(a), key(b)) {
        forall y | y in items ensures LexLeq(key(a), key(y)) {
          if y != a {
            LexLeqTransitive(key(a), key(b), key(y));
          }
        }
        assert IsLeast(key, items, a);
      } else {
        assert IsLeast(key, items, b);
      }
    }
  }

  lemma LeastUnique<T>(key: T -> seq<int>, items: set<T>, x: T, y: T)
    requires InjectiveOn(key, items) && IsLeast(key, items, x) && IsLeast(key, items, y)
    ensures x == y
  {
    LexTrichotomy(key(x), key(y));
  }

  function Least<T(==,!new)>(key: T -> seq<int>, items: set<T>): (x: T)
    requires items != {} && InjectiveOn(key, items)
    ensures IsLeast(key, items, x)
  {
    LeastExists(key, items);
    assert forall x, y :: IsLeast(key, items, x) && IsLeast(key, items, y) ==> x == y by {
      forall x, y | IsLeast(key, items, x) && IsLeast(key, items, y) ensures x == y {
        LeastUnique(key, items, x, y);
      }
    }
    var x :| IsLeast(key, items, x);
    x
  }

  /** The members of a set, least key first. */
  function Ordered<T(==,!new)>(key: T -> seq<int>, items: set<T>): (r: seq<T>)
    requires InjectiveOn(key, items)
    ensures forall x :: x in r <==> x in items
    ensures |r| == |items| && SortedBy(key, r) && NoDup(r)
    decreases |items|
  {
    if items == {} then []
    else
      var first := Least(key, items);
      [first] + Ordered(key, items - {first})
  }

  function Take<T(!new)>(items: seq<T>, limit: nat): (r: seq<T>)
    ensures forall x :: x in r ==> x in items
    ensures |r| == if limit < |items| then limit else |items|
  {
    if limit < |items| then items[..limit] else items
  }

  lemma TailOf<T>(items: seq<T>)
    requires items != []
    ensures multiset(items[1..]) == multiset(items) - multiset{items[0]}
  {
    assert items == [items[0]] + items[1..];
  }

  lemma SortedTail<T>(key: T -> seq<int>, items: seq<T>)
    requires items != [] && SortedBy(key, items)
    ensures SortedBy(key, items[1..])
  {
  }

  lemma SameFirst<T>(key: T -> seq<int>, a: seq<T>, b: seq<T>)
    requires SortedBy(key, a) && SortedBy(key, b) && a != [] && b != [] && a[0] in b && b[0] in a
    requires forall x, y :: x in a && y in a && key(x) == key(y) ==> x == y
    ensures a[0] == b[0]
  {
    FirstIsLeast(key, a, b[0]);
    FirstIsLeast(key, b, a[0]);
    LexTrichotomy(key(a[0]), key(b[0]));
  }

  /** Items told apart by their key have one sorted order. */
  lemma TailsMatch<T>(key: T -> seq<int>, a: seq<T>, b: seq<T>)
    requires a != [] && b != [] && a[0] == b[0]
    requires SortedBy(key, a) && SortedBy(key, b) && multiset(a) == multiset(b)
    ensures SortedBy(key, a[1..]) && SortedBy(key, b[1..]) && multiset(a[1..]) == multiset(b[1..])
    ensures forall x :: x in a[1..] ==> x in a
  {
    TailOf(a);
    TailOf(b);
    SortedTail(key, a);
    SortedTail(key, b);
  }

  lemma {:induction false} SortedIsUnique<T>(key: T -> seq<int>, a: seq<T>, b: seq<T>)
    requires SortedBy(key, a) && SortedBy(key, b) && multiset(a) == multiset(b)
    requires forall x, y :: x in a && y in a && key(x) == key(y) ==> x == y
    ensures a == b
    decreases |a|
  {
    SameLength(a, b);
    if a != [] {
      assert a[0] in multiset(b) && b[0] in multiset(a);
      SameFirst(key, a, b);
      TailsMatch(key, a, b);
      SortedIsUnique(key, a[1..], b[1..]);
      assert a == [a[0]] + a[1..] && b == [b[0]] + b[1..];
    }
  }

  lemma FirstIsLeast<T>(key: T -> seq<int>, sorted: seq<T>, x: T)
    requires SortedBy(key, sorted) && x in sorted
    ensures LexLeq(key(sorted[0]), key(x))
  {
    var k :| 0 <= k < |sorted| && sorted[k] == x;
  }
}
