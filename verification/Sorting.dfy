/** Python's `sorted`: a stable sort, characterised without reference to how it works. */
module Sorting {
  import opened Basics

  /** A total preorder: `le(x, y)` is "the key of x is not after the key of y". */
  ghost predicate TotalPreorder<T(!new)>(le: (T, T) -> bool) {
    && (forall x, y :: le(x, y) || le(y, x))
    && (forall x, y, z :: le(x, y) && le(y, z) ==> le(x, z))
  }

  ghost predicate SortedBy<T>(s: seq<T>, le: (T, T) -> bool) {
    forall i, j :: 0 <= i < j < |s| ==> le(s[i], s[j])
  }

  /** The elements of `s` whose key equals the key of `x`, in the order of `s`. */
  function ClassOf<T>(s: seq<T>, x: T, le: (T, T) -> bool): seq<T> {
    Filter(s, y => le(x, y) && le(y, x))
  }

  function Insert<T>(x: T, s: seq<T>, le: (T, T) -> bool): (r: seq<T>)
    ensures |r| == |s| + 1
  {
    if s == [] || le(x, s[0]) then [x] + s else [s[0]] + Insert(x, s[1..], le)
  }

  function Sort<T>(s: seq<T>, le: (T, T) -> bool): (r: seq<T>)
    ensures |r| == |s|
  {
    if s == [] then [] else Insert(s[0], Sort(s[1..], le), le)
  }

  lemma {:induction false} InsertElements<T>(x: T, s: seq<T>, le: (T, T) -> bool)
    ensures multiset(Insert(x, s, le)) == multiset{x} + multiset(s)
  {
    if s == [] || le(x, s[0]) {
    } else {
      InsertElements(x, s[1..], le);
      assert s == [s[0]] + s[1..];
    }
  }

  lemma {:induction false} SortElements<T>(s: seq<T>, le: (T, T) -> bool)
    ensures multiset(Sort(s, le)) == multiset(s)
  {
    if s != [] {
      SortElements(s[1..], le);
      InsertElements(s[0], Sort(s[1..], le), le);
      assert s == [s[0]] + s[1..];
    }
  }

  lemma {:induction false} InsertSorted<T(!new)>(x: T, s: seq<T>, le: (T, T) -> bool)
    requires TotalPreorder(le) && SortedBy(s, le)
    ensures SortedBy(Insert(x, s, le), le)
  {
    if s == [] || le(x, s[0]) {
      forall k | 0 <= k < |s| ensures le(s[0], s[k]) {
        assert k == 0 || le(s[0], s[k]);
      }
    } else {
      var rest := Insert(x, s[1..], le);
      InsertSorted(x, s[1..], le);
      InsertElements(x, s[1..], le);
      forall k | 0 <= k < |rest| ensures le(s[0], rest[k]) {
        assert rest[k] in multiset(rest);
        assert rest[k] == x || rest[k] in s[1..];
      }
    }
  }

  lemma {:induction false} InsertClass<T(!new)>(x: T, s: seq<T>, le: (T, T) -> bool, y: T)
    requires TotalPreorder(le) && SortedBy(s, le)
    ensures ClassOf(Insert(x, s, le), y, le) == ClassOf([x] + s, y, le)
  {
    var p := z => le(y, z) && le(z, y);
    if s == [] || le(x, s[0]) {
    } else {
      var rest := Insert(x, s[1..], le);
      InsertClass(x, s[1..], le, y);
      // x and s[0] have different keys, so at most one of them is in the class of y
      FilterConcat([s[0]], rest, p);
      FilterConcat([x], s, p);
      FilterConcat([x], s[1..], p);
      assert s == [s[0]] + s[1..];
      FilterConcat([s[0]], s[1..], p);
      assert !(p(x) && p(s[0]));
      assert Filter([x], p) == (if p(x) then [x] else []);
      assert Filter([s[0]], p) == (if p(s[0]) then [s[0]] else []);
    }
  }

  /** `Sort` returns a sorted permutation that keeps equal keys in their input order. */
  lemma {:induction false} SortIsStable<T(!new)>(s: seq<T>, le: (T, T) -> bool)
    requires TotalPreorder(le)
    ensures SortedBy(Sort(s, le), le)
    ensures multiset(Sort(s, le)) == multiset(s)
    ensures forall y :: ClassOf(Sort(s, le), y, le) == ClassOf(s, y, le)
  {
    if s == [] {
    } else {
      var rest := Sort(s[1..], le);
      SortIsStable(s[1..], le);
      InsertSorted(s[0], rest, le);
      InsertElements(s[0], rest, le);
      assert s == [s[0]] + s[1..];
      forall y ensures ClassOf(Sort(s, le), y, le) == ClassOf(s, y, le) {
        var p := z => le(y, z) && le(z, y);
        InsertClass(s[0], rest, le, y);
        FilterConcat([s[0]], rest, p);
        FilterConcat([s[0]], s[1..], p);
        assert ClassOf(rest, y, le) == ClassOf(s[1..], y, le);
      }
    }
  }

  /** Sorted sequences over the same classes are equal: stability leaves no freedom. */
  lemma {:induction false} StableSortUnique<T(!new)>(a: seq<T>, b: seq<T>, le: (T, T) -> bool)
    requires TotalPreorder(le) && SortedBy(a, le) && SortedBy(b, le)
    requires forall y :: ClassOf(a, y, le) == ClassOf(b, y, le)
    ensures a == b
    decreases |a|
  {
    if a != [] {
      SameClassesNonEmpty(a, b, le);
    }
    if b != [] {
      SameClassesNonEmpty(b, a, le);
      ClassHead(a, le);
      ClassHead(b, le);
      assert ClassOf(a, a[0], le) == ClassOf(b, a[0], le);
      assert ClassOf(a, b[0], le) == ClassOf(b, b[0], le);
      ClassMember(b, a[0], le);
      ClassMember(a, b[0], le);
      assert le(b[0], a[0]) && le(a[0], b[0]);
      ClassCongruent(b, a[0], b[0], le);
      assert a[0] == b[0];
      forall y ensures ClassOf(a[1..], y, le) == ClassOf(b[1..], y, le) {
        assert ClassOf(a, y, le) == ClassOf(b, y, le);
        if le(y, a[0]) && le(a[0], y) {
          assert ClassOf(a, y, le)[1..] == ClassOf(a[1..], y, le);
          assert ClassOf(b, y, le)[1..] == ClassOf(b[1..], y, le);
        }
      }
      StableSortUnique(a[1..], b[1..], le);
      assert a == [a[0]] + a[1..] && b == [b[0]] + b[1..];
    }
  }

  lemma SameClassesNonEmpty<T(!new)>(a: seq<T>, b: seq<T>, le: (T, T) -> bool)
    requires TotalPreorder(le) && a != []
    requires forall y :: ClassOf(a, y, le) == ClassOf(b, y, le)
    ensures b != []
  {
    ClassHead(a, le);
    assert ClassOf(a, a[0], le) == ClassOf(b, a[0], le);
  }

  /** The head of a nonempty sequence heads its own class. */
  lemma ClassHead<T(!new)>(s: seq<T>, le: (T, T) -> bool)
    requires TotalPreorder(le) && s != []
    ensures ClassOf(s, s[0], le) != [] && ClassOf(s, s[0], le)[0] == s[0]
  {
  }

  /** In a sorted sequence a nonempty class means the head is not after it. */
  lemma {:induction false} ClassMember<T(!new)>(s: seq<T>, x: T, le: (T, T) -> bool)
    requires TotalPreorder(le) && SortedBy(s, le) && s != []
    requires ClassOf(s, x, le) != []
    ensures le(s[0], x)
  {
    if le(x, s[0]) && le(s[0], x) {
    } else {
      assert ClassOf(s, x, le) == ClassOf(s[1..], x, le);
      assert s[1..] != [];
      ClassMember(s[1..], x, le);
      assert le(s[0], s[1]);
    }
  }

  lemma {:induction false} ClassCongruent<T(!new)>(s: seq<T>, x: T, y: T, le: (T, T) -> bool)
    requires TotalPreorder(le) && le(x, y) && le(y, x)
    ensures ClassOf(s, x, le) == ClassOf(s, y, le)
  {
    if s != [] {
      ClassCongruent(s[1..], x, y, le);
    }
  }

  ghost predicate Distinct<T>(s: seq<T>) {
    forall i, j :: 0 <= i < j < |s| ==> s[i] != s[j]
  }

  lemma {:induction false} DistinctCount<T>(s: seq<T>, x: T)
    requires Distinct(s)
    ensures multiset(s)[x] == if x in s then 1 else 0
  {
    if s != [] {
      assert s == [s[0]] + s[1..];
      assert forall k :: 1 <= k < |s| ==> s[0] != s[k];
      DistinctCount(s[1..], x);
    }
  }

  /** A permutation of distinct elements is distinct and has the same members. */
  lemma PermutationDistinct<T>(a: seq<T>, b: seq<T>)
    requires Distinct(a) && multiset(a) == multiset(b)
    ensures Distinct(b)
    ensures forall x :: x in a <==> x in b
  {
    forall i, j | 0 <= i < j < |b| ensures b[i] != b[j] {
      DistinctCount(a, b[j]);
      assert b == b[..j] + [b[j]] + b[j + 1..];
      assert b[i] in b[..j];
    }
    forall x ensures x in a <==> x in b {
      assert x in a <==> x in multiset(a);
      assert x in b <==> x in multiset(b);
    }
  }

  /** Where a permutation holds the first element, and what is left on both sides. */
  lemma FindAgain<T>(a: seq<T>, b: seq<T>) returns (j: nat)
    requires multiset(a) == multiset(b) && a != []
    ensures j < |b| && b == b[..j] + ([a[0]] + b[j + 1..])
    ensures multiset(a[1..]) == multiset(b[..j] + b[j + 1..])
  {
    var x := a[0];
    assert a == [x] + a[1..];
    assert x in multiset(a);
    j :| 0 <= j < |b| && b[j] == x;
    SplitAt(b, j);
    RemoveOne([], x, a[1..]);
    RemoveOne(b[..j], x, b[j + 1..]);
    assert [] + ([x] + a[1..]) == a && [] + a[1..] == a[1..];
  }

  lemma SplitAt<T>(b: seq<T>, j: nat)
    requires j < |b|
    ensures b == b[..j] + ([b[j]] + b[j + 1..])
  {
  }

  lemma RemoveOne<T>(before: seq<T>, x: T, after: seq<T>)
    ensures multiset(before + after) == multiset(before + ([x] + after)) - multiset{x}
  {
    assert multiset(before + ([x] + after)) == multiset(before) + (multiset{x} + multiset(after));
  }

  ghost predicate StrictlySorted<T>(s: seq<T>, le: (T, T) -> bool) {
    forall i, j :: 0 <= i < j < |s| ==> le(s[i], s[j]) && !le(s[j], s[i])
  }

  /** Without ties, being sorted leaves only one order for given elements. */
  lemma {:induction false} StrictOrderUnique<T>(a: seq<T>, b: seq<T>, le: (T, T) -> bool)
    requires StrictlySorted(a, le) && StrictlySorted(b, le)
    requires forall x :: x in a <==> x in b
    ensures a == b
    decreases |a|
  {
    assert b != [] ==> b[0] in b;
    if a != [] {
      assert a[0] in b;
      assert b[0] in a;
      var i :| 0 <= i < |b| && b[i] == a[0];
      var j :| 0 <= j < |a| && a[j] == b[0];
      assert a[0] == b[0];
      assert a == [a[0]] + a[1..] && b == [b[0]] + b[1..];
      forall x ensures x in a[1..] <==> x in b[1..] {
        assert x in a <==> x == a[0] || x in a[1..];
        assert x in b <==> x == b[0] || x in b[1..];
        assert a[0] !in a[1..] by { assert forall k :: 1 <= k < |a| ==> le(a[0], a[k]) && !le(a[k], a[0]); }
        assert b[0] !in b[1..] by { assert forall k :: 1 <= k < |b| ==> le(b[0], b[k]) && !le(b[k], b[0]); }
      }
      StrictOrderUnique(a[1..], b[1..], le);
    }
  }

  // ---- sorting positions ----

  function ByKey(key: nat -> int): (nat, nat) -> bool {
    (i: nat, j: nat) => key(i) <= key(j)
  }

  ghost predicate Ascending(ps: seq<nat>) {
    forall k, l :: 0 <= k < l < |ps| ==> ps[k] < ps[l]
  }

  /** By key, and by position among equal keys. */
  predicate Before(key: nat -> int, p: nat, q: nat) {
    key(p) < key(q) || (key(p) == key(q) && p < q)
  }

  ghost predicate Lexicographic(ps: seq<nat>, key: nat -> int) {
    forall k, l :: 0 <= k < l < |ps| ==> Before(key, ps[k], ps[l])
  }

  lemma ConsLexicographic(p: nat, ps: seq<nat>, key: nat -> int)
    requires Lexicographic(ps, key) && forall q <- ps :: Before(key, p, q)
    ensures Lexicographic([p] + ps, key)
  {
    hide Before;
    assert forall l :: 0 <= l < |ps| ==> ps[l] in ps;
  }

  lemma {:induction false} InsertLexicographic(x: nat, ps: seq<nat>, key: nat -> int)
    requires Lexicographic(ps, key) && forall p <- ps :: x < p
    ensures Lexicographic(Insert(x, ps, ByKey(key)), key)
    ensures forall p :: p in Insert(x, ps, ByKey(key)) <==> p == x || p in ps
  {
    if ps == [] || key(x) <= key(ps[0]) {
      forall q | q in ps ensures Before(key, x, q) {
        var l :| 0 <= l < |ps| && ps[l] == q;
        assert l == 0 || Before(key, ps[0], ps[l]);
      }
      ConsLexicographic(x, ps, key);
    } else {
      var rest := Insert(x, ps[1..], ByKey(key));
      assert ps == [ps[0]] + ps[1..];
      assert forall p <- ps[1..] :: p in ps;
      InsertLexicographic(x, ps[1..], key);
      forall q | q in rest ensures Before(key, ps[0], q) {
        if q != x {
          var l :| 0 <= l < |ps[1..]| && ps[1..][l] == q;
          assert Before(key, ps[0], ps[l + 1]);
        }
      }
      ConsLexicographic(ps[0], rest, key);
    }
  }

  lemma {:induction false} SortLexicographic(ps: seq<nat>, key: nat -> int)
    requires Ascending(ps)
    ensures Lexicographic(Sort(ps, ByKey(key)), key)
    ensures forall p :: p in Sort(ps, ByKey(key)) <==> p in ps
  {
    if ps != [] {
      SortLexicographic(ps[1..], key);
      assert ps == [ps[0]] + ps[1..];
      InsertLexicographic(ps[0], Sort(ps[1..], ByKey(key)), key);
    }
  }

  /** Sorting what stands at positions is sorting the positions. */
  ghost predicate Standing<T>(xs: seq<T>, ps: seq<nat>, at: nat -> T) {
    |xs| == |ps| && forall k :: 0 <= k < |ps| ==> xs[k] == at(ps[k])
  }

  lemma {:induction false} InsertStanding<T>(x: nat, xs: seq<T>, ps: seq<nat>, at: nat -> T, le: (T, T) -> bool,
                                             key: nat -> int)
    requires Standing(xs, ps, at)
    requires forall i: nat, j: nat :: le(at(i), at(j)) <==> key(i) <= key(j)
    ensures Standing(Insert(at(x), xs, le), Insert(x, ps, ByKey(key)), at)
  {
    if ps != [] && !(key(x) <= key(ps[0])) {
      assert !le(at(x), at(ps[0]));
      InsertStanding(x, xs[1..], ps[1..], at, le, key);
    } else if ps != [] {
      assert le(at(x), at(ps[0]));
    }
  }

  lemma {:induction false} SortStanding<T>(xs: seq<T>, ps: seq<nat>, at: nat -> T, le: (T, T) -> bool, key: nat -> int)
    requires Standing(xs, ps, at)
    requires forall i: nat, j: nat :: le(at(i), at(j)) <==> key(i) <= key(j)
    ensures Standing(Sort(xs, le), Sort(ps, ByKey(key)), at)
  {
    if ps != [] {
      SortStanding(xs[1..], ps[1..], at, le, key);
      InsertStanding(ps[0], Sort(xs[1..], le), Sort(ps[1..], ByKey(key)), at, le, key);
    }
  }
}
