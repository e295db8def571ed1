/** Python's stable sort, and text order. */
module StableSort {

  // --- Stable sort ---------------------------------------------------------

  function Insert<T>(x: T, s: seq<T>, less: (T, T) -> bool): seq<T> {
    if s == [] || !less(s[0], x) then [x] + s else [s[0]] + Insert(x, s[1..], less)
  }

  function Sorted<T>(s: seq<T>, less: (T, T) -> bool): seq<T> {
    if s == [] then [] else Insert(s[0], Sorted(s[1..], less), less)
  }

  ghost predicate WeakOrder<T(!new)>(less: (T, T) -> bool) {
    && (forall x, y :: less(x, y) ==> !less(y, x))
    && (forall x, y, z :: !less(y, x) && !less(z, y) ==> !less(z, x))
  }

  ghost predicate Ordered<T>(s: seq<T>, less: (T, T) -> bool) {
    forall i, j :: 0 <= i < j < |s| ==> !less(s[j], s[i])
  }

  lemma {:induction false} InsertKeeps<T>(x: T, s: seq<T>, less: (T, T) -> bool)
    ensures multiset(Insert(x, s, less)) == multiset{x} + multiset(s)
  {
    if s != [] && less(s[0], x) {
      InsertKeeps(x, s[1..], less);
      assert s == [s[0]] + s[1..];
    }
  }

  lemma {:induction false} SortedKeeps<T>(s: seq<T>, less: (T, T) -> bool)
    ensures multiset(Sorted(s, less)) == multiset(s)
  {
    if s != [] {
      SortedKeeps(s[1..], less);
      InsertKeeps(s[0], Sorted(s[1..], less), less);
      assert s == [s[0]] + s[1..];
    }
  }

  lemma {:induction false} InsertOrders<T(!new)>(x: T, s: seq<T>, less: (T, T) -> bool)
    requires WeakOrder(less) && Ordered(s, less)
    ensures Ordered(Insert(x, s, less), less)
  {
    if s == [] || !less(s[0], x) {
    } else {
      var rest := Insert(x, s[1..], less);
      InsertOrders(x, s[1..], less);
      InsertKeeps(x, s[1..], less);
      forall j | 0 <= j < |rest| ensures !less(rest[j], s[0]) {
        assert rest[j] in multiset(rest);
        assert rest[j] == x || rest[j] in s[1..];
      }
    }
  }

  lemma {:induction false} SortedOrders<T(!new)>(s: seq<T>, less: (T, T) -> bool)
    requires WeakOrder(less)
    ensures Ordered(Sorted(s, less), less)
  {
    if s != [] {
      SortedOrders(s[1..], less);
      InsertOrders(s[0], Sorted(s[1..], less), less);
    }
  }

  /** The elements of one kind, in their order. */
  function Filter<T>(s: seq<T>, keep: T -> bool): seq<T> {
    if s == [] then [] else Only(s[0], keep) + Filter(s[1..], keep)
  }

  lemma {:induction false} FilterMeaning<T>(s: seq<T>, keep: T -> bool, x: T)
    ensures x in Filter(s, keep) <==> x in s && keep(x)
  {
    if s != [] {
      FilterMeaning(s[1..], keep, x);
    }
  }

  function Only<T>(x: T, keep: T -> bool): seq<T> {
    if keep(x) then [x] else []
  }

  lemma FilterCons<T>(x: T, s: seq<T>, keep: T -> bool)
    ensures Filter([x] + s, keep) == Only(x, keep) + Filter(s, keep)
  {
    assert ([x] + s)[1..] == s;
  }

  lemma {:induction false} InsertStable<T(!new)>(x: T, s: seq<T>, less: (T, T) -> bool, keep: T -> bool)
    requires forall a, b :: keep(a) && keep(b) ==> !less(a, b)
    ensures Filter(Insert(x, s, less), keep) == Only(x, keep) + Filter(s, keep)
  {
    if s == [] || !less(s[0], x) {
      FilterCons(x, s, keep);
    } else {
      InsertStable(x, s[1..], less, keep);
      FilterCons(s[0], Insert(x, s[1..], less), keep);
    }
  }

  /** Elements that compare equal stay in the order they came in. */
  lemma {:induction false} SortedStable<T(!new)>(s: seq<T>, less: (T, T) -> bool, keep: T -> bool)
    requires forall a, b :: keep(a) && keep(b) ==> !less(a, b)
    ensures Filter(Sorted(s, less), keep) == Filter(s, keep)
  {
    if s != [] {
      SortedStable(s[1..], less, keep);
      InsertStable(s[0], Sorted(s[1..], less), less, keep);
    }
  }

  // --- Text order ----------------------------------------------------------

  /** Code point by code point, as Python compares text. */
  predicate TextBefore(a: string, b: string) {
    if b == "" then false
    else if a == "" then true
    else if a[0] != b[0] then a[0] < b[0]
    else TextBefore(a[1..], b[1..])
  }

  /** They agree up to there, and there the first has ended or has the lower character. */
  ghost predicate LowerAt(a: string, b: string, k: nat) {
    k < |b| && k <= |a| && a[..k] == b[..k] && (k == |a| || a[k] < b[k])
  }

  lemma {:induction false} TextBeforeExactly(a: string, b: string)
    ensures TextBefore(a, b) <==> exists k: nat :: LowerAt(a, b, k)
  {
    if a == "" || b == "" || a[0] != b[0] {
      if TextBefore(a, b) {
        assert LowerAt(a, b, 0);
      }
      forall k: nat | 0 < k && k < |b| && k <= |a| ensures a[..k][0] == a[0] && b[..k][0] == b[0] {
      }
    } else {
      TextBeforeExactly(a[1..], b[1..]);
      if k: nat :| LowerAt(a, b, k) {
        assert k > 0 && a[..k][1..] == a[1..][..k - 1] && b[..k][1..] == b[1..][..k - 1];
        assert LowerAt(a[1..], b[1..], k - 1);
      }
      if k: nat :| LowerAt(a[1..], b[1..], k) {
        assert a[..k + 1] == [a[0]] + a[1..][..k] && b[..k + 1] == [b[0]] + b[1..][..k];
        assert LowerAt(a, b, k + 1);
      }
    }
  }

  lemma {:induction false} TextAsymmetric(a: string, b: string)
    requires TextBefore(a, b)
    ensures !TextBefore(b, a)
  {
    if a != "" && a[0] == b[0] {
      TextAsymmetric(a[1..], b[1..]);
    }
  }

  lemma {:induction false} TextTransitive(a: string, b: string, c: string)
    requires !TextBefore(b, a) && !TextBefore(c, b)
    ensures !TextBefore(c, a)
  {
    if a != "" && b != "" && c != "" && a[0] == b[0] == c[0] {
      TextTransitive(a[1..], b[1..], c[1..]);
    }
  }
}
