/** Stable sorting and the order of strings by character. */
module Sorting {

  /** A strict weak order: elements neither below each other are ties. */
  ghost predicate Order<T(!new)>(less: (T, T) -> bool) {
    && (forall a, b :: less(a, b) ==> !less(b, a))
    && (forall a, b, c :: less(a, c) ==> less(a, b) || less(b, c))
  }

  ghost predicate Sorted<T>(items: seq<T>, less: (T, T) -> bool) {
    forall i, j | 0 <= i < j < |items| :: !less(items[j], items[i])
  }

  function Insert<T>(x: T, sorted: seq<T>, less: (T, T) -> bool): seq<T> {
    if sorted == [] then [x]
    else if less(sorted[0], x) then [sorted[0]] + Insert(x, sorted[1..], less)
    else [x] + sorted
  }

  /** `sorted` with the comparison `less`: ties keep their order. */
  function Sort<T>(items: seq<T>, less: (T, T) -> bool): seq<T> {
    if items == [] then [] else Insert(items[0], Sort(items[1..], less), less)
  }

  function Select<T>(items: seq<T>, keep: T -> bool): seq<T> {
    if items == [] then [] else (if keep(items[0]) then [items[0]] else []) + Select(items[1..], keep)
  }

  lemma {:induction false} InsertPermutes<T>(x: T, sorted: seq<T>, less: (T, T) -> bool)
    ensures multiset(Insert(x, sorted, less)) == multiset(sorted) + multiset{x}
  {
    if sorted != [] && less(sorted[0], x) {
      InsertPermutes(x, sorted[1..], less);
      assert sorted == [sorted[0]] + sorted[1..];
    }
  }

  lemma {:induction false} SortPermutes<T>(items: seq<T>, less: (T, T) -> bool)
    ensures multiset(Sort(items, less)) == multiset(items)
    ensures |Sort(items, less)| == |items|
  {
    if items != [] {
      SortPermutes(items[1..], less);
      InsertPermutes(items[0], Sort(items[1..], less), less);
      assert items == [items[0]] + items[1..];
    }
    assert |multiset(Sort(items, less))| == |multiset(items)|;
  }

  lemma {:induction false} SameMember<T>(items: seq<T>, less: (T, T) -> bool, x: T)
    ensures x in Sort(items, less) <==> x in items
  {
    SortPermutes(items, less);
    assert x in multiset(Sort(items, less)) <==> x in multiset(items);
  }

  lemma {:induction false} InsertSorted<T(!new)>(x: T, sorted: seq<T>, less: (T, T) -> bool)
    requires Order(less) && Sorted(sorted, less)
    ensures Sorted(Insert(x, sorted, less), less)
  {
    if sorted != [] && less(sorted[0], x) {
      var rest := Insert(x, sorted[1..], less);
      InsertSorted(x, sorted[1..], less);
      InsertPermutes(x, sorted[1..], less);
      forall j | 0 <= j < |rest| ensures !less(rest[j], sorted[0]) {
        assert rest[j] in multiset(sorted[1..]) + multiset{x};
      }
    }
  }

  lemma {:induction false} SortSorted<T(!new)>(items: seq<T>, less: (T, T) -> bool)
    requires Order(less)
    ensures Sorted(Sort(items, less), less)
  {
    if items != [] {
      SortSorted(items[1..], less);
      InsertSorted(items[0], Sort(items[1..], less), less);
    }
  }

  /** Selecting one class of ties from the sorted list gives them in their original order. */
  lemma {:induction false} SortStable<T(!new)>(items: seq<T>, less: (T, T) -> bool, keep: T -> bool)
    requires forall a, b | keep(a) && keep(b) :: !less(a, b)
    ensures Select(Sort(items, less), keep) == Select(items, keep)
  {
    if items != [] {
      SortStable(items[1..], less, keep);
      InsertStable(items[0], Sort(items[1..], less), less, keep);
    }
  }

  lemma {:induction false} SelectFirst<T>(x: T, rest: seq<T>, keep: T -> bool)
    ensures Select([x] + rest, keep) == (if keep(x) then [x] else []) + Select(rest, keep)
  {
    assert ([x] + rest)[1..] == rest;
  }

  lemma {:induction false} InsertStable<T(!new)>(x: T, sorted: seq<T>, less: (T, T) -> bool, keep: T -> bool)
    requires forall a, b | keep(a) && keep(b) :: !less(a, b)
    ensures Select(Insert(x, sorted, less), keep) == (if keep(x) then [x] else []) + Select(sorted, keep)
  {
    if sorted != [] && less(sorted[0], x) {
      InsertStable(x, sorted[1..], less, keep);
      assert !(keep(sorted[0]) && keep(x));
      SelectFirst(sorted[0], Insert(x, sorted[1..], less), keep);
    } else {
      SelectFirst(x, sorted, keep);
    }
  }

  // ---------- strings ----------

  /** Strings compare by their first differing character. */
  predicate Less(a: string, b: string) {
    b != [] && (a == [] || a[0] < b[0] || (a[0] == b[0] && Less(a[1..], b[1..])))
  }

  lemma {:induction false} LessAsymmetric(a: string, b: string)
    ensures !(Less(a, b) && Less(b, a))
    ensures a != b ==> Less(a, b) || Less(b, a)
  {
    if a != [] && b != [] && a[0] == b[0] {
      LessAsymmetric(a[1..], b[1..]);
      assert a == [a[0]] + a[1..] && b == [b[0]] + b[1..];
    }
  }

  lemma {:induction false} HeadsAgree(a: string, b: string, k: nat)
    requires 0 < k <= |a| && k <= |b| && a[..k] == b[..k]
    ensures a[0] == b[0]
  {
    assert a[0] == a[..k][0] && b[0] == b[..k][0];
  }

  /** It is the order of the first difference; a beginning comes before the whole. */
  lemma {:induction false} LessExactly(a: string, b: string)
    ensures Less(a, b) <==> exists k :: 0 <= k <= |a| && k < |b| && a[..k] == b[..k] && (k == |a| || a[k] < b[k])
  {
    if a != "" && b != "" && a[0] == b[0] {
      LessExactly(a[1..], b[1..]);
      if k :| 0 <= k <= |a| && k < |b| && a[..k] == b[..k] && (k == |a| || a[k] < b[k]) {
        assert k > 0;
        assert a[1..][..k - 1] == a[..k][1..] && b[1..][..k - 1] == b[..k][1..];
      }
      if j :| 0 <= j <= |a[1..]| && j < |b[1..]| && a[1..][..j] == b[1..][..j]
              && (j == |a[1..]| || a[1..][j] < b[1..][j]) {
        assert a[..j + 1] == [a[0]] + a[1..][..j] && b[..j + 1] == [b[0]] + b[1..][..j];
      }
    } else if b != "" {
      assert a[..0] == b[..0];
      if k :| 0 < k <= |a| && k < |b| && a[..k] == b[..k] {
        HeadsAgree(a, b, k);
        assert false;
      }
    }
  }

  lemma {:induction false} LessSplits(a: string, b: string, c: string)
    requires Less(a, c)
    ensures Less(a, b) || Less(b, c)
  {
    if a != [] && b != [] && a[0] == b[0] == c[0] {
      LessSplits(a[1..], b[1..], c[1..]);
    }
  }

  lemma {:induction false} LessIsOrder()
    ensures Order(Less)
  {
    forall a, b ensures Less(a, b) ==> !Less(b, a) {
      LessAsymmetric(a, b);
    }
    forall a, b, c ensures Less(a, c) ==> Less(a, b) || Less(b, c) {
      if Less(a, c) {
        LessSplits(a, b, c);
      }
    }
  }

  ghost predicate Ascending(items: seq<string>) {
    forall i, j | 0 <= i < j < |items| :: Less(items[i], items[j])
  }

  /** An ascending list is determined by its elements. */
  lemma {:induction false} AscendingUnique(a: seq<string>, b: seq<string>)
    requires Ascending(a) && Ascending(b) && forall x :: x in a <==> x in b
    ensures a == b
  {
    if a == [] || b == [] {
      HasMember(a);
      HasMember(b);
    } else {
      FirstIsLeast(a, b);
      TailMembers(a, b);
      AscendingUnique(a[1..], b[1..]);
      assert a == [a[0]] + a[1..] && b == [b[0]] + b[1..];
    }
  }

  lemma {:induction false} HasMember(items: seq<string>)
    ensures items != [] ==> exists x :: x in items
  {
    assert items != [] ==> items[0] in items;
  }

  lemma {:induction false} FirstIsLeast(a: seq<string>, b: seq<string>)
    requires Ascending(a) && Ascending(b) && a != [] && b != [] && forall x :: x in a <==> x in b
    ensures a[0] == b[0]
  {
    assert a[0] in b && b[0] in a;
    var i :| 0 <= i < |b| && b[i] == a[0];
    var j :| 0 <= j < |a| && a[j] == b[0];
    LessAsymmetric(a[0], b[0]);
  }

  lemma {:induction false} TailMembers(a: seq<string>, b: seq<string>)
    requires Ascending(a) && Ascending(b) && a != [] && b != [] && a[0] == b[0] && forall x :: x in a <==> x in b
    ensures forall x :: x in a[1..] <==> x in b[1..]
  {
    forall x ensures x in a[1..] <==> x in b[1..] {
      TailMember(a, x);
      TailMember(b, x);
    }
  }

  lemma {:induction false} TailMember(a: seq<string>, x: string)
    requires Ascending(a) && a != []
    ensures x in a[1..] <==> x in a && x != a[0]
  {
    LessAsymmetric(a[0], a[0]);
    assert a == [a[0]] + a[1..];
  }

  /** `sorted({...})` */
  method SortSet(items: set<string>) returns (output: seq<string>)
    ensures Ascending(output) && forall x :: x in output <==> x in items
  {
    output := [];
    var remaining := items;
    while remaining != {}
      invariant remaining <= items && Ascending(output)
      invariant forall x :: x in output <==> x in items && x !in remaining
      decreases remaining
    {
      var x :| x in remaining;
      output := Place(x, output);
      remaining := remaining - {x};
    }
  }

  method Place(x: string, items: seq<string>) returns (output: seq<string>)
    requires Ascending(items) && x !in items
    ensures Ascending(output) && forall y :: y in output <==> y in items || y == x
  {
    var i := 0;
    while i < |items| && Less(items[i], x)
      invariant i <= |items| && forall k | 0 <= k < i :: Less(items[k], x)
    {
      i := i + 1;
    }
    output := items[..i] + [x] + items[i..];
    PlaceAscends(x, items, i);
    assert items == items[..i] + items[i..];
  }

  lemma {:induction false} PlaceAscends(x: string, items: seq<string>, i: nat)
    requires Ascending(items) && i <= |items| && x !in items
    requires forall k | 0 <= k < i :: Less(items[k], x)
    requires i < |items| ==> !Less(items[i], x)
    ensures Ascending(items[..i] + [x] + items[i..])
  {
    forall k | i <= k < |items| ensures Less(x, items[k]) {
      LessAsymmetric(items[i], x);
      if k > i {
        LessSplits(items[i], x, items[k]);
      }
    }
  }
}
