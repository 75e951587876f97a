/**
 The general-purpose helpers of the popup script: the predicate combinator
 `not`, the type guard `isNotNull`, the `filter` they are used with, and
 `removeDuplicates`.
 */
module Utils {
  import opened Wrappers

  /** `not(predicate)`: a predicate that holds exactly where `p` does not. */
  function Not<T(!new)>(p: T -> bool): (r: T -> bool)
    ensures forall x :: r(x) == !p(x)
  {
    x => !p(x)
  }

  /** `isNotNull(argument)`: the value is neither `null` nor `undefined`. */
  predicate IsNotNull<T>(argument: Option<T>) {
    argument.Some?
  }

  /** `s.filter(p)`: the elements satisfying `p`, in their original order. */
  function Filter<T(!new)>(s: seq<T>, p: T -> bool): (r: seq<T>)
    ensures |r| <= |s|
    ensures forall x :: x in r <==> x in s && p(x)
  {
    if s == [] then []
    else if p(s[0]) then [s[0]] + Filter(s[1..], p)
    else Filter(s[1..], p)
  }

  /** Filtering by `p` and by `Not(p)` splits `s` into two parts that together hold every element of `s`. */
  lemma {:induction false} FilterSplits<T(!new)>(s: seq<T>, p: T -> bool)
    ensures multiset(Filter(s, p)) + multiset(Filter(s, Not(p))) == multiset(s)
    ensures |Filter(s, p)| + |Filter(s, Not(p))| == |s|
  {
    if s != [] {
      FilterSplits(s[1..], p);
      assert s == [s[0]] + s[1..];
    }
  }

  /** A single element is kept exactly when it passes. */
  lemma FilterSingleton<T(!new)>(x: T, p: T -> bool)
    ensures Filter([x], p) == if p(x) then [x] else []
  {
    assert [x][1..] == [];
  }

  /** A filter every element passes keeps the sequence as it is. */
  lemma {:induction false} FilterKeepsAll<T(!new)>(s: seq<T>, p: T -> bool)
    requires forall x :: x in s ==> p(x)
    ensures Filter(s, p) == s
  {
    if s != [] {
      FilterKeepsAll(s[1..], p);
    }
  }

  /** Filtering a concatenation filters each part and concatenates the results: filtering keeps order. */
  lemma {:induction false} FilterAppend<T(!new)>(a: seq<T>, b: seq<T>, p: T -> bool)
    ensures Filter(a + b, p) == Filter(a, p) + Filter(b, p)
  {
    if a == [] {
      assert a + b == b;
    } else {
      FilterAppend(a[1..], b, p);
      assert (a + b)[0] == a[0] && (a + b)[1..] == a[1..] + b;
      if p(a[0]) {
        assert Filter(a + b, p) == [a[0]] + Filter(a[1..] + b, p);
      } else {
        assert Filter(a + b, p) == Filter(a[1..] + b, p);
      }
    }
  }

  /**
   `s.filter(isNotNull)`: the present values without their wrapper, one per
   non-null element and in the order of `s`.
   */
  function FilterNotNull<T(!new)>(s: seq<Option<T>>): (r: seq<T>)
    ensures |r| == |Filter(s, IsNotNull)|
    ensures forall k :: 0 <= k < |r| ==> Filter(s, IsNotNull)[k] == Some(r[k])
    ensures forall x :: x in r <==> Some(x) in s
  {
    if s == [] then []
    else if IsNotNull(s[0]) then [s[0].value] + FilterNotNull(s[1..])
    else FilterNotNull(s[1..])
  }

  /** No value occurs twice in `s`. */
  predicate NoDuplicates<T(==)>(s: seq<T>) {
    forall i, j :: 0 <= i < j < |s| ==> s[i] != s[j]
  }

  /**
   `new Set(...)` fed with `rest` after `inserted`: values are added left to
   right and one already present keeps its place. A JavaScript Set iterates
   in insertion order, so this sequence is also what `Array.from` yields.
   */
  function InsertAll<T(==,!new)>(inserted: seq<T>, rest: seq<T>): (r: seq<T>)
    requires NoDuplicates(inserted)
    ensures NoDuplicates(r)
    ensures forall x :: x in r <==> x in inserted || x in rest
    ensures |inserted| <= |r| <= |inserted| + |rest| && r[..|inserted|] == inserted
    decreases |rest|
  {
    if rest == [] then inserted
    else if rest[0] in inserted then InsertAll(inserted, rest[1..])
    else InsertAll(inserted + [rest[0]], rest[1..])
  }

  /** `removeDuplicates(array)`, that is `Array.from(new Set(array))`. */
  function RemoveDuplicates<T(==,!new)>(values: seq<T>): (r: seq<T>)
    ensures NoDuplicates(r)
    ensures forall x :: x in r <==> x in values
    ensures |r| <= |values|
  {
    InsertAll([], values)
  }

  /** The elements of `s` at the indices where they occur for the first time, in index order. */
  function FirstOccurrences<T(==)>(s: seq<T>): seq<T>
  {
    if s == [] then []
    else
      var init := s[..|s| - 1];
      if s[|s| - 1] in init then FirstOccurrences(init) else FirstOccurrences(init) + [s[|s| - 1]]
  }

  lemma {:induction false} FirstOccurrencesMembers<T>(s: seq<T>)
    ensures forall x :: x in FirstOccurrences(s) <==> x in s
  {
    if s != [] {
      var init := s[..|s| - 1];
      FirstOccurrencesMembers(init);
      assert s == init + [s[|s| - 1]];
    }
  }

  lemma {:induction false} InsertAllAfterFirstOccurrences<T(!new)>(done: seq<T>, rest: seq<T>)
    requires NoDuplicates(FirstOccurrences(done))
    ensures InsertAll(FirstOccurrences(done), rest) == FirstOccurrences(done + rest)
    decreases |rest|
  {
    if rest == [] {
      assert done + rest == done;
    } else {
      var next := done + [rest[0]];
      FirstOccurrencesMembers(done);
      assert next[..|next| - 1] == done;
      assert NoDuplicates(FirstOccurrences(next)) by {
        if rest[0] !in done {
          assert FirstOccurrences(next) == FirstOccurrences(done) + [rest[0]];
        }
      }
      InsertAllAfterFirstOccurrences(next, rest[1..]);
      assert next + rest[1..] == done + rest;
    }
  }

  /** The result keeps each value at the place of its first occurrence: the order is that of the input. */
  lemma RemoveDuplicatesKeepsFirstOccurrences<T(!new)>(values: seq<T>)
    ensures RemoveDuplicates(values) == FirstOccurrences(values)
  {
    assert FirstOccurrences<T>([]) == [];
    InsertAllAfterFirstOccurrences([], values);
    assert [] + values == values;
  }

  lemma NoDuplicatesSplit<T>(a: seq<T>, b: seq<T>)
    requires NoDuplicates(a + b)
    ensures NoDuplicates(a)
    ensures forall x :: x in b ==> x !in a
  {
    forall i, j | 0 <= i < j < |a| ensures a[i] != a[j] {
      assert (a + b)[i] == a[i] && (a + b)[j] == a[j];
    }
    forall i, j | 0 <= i < |a| && 0 <= j < |b| ensures a[i] != b[j] {
      assert (a + b)[i] == a[i] && (a + b)[|a| + j] == b[j];
    }
  }

  lemma {:induction false} InsertAllDistinct<T(!new)>(inserted: seq<T>, rest: seq<T>)
    requires NoDuplicates(inserted + rest)
    ensures NoDuplicates(inserted) && InsertAll(inserted, rest) == inserted + rest
    decreases |rest|
  {
    NoDuplicatesSplit(inserted, rest);
    if rest == [] {
      assert inserted + rest == inserted;
    } else {
      var next := inserted + [rest[0]];
      assert next + rest[1..] == inserted + rest;
      InsertAllDistinct(next, rest[1..]);
    }
  }

  /** A sequence without repeated values is left as it is; so removing duplicates twice is removing them once. */
  lemma RemoveDuplicatesIdempotent<T(!new)>(values: seq<T>)
    ensures NoDuplicates(values) ==> RemoveDuplicates(values) == values
    ensures RemoveDuplicates(RemoveDuplicates(values)) == RemoveDuplicates(values)
  {
    var once := RemoveDuplicates(values);
    InsertAllDistinct([], once);
    assert [] + once == once;
    if NoDuplicates(values) {
      InsertAllDistinct([], values);
      assert [] + values == values;
    }
  }
}
