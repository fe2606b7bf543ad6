/** Order-preserving collection operations of ERXArrayUtilities over sequences. A Java
    collection is a `seq`; an NSMutableArray that an operation changes in place is a
    `MutableArray` object whose `elements` the operation reassigns. */
module ArrayUtilities {
  import opened Wrappers
  import JavaInt

  // ---------------------------------------------------------------------------
  // Positions
  // ---------------------------------------------------------------------------

  /** indexOf: the position of the first occurrence of `x`, `None` where Java answers -1. */
  function IndexOf<T(==)>(s: seq<T>, x: T): (r: Option<nat>)
    ensures r.None? <==> x !in s
    ensures r.Some? ==> r.value < |s| && s[r.value] == x && x !in s[..r.value]
  {
    if s == [] then None
    else if s[0] == x then Some(0)
    else
      match IndexOf(s[1..], x)
      case None => None
      case Some(i) =>
        assert s[..i + 1] == [s[0]] + s[1..][..i];
        Some(i + 1)
  }

  /** The sequence without the element at `i` (removeObjectAtIndex). */
  function RemoveAt<T>(s: seq<T>, i: nat): (r: seq<T>)
    requires i < |s|
    ensures |r| == |s| - 1
  {
    s[..i] + s[i + 1..]
  }

  /** The sequence with `x` inserted before position `i` (insertObjectAtIndex). */
  function Insert<T>(s: seq<T>, i: nat, x: T): (r: seq<T>)
    requires i <= |s|
    ensures |r| == |s| + 1
  {
    s[..i] + [x] + s[i..]
  }

  /** The sequence with the elements at `i` and `j` exchanged. */
  function Swap<T>(s: seq<T>, i: nat, j: nat): (r: seq<T>)
    requires i < |s| && j < |s|
  {
    s[i := s[j]][j := s[i]]
  }

  /** An exchange moves exactly the two elements and undoes itself. */
  lemma SwapSpec<T>(s: seq<T>, i: nat, j: nat)
    requires i < |s| && j < |s|
    ensures |Swap(s, i, j)| == |s|
    ensures Swap(s, i, j)[i] == s[j] && Swap(s, i, j)[j] == s[i]
    ensures forall k :: 0 <= k < |s| && k != i && k != j ==> Swap(s, i, j)[k] == s[k]
    ensures Swap(Swap(s, i, j), i, j) == s
    ensures i == j ==> Swap(s, i, j) == s
  {
  }

  /** An exchange is a permutation. */
  lemma SwapPermutes<T>(s: seq<T>, i: nat, j: nat)
    requires i < |s| && j < |s|
    ensures multiset(Swap(s, i, j)) == multiset(s)
  {
    var t := s[i := s[j]];
    assert multiset(t) == multiset(s) - multiset{s[i]} + multiset{s[j]};
  }

  // ---------------------------------------------------------------------------
  // arrayMinusObject and arrayMinusArray
  // ---------------------------------------------------------------------------

  /** The sequence with every occurrence of `x` removed, the rest in order. */
  function Without<T(==)>(s: seq<T>, x: T): seq<T> {
    if s == [] then [] else Without(s[..|s| - 1], x) + (if s[|s| - 1] == x then [] else [s[|s| - 1]])
  }

  /** Removal drops exactly the occurrences of `x` and keeps every other multiplicity. */
  lemma {:induction false} WithoutSpec<T>(s: seq<T>, x: T)
    ensures x !in Without(s, x)
    ensures forall y :: y != x ==> multiset(Without(s, x))[y] == multiset(s)[y]
    ensures |Without(s, x)| == |s| - multiset(s)[x]
  {
    if s != [] {
      var init := s[..|s| - 1];
      WithoutSpec(init, x);
      assert s == init + [s[|s| - 1]];
    }
  }

  /** Removal keeps the order of what remains: it distributes over concatenation. */
  lemma {:induction false} WithoutConcat<T>(a: seq<T>, b: seq<T>, x: T)
    ensures Without(a + b, x) == Without(a, x) + Without(b, x)
    decreases |b|
  {
    if b == [] {
      assert a + b == a;
    } else {
      var init := b[..|b| - 1];
      WithoutConcat(a, init, x);
      assert (a + b)[..|a + b| - 1] == a + init;
    }
  }

  /** Removal on a sequence grown by an occurrence of `x`. */
  lemma WithoutSnoc<T>(a: seq<T>, x: T)
    ensures Without(a + [x], x) == Without(a, x)
  {
    assert (a + [x])[..|a|] == a;
    assert Without(a, x) + [] == Without(a, x);
  }

  /** Removing one occurrence of `x` does not change what removing all of them gives. */
  lemma WithoutRemoveAt<T>(s: seq<T>, i: nat, x: T)
    requires i < |s| && s[i] == x
    ensures Without(RemoveAt(s, i), x) == Without(s, x)
  {
    var a, b := s[..i], s[i + 1..];
    assert RemoveAt(s, i) == a + b;
    calc {
      Without(s, x);
      { assert s == (a + [x]) + b; }
      Without((a + [x]) + b, x);
      { WithoutConcat(a + [x], b, x); }
      Without(a + [x], x) + Without(b, x);
      { WithoutSnoc(a, x); }
      Without(a, x) + Without(b, x);
      { WithoutConcat(a, b, x); }
      Without(a + b, x);
    }
  }

  /** A sequence without `x` is its own removal. */
  lemma {:induction false} WithoutAbsent<T>(s: seq<T>, x: T)
    requires x !in s
    ensures Without(s, x) == s
    decreases |s|
  {
    if s != [] {
      WithoutAbsent(s[..|s| - 1], x);
      assert s == s[..|s| - 1] + [s[|s| - 1]];
    }
  }

  /** arrayMinusObject: a null object (`None`) gives a copy; otherwise the first remaining
      occurrence is removed until none is left. */
  method ArrayMinusObject<T(==)>(values: seq<T>, item: Option<T>) returns (r: seq<T>)
    ensures item.None? ==> r == values
    ensures item.Some? ==> r == Without(values, item.value)
  {
    r := values;
    if item.Some? {
      var x := item.value;
      var removed := true;
      while removed
        invariant Without(r, x) == Without(values, x)
        invariant !removed ==> x !in r
        decreases |r| + (if removed then 1 else 0)
      {
        removed := false;
        var i := IndexOf(r, x);
        if i.Some? {
          WithoutRemoveAt(r, i.value, x);
          r := RemoveAt(r, i.value);
          removed := true;
        }
      }
      WithoutAbsent(r, x);
    }
  }

  /** Collection.removeAll: the elements of `s` that are not in `m`, in order. */
  function RemoveAll<T(==)>(s: seq<T>, m: seq<T>): seq<T> {
    if s == [] then [] else RemoveAll(s[..|s| - 1], m) + (if s[|s| - 1] in m then [] else [s[|s| - 1]])
  }

  /** Subtraction drops every element of `m` and keeps every other multiplicity. */
  lemma {:induction false} RemoveAllSpec<T>(s: seq<T>, m: seq<T>)
    ensures forall y :: y in m ==> y !in RemoveAll(s, m)
    ensures forall y :: y !in m ==> multiset(RemoveAll(s, m))[y] == multiset(s)[y]
    decreases |s|
  {
    if s != [] {
      var init := s[..|s| - 1];
      RemoveAllSpec(init, m);
      assert s == init + [s[|s| - 1]];
    }
  }

  /** Subtraction keeps the order of what remains: it distributes over concatenation. */
  lemma {:induction false} RemoveAllConcat<T>(s: seq<T>, rest: seq<T>, m: seq<T>)
    ensures RemoveAll(s + rest, m) == RemoveAll(s, m) + RemoveAll(rest, m)
    decreases |rest|
  {
    if rest == [] {
      assert s + rest == s;
    } else {
      var init := rest[..|rest| - 1];
      RemoveAllConcat(s, init, m);
      assert (s + rest)[..|s + rest| - 1] == s + init;
    }
  }

  /** Subtracting a one-element array removes exactly what arrayMinusObject removes. */
  lemma {:induction false} RemoveAllSingle<T>(s: seq<T>, x: T)
    ensures RemoveAll(s, [x]) == Without(s, x)
    decreases |s|
  {
    if s != [] {
      RemoveAllSingle(s[..|s| - 1], x);
    }
  }

  /** arrayMinusArray: an empty array or an empty (or null) `minus` gives a copy; otherwise
      every element of `minus` is removed, the rest kept in order. */
  function ArrayMinusArray<T(==)>(values: seq<T>, minus: seq<T>): (r: seq<T>)
  {
    if |values| == 0 || |minus| == 0 then values else RemoveAll(values, minus)
  }

  /** The result holds exactly the multiplicities of `values` outside `minus`. */
  lemma ArrayMinusArraySpec<T>(values: seq<T>, minus: seq<T>)
    ensures forall y :: multiset(ArrayMinusArray(values, minus))[y] == if y in minus then 0 else multiset(values)[y]
  {
    RemoveAllSpec(values, minus);
    if |values| == 0 || |minus| == 0 {
      forall y | y in minus
        ensures multiset(values)[y] == 0
      {
      }
    } else {
      forall y | y in minus
        ensures multiset(RemoveAll(values, minus))[y] == 0
      {
      }
    }
  }

  // ---------------------------------------------------------------------------
  // Duplicates
  // ---------------------------------------------------------------------------

  predicate NoDuplicates<T(==)>(s: seq<T>) {
    forall i, j :: 0 <= i < j < |s| ==> s[i] != s[j]
  }

  /** The elements of `s` that are neither in `base` nor earlier in `s`, in order of first
      occurrence: what adding `s` to `base` without duplicates appends. */
  function Novel<T(==)>(base: seq<T>, s: seq<T>): seq<T> {
    if s == [] then []
    else
      var init := s[..|s| - 1];
      Novel(base, init) + (if s[|s| - 1] in base || s[|s| - 1] in init then [] else [s[|s| - 1]])
  }

  /** The first occurrence of each element of `s`, in order. */
  function Distinct<T(==)>(s: seq<T>): seq<T> {
    Novel([], s)
  }

  /** What is appended has no duplicates and holds exactly the new elements. */
  lemma {:induction false} NovelSpec<T>(base: seq<T>, s: seq<T>)
    ensures NoDuplicates(Novel(base, s))
    ensures forall x :: x in Novel(base, s) <==> x in s && x !in base
    decreases |s|
  {
    if s != [] {
      var init := s[..|s| - 1];
      NovelSpec(base, init);
      assert s == init + [s[|s| - 1]];
    }
  }

  /** Input that is already free of duplicates and of `base` is appended unchanged. */
  lemma {:induction false} NovelKeeps<T>(base: seq<T>, s: seq<T>)
    requires NoDuplicates(s) && forall x :: x in s ==> x !in base
    ensures Novel(base, s) == s
    decreases |s|
  {
    if s != [] {
      var init := s[..|s| - 1];
      NovelKeeps(base, init);
      assert s == init + [s[|s| - 1]];
    }
  }

  /** First occurrences of a concatenation: those of the first part, then the new ones of
      the second part, in order. */
  lemma {:induction false} DistinctConcat<T>(a: seq<T>, b: seq<T>)
    ensures Distinct(a + b) == Distinct(a) + Novel(a, b)
    decreases |b|
  {
    if b == [] {
      assert a + b == a;
    } else {
      var init := b[..|b| - 1];
      DistinctConcat(a, init);
      assert (a + b)[..|a + b| - 1] == a + init;
      var y := b[|b| - 1];
      assert y in [] + (a + init) <==> y in a || y in init;
    }
  }

  /** De-duplication keeps exactly the elements, repeats none, and changes nothing in an
      input without duplicates (so it is idempotent). */
  lemma DistinctSpec<T>(s: seq<T>)
    ensures NoDuplicates(Distinct(s))
    ensures forall x :: x in Distinct(s) <==> x in s
    ensures NoDuplicates(s) ==> Distinct(s) == s
    ensures Distinct(Distinct(s)) == Distinct(s)
  {
    NovelSpec([], s);
    if NoDuplicates(s) {
      NovelKeeps([], s);
    }
    NovelKeeps([], Distinct(s));
  }

  /** arrayWithoutDuplicates: one pass keeping each element the first time it is seen. */
  method ArrayWithoutDuplicates<T(==)>(values: seq<T>) returns (result: seq<T>)
    ensures result == Distinct(values)
  {
    result := [];
    var present: set<T> := {};
    var i := 0;
    while i < |values|
      invariant 0 <= i <= |values|
      invariant result == Novel([], values[..i])
      invariant forall x :: x in present <==> x in values[..i]
    {
      assert values[..i + 1][..i] == values[..i];
      if values[i] !in present {
        present := present + {values[i]};
        result := result + [values[i]];
      }
      i := i + 1;
    }
    assert values[..i] == values;
  }

  /** Adding without duplicates to an array that has none gives the de-duplicated
      concatenation, so the result still has no duplicates. */
  lemma AddWithoutDuplicatesIsDistinct<T>(base: seq<T>, s: seq<T>)
    requires NoDuplicates(base)
    ensures base + Novel(base, s) == Distinct(base + s)
    ensures NoDuplicates(base + Novel(base, s))
  {
    DistinctConcat(base, s);
    DistinctSpec(base);
    DistinctSpec(base + s);
  }

  // ---------------------------------------------------------------------------
  // In-place operations on an NSMutableArray
  // ---------------------------------------------------------------------------

  /** Why swapObjects throws IllegalArgumentException. */
  datatype ArrayError = EmptyArray | IndexOutOfBounds(index: int) | BatchSizeTooSmall(batchSize: int)

  /** The array after shiftObjectLeft: the first occurrence of `x` trades places with its
      left neighbour, if it has one. */
  function ShiftedLeft<T(==)>(s: seq<T>, x: T): seq<T> {
    match IndexOf(s, x)
    case None => s
    case Some(i) => if i > 0 then Swap(s, i - 1, i) else s
  }

  /** The array after shiftObjectRight: the first occurrence of `x` trades places with its
      right neighbour, if it has one. */
  function ShiftedRight<T(==)>(s: seq<T>, x: T): seq<T> {
    match IndexOf(s, x)
    case None => s
    case Some(i) => if i < |s| - 1 then Swap(s, i, i + 1) else s
  }

  /** A left shift is a permutation that moves the first occurrence one place left, or
      changes nothing when the object is absent or already first. */
  lemma ShiftLeftSpec<T>(s: seq<T>, x: T)
    ensures multiset(ShiftedLeft(s, x)) == multiset(s)
    ensures IndexOf(s, x).None? || IndexOf(s, x) == Some(0) ==> ShiftedLeft(s, x) == s
    ensures IndexOf(s, x).Some? && IndexOf(s, x).value > 0 ==>
      IndexOf(ShiftedLeft(s, x), x) == Some(IndexOf(s, x).value - 1)
  {
    match IndexOf(s, x)
    case None =>
    case Some(i) =>
      if i > 0 {
        SwapPermutes(s, i - 1, i);
        var t := Swap(s, i - 1, i);
        assert t[i - 1] == x;
        assert t[..i - 1] == s[..i - 1];
        assert x !in s[..i - 1] by {
          assert s[..i - 1] == s[..i][..i - 1];
        }
        IndexOfFirst(t, x, i - 1);
      }
  }

  /** A position holding `x` with no earlier occurrence is the one indexOf finds. */
  lemma {:induction false} IndexOfFirst<T>(s: seq<T>, x: T, j: nat)
    requires j < |s| && s[j] == x && x !in s[..j]
    ensures IndexOf(s, x) == Some(j)
  {
    if j > 0 {
      assert s[0] == s[..j][0];
      assert s[1..][..j - 1] == s[..j][1..];
      IndexOfFirst(s[1..], x, j - 1);
    }
  }

  /** A right shift is a permutation that moves the first occurrence one place right, or
      changes nothing when the object is absent or already last. */
  lemma ShiftRightSpec<T>(s: seq<T>, x: T)
    ensures multiset(ShiftedRight(s, x)) == multiset(s)
    ensures IndexOf(s, x).None? || IndexOf(s, x) == Some(|s| - 1) ==> ShiftedRight(s, x) == s
    ensures IndexOf(s, x).Some? && IndexOf(s, x).value < |s| - 1 ==>
      ShiftedRight(s, x)[IndexOf(s, x).value + 1] == x
  {
    match IndexOf(s, x)
    case None =>
    case Some(i) =>
      if i < |s| - 1 {
        SwapPermutes(s, i, i + 1);
      }
  }

  /** Inserting the element at `i` before position `i - 1` and then deleting its old copy
      exchanges the two neighbours. */
  lemma InsertRemoveLeft<T>(s: seq<T>, i: nat)
    requires 0 < i < |s|
    ensures RemoveAt(Insert(s, i - 1, s[i]), i + 1) == Swap(s, i - 1, i)
  {
  }

  /** Inserting the element at `i` after its right neighbour and then deleting it at `i`
      exchanges the two neighbours. */
  lemma InsertRemoveRight<T>(s: seq<T>, i: nat)
    requires i + 1 < |s|
    ensures RemoveAt(Insert(s, i + 2, s[i]), i) == Swap(s, i, i + 1)
  {
  }

  /** An NSMutableArray whose contents the utilities change in place. */
  class MutableArray<T(==)> {
    var elements: seq<T>

    constructor (s: seq<T>)
      ensures elements == s
    {
      elements := s;
    }

    /** addObjectsFromArrayWithoutDuplicates: appends, in order, each element of `other`
        not already present; an empty `other` changes nothing. */
    method AddObjectsFromArrayWithoutDuplicates(other: seq<T>)
      modifies this
      ensures elements == old(elements) + Novel(old(elements), other)
    {
      if |other| == 0 {
        return;
      }
      ghost var base := elements;
      var present: set<T> := set x | x in elements;
      var i := 0;
      while i < |other|
        invariant 0 <= i <= |other|
        invariant elements == base + Novel(base, other[..i])
        invariant forall x :: x in present <==> x in base || x in other[..i]
      {
        assert other[..i + 1][..i] == other[..i];
        if other[i] !in present {
          elements := elements + [other[i]];
          present := present + {other[i]};
        }
        i := i + 1;
      }
      assert other[..i] == other;
    }

    /** shiftObjectLeft: inserts the object before its left neighbour and removes its old
        position. */
    method ShiftObjectLeft(item: T)
      modifies this
      ensures elements == ShiftedLeft(old(elements), item)
    {
      var index := IndexOf(elements, item);
      if index.None? {
        return;
      }
      var i := index.value;
      if i > 0 {
        InsertRemoveLeft(elements, i);
        elements := Insert(elements, i - 1, item);
        elements := RemoveAt(elements, i + 1);
      }
    }

    /** shiftObjectRight: inserts the object after its right neighbour and removes its old
        position. */
    method ShiftObjectRight(item: T)
      modifies this
      ensures elements == ShiftedRight(old(elements), item)
    {
      var index := IndexOf(elements, item);
      if index.None? {
        return;
      }
      var i := index.value;
      if i < |elements| - 1 {
        InsertRemoveRight(elements, i);
        elements := Insert(elements, i + 2, item);
        elements := RemoveAt(elements, i);
      }
    }

    /** swapObjects(array, indexA, indexB): rejects an empty array and an index outside the
        array, checking indexA first; otherwise exchanges the two positions. */
    method SwapObjects(indexA: int, indexB: int) returns (error: Option<ArrayError>)
      modifies this
      ensures |old(elements)| == 0 ==> error == Some(EmptyArray)
      ensures |old(elements)| > 0 && !(0 <= indexA < |old(elements)|) ==> error == Some(IndexOutOfBounds(indexA))
      ensures |old(elements)| > 0 && 0 <= indexA < |old(elements)| && !(0 <= indexB < |old(elements)|) ==>
        error == Some(IndexOutOfBounds(indexB))
      ensures error.None? <==> 0 <= indexA < |old(elements)| && 0 <= indexB < |old(elements)|
      ensures error.Some? ==> elements == old(elements)
      ensures error.None? ==> elements == Swap(old(elements), indexA, indexB)
    {
      if |elements| == 0 {
        return Some(EmptyArray);
      }
      var maxIndex := |elements| - 1;
      if indexA < 0 || indexA > maxIndex {
        return Some(IndexOutOfBounds(indexA));
      }
      if indexB < 0 || indexB > maxIndex {
        return Some(IndexOutOfBounds(indexB));
      }
      if indexA == indexB {
        SwapSpec(elements, indexA, indexB);
        return None;
      }
      var tmp := elements[indexB];
      elements := elements[indexB := elements[indexA]];
      elements := elements[indexA := tmp];
      return None;
    }

    /** swapObjects(array, a, indexB): swaps the first occurrence of `a` with position
        `indexB`; an absent `a` is index -1, which is out of bounds. */
    method SwapObjectWithIndex(a: T, indexB: int) returns (error: Option<ArrayError>)
      modifies this
      ensures a !in old(elements) && |old(elements)| > 0 ==> error == Some(IndexOutOfBounds(-1))
      ensures error.None? <==> a in old(elements) && 0 <= indexB < |old(elements)|
      ensures error.Some? ==> elements == old(elements)
      ensures error.None? ==> elements == Swap(old(elements), IndexOf(old(elements), a).value, indexB)
    {
      var index := IndexOf(elements, a);
      var indexA := if index.Some? then index.value else -1;
      error := SwapObjects(indexA, indexB);
    }
  }

  // ---------------------------------------------------------------------------
  // flatten
  // ---------------------------------------------------------------------------

  /** An element of a possibly nested NSArray: a single object or a nested array. */
  datatype Item<T> = Single(value: T) | Nested(items: seq<Item<T>>)

  predicate IsFlat<T>(s: seq<Item<T>>) {
    forall i :: 0 <= i < |s| ==> s[i].Single?
  }

  /** flatten: the depth-first, order-preserving concatenation of the nested arrays. An array
      with nothing nested (in particular an empty one) comes back unchanged; a null array is
      not modelled, since sequences are never null. */
  function Flatten<T>(s: seq<Item<T>>): (r: seq<Item<T>>)
    ensures IsFlat(r)
    ensures IsFlat(s) ==> r == s
    decreases s
  {
    if s == [] then []
    else
      var head := match s[0] case Single(_) => [s[0]] case Nested(items) => Flatten(items);
      assert s[0] in s;
      head + Flatten(s[1..])
  }

  /** Flattening distributes over concatenation. */
  lemma {:induction false} FlattenConcat<T>(a: seq<Item<T>>, b: seq<Item<T>>)
    ensures Flatten(a + b) == Flatten(a) + Flatten(b)
    decreases |a|
  {
    if a != [] {
      var c := a + b;
      assert c[0] == a[0] && c[1..] == a[1..] + b;
      var head := match a[0] case Single(_) => [a[0]] case Nested(items) => Flatten(items);
      calc {
        Flatten(c);
        head + Flatten(c[1..]);
        head + Flatten(a[1..] + b);
        { FlattenConcat(a[1..], b); }
        head + (Flatten(a[1..]) + Flatten(b));
        (head + Flatten(a[1..])) + Flatten(b);
        Flatten(a) + Flatten(b);
      }
    } else {
      assert a + b == b;
    }
  }

  /** Flattening is idempotent. */
  lemma FlattenSpec<T>(s: seq<Item<T>>)
    ensures Flatten(Flatten(s)) == Flatten(s)
  {
  }

  /** flatten(array, filterDuplicates): flatten, then optionally arrayWithoutDuplicates. */
  function FlattenFiltered<T(==)>(s: seq<Item<T>>, filterDuplicates: bool): (r: seq<Item<T>>)
    ensures filterDuplicates ==> NoDuplicates(r)
  {
    var flat := Flatten(s);
    DistinctSpec(flat);
    if filterDuplicates then Distinct(flat) else flat
  }

  /** Keeping first occurrences of flat input gives flat output. */
  lemma {:induction false} NovelFlat<T>(base: seq<Item<T>>, s: seq<Item<T>>)
    requires IsFlat(s)
    ensures IsFlat(Novel(base, s))
    decreases |s|
  {
    if s != [] {
      NovelFlat(base, s[..|s| - 1]);
    }
  }

  /** Filtering duplicates keeps the result flat and keeps exactly the flattened objects. */
  lemma FlattenFilteredSpec<T>(s: seq<Item<T>>, filterDuplicates: bool)
    ensures IsFlat(FlattenFiltered(s, filterDuplicates))
    ensures forall x :: x in FlattenFiltered(s, filterDuplicates) <==> x in Flatten(s)
  {
    if filterDuplicates {
      NovelFlat([], Flatten(s));
      DistinctSpec(Flatten(s));
    }
  }

  // ---------------------------------------------------------------------------
  // batchedArrayWithSize
  // ---------------------------------------------------------------------------

  /** The concatenation of a sequence of batches. */
  function Concat<T>(batches: seq<seq<T>>): seq<T> {
    if batches == [] then [] else Concat(batches[..|batches| - 1]) + batches[|batches| - 1]
  }

  /** batchedArrayWithSize: an empty array gives no batches; otherwise a size below 1 is an
      error, and the batches are consecutive slices of `size` elements, the last one holding
      what is left. */
  method BatchedArrayWithSize<T>(values: seq<T>, batchSize: int) returns (r: Result<seq<seq<T>>, ArrayError>)
    ensures |values| == 0 ==> r == Ok([])
    ensures |values| > 0 && batchSize < 1 ==> r == Err(BatchSizeTooSmall(batchSize))
    ensures |values| > 0 && batchSize >= 1 ==> r.Ok?
    ensures r.Ok? ==> Concat(r.value) == values
    ensures r.Ok? ==> forall k :: 0 <= k < |r.value| - 1 ==> |r.value[k]| == batchSize
    ensures r.Ok? ==> forall k :: 0 <= k < |r.value| ==> 1 <= |r.value[k]| <= batchSize
  {
    if |values| == 0 {
      return Ok([]);
    }
    if batchSize < 1 {
      return Err(BatchSizeTooSmall(batchSize));
    }
    var batches: seq<seq<T>> := [];
    var count := |values|;
    var i := 0;
    while i < count
      invariant 0 <= i
      invariant Concat(batches) == values[..if i < count then i else count]
      invariant forall k :: 0 <= k < |batches| ==> 1 <= |batches[k]| <= batchSize
      invariant forall k :: 0 <= k < |batches| - 1 ==> |batches[k]| == batchSize
      invariant i < count ==> forall k :: 0 <= k < |batches| ==> |batches[k]| == batchSize
      decreases count - i
    {
      var length := batchSize;
      if i + length > count {
        length := count - i;
      }
      var batch := values[i..i + length];
      assert values[..i + length] == values[..i] + batch;
      assert (batches + [batch])[..|batches|] == batches;
      batches := batches + [batch];
      i := i + batchSize;
    }
    assert values[..count] == values;
    return Ok(batches);
  }

  // ---------------------------------------------------------------------------
  // intersectingElements, arrayContainsArray, reverse
  // ---------------------------------------------------------------------------

  /** The elements of `s` that are in `m`, in order. */
  function RetainAll<T(==)>(s: seq<T>, m: seq<T>): seq<T> {
    if s == [] then [] else RetainAll(s[..|s| - 1], m) + (if s[|s| - 1] in m then [s[|s| - 1]] else [])
  }

  lemma {:induction false} RetainAllSpec<T>(s: seq<T>, m: seq<T>)
    ensures forall x :: x in RetainAll(s, m) <==> x in s && x in m
    decreases |s|
  {
    if s != [] {
      RetainAllSpec(s[..|s| - 1], m);
      assert s == s[..|s| - 1] + [s[|s| - 1]];
    }
  }

  /** The collection intersectingElements walks: the larger one, `array2` on a tie. */
  function Larger<T>(array1: seq<T>, other: seq<T>): seq<T> {
    if |array1| > |other| then array1 else other
  }

  function Smaller<T>(array1: seq<T>, other: seq<T>): seq<T> {
    if |array1| > |other| then other else array1
  }

  /** Nothing is retained against an empty collection. */
  lemma {:induction false} RetainNothing<T>(s: seq<T>)
    ensures RetainAll(s, []) == []
    decreases |s|
  {
    if s != [] {
      RetainNothing(s[..|s| - 1]);
    }
  }

  /** Walking one more element of the larger collection appends it exactly when it is in the
      smaller one and not yet taken. */
  lemma IntersectStep<T>(prefix: seq<T>, y: T, smaller: seq<T>)
    ensures var r := Distinct(RetainAll(prefix, smaller));
      Distinct(RetainAll(prefix + [y], smaller)) == if y in smaller && y !in r then r + [y] else r
  {
    var kept := RetainAll(prefix, smaller);
    assert (prefix + [y])[..|prefix|] == prefix;
    assert RetainAll(prefix + [y], smaller) == kept + (if y in smaller then [y] else []);
    NovelSpec([], kept);
    if y in smaller {
      assert (kept + [y])[..|kept|] == kept;
    } else {
      assert kept + [] == kept;
    }
  }

  /** intersectingElements: the common elements, each once, in the order of their first
      occurrence in the larger collection; empty when either side is empty. */
  method IntersectingElements<T(==)>(array1: seq<T>, other: seq<T>) returns (r: seq<T>)
    ensures r == Distinct(RetainAll(Larger(array1, other), Smaller(array1, other)))
  {
    if |array1| == 0 || |other| == 0 {
      RetainNothing(Larger(array1, other));
      return [];
    }
    var smaller := Smaller(array1, other);
    var larger := Larger(array1, other);
    var pending: set<T> := set x | x in smaller;
    r := [];
    var i := 0;
    while i < |larger|
      invariant 0 <= i <= |larger|
      invariant r == Distinct(RetainAll(larger[..i], smaller))
      invariant forall x :: x in pending <==> x in smaller && x !in r
    {
      assert larger[..i + 1] == larger[..i] + [larger[i]];
      IntersectStep(larger[..i], larger[i], smaller);
      if larger[i] in pending {
        r := r + [larger[i]];
        pending := pending - {larger[i]};
      }
      i := i + 1;
    }
    assert larger[..i] == larger;
  }

  /** The intersection holds each common element exactly once. */
  lemma IntersectionSpec<T>(array1: seq<T>, other: seq<T>)
    ensures var r := Distinct(RetainAll(Larger(array1, other), Smaller(array1, other)));
      NoDuplicates(r) && forall x :: x in r <==> x in array1 && x in other
  {
    RetainAllSpec(Larger(array1, other), Smaller(array1, other));
    DistinctSpec(RetainAll(Larger(array1, other), Smaller(array1, other)));
  }

  /** arrayContainsArray: false for an empty (or null) first array; otherwise whether every
      element of the second is in the first. */
  method ArrayContainsArray<T(==)>(array1: seq<T>, other: seq<T>) returns (r: bool)
    ensures r <==> |array1| > 0 && forall x :: x in other ==> x in array1
  {
    if |array1| == 0 {
      return false;
    }
    var i := 0;
    while i < |other|
      invariant 0 <= i <= |other|
      invariant forall k :: 0 <= k < i ==> other[k] in array1
    {
      if other[i] !in array1 {
        return false;
      }
      i := i + 1;
    }
    return true;
  }

  /** reverse: the elements in the opposite order. */
  function Reverse<T>(s: seq<T>): (r: seq<T>)
    ensures |r| == |s|
    ensures forall i :: 0 <= i < |s| ==> r[i] == s[|s| - 1 - i]
  {
    if s == [] then [] else [s[|s| - 1]] + Reverse(s[..|s| - 1])
  }

  /** Reversing twice gives the array back, and reversing keeps the multiset. */
  lemma ReverseSpec<T>(s: seq<T>)
    ensures Reverse(Reverse(s)) == s
    ensures multiset(Reverse(s)) == multiset(s)
  {
    assert forall i :: 0 <= i < |s| ==> Reverse(Reverse(s))[i] == s[i];
    ReverseMultiset(s);
  }

  lemma {:induction false} ReverseMultiset<T>(s: seq<T>)
    ensures multiset(Reverse(s)) == multiset(s)
    decreases |s|
  {
    if s != [] {
      ReverseMultiset(s[..|s| - 1]);
      assert s == s[..|s| - 1] + [s[|s| - 1]];
    }
  }

  // ---------------------------------------------------------------------------
  // The @limit operator
  // ---------------------------------------------------------------------------

  /** What an operator hands on: the array itself, or the array together with the rest of the
      key path, which key-value coding then evaluates on it. */
  datatype Contents<T> = Plain(objects: seq<T>) | FollowPath(objects: seq<T>, keyPath: string)

  /** Why the @limit operator throws. */
  datatype LimitError = NotANumber(text: string) | NegativeLength(length: int)

  /** BaseOperator.contents: a non-empty array with a non-empty remaining path goes on to
      key-value coding; anything else is handed back as it is. */
  function ContentsOf<T>(objects: seq<T>, rest: Option<string>): (c: Contents<T>)
    ensures c.objects == objects
    ensures c.FollowPath? <==> |objects| > 0 && rest.Some? && |rest.value| > 0
  {
    if |objects| > 0 && rest.Some? && |rest.value| > 0 then FollowPath(objects, rest.value) else Plain(objects)
  }

  /** The position of the first '.', as `indexOf` returns it. */
  function DotIndex(keyPath: string): Option<nat> {
    IndexOf(keyPath, '.')
  }

  /** LimitOperator.compute: the key path is split at its first '.'; the part before it is the
      limit (empty means 0) and must parse as an int; the first min(limit, count) objects go
      on with the rest of the path. A negative limit makes the range constructor throw. */
  function LimitCompute<T>(values: seq<T>, keyPath: string): (r: Result<Contents<T>, LimitError>)
  {
    var dot := DotIndex(keyPath);
    var limitText := if dot.Some? then keyPath[..dot.value] else keyPath;
    var rest := if dot.Some? then Some(keyPath[dot.value + 1..]) else None;
    var parsed := if |limitText| == 0 then Some(0) else JavaInt.ParseInt(limitText);
    if parsed.None? then Err(NotANumber(limitText))
    else
      var length := if parsed.value < |values| then parsed.value else |values|;
      if length < 0 then Err(NegativeLength(length))
      else Ok(ContentsOf(values[..length], rest))
  }

  /** The operator keeps exactly the first `n` objects for a limit `n` written in decimal,
      clamped to the array's size, and fails exactly on a negative limit. */
  lemma LimitSpec<T>(values: seq<T>, n: int, rest: string)
    requires JavaInt.MinInt <= n <= JavaInt.MaxInt
    ensures var r := LimitCompute(values, JavaInt.ToString(n) + "." + rest);
      && (n < 0 <==> r.Err?)
      && (n < 0 ==> r.error == NegativeLength(n))
      && (n >= 0 ==> r.value.objects == values[..if n < |values| then n else |values|])
      && (n >= 0 && n > 0 && |values| > 0 && |rest| > 0 ==> r.value == FollowPath(r.value.objects, rest))
  {
    var keyPath := JavaInt.ToString(n) + "." + rest;
    var text := JavaInt.ToString(n);
    JavaInt.ParseIntRoundTrip(n);
    JavaInt.ToStringHasNoDot(n);
    assert keyPath[..|text|] == text && keyPath[|text|] == '.';
    assert DotIndex(keyPath) == Some(|text|) by {
      assert '.' !in keyPath[..|text|];
    }
    assert keyPath[|text| + 1..] == rest;
  }
}
