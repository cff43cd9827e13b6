/** `src/util/array.util.ts`: `arrayUnique`, a filter keeping each item at its first position. */
module ArrayUtil {
  import opened Sequences

  /** The items at positions `i..` that are the first occurrence of their value in the whole list. */
  function FirstOccurrencesFrom<T(==)>(items: seq<T>, i: nat): seq<T>
    requires i <= |items|
    decreases |items| - i
  {
    if i == |items| then []
    else (if IndexOf(items, items[i]) == i then [items[i]] else []) + FirstOccurrencesFrom(items, i + 1)
  }

  /** `arrayUnique(items)`: `items.filter((item, index, array) => array.indexOf(item) === index)`. */
  function ArrayUnique<T(==)>(items: seq<T>): seq<T>
  {
    FirstOccurrencesFrom(items, 0)
  }

  /** What the filter keeps from position `i` on: exactly the values whose first position is `i` or later. */
  lemma {:induction false} FirstOccurrencesFromMembers<T>(items: seq<T>, i: nat, x: T)
    requires i <= |items|
    ensures x in FirstOccurrencesFrom(items, i) <==> x in items && IndexOf(items, x) >= i
    decreases |items| - i
  {
    if i < |items| {
      FirstOccurrencesFromMembers(items, i + 1, x);
      var rest := FirstOccurrencesFrom(items, i + 1);
      if IndexOf(items, items[i]) == i {
        assert FirstOccurrencesFrom(items, i) == [items[i]] + rest;
        if x in items && IndexOf(items, x) == i {
          assert items[i] == x;
        }
      } else {
        assert FirstOccurrencesFrom(items, i) == rest;
      }
    }
  }

  lemma {:induction false} FirstOccurrencesFromUnique<T>(items: seq<T>, i: nat)
    requires i <= |items|
    ensures NoDuplicates(FirstOccurrencesFrom(items, i))
    decreases |items| - i
  {
    if i < |items| {
      FirstOccurrencesFromUnique(items, i + 1);
      if IndexOf(items, items[i]) == i {
        FirstOccurrencesFromMembers(items, i + 1, items[i]);
      }
    }
  }

  lemma {:induction false} FirstOccurrencesFromOrdered<T>(items: seq<T>, i: nat)
    requires i <= |items|
    ensures IsSubsequence(FirstOccurrencesFrom(items, i), items[i..])
    decreases |items| - i
  {
    if i < |items| {
      FirstOccurrencesFromOrdered(items, i + 1);
      var rest := FirstOccurrencesFrom(items, i + 1);
      assert items[i..][1..] == items[i + 1..];
      if IndexOf(items, items[i]) == i {
        assert ([items[i]] + rest)[1..] == rest;
      } else {
        assert [] + rest == rest;
        SubsequenceOfTail(rest, items[i..]);
      }
    }
  }

  lemma {:induction false} FirstOccurrencesFromDistinct<T>(items: seq<T>, i: nat)
    requires i <= |items| && NoDuplicates(items)
    ensures FirstOccurrencesFrom(items, i) == items[i..]
    decreases |items| - i
  {
    if i < |items| {
      FirstOccurrencesFromDistinct(items, i + 1);
      var k := IndexOf(items, items[i]);
      assert k == i;
      assert items[i..] == [items[i]] + items[i + 1..];
    }
  }

  /** No value appears twice in the result. */
  lemma ArrayUniqueNoDuplicates<T>(items: seq<T>)
    ensures NoDuplicates(ArrayUnique(items))
  {
    FirstOccurrencesFromUnique(items, 0);
  }

  /** The result holds exactly the values of the input. */
  lemma ArrayUniqueSameValues<T>(items: seq<T>, x: T)
    ensures x in ArrayUnique(items) <==> x in items
  {
    FirstOccurrencesFromMembers(items, 0, x);
  }

  /** The result is the input with later repeats left out, in the input's order. */
  lemma ArrayUniqueOrdered<T>(items: seq<T>)
    ensures IsSubsequence(ArrayUnique(items), items)
  {
    FirstOccurrencesFromOrdered(items, 0);
    assert items[0..] == items;
  }

  /** A list without repeats is returned unchanged. */
  lemma ArrayUniqueOfDistinct<T>(items: seq<T>)
    requires NoDuplicates(items)
    ensures ArrayUnique(items) == items
  {
    FirstOccurrencesFromDistinct(items, 0);
    assert items[0..] == items;
  }

  /** Applying it twice is the same as applying it once. */
  lemma ArrayUniqueIdempotent<T>(items: seq<T>)
    ensures ArrayUnique(ArrayUnique(items)) == ArrayUnique(items)
  {
    ArrayUniqueNoDuplicates(items);
    ArrayUniqueOfDistinct(ArrayUnique(items));
  }

  /** The result is never longer than the input, and as long exactly when the input has no repeats. */
  lemma ArrayUniqueLength<T>(items: seq<T>)
    ensures |ArrayUnique(items)| <= |items|
    ensures |ArrayUnique(items)| == |items| <==> NoDuplicates(items)
  {
    ArrayUniqueOrdered(items);
    SubsequenceLength(ArrayUnique(items), items);
    ArrayUniqueNoDuplicates(items);
    if NoDuplicates(items) {
      ArrayUniqueOfDistinct(items);
    }
  }

  /** Appending a value keeps the result of the prefix and adds the value only when it is new. */
  lemma ArrayUniqueSnoc<T>(items: seq<T>, x: T)
    ensures ArrayUnique(items + [x]) == if x in items then ArrayUnique(items) else ArrayUnique(items) + [x]
  {
    FirstOccurrencesFromSnoc(items, x, 0);
  }

  lemma {:induction false} FirstOccurrencesFromSnoc<T>(items: seq<T>, x: T, i: nat)
    requires i <= |items|
    ensures FirstOccurrencesFrom(items + [x], i)
      == FirstOccurrencesFrom(items, i) + (if x in items then [] else [x])
    decreases |items| - i
  {
    var ext := items + [x];
    if i == |items| {
      IndexOfSnoc(items, x, x);
      assert FirstOccurrencesFrom(ext, i + 1) == [];
    } else {
      FirstOccurrencesFromSnoc(items, x, i + 1);
      assert ext[i] == items[i];
      IndexOfSnoc(items, x, items[i]);
    }
  }

  /** Appending does not move the first position of a value already present. */
  lemma IndexOfSnoc<T>(items: seq<T>, x: T, y: T)
    ensures y in items ==> IndexOf(items + [x], y) == IndexOf(items, y)
    ensures y !in items && y == x ==> IndexOf(items + [x], y) == |items|
  {
    var ext := items + [x];
    var r := IndexOf(ext, y);
    if y in items {
      var k := IndexOf(items, y);
      assert ext[k] == y;
      assert r <= k;
      assert items[r] == ext[r];
    } else if y == x {
      assert ext[|items|] == y;
      assert forall j :: 0 <= j < |items| ==> ext[j] == items[j];
    }
  }
}
