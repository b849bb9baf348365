/** The part of JavaScript's Array that the drag handler relies on:
    `Array.from` (a fresh copy) and `splice` (remove and insert in place).
    Indices are natural numbers (the drag library never produces negative
    ones); `splice` clamps a start index past the end to the length and a
    delete count past the end to what is left, and that clamping is written
    out here rather than excluded by a precondition. */
module ArraySplice {

  /** The position at which `splice(start, ...)` acts on an array of length n. */
  function Clamp(start: nat, n: nat): (p: nat)
    ensures p <= n
    ensures p == start || (start > n && p == n)
  {
    if start <= n then start else n
  }

  /** How many elements `splice(start, deleteCount, ...)` really removes. */
  function DeletedCount<T>(s: seq<T>, start: nat, deleteCount: nat): (d: nat)
    ensures Clamp(start, |s|) + d <= |s|
    ensures d <= deleteCount
    ensures d == deleteCount || Clamp(start, |s|) + d == |s|
  {
    var p := Clamp(start, |s|);
    if deleteCount <= |s| - p then deleteCount else |s| - p
  }

  /** The array's contents after `s.splice(start, deleteCount, ...items)`:
      the part before the clamped start is kept, the items follow, and the
      part after the removed stretch closes up behind them. */
  function Spliced<T>(s: seq<T>, start: nat, deleteCount: nat, items: seq<T>): (r: seq<T>)
    ensures |r| == |s| - DeletedCount(s, start, deleteCount) + |items|
    ensures r[..Clamp(start, |s|)] == s[..Clamp(start, |s|)]
    ensures r[Clamp(start, |s|)..Clamp(start, |s|) + |items|] == items
    ensures r[Clamp(start, |s|) + |items|..] == s[Clamp(start, |s|) + DeletedCount(s, start, deleteCount)..]
  {
    var p := Clamp(start, |s|);
    var d := DeletedCount(s, start, deleteCount);
    var r := s[..p] + items + s[p + d..];
    assert r[..p] == s[..p];
    assert r[p..p + |items|] == items;
    assert r[p + |items|..] == s[p + d..];
    r
  }

  /** The array that `splice` returns: the elements it removed, in order. */
  function SplicedOut<T>(s: seq<T>, start: nat, deleteCount: nat): (removed: seq<T>)
    ensures |removed| == DeletedCount(s, start, deleteCount)
    ensures removed == s[Clamp(start, |s|)..Clamp(start, |s|) + |removed|]
  {
    var p := Clamp(start, |s|);
    s[p..p + DeletedCount(s, start, deleteCount)]
  }

  /** `a.splice(i, 1)`: removes the element at i, or nothing when i is past the end. */
  function RemoveAt<T>(s: seq<T>, i: nat): (r: seq<T>)
    ensures i < |s| ==> |r| == |s| - 1
    ensures i < |s| ==> r[..i] == s[..i] && r[i..] == s[i + 1..]
    ensures i >= |s| ==> r == s
  {
    var r := Spliced(s, i, 1, []);
    assert i >= |s| ==> r[..|s|] == r;
    r
  }

  /** `a.splice(i, 0, x)`: inserts x before position i, or appends it when i is past the end. */
  function InsertAt<T>(s: seq<T>, i: nat, x: T): (r: seq<T>)
    ensures |r| == |s| + 1
    ensures r[..Clamp(i, |s|)] == s[..Clamp(i, |s|)]
    ensures r[Clamp(i, |s|)] == x
    ensures r[Clamp(i, |s|) + 1..] == s[Clamp(i, |s|)..]
  {
    var r := Spliced(s, i, 0, [x]);
    assert r[Clamp(i, |s|)..Clamp(i, |s|) + 1] == [x];
    r
  }

  /** `splice` neither creates nor loses elements: what the array holds
      afterwards together with what it returned is what it held before
      together with the inserted items. */
  lemma SplicedConservesElements<T>(s: seq<T>, start: nat, deleteCount: nat, items: seq<T>)
    ensures multiset(Spliced(s, start, deleteCount, items)) + multiset(SplicedOut(s, start, deleteCount))
            == multiset(s) + multiset(items)
  {
    var p := Clamp(start, |s|);
    var d := DeletedCount(s, start, deleteCount);
    var r := Spliced(s, start, deleteCount, items);
    assert s == s[..p] + s[p..p + d] + s[p + d..];
    assert r == r[..p] + r[p..p + |items|] + r[p + |items|..];
  }

  /** Removing at an index in range loses exactly the element there. */
  lemma RemoveAtMultiset<T>(s: seq<T>, i: nat)
    requires i < |s|
    ensures multiset(RemoveAt(s, i)) + multiset{s[i]} == multiset(s)
  {
    SplicedConservesElements(s, i, 1, []);
    assert SplicedOut(s, i, 1) == [s[i]];
  }

  /** Inserting adds exactly the inserted element. */
  lemma InsertAtMultiset<T>(s: seq<T>, i: nat, x: T)
    ensures multiset(InsertAt(s, i, x)) == multiset(s) + multiset{x}
  {
    SplicedConservesElements(s, i, 0, [x]);
    assert SplicedOut(s, i, 0) == [];
  }

  /** The drag handler's reorder: remove at `from`, then insert `x` at `to`,
      where `to` is read against the sequence after the removal. */
  function Reordered<T>(s: seq<T>, from: nat, to: nat, x: T): (r: seq<T>)
    ensures from < |s| ==> |r| == |s| && r[Clamp(to, |s| - 1)] == x
    ensures from >= |s| ==> r == InsertAt(s, to, x)
  {
    InsertAt(RemoveAt(s, from), to, x)
  }

  /** No element occurs twice. */
  predicate Distinct<T(==)>(s: seq<T>)
  {
    forall i, j :: 0 <= i < j < |s| ==> s[i] != s[j]
  }

  /** Inserting x at a position and removing at that same position gives back the input. */
  lemma RemoveInsertRoundTrip<T>(s: seq<T>, i: nat, x: T)
    ensures RemoveAt(InsertAt(s, i, x), Clamp(i, |s|)) == s
  {
  }

  /** Removing the element at i and inserting it again at i gives back the input. */
  lemma InsertRemoveRoundTrip<T>(s: seq<T>, i: nat)
    requires i < |s|
    ensures InsertAt(RemoveAt(s, i), i, s[i]) == s
  {
  }

  /** A reorder of the element at `from` keeps the count and the multiset of
      elements, and puts that element at `to` (clamped to the last position). */
  lemma ReorderedIsPermutation<T>(s: seq<T>, from: nat, to: nat)
    requires from < |s|
    ensures |Reordered(s, from, to, s[from])| == |s|
    ensures multiset(Reordered(s, from, to, s[from])) == multiset(s)
    ensures Reordered(s, from, to, s[from])[Clamp(to, |s| - 1)] == s[from]
  {
    RemoveAtMultiset(s, from);
    InsertAtMultiset(RemoveAt(s, from), to, s[from]);
  }

  /** A reorder keeps the relative order of every other element: taking the
      moved element out of the result leaves the input with it taken out. */
  lemma ReorderedKeepsOthersInOrder<T>(s: seq<T>, from: nat, to: nat, x: T)
    requires from < |s|
    ensures RemoveAt(Reordered(s, from, to, x), Clamp(to, |s| - 1)) == RemoveAt(s, from)
  {
  }

  /** Dragging the element back from `to` to `from` undoes the reorder. */
  lemma ReorderedUndo<T>(s: seq<T>, from: nat, to: nat)
    requires from < |s| && to < |s|
    ensures Reordered(Reordered(s, from, to, s[from]), to, from, s[from]) == s
  {
    assert Clamp(to, |s| - 1) == to;
    ReorderedKeepsOthersInOrder(s, from, to, s[from]);
    InsertRemoveRoundTrip(s, from);
  }

  /** Removing an element keeps a sequence free of duplicates, and what was
      removed no longer occurs in it. */
  lemma RemoveAtKeepsDistinct<T>(s: seq<T>, i: nat)
    requires Distinct(s) && i < |s|
    ensures Distinct(RemoveAt(s, i))
    ensures s[i] !in RemoveAt(s, i)
  {
  }

  /** Inserting an element that is not yet present keeps a sequence free of duplicates. */
  lemma InsertAtKeepsDistinct<T>(s: seq<T>, i: nat, x: T)
    requires Distinct(s) && x !in s
    ensures Distinct(InsertAt(s, i, x))
  {
  }

  /** Reordering a duplicate-free sequence keeps it duplicate-free. */
  lemma ReorderedKeepsDistinct<T>(s: seq<T>, from: nat, to: nat)
    requires Distinct(s) && from < |s|
    ensures Distinct(Reordered(s, from, to, s[from]))
  {
    RemoveAtKeepsDistinct(s, from);
    InsertAtKeepsDistinct(RemoveAt(s, from), to, s[from]);
  }

  /** A JavaScript array: a mutable, growable sequence. */
  class JsArray<T> {
    var elems: seq<T>

    /** `Array.from(source)`: a fresh array holding a copy of source. */
    constructor From(source: seq<T>)
      ensures elems == source
    {
      elems := source;
    }

    /** `this.splice(start, deleteCount, ...items)`, in place; returns the removed elements. */
    method Splice(start: nat, deleteCount: nat, items: seq<T>) returns (removed: seq<T>)
      modifies this
      ensures elems == Spliced(old(elems), start, deleteCount, items)
      ensures removed == SplicedOut(old(elems), start, deleteCount)
    {
      removed := SplicedOut(elems, start, deleteCount);
      elems := Spliced(elems, start, deleteCount, items);
    }
  }
}
