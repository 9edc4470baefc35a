/**
 * What the fetch handler does with the decoded APOD response before it
 * renders the gallery: a single record is wrapped into a one-element list,
 * and the list is then reversed in place so that the newest day comes first.
 */
module Response {
  import opened Media
  import opened DateRange

  /** `s` read back to front. */
  function Reversed<T>(s: seq<T>): (r: seq<T>)
    ensures |r| == |s|
    ensures forall i :: 0 <= i < |s| ==> r[i] == s[|s| - 1 - i]
  {
    if s == [] then [] else Reversed(s[1..]) + [s[0]]
  }

  /** Reversing twice gives the list back. */
  lemma ReversedInvolution<T>(s: seq<T>)
    ensures Reversed(Reversed(s)) == s
  {
  }

  /** The first element of the reversal is the last element of the input. */
  lemma ReversedHead<T>(s: seq<T>)
    requires s != []
    ensures Reversed(s)[0] == s[|s| - 1]
  {
  }

  /** Reversing keeps every element, as often as it occurs. */
  lemma {:induction false} ReversedPermutation<T>(s: seq<T>)
    ensures multiset(Reversed(s)) == multiset(s)
  {
    if s != [] {
      ReversedPermutation(s[1..]);
      assert s == [s[0]] + s[1..];
    }
  }

  /** `Array.prototype.reverse`: swaps the ends inwards, in place. */
  method ReverseInPlace<T>(a: array<T>)
    modifies a
    ensures a[..] == Reversed(old(a[..]))
  {
    var n := a.Length;
    var i := 0;
    while i < n / 2
      invariant 0 <= i <= n / 2
      invariant forall k :: 0 <= k < i ==> a[k] == old(a[n - 1 - k]) && a[n - 1 - k] == old(a[k])
      invariant forall k :: i <= k < n - i ==> a[k] == old(a[k])
    {
      a[i], a[n - 1 - i] := a[n - 1 - i], a[i];
      i := i + 1;
    }
  }

  /** The decoded JSON body: a list of records, or one record on its own. */
  datatype Body<T> = List(elements: array<T>) | Record(value: T)

  /**
   * The list the gallery renders: a body that is not an array is wrapped in
   * a fresh one-element list, and the list is then reversed where it is.
   */
  method Normalize<T>(data: Body<T>) returns (items: array<T>)
    modifies if data.List? then {data.elements} else {}
    ensures data.List? ==> items == data.elements && items[..] == Reversed(old(data.elements[..]))
    ensures data.Record? ==> fresh(items) && items[..] == [data.value]
  {
    if data.List? {
      items := data.elements;
    } else {
      items := new T[] [data.value];
    }
    ReverseInPlace(items);
  }

  /** Records in strictly increasing date order, as the API lists a range. */
  predicate Ascending(items: seq<Item>) {
    forall i, j :: 0 <= i < j < |items| ==> Less(items[i].date, items[j].date)
  }

  /** Records in strictly decreasing date order: the newest first. */
  predicate Descending(items: seq<Item>) {
    forall i, j :: 0 <= i < j < |items| ==> Less(items[j].date, items[i].date)
  }

  /** An ascending list read back to front is descending. */
  lemma BackwardsIsDescending(items: seq<Item>, r: seq<Item>)
    requires Ascending(items)
    requires |r| == |items| && forall k :: 0 <= k < |r| ==> r[k] == items[|items| - 1 - k]
    ensures Descending(r)
  {
    var n := |items|;
    forall i, j | 0 <= i < j < n
      ensures Less(r[j].date, r[i].date)
    {
      assert r[j] == items[n - 1 - j] && r[i] == items[n - 1 - i];
    }
  }

  /** After the reversal an ascending list runs newest first. */
  lemma NewestFirst(items: seq<Item>)
    requires Ascending(items)
    ensures Descending(Reversed(items))
  {
    BackwardsIsDescending(items, Reversed(items));
  }
}
