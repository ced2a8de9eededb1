/** lib/PriorityQueue.ts: a linear-scan priority queue. `dequeue` folds over the
    items with a strict `<` against the `Number.MAX_VALUE` sentinel, so the
    lowest priority wins, the earliest item wins among ties, and an item at or
    above the sentinel is never chosen. */
module PriorityQueues {
  import opened Wrappers

  /** `Number.MAX_VALUE`, (2^53 - 1) * 2^971, written out exactly. */
  const MAXP: int := 0xfffffffffffff800000000000000000000000000000000000000000000000000000000000000000000000000000000000000000000000000000000000000000000000000000000000000000000000000000000000000000000000000000000000000000000000000000000000000000000000000000000000000000000000000

  /** The accumulator `{index, priority}` of the fold. */
  datatype Candidate = Candidate(index: int, priority: int)

  /** The fold of `dequeue` after it has visited the first `n` items. What the
      fold finds is stated by `ScanFinds`. */
  function Scan<T>(items: seq<T>, priorityOf: T -> int, n: nat): (c: Candidate)
    requires n <= |items|
    ensures -1 <= c.index < n
  {
    if n == 0 then Candidate(-1, MAXP)
    else
      var previous := Scan(items, priorityOf, n - 1);
      var priority := priorityOf(items[n - 1]);
      if priority < previous.priority then Candidate(n - 1, priority) else previous
  }

  /** After `n` items the fold holds the earliest of the least priorities below
      the sentinel among them, or no index and the sentinel itself. */
  lemma {:induction false} ScanFinds<T>(items: seq<T>, priorityOf: T -> int, n: nat)
    requires n <= |items|
    ensures var c := Scan(items, priorityOf, n);
      && (c.index == -1 ==> c.priority == MAXP)
      && (c.index >= 0 ==> c.priority == priorityOf(items[c.index]) < MAXP)
      && (forall i :: 0 <= i < n ==> c.priority <= priorityOf(items[i]))
      && (forall i :: 0 <= i < c.index ==> c.priority < priorityOf(items[i]))
  {
    if n > 0 {
      ScanFinds(items, priorityOf, n - 1);
    }
  }

  /** The index `dequeue` chooses, or -1; see `MinIndexChoice`. */
  function MinIndex<T>(items: seq<T>, priorityOf: T -> int): (k: int)
    ensures -1 <= k < |items|
  {
    Scan(items, priorityOf, |items|).index
  }

  /** No index exactly when every item is at or above the sentinel; otherwise
      the item chosen is below it, no item is lower, and every earlier item is
      strictly higher. */
  lemma MinIndexChoice<T>(items: seq<T>, priorityOf: T -> int)
    ensures var k := MinIndex(items, priorityOf);
      && (k == -1 <==> forall i :: 0 <= i < |items| ==> priorityOf(items[i]) >= MAXP)
      && (k >= 0 ==> priorityOf(items[k]) < MAXP)
      && (k >= 0 ==> forall i :: 0 <= i < |items| ==> priorityOf(items[k]) <= priorityOf(items[i]))
      && (k >= 0 ==> forall i :: 0 <= i < k ==> priorityOf(items[k]) < priorityOf(items[i]))
  {
    ScanFinds(items, priorityOf, |items|);
  }

  /** What one `dequeue` does: the chosen item, if any, and the remaining items.
      When it finds nothing is stated by `PopMinNone`, what it finds by
      `PopMinChoice`. */
  function PopMin<T>(items: seq<T>, priorityOf: T -> int): (r: (Option<T>, seq<T>))
    ensures r.0.None? ==> r.1 == items
    ensures r.0.Some? ==> |r.1| == |items| - 1
  {
    var k := MinIndex(items, priorityOf);
    if k == -1 then (None, items)
    else (Some(items[k]), items[..k] + items[k + 1..])
  }

  /** `dequeue` finds nothing exactly when no item is below the sentinel. */
  lemma PopMinNone<T>(items: seq<T>, priorityOf: T -> int)
    ensures PopMin(items, priorityOf).0.None? <==> forall i :: 0 <= i < |items| ==> priorityOf(items[i]) >= MAXP
  {
    MinIndexChoice(items, priorityOf);
  }

  /** Taking out the item at `k` leaves the others, in order. */
  lemma RemoveAt<T>(items: seq<T>, k: int, rest: seq<T>)
    requires 0 <= k < |items| && rest == items[..k] + items[k + 1..]
    ensures |rest| == |items| - 1
    ensures multiset(rest) + multiset{items[k]} == multiset(items)
    ensures forall i :: 0 <= i < |rest| ==> rest[i] == if i < k then items[i] else items[i + 1]
  {
    assert items == items[..k] + [items[k]] + items[k + 1..];
  }

  /** A successful `dequeue` takes out exactly the earliest item of least
      priority, which is below the sentinel; the others keep their order, and
      together with the chosen item they are the old items. */
  lemma PopMinChoice<T>(items: seq<T>, priorityOf: T -> int)
    requires PopMin(items, priorityOf).0.Some?
    ensures var (x, rest) := PopMin(items, priorityOf);
      priorityOf(x.value) < MAXP
      && multiset(rest) + multiset{x.value} == multiset(items)
      && (forall i :: 0 <= i < |rest| ==> priorityOf(x.value) <= priorityOf(rest[i]))
      && (exists k :: 0 <= k < |items| && items[k] == x.value
            && rest == items[..k] + items[k + 1..]
            && forall i :: 0 <= i < k ==> priorityOf(x.value) < priorityOf(items[i]))
  {
    MinIndexChoice(items, priorityOf);
    var k := MinIndex(items, priorityOf);
    var rest := items[..k] + items[k + 1..];
    RemoveAt(items, k, rest);
    assert PopMin(items, priorityOf) == (Some(items[k]), rest);
  }

  /** The multiset half of `PopMinChoice`: a successful `dequeue` loses no
      item and invents none. */
  lemma PopMinRemoves<T>(items: seq<T>, priorityOf: T -> int)
    requires PopMin(items, priorityOf).0.Some?
    ensures multiset(PopMin(items, priorityOf).1) + multiset{PopMin(items, priorityOf).0.value} == multiset(items)
  {
    var k := MinIndex(items, priorityOf);
    RemoveAt(items, k, items[..k] + items[k + 1..]);
  }

  /** The items in the order successive `dequeue` calls return them, until one
      returns nothing. */
  function DequeueAll<T>(items: seq<T>, priorityOf: T -> int): (out: seq<T>)
    ensures |out| <= |items|
    decreases |items|
  {
    var (next, rest) := PopMin(items, priorityOf);
    match next
    case None => []
    case Some(x) => [x] + DequeueAll(rest, priorityOf)
  }

  /** What comes out was in the queue, and is below the sentinel. */
  lemma {:induction false} DequeueAllFrom<T>(items: seq<T>, priorityOf: T -> int)
    ensures multiset(DequeueAll(items, priorityOf)) <= multiset(items)
    ensures forall i :: 0 <= i < |DequeueAll(items, priorityOf)| ==> priorityOf(DequeueAll(items, priorityOf)[i]) < MAXP
    decreases |items|
  {
    var popped := PopMin(items, priorityOf);
    if popped.0.Some? {
      PopMinChoice(items, priorityOf);
      DequeueAllFrom(popped.1, priorityOf);
      assert DequeueAll(items, priorityOf) == [popped.0.value] + DequeueAll(popped.1, priorityOf);
    }
  }

  /** The items of priority exactly `p`, in their order. */
  function WithPriority<T>(items: seq<T>, priorityOf: T -> int, p: int): seq<T> {
    if items == [] then []
    else (if priorityOf(items[0]) == p then [items[0]] else []) + WithPriority(items[1..], priorityOf, p)
  }

  lemma {:induction false} WithPriorityAppend<T>(a: seq<T>, b: seq<T>, priorityOf: T -> int, p: int)
    ensures WithPriority(a + b, priorityOf, p) == WithPriority(a, priorityOf, p) + WithPriority(b, priorityOf, p)
  {
    if a != [] {
      assert (a + b)[1..] == a[1..] + b;
      WithPriorityAppend(a[1..], b, priorityOf, p);
    } else {
      assert a + b == b;
    }
  }

  lemma {:induction false} WithPriorityNone<T>(a: seq<T>, priorityOf: T -> int, p: int)
    requires forall i :: 0 <= i < |a| ==> priorityOf(a[i]) != p
    ensures WithPriority(a, priorityOf, p) == []
  {
    if a != [] {
      WithPriorityNone(a[1..], priorityOf, p);
    }
  }

  /** Priorities never decrease along `s`. */
  ghost predicate Ascending<T>(s: seq<T>, priorityOf: T -> int) {
    forall i, j :: 0 <= i < j < |s| ==> priorityOf(s[i]) <= priorityOf(s[j])
  }

  lemma AscendingCons<T>(x: T, tail: seq<T>, priorityOf: T -> int)
    requires Ascending(tail, priorityOf)
    requires forall j :: 0 <= j < |tail| ==> priorityOf(x) <= priorityOf(tail[j])
    ensures Ascending([x] + tail, priorityOf)
  {
    var s := [x] + tail;
    forall i, j | 0 <= i < j < |s|
      ensures priorityOf(s[i]) <= priorityOf(s[j])
    {
      assert s[j] == tail[j - 1];
      if i > 0 {
        assert s[i] == tail[i - 1];
      }
    }
  }

  /** Successive dequeues return items in non-decreasing priority. */
  lemma {:induction false} DequeueAllSorted<T>(items: seq<T>, priorityOf: T -> int)
    ensures Ascending(DequeueAll(items, priorityOf), priorityOf)
    decreases |items|
  {
    var popped := PopMin(items, priorityOf);
    if popped.0.Some? {
      var x, rest := popped.0.value, popped.1;
      var tail := DequeueAll(rest, priorityOf);
      assert DequeueAll(items, priorityOf) == [x] + tail;
      PopMinChoice(items, priorityOf);
      DequeueAllFrom(rest, priorityOf);
      DequeueAllSorted(rest, priorityOf);
      forall j | 0 <= j < |tail|
        ensures priorityOf(x) <= priorityOf(tail[j])
      {
        assert tail[j] in multiset(rest);
        assert tail[j] in rest;
      }
      AscendingCons(x, tail, priorityOf);
    }
  }

  lemma WithPrioritySingle<T>(x: T, priorityOf: T -> int, p: int)
    ensures WithPriority([x], priorityOf, p) == if priorityOf(x) == p then [x] else []
  {
    assert [x][1..] == [];
  }

  /** FIFO among ties: the items of any one selectable priority come out in the
      order they went in, and all of them come out. */
  lemma {:induction false} DequeueAllStable<T>(items: seq<T>, priorityOf: T -> int, p: int)
    requires p < MAXP
    ensures WithPriority(DequeueAll(items, priorityOf), priorityOf, p) == WithPriority(items, priorityOf, p)
    decreases |items|
  {
    MinIndexChoice(items, priorityOf);
    var k := MinIndex(items, priorityOf);
    if k == -1 {
      assert DequeueAll(items, priorityOf) == [];
      WithPriorityNone(items, priorityOf, p);
    } else {
      var rest := items[..k] + items[k + 1..];
      assert PopMin(items, priorityOf) == (Some(items[k]), rest);
      DequeueAllStable(rest, priorityOf, p);
      StableStep(items, DequeueAll(items, priorityOf), DequeueAll(rest, priorityOf), priorityOf, p, k);
    }
  }

  /** One dequeue of the stability proof: taking out the earliest minimum at
      `k` keeps the items of priority `p` in order. */
  lemma StableStep<T>(items: seq<T>, out: seq<T>, tail: seq<T>, priorityOf: T -> int, p: int, k: int)
    requires 0 <= k < |items|
    requires forall i :: 0 <= i < k ==> priorityOf(items[k]) < priorityOf(items[i])
    requires out == [items[k]] + tail
    requires WithPriority(tail, priorityOf, p) == WithPriority(items[..k] + items[k + 1..], priorityOf, p)
    ensures WithPriority(out, priorityOf, p) == WithPriority(items, priorityOf, p)
  {
    var x := items[k];
    var A := WithPriority(items[..k], priorityOf, p);
    var B := WithPriority(items[k + 1..], priorityOf, p);
    var X := WithPriority([x], priorityOf, p);
    SplitAround(items, k);
    WithPriorityAppend(items[..k], [x] + items[k + 1..], priorityOf, p);
    WithPriorityAppend([x], items[k + 1..], priorityOf, p);
    WithPriorityAppend(items[..k], items[k + 1..], priorityOf, p);
    WithPriorityAppend([x], tail, priorityOf, p);
    WithPrioritySingle(x, priorityOf, p);
    if priorityOf(x) == p {
      WithPriorityNone(items[..k], priorityOf, p);
    }
    Swap(A, X, B);
  }

  lemma SplitAround<T>(items: seq<T>, k: int)
    requires 0 <= k < |items|
    ensures items == items[..k] + ([items[k]] + items[k + 1..])
  {
  }

  lemma Swap<T>(a: seq<T>, x: seq<T>, b: seq<T>)
    requires a == [] || x == []
    ensures a + (x + b) == x + (a + b)
  {
  }

  /** Items at or above the sentinel never come out. */
  lemma UnselectableNeverDequeued<T>(items: seq<T>, priorityOf: T -> int, p: int)
    requires p >= MAXP
    ensures WithPriority(DequeueAll(items, priorityOf), priorityOf, p) == []
  {
    DequeueAllFrom(items, priorityOf);
    WithPriorityNone(DequeueAll(items, priorityOf), priorityOf, p);
  }

  /** The queue object: `items` is pushed by `enqueue` and reassigned by `dequeue`. */
  class PriorityQueue<T> {
    var items: seq<T>
    const priorityOf: T -> int

    constructor (priorityOf: T -> int)
      ensures items == [] && this.priorityOf == priorityOf
    {
      items := [];
      this.priorityOf := priorityOf;
    }

    function Size(): nat
      reads this
    {
      |items|
    }

    /** `enqueue`: the item goes at the end and nothing else moves. */
    method Enqueue(item: T)
      modifies this
      ensures items == old(items) + [item]
      ensures Size() == old(Size()) + 1
    {
      items := items + [item];
    }

    /** `dequeue`: remove and return the earliest item of lowest priority below
        the sentinel, or return nothing and change nothing. */
    method Dequeue() returns (r: Option<T>)
      modifies this
      ensures (r, items) == PopMin(old(items), priorityOf)
      ensures r.None? <==> forall i :: 0 <= i < |old(items)| ==> priorityOf(old(items)[i]) >= MAXP
      ensures r.None? ==> items == old(items)
      ensures r.Some? ==> Size() == old(Size()) - 1 && multiset(items) + multiset{r.value} == multiset(old(items))
      ensures r.Some? ==> forall i :: 0 <= i < |items| ==> priorityOf(r.value) <= priorityOf(items[i])
    {
      PopMinNone(items, priorityOf);
      var k := MinIndex(items, priorityOf);
      if k != -1 {
        PopMinChoice(items, priorityOf);
        var item := items[k];
        items := items[..k] + items[k + 1..];
        r := Some(item);
      } else {
        r := None;
      }
    }
  }
}
