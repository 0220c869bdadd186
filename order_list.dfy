/** The list operations behind the order page's handlers
    (src/app/orders/page.tsx): finding an order by id, replacing it in place,
    appending a created order, and applying a stream of pushed orders. The
    page's class (module OrdersPage) is specified by these functions. */
module OrderList {
  import opened OrderModel

  /** The ids of the list, position by position. */
  function Ids(s: seq<Order>): (ids: seq<string>)
    ensures |ids| == |s|
    ensures forall i :: 0 <= i < |s| ==> ids[i] == s[i].id
  {
    seq(|s|, i requires 0 <= i < |s| => s[i].id)
  }

  /** No id occurs twice in the list. */
  predicate NoDuplicateIds(s: seq<Order>)
  {
    forall i, j :: 0 <= i < j < |s| ==> s[i].id != s[j].id
  }

  /** `s.findIndex((d) => d.id === id)`: the first position holding that id,
      or -1 when no order has it. */
  function FirstIndexOf(s: seq<Order>, id: string): (r: int)
    ensures -1 <= r < |s|
    ensures r == -1 <==> id !in Ids(s)
    ensures r >= 0 ==> s[r].id == id
    ensures forall j :: 0 <= j < |s| && (r == -1 || j < r) ==> s[j].id != id
    decreases |s|
  {
    if |s| == 0 then -1
    else if s[0].id == id then 0
    else
      var k := FirstIndexOf(s[1..], id);
      assert Ids(s) == [s[0].id] + Ids(s[1..]);
      assert forall j :: 1 <= j < |s| ==> s[j] == s[1..][j - 1];
      if k == -1 then -1 else k + 1
  }

  /** `handleUpdatedOrder`'s new list: the first order with the incoming
      order's id is overwritten; when no order has that id the list is kept
      as it is (nothing is inserted). */
  function Updated(s: seq<Order>, o: Order): (r: seq<Order>)
    ensures |r| == |s|
  {
    var i := FirstIndexOf(s, o.id);
    if i >= 0 then s[i := o] else s
  }

  /** An update for an id present in the list keeps its length, puts the
      incoming order where the first order with that id was, and leaves every
      other position untouched. */
  lemma UpdateOfKnownId(s: seq<Order>, o: Order)
    requires o.id in Ids(s)
    ensures |Updated(s, o)| == |s|
    ensures exists k :: 0 <= k < |s| && s[k].id == o.id && Updated(s, o) == s[k := o] &&
                        (forall j :: 0 <= j < k ==> s[j].id != o.id)
  {
  }

  /** An update whose id no order has is dropped: the list is unchanged and
      nothing is appended. */
  lemma UpdateOfUnknownId(s: seq<Order>, o: Order)
    requires o.id !in Ids(s)
    ensures Updated(s, o) == s
  {
  }

  /** Updating never changes which id stands at which position. */
  lemma UpdateKeepsIds(s: seq<Order>, o: Order)
    ensures Ids(Updated(s, o)) == Ids(s)
  {
  }

  /** Where an order is overwritten, the first index of its id stays put. */
  lemma UpdateKeepsFirstIndex(s: seq<Order>, o: Order, id: string)
    ensures FirstIndexOf(Updated(s, o), id) == FirstIndexOf(s, id)
  {
    var r := Updated(s, o);
    UpdateKeepsIds(s, o);
    assert forall j :: 0 <= j < |s| ==> r[j].id == Ids(r)[j] == Ids(s)[j] == s[j].id;
  }

  /** Applying the same update twice gives the list that applying it once
      gives. */
  lemma UpdateIdempotent(s: seq<Order>, o: Order)
    ensures Updated(Updated(s, o), o) == Updated(s, o)
  {
    UpdateKeepsFirstIndex(s, o, o.id);
  }

  /** Two updates for the same id: the later one wins, as if the earlier one
      had not arrived. */
  lemma UpdateLastWriteWins(s: seq<Order>, a: Order, b: Order)
    requires a.id == b.id
    ensures Updated(Updated(s, a), b) == Updated(s, b)
  {
    UpdateKeepsFirstIndex(s, a, b.id);
  }

  /** Updates for different ids touch different positions, so their arrival
      order does not matter. */
  lemma UpdatesOfDistinctIdsCommute(s: seq<Order>, a: Order, b: Order)
    requires a.id != b.id
    ensures Updated(Updated(s, a), b) == Updated(Updated(s, b), a)
  {
    var sa, sb := Updated(s, a), Updated(s, b);
    UpdateKeepsFirstIndex(s, a, b.id);
    UpdateKeepsFirstIndex(s, b, a.id);
    var i, j := FirstIndexOf(s, a.id), FirstIndexOf(s, b.id);
    assert sa == if i >= 0 then s[i := a] else s;
    assert sb == if j >= 0 then s[j := b] else s;
    assert Updated(sa, b) == if j >= 0 then sa[j := b] else sa;
    assert Updated(sb, a) == if i >= 0 then sb[i := a] else sb;
    if i >= 0 && j >= 0 {
      assert i != j;
      SwapDistinctWrites(s, i, a, j, b);
    }
  }

  /** Writes to two different positions can be done in either order. */
  lemma SwapDistinctWrites(s: seq<Order>, i: nat, x: Order, j: nat, y: Order)
    requires i < |s| && j < |s| && i != j
    ensures s[i := x][j := y] == s[j := y][i := x]
  {
  }

  /** Updating keeps a list free of duplicate ids. */
  lemma UpdateKeepsNoDuplicateIds(s: seq<Order>, o: Order)
    requires NoDuplicateIds(s)
    ensures NoDuplicateIds(Updated(s, o))
  {
  }

  /** `handleCreatedOrder` appends without looking for the id: the appended
      list is free of duplicates exactly when the list was and the new id was
      not already present. */
  lemma AppendNoDuplicateIdsIff(s: seq<Order>, o: Order)
    ensures NoDuplicateIds(s + [o]) <==> NoDuplicateIds(s) && o.id !in Ids(s)
  {
    var r := s + [o];
    if NoDuplicateIds(r) {
      assert forall i, j :: 0 <= i < j < |s| ==> s[i] == r[i] && s[j] == r[j];
      assert forall k :: 0 <= k < |s| ==> Ids(s)[k] == r[k].id != r[|s|].id;
    }
  }

  /** Pushed orders applied one after another, each through the update path
      with no status comparison. */
  function ApplyPushes(s: seq<Order>, pushes: seq<Order>): (r: seq<Order>)
    ensures |r| == |s|
    decreases |pushes|
  {
    if |pushes| == 0 then s else ApplyPushes(Updated(s, pushes[0]), pushes[1..])
  }

  /** A stream of pushes never inserts, removes or reorders orders: the ids
      stay as they were, position by position. */
  lemma {:induction false} PushesKeepIds(s: seq<Order>, pushes: seq<Order>)
    ensures Ids(ApplyPushes(s, pushes)) == Ids(s)
    decreases |pushes|
  {
    if |pushes| > 0 {
      UpdateKeepsIds(s, pushes[0]);
      PushesKeepIds(Updated(s, pushes[0]), pushes[1..]);
    }
  }

  /** Pushes for ids the list does not hold are all dropped. */
  lemma {:induction false} PushesOfUnknownIdsDropped(s: seq<Order>, pushes: seq<Order>)
    requires forall p :: p in pushes ==> p.id !in Ids(s)
    ensures ApplyPushes(s, pushes) == s
    decreases |pushes|
  {
    if |pushes| > 0 {
      UpdateOfUnknownId(s, pushes[0]);
      assert forall p :: p in pushes[1..] ==> p in pushes;
      PushesOfUnknownIdsDropped(s, pushes[1..]);
    }
  }
}
