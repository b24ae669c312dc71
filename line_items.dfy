/** The three ways the order controller changes the line-item table:
    appending one item per request entry on creation, the per-entry upsert of
    an update, and the bulk delete that precedes an order's removal. */
module LineItems {
  import opened Common
  import opened Records

  /** The line items order creation writes, in request order: one per entry,
      pointing at the new order and copying the entry's product and quantity. */
  function NewItems(orderId: Id, details: seq<Detail>): (r: seq<LineItem>)
    ensures |r| == |details|
    ensures forall k :: 0 <= k < |r| ==>
      r[k] == LineItem(orderId, details[k].productId, Some(details[k].quantity))
  {
    if details == [] then []
    else
      var last := details[|details| - 1];
      NewItems(orderId, details[..|details| - 1]) + [LineItem(orderId, last.productId, Some(last.quantity))]
  }

  /** Some line item links order `o` and product `p`: the filter
      `{orderId: o, productId: p}` matches. */
  predicate HasPair(items: seq<LineItem>, o: Id, p: Id) {
    exists i :: 0 <= i < |items| && items[i].orderId == o && items[i].productId == p
  }

  /** `updateMany({orderId, productId}, {$set: {orderId, productId}}, {upsert: true})`
      for one request entry. The filter and the `$set` both use the ENTRY's
      `orderId`, not the order being updated, and the `$set` rewrites the two
      ids with the values they already have, so a match changes nothing and an
      insert has no quantity. */
  function Upsert(items: seq<LineItem>, d: Detail): (r: seq<LineItem>)
    // afterwards the entry's pair is present; at most one item is added and
    // the old items are kept as they were
    ensures HasPair(r, d.orderId, d.productId)
    ensures |items| <= |r| <= |items| + 1 && r[..|items|] == items
    ensures |r| == |items| + 1 ==> r[|items|].quantity.None?
  {
    if HasPair(items, d.orderId, d.productId) then items
    else
      var r := items + [LineItem(d.orderId, d.productId, None)];
      assert r[|items|].orderId == d.orderId && r[|items|].productId == d.productId;
      r
  }

  /** The upserts of all request entries, in order. Nothing is ever removed
      or rewritten: the old table is a prefix of the new one. */
  function UpsertAll(items: seq<LineItem>, details: seq<Detail>): (r: seq<LineItem>)
    ensures |items| <= |r| && r[..|items|] == items
  {
    if details == [] then items
    else Upsert(UpsertAll(items, details[..|details| - 1]), details[|details| - 1])
  }

  /** A pair present in a table stays present in any extension of it. */
  lemma HasPairExtended(s: seq<LineItem>, t: seq<LineItem>, o: Id, p: Id)
    requires |s| <= |t| && t[..|s|] == s
    requires HasPair(s, o, p)
    ensures HasPair(t, o, p)
  {
    var i :| 0 <= i < |s| && s[i].orderId == o && s[i].productId == p;
    assert t[i] == t[..|s|][i];
  }

  /** After an update, every request entry's pair is in the table. */
  lemma {:induction false} UpsertAllCovers(items: seq<LineItem>, details: seq<Detail>)
    ensures forall j :: 0 <= j < |details| ==>
      HasPair(UpsertAll(items, details), details[j].orderId, details[j].productId)
  {
    if details != [] {
      var init, last := details[..|details| - 1], details[|details| - 1];
      var mid := UpsertAll(items, init);
      var r := UpsertAll(items, details);
      assert r == Upsert(mid, last);
      UpsertAllCovers(items, init);
      forall j | 0 <= j < |details|
        ensures HasPair(r, details[j].orderId, details[j].productId)
      {
        if j < |details| - 1 {
          assert details[j] == init[j];
          HasPairExtended(mid, r, details[j].orderId, details[j].productId);
        } else if !HasPair(mid, last.orderId, last.productId) {
          assert r[|mid|] == LineItem(last.orderId, last.productId, None);
        }
      }
    }
  }

  /** Some request entry carries the pair of `it`. */
  predicate Requested(details: seq<Detail>, it: LineItem) {
    exists j :: 0 <= j < |details| && details[j].orderId == it.orderId && details[j].productId == it.productId
  }

  /** The records `r` holds beyond the old table `items` are upserted ones:
      no quantity, a pair some request entry carries, not in the old table. */
  predicate OnlyMissingAdded(items: seq<LineItem>, details: seq<Detail>, r: seq<LineItem>)
    requires |items| <= |r|
  {
    forall k :: |items| <= k < |r| ==>
      r[k].quantity == None && !HasPair(items, r[k].orderId, r[k].productId) && Requested(details, r[k])
  }

  /** No pair occurs twice among the records `r` holds beyond index `n`. */
  predicate DistinctFrom(n: nat, r: seq<LineItem>) {
    forall k, l :: n <= k < l < |r| ==> r[k].orderId != r[l].orderId || r[k].productId != r[l].productId
  }

  /** The records an update appends are exactly the missing pairs, each once. */
  lemma {:induction false} UpsertAllInsertsOnlyMissing(items: seq<LineItem>, details: seq<Detail>)
    ensures OnlyMissingAdded(items, details, UpsertAll(items, details))
    ensures DistinctFrom(|items|, UpsertAll(items, details))
  {
    var r := UpsertAll(items, details);
    if details != [] {
      var init, last := details[..|details| - 1], details[|details| - 1];
      var mid := UpsertAll(items, init);
      UpsertAllInsertsOnlyMissing(items, init);
      assert r == Upsert(mid, last);
      forall k | |items| <= k < |mid|
        ensures r[k] == mid[k] && Requested(details, r[k])
      {
        assert r[k] == r[..|mid|][k];
        assert Requested(init, mid[k]);
        var j :| 0 <= j < |init| && init[j].orderId == mid[k].orderId && init[j].productId == mid[k].productId;
        assert details[j] == init[j];
      }
      if !HasPair(mid, last.orderId, last.productId) {
        assert r == mid + [LineItem(last.orderId, last.productId, None)];
        assert Requested(details, r[|mid|]) by { assert details[|details| - 1] == last; }
        if HasPair(items, last.orderId, last.productId) {
          HasPairExtended(items, mid, last.orderId, last.productId);
        }
        forall k, l | |items| <= k < l < |r|
          ensures r[k].orderId != r[l].orderId || r[k].productId != r[l].productId
        {
          if l == |mid| {
            assert !(0 <= k < |mid| && mid[k].orderId == last.orderId && mid[k].productId == last.productId);
          }
        }
      }
    }
  }

  /** Updating a table that already holds every requested pair changes nothing. */
  lemma {:induction false} UpsertAllCovered(items: seq<LineItem>, details: seq<Detail>)
    requires forall j :: 0 <= j < |details| ==> HasPair(items, details[j].orderId, details[j].productId)
    ensures UpsertAll(items, details) == items
  {
    if details != [] {
      var init := details[..|details| - 1];
      forall j | 0 <= j < |init|
        ensures HasPair(items, init[j].orderId, init[j].productId)
      {
        assert init[j] == details[j];
      }
      UpsertAllCovered(items, init);
    }
  }

  /** The line-item step of an update is idempotent. */
  lemma UpsertAllIdempotent(items: seq<LineItem>, details: seq<Detail>)
    ensures UpsertAll(UpsertAll(items, details), details) == UpsertAll(items, details)
  {
    UpsertAllCovers(items, details);
    UpsertAllCovered(UpsertAll(items, details), details);
  }

  /** The update scenario of an order holding products 1 (quantity 2) and 2
      (quantity 3), updated with products 1 (quantity 5) and 3 (quantity 1):
      as written, product 1 keeps quantity 2, product 2 stays, and product 3
      is added without a quantity. */
  lemma ReconcileScenario(o: Id)
    ensures UpsertAll([LineItem(o, 1, Some(2.0)), LineItem(o, 2, Some(3.0))],
                      [Detail(o, 1, 5.0), Detail(o, 3, 1.0)])
         == [LineItem(o, 1, Some(2.0)), LineItem(o, 2, Some(3.0)), LineItem(o, 3, None)]
  {
    var s := [LineItem(o, 1, Some(2.0)), LineItem(o, 2, Some(3.0))];
    var ds := [Detail(o, 1, 5.0), Detail(o, 3, 1.0)];
    assert ds[..1] == [Detail(o, 1, 5.0)] && ds[..1][..0] == [];
    assert HasPair(s, o, 1) by { assert s[0].orderId == o && s[0].productId == 1; }
    assert UpsertAll(s, ds[..1]) == Upsert(UpsertAll(s, []), Detail(o, 1, 5.0)) == s;
    assert !HasPair(s, o, 3);
    assert UpsertAll(s, ds) == Upsert(s, Detail(o, 3, 1.0));
  }

  /** `deleteMany({orderId})`: the table without the items of order `orderId`.
      Every other item keeps its multiplicity. */
  function ItemsWithout(items: seq<LineItem>, orderId: Id): (r: seq<LineItem>)
    ensures forall k :: 0 <= k < |r| ==> r[k].orderId != orderId
    ensures forall it :: multiset(r)[it] == if it.orderId == orderId then 0 else multiset(items)[it]
  {
    if items == [] then []
    else
      assert items == [items[0]] + items[1..];
      var rest := ItemsWithout(items[1..], orderId);
      if items[0].orderId == orderId then rest else [items[0]] + rest
  }
}
