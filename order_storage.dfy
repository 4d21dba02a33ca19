/**
  The order store: a persisted list of orders, merged by order id on
  every write and filtered on every read.

  The JSON file is modelled as two fields of `OrderStore`: whether the
  file exists, and the list it holds. Reading the file is reading the
  list (an absent file reads as empty); writing it is assigning the list.
*/
module OrderStorage {
  import opened Wrappers
  import opened JsString
  import opened OrderModel

  // ----- Merging by order id -----

  /** The order ids of a list, position by position. */
  function Ids(s: seq<Order>): (r: seq<string>)
    ensures |r| == |s| && forall k :: 0 <= k < |s| ==> r[k] == s[k].orderId
  {
    seq(|s|, k requires 0 <= k < |s| => s[k].orderId)
  }

  /** `s.findIndex(o => o.orderId === id)`: the first position holding `id`, or -1. */
  function FindIndex(s: seq<Order>, id: string): (r: int)
    ensures -1 <= r < |s|
    ensures r == -1 <==> id !in Ids(s)
    ensures r >= 0 ==> s[r].orderId == id && forall k :: 0 <= k < r ==> s[k].orderId != id
  {
    if s == [] then -1
    else if s[0].orderId == id then 0
    else
      var i := FindIndex(s[1..], id);
      if i < 0 then
        assert Ids(s) == [s[0].orderId] + Ids(s[1..]);
        -1
      else
        assert Ids(s)[i + 1] == id;
        i + 1
  }

  /** One step of `addOrders`: replace the first order with the same id, or append. */
  function Upsert(s: seq<Order>, o: Order): (r: seq<Order>)
    ensures |r| == if o.orderId in Ids(s) then |s| else |s| + 1
  {
    var i := FindIndex(s, o.orderId);
    if i >= 0 then s[i := o] else s + [o]
  }

  /** The stored list after `addOrders(batch)`: the batch upserted one order at a time, in order. */
  function Merge(s: seq<Order>, batch: seq<Order>): (r: seq<Order>)
    ensures |s| <= |r| <= |s| + |batch|
    decreases |batch|
  {
    if batch == [] then s
    else Upsert(Merge(s, batch[..|batch| - 1]), batch[|batch| - 1])
  }

  /** The last order of `batch` that carries `id`. */
  function LastWithId(batch: seq<Order>, id: string): (r: Order)
    requires id in Ids(batch)
    ensures r.orderId == id && r in batch
  {
    var n := |batch| - 1;
    if batch[n].orderId == id then batch[n]
    else
      assert Ids(batch) == Ids(batch[..n]) + [batch[n].orderId];
      LastWithId(batch[..n], id)
  }

  /** No two stored orders share an id. */
  predicate DistinctIds(s: seq<Order>) {
    forall i, j :: 0 <= i < j < |s| ==> s[i].orderId != s[j].orderId
  }

  /** `t` extends `s` position by position as far as order ids go. */
  predicate SameIdsUpTo(s: seq<Order>, t: seq<Order>) {
    |s| <= |t| && forall k :: 0 <= k < |s| ==> t[k].orderId == s[k].orderId
  }

  /** Replacing an order in place keeps the id of every position; appending adds a new last position. */
  lemma UpsertShape(s: seq<Order>, o: Order)
    ensures SameIdsUpTo(s, Upsert(s, o))
    ensures o.orderId in Ids(s) ==> |Upsert(s, o)| == |s|
    ensures o.orderId !in Ids(s) ==> Upsert(s, o) == s + [o]
    ensures forall k :: 0 <= k < |s| && k != FindIndex(s, o.orderId) ==> Upsert(s, o)[k] == s[k]
  {
  }

  /** Upserting keeps the id of every position, and a new last position holds the order itself. */
  lemma UpsertIds(s: seq<Order>, o: Order)
    ensures SameIdsUpTo(s, Upsert(s, o))
    ensures forall k :: |s| <= k < |Upsert(s, o)| ==> Upsert(s, o)[k] == o
  {
  }

  /** Upserting leaves every entry with another id where it was. */
  lemma UpsertKeepsOthers(s: seq<Order>, o: Order)
    ensures forall k :: 0 <= k < |s| && s[k].orderId != o.orderId ==> Upsert(s, o)[k] == s[k]
  {
  }

  /** A matching order replaces the first entry with its id, at the same position. */
  lemma UpsertReplaces(s: seq<Order>, o: Order)
    requires o.orderId in Ids(s)
    ensures var i := FindIndex(s, o.orderId);
      |Upsert(s, o)| == |s| && Upsert(s, o)[i] == o &&
      forall k :: 0 <= k < |s| && k != i ==> Upsert(s, o)[k] == s[k]
  {
  }

  /** An order with an unseen id is appended at the end. */
  lemma UpsertAppends(s: seq<Order>, o: Order)
    requires o.orderId !in Ids(s)
    ensures Upsert(s, o) == s + [o]
  {
  }

  /** The first position of an id survives any change that keeps the ids of earlier positions. */
  lemma FindIndexStable(s: seq<Order>, t: seq<Order>, id: string)
    requires SameIdsUpTo(s, t)
    requires id in Ids(s)
    ensures FindIndex(t, id) == FindIndex(s, id)
  {
    var i := FindIndex(s, id);
    var j := FindIndex(t, id);
    assert t[i].orderId == id;
  }

  /** Upserting `o` does not move, or change the order at, the first position of another id. */
  lemma UpsertOtherId(s: seq<Order>, o: Order, id: string)
    requires id != o.orderId
    ensures id in Ids(Upsert(s, o)) <==> id in Ids(s)
    ensures id in Ids(s) ==>
      FindIndex(Upsert(s, o), id) == FindIndex(s, id) &&
      Upsert(s, o)[FindIndex(s, id)] == s[FindIndex(s, id)]
  {
    var t := Upsert(s, o);
    UpsertShape(s, o);
    if id in Ids(t) {
      var j := FindIndex(t, id);
      assert j < |s| && s[j].orderId == id;
    }
    if id in Ids(s) {
      FindIndexStable(s, t, id);
      if o.orderId in Ids(s) {
        assert FindIndex(s, o.orderId) != FindIndex(s, id);
      }
    }
  }

  /** After upserting `o`, the first position with its id holds `o`. */
  lemma UpsertSameId(s: seq<Order>, o: Order)
    ensures o.orderId in Ids(Upsert(s, o))
    ensures var t := Upsert(s, o); t[FindIndex(t, o.orderId)] == o
  {
    var t := Upsert(s, o);
    UpsertShape(s, o);
    if o.orderId in Ids(s) {
      FindIndexStable(s, t, o.orderId);
    } else {
      assert t[|s|].orderId == o.orderId;
    }
  }

  /**
    Merging keeps every stored position and its id; entries whose id is not
    in the batch keep their value; new positions hold ids from the batch.
  */
  lemma MergeShape(s: seq<Order>, batch: seq<Order>)
    ensures SameIdsUpTo(s, Merge(s, batch))
    ensures forall k :: 0 <= k < |s| && s[k].orderId !in Ids(batch) ==> Merge(s, batch)[k] == s[k]
    ensures forall k :: |s| <= k < |Merge(s, batch)| ==> Merge(s, batch)[k].orderId in Ids(batch)
    ensures forall id :: id in Ids(batch) ==> id in Ids(Merge(s, batch))
  {
    MergeKeepsIds(s, batch);
    MergeKeepsOthers(s, batch);
    MergeAppendsFromBatch(s, batch);
    MergeHasBatchIds(s, batch);
  }

  lemma {:induction false} MergeKeepsIds(s: seq<Order>, batch: seq<Order>)
    ensures SameIdsUpTo(s, Merge(s, batch))
    decreases |batch|
  {
    if batch != [] {
      var n := |batch| - 1;
      MergeKeepsIds(s, batch[..n]);
      UpsertShape(Merge(s, batch[..n]), batch[n]);
    }
  }

  lemma {:induction false} MergeKeepsOthers(s: seq<Order>, batch: seq<Order>)
    ensures forall k :: 0 <= k < |s| && s[k].orderId !in Ids(batch) ==> Merge(s, batch)[k] == s[k]
    decreases |batch|
  {
    if batch != [] {
      var n := |batch| - 1;
      var prev := Merge(s, batch[..n]);
      var o := batch[n];
      MergeKeepsOthers(s, batch[..n]);
      UpsertKeepsOthers(prev, o);
      assert Ids(batch) == Ids(batch[..n]) + [o.orderId];
    }
  }

  lemma {:induction false} MergeAppendsFromBatch(s: seq<Order>, batch: seq<Order>)
    ensures forall k :: |s| <= k < |Merge(s, batch)| ==> Merge(s, batch)[k].orderId in Ids(batch)
    decreases |batch|
  {
    if batch != [] {
      var n := |batch| - 1;
      var prev := Merge(s, batch[..n]);
      var o := batch[n];
      MergeAppendsFromBatch(s, batch[..n]);
      MergeKeepsIds(s, batch[..n]);
      UpsertIds(prev, o);
      assert Ids(batch) == Ids(batch[..n]) + [o.orderId];
    }
  }

  lemma {:induction false} MergeHasBatchIds(s: seq<Order>, batch: seq<Order>)
    ensures forall id :: id in Ids(batch) ==> id in Ids(Merge(s, batch))
    decreases |batch|
  {
    if batch != [] {
      var n := |batch| - 1;
      var prev := Merge(s, batch[..n]);
      var o := batch[n];
      MergeHasBatchIds(s, batch[..n]);
      assert Ids(batch) == Ids(batch[..n]) + [o.orderId];
      assert Merge(s, batch) == Upsert(prev, o);
      UpsertKeepsIds(prev, o, Ids(batch[..n]));
    }
  }

  lemma UpsertKeepsIds(s: seq<Order>, o: Order, ids: seq<string>)
    requires forall id :: id in ids ==> id in Ids(s)
    ensures forall id :: id in ids + [o.orderId] ==> id in Ids(Upsert(s, o))
  {
    UpsertSameId(s, o);
    forall id | id in ids + [o.orderId] ensures id in Ids(Upsert(s, o)) {
      if id != o.orderId {
        assert id in ids;
        UpsertOtherId(s, o, id);
      }
    }
  }

  /** After the merge, the first entry for each id of the batch is the last batch order with that id. */
  lemma {:induction false} MergeHoldsLast(s: seq<Order>, batch: seq<Order>, id: string)
    requires id in Ids(batch)
    ensures id in Ids(Merge(s, batch))
    ensures var m := Merge(s, batch); m[FindIndex(m, id)] == LastWithId(batch, id)
    decreases |batch|
  {
    var n := |batch| - 1;
    var prev := Merge(s, batch[..n]);
    var o := batch[n];
    assert Ids(batch) == Ids(batch[..n]) + [o.orderId];
    if o.orderId == id {
      UpsertSameId(prev, o);
    } else {
      MergeHoldsLast(s, batch[..n], id);
      UpsertOtherId(prev, o, id);
    }
  }

  /** Merging keeps order ids pairwise distinct. */
  lemma {:induction false} MergeKeepsDistinct(s: seq<Order>, batch: seq<Order>)
    requires DistinctIds(s)
    ensures DistinctIds(Merge(s, batch))
    decreases |batch|
  {
    if batch != [] {
      var n := |batch| - 1;
      var prev := Merge(s, batch[..n]);
      var o := batch[n];
      MergeKeepsDistinct(s, batch[..n]);
      UpsertShape(prev, o);
      var t := Upsert(prev, o);
      forall i, j | 0 <= i < j < |t| ensures t[i].orderId != t[j].orderId {
        if j == |prev| {
          assert t[j] == o && o.orderId !in Ids(prev);
          assert prev[i].orderId == t[i].orderId;
        } else {
          assert prev[i].orderId != prev[j].orderId;
        }
      }
    }
  }

  /**
    The merge of a batch into a list that already holds every id of the
    batch: the first entry for each batch id becomes the last batch order
    with that id, and nothing else changes.
  */
  function Overlay(t: seq<Order>, batch: seq<Order>): (r: seq<Order>)
    ensures |r| == |t|
  {
    seq(|t|, k requires 0 <= k < |t| =>
      if t[k].orderId in Ids(batch) && FindIndex(t, t[k].orderId) == k
      then LastWithId(batch, t[k].orderId) else t[k])
  }

  lemma OverlaySameIds(t: seq<Order>, batch: seq<Order>)
    ensures SameIdsUpTo(t, Overlay(t, batch))
  {
  }

  /** Which order `LastWithId` picks once one more order is appended to the batch. */
  lemma LastWithIdSnoc(init: seq<Order>, o: Order, id: string)
    ensures Ids(init + [o]) == Ids(init) + [o.orderId]
    ensures id == o.orderId ==> LastWithId(init + [o], id) == o
    ensures id != o.orderId && id in Ids(init) ==> LastWithId(init + [o], id) == LastWithId(init, id)
  {
    assert (init + [o])[..|init|] == init;
  }

  lemma OverlayStep(t: seq<Order>, init: seq<Order>, o: Order, k: nat)
    requires k < |t| && o.orderId in Ids(t)
    ensures var p := FindIndex(t, o.orderId);
      Overlay(t, init + [o])[k] == if k == p then o else Overlay(t, init)[k]
  {
    var id := t[k].orderId;
    LastWithIdSnoc(init, o, id);
    if id == o.orderId && k != FindIndex(t, o.orderId) {
      assert Overlay(t, init + [o])[k] == t[k];
    }
  }

  lemma {:induction false} MergeIsOverlay(t: seq<Order>, batch: seq<Order>)
    requires forall id :: id in Ids(batch) ==> id in Ids(t)
    ensures Merge(t, batch) == Overlay(t, batch)
    decreases |batch|
  {
    if batch != [] {
      var n := |batch| - 1;
      var init := batch[..n];
      var o := batch[n];
      assert batch == init + [o];
      LastWithIdSnoc(init, o, o.orderId);
      MergeIsOverlay(t, init);
      var prev := Merge(t, init);
      OverlaySameIds(t, init);
      FindIndexStable(t, prev, o.orderId);
      var p := FindIndex(t, o.orderId);
      var m := Merge(t, batch);
      assert m == prev[p := o];
      forall k | 0 <= k < |t| ensures m[k] == Overlay(t, batch)[k] {
        OverlayStep(t, init, o, k);
      }
    }
  }

  /** Merging the same batch twice gives the same list as merging it once. */
  lemma MergeIdempotent(s: seq<Order>, batch: seq<Order>)
    ensures Merge(Merge(s, batch), batch) == Merge(s, batch)
  {
    var m := Merge(s, batch);
    MergeShape(s, batch);
    MergeIsOverlay(m, batch);
    forall k | 0 <= k < |m| ensures Overlay(m, batch)[k] == m[k] {
      var id := m[k].orderId;
      if id in Ids(batch) && FindIndex(m, id) == k {
        MergeHoldsLast(s, batch, id);
      }
    }
  }

  /** Merging one more order of the batch is one more upsert. */
  lemma MergeStep(s: seq<Order>, batch: seq<Order>, i: nat)
    requires i < |batch|
    ensures Merge(s, batch[..i + 1]) == Upsert(Merge(s, batch[..i]), batch[i])
  {
    assert batch[..i + 1][..i] == batch[..i];
  }

  // ----- Filtering -----

  /** One filter of `getFilteredOrders`. */
  datatype Criterion = OrderIdIs(id: string) | DateFrom(start: string) | DateUntil(end: string)

  predicate Satisfies(o: Order, c: Criterion) {
    match c
    case OrderIdIs(id) => o.orderId == id
    case DateFrom(start) => LexLe(start, o.date)
    case DateUntil(end) => LexLe(o.date, end)
  }

  predicate SatisfiesAll(o: Order, cs: seq<Criterion>) {
    forall i :: 0 <= i < |cs| ==> Satisfies(o, cs[i])
  }

  /** `s.filter(...)` with one criterion. */
  function Where(s: seq<Order>, c: Criterion): (r: seq<Order>)
    ensures |r| <= |s|
  {
    if s == [] then []
    else (if Satisfies(s[0], c) then [s[0]] else []) + Where(s[1..], c)
  }

  /** The order-preserving subsequence of `s` whose orders satisfy every criterion of `cs`. */
  function Select(s: seq<Order>, cs: seq<Criterion>): (r: seq<Order>)
  {
    if s == [] then []
    else (if SatisfiesAll(s[0], cs) then [s[0]] else []) + Select(s[1..], cs)
  }

  /** An order is selected exactly when it is stored and satisfies every criterion. */
  lemma {:induction false} SelectMembers(s: seq<Order>, cs: seq<Criterion>, o: Order)
    ensures o in Select(s, cs) <==> o in s && SatisfiesAll(o, cs)
  {
    if s != [] {
      SelectMembers(s[1..], cs, o);
      assert s == [s[0]] + s[1..];
    }
  }

  /** With no criterion, everything is selected in stored order. */
  lemma {:induction false} SelectNone(s: seq<Order>)
    ensures Select(s, []) == s
  {
    if s != [] {
      SelectNone(s[1..]);
      assert s == [s[0]] + s[1..];
    }
  }

  /** Filtering the selection by one more criterion selects by the longer list. */
  lemma {:induction false} WhereSelect(s: seq<Order>, cs: seq<Criterion>, c: Criterion)
    ensures Where(Select(s, cs), c) == Select(s, cs + [c])
  {
    if s != [] {
      WhereSelect(s[1..], cs, c);
      var x := s[0];
      assert SatisfiesAll(x, cs + [c]) <==> SatisfiesAll(x, cs) && Satisfies(x, c) by {
        if SatisfiesAll(x, cs) && Satisfies(x, c) {
          forall i | 0 <= i < |cs + [c]| ensures Satisfies(x, (cs + [c])[i]) {
            if i < |cs| { assert (cs + [c])[i] == cs[i]; }
          }
        }
        if SatisfiesAll(x, cs + [c]) {
          assert (cs + [c])[|cs|] == c;
          forall i | 0 <= i < |cs| ensures Satisfies(x, cs[i]) {
            assert (cs + [c])[i] == cs[i];
          }
        }
      }
      var tail := Select(s[1..], cs);
      if SatisfiesAll(x, cs) {
        assert Select(s, cs) == [x] + tail;
        assert ([x] + tail)[1..] == tail;
      } else {
        assert Select(s, cs) == tail;
      }
    }
  }

  /** Selecting by `cs1 + cs2` keeps what selecting by `cs1` and by `cs2` both keep. */
  lemma SelectIntersection(s: seq<Order>, cs1: seq<Criterion>, cs2: seq<Criterion>, o: Order)
    ensures o in Select(s, cs1 + cs2) <==> o in Select(s, cs1) && o in Select(s, cs2)
  {
    SelectMembers(s, cs1 + cs2, o);
    SelectMembers(s, cs1, o);
    SelectMembers(s, cs2, o);
    assert SatisfiesAll(o, cs1 + cs2) <==> SatisfiesAll(o, cs1) && SatisfiesAll(o, cs2) by {
      if SatisfiesAll(o, cs1) && SatisfiesAll(o, cs2) {
        forall i | 0 <= i < |cs1 + cs2| ensures Satisfies(o, (cs1 + cs2)[i]) {
          if i < |cs1| { assert (cs1 + cs2)[i] == cs1[i]; }
          else { assert (cs1 + cs2)[i] == cs2[i - |cs1|]; }
        }
      }
      if SatisfiesAll(o, cs1 + cs2) {
        forall i | 0 <= i < |cs1| ensures Satisfies(o, cs1[i]) { assert (cs1 + cs2)[i] == cs1[i]; }
        forall i | 0 <= i < |cs2| ensures Satisfies(o, cs2[i]) { assert (cs1 + cs2)[|cs1| + i] == cs2[i]; }
      }
    }
  }

  /** A filter argument constrains only when it is given and is not the empty string (JavaScript truthiness). */
  predicate Active(arg: Option<string>) {
    arg.Some? && arg.value != ""
  }

  /** The criteria that `getFilteredOrders` applies, in its order. */
  function Criteria(orderId: Option<string>, startDate: Option<string>, endDate: Option<string>): (cs: seq<Criterion>)
    ensures |cs| <= 3
    ensures !Active(orderId) && !Active(startDate) && !Active(endDate) ==> cs == []
  {
    (if Active(orderId) then [OrderIdIs(orderId.value)] else []) +
    (if Active(startDate) then [DateFrom(startDate.value)] else []) +
    (if Active(endDate) then [DateUntil(endDate.value)] else [])
  }

  /** What an order must satisfy to be returned, spelled out. */
  predicate Matches(o: Order, orderId: Option<string>, startDate: Option<string>, endDate: Option<string>) {
    && (Active(orderId) ==> o.orderId == orderId.value)
    && (Active(startDate) ==> LexLe(startDate.value, o.date))
    && (Active(endDate) ==> LexLe(o.date, endDate.value))
  }

  lemma CriteriaMeaning(o: Order, orderId: Option<string>, startDate: Option<string>, endDate: Option<string>)
    ensures SatisfiesAll(o, Criteria(orderId, startDate, endDate)) <==> Matches(o, orderId, startDate, endDate)
  {
    var a := if Active(orderId) then [OrderIdIs(orderId.value)] else [];
    var b := if Active(startDate) then [DateFrom(startDate.value)] else [];
    var c := if Active(endDate) then [DateUntil(endDate.value)] else [];
    var cs := Criteria(orderId, startDate, endDate);
    assert cs == a + b + c;
    if SatisfiesAll(o, cs) {
      if Active(orderId) { assert cs[0] == OrderIdIs(orderId.value); }
      if Active(startDate) { assert cs[|a|] == DateFrom(startDate.value); }
      if Active(endDate) { assert cs[|a| + |b|] == DateUntil(endDate.value); }
    }
    if Matches(o, orderId, startDate, endDate) {
      forall i | 0 <= i < |cs| ensures Satisfies(o, cs[i]) {
        if i < |a| { assert cs[i] == a[0]; }
        else if i < |a| + |b| { assert cs[i] == b[0]; }
        else { assert cs[i] == c[0]; }
      }
    }
  }

  /**
    The chain of filters of `getFilteredOrders` over a loaded list: by order
    id, then from the start date, then until the end date, each only when its
    argument is truthy.
  */
  function Query(s: seq<Order>, orderId: Option<string>, startDate: Option<string>, endDate: Option<string>): (r: seq<Order>)
    ensures r == Select(s, Criteria(orderId, startDate, endDate))
  {
    var a := if Active(orderId) then [OrderIdIs(orderId.value)] else [];
    var b := if Active(startDate) then [DateFrom(startDate.value)] else [];
    var c := if Active(endDate) then [DateUntil(endDate.value)] else [];
    SelectNone(s);
    var byId := if Active(orderId) then Where(s, OrderIdIs(orderId.value)) else s;
    WhereSelect(s, [], OrderIdIs(if orderId.Some? then orderId.value else ""));
    assert [] + a == a;
    assert byId == Select(s, a);
    var byStart := if Active(startDate) then Where(byId, DateFrom(startDate.value)) else byId;
    WhereSelect(s, a, DateFrom(if startDate.Some? then startDate.value else ""));
    assert a + b == (if Active(startDate) then a + [DateFrom(startDate.value)] else a);
    assert byStart == Select(s, a + b);
    var byEnd := if Active(endDate) then Where(byStart, DateUntil(endDate.value)) else byStart;
    WhereSelect(s, a + b, DateUntil(if endDate.Some? then endDate.value else ""));
    assert a + b + c == (if Active(endDate) then a + b + [DateUntil(endDate.value)] else a + b);
    byEnd
  }

  /** An order is returned exactly when it is stored and passes every active filter. */
  lemma QueryMembers(s: seq<Order>, orderId: Option<string>, startDate: Option<string>, endDate: Option<string>, o: Order)
    ensures o in Query(s, orderId, startDate, endDate) <==> o in s && Matches(o, orderId, startDate, endDate)
  {
    SelectMembers(s, Criteria(orderId, startDate, endDate), o);
    CriteriaMeaning(o, orderId, startDate, endDate);
  }

  /** With every filter absent or empty, the whole stored list comes back in stored order. */
  lemma QueryUnfiltered(s: seq<Order>, orderId: Option<string>, startDate: Option<string>, endDate: Option<string>)
    requires !Active(orderId) && !Active(startDate) && !Active(endDate)
    ensures Query(s, orderId, startDate, endDate) == s
  {
    SelectNone(s);
  }

  /** In a list with distinct ids, filtering by a stored id returns exactly the one entry with it. */
  lemma {:induction false} WhereUniqueId(s: seq<Order>, id: string)
    requires DistinctIds(s) && id in Ids(s)
    ensures Where(s, OrderIdIs(id)) == [s[FindIndex(s, id)]]
  {
    var rest := s[1..];
    assert DistinctIds(rest) by {
      forall i, j | 0 <= i < j < |rest| ensures rest[i].orderId != rest[j].orderId {
        assert rest[i] == s[i + 1] && rest[j] == s[j + 1];
      }
    }
    if s[0].orderId == id {
      assert id !in Ids(rest) by {
        forall k | 0 <= k < |rest| ensures rest[k].orderId != id { assert rest[k] == s[k + 1]; }
      }
      WhereNoId(rest, id);
    } else {
      assert Ids(s) == [s[0].orderId] + Ids(rest);
      WhereUniqueId(rest, id);
      assert FindIndex(s, id) == FindIndex(rest, id) + 1;
    }
  }

  lemma {:induction false} WhereNoId(s: seq<Order>, id: string)
    requires id !in Ids(s)
    ensures Where(s, OrderIdIs(id)) == []
  {
    if s != [] {
      assert Ids(s) == [s[0].orderId] + Ids(s[1..]);
      WhereNoId(s[1..], id);
    }
  }

  /** In a list with distinct ids, a query with an order id returns at most one order. */
  lemma QueryByIdAtMostOne(s: seq<Order>, orderId: Option<string>, startDate: Option<string>, endDate: Option<string>)
    requires DistinctIds(s) && Active(orderId)
    ensures |Query(s, orderId, startDate, endDate)| <= 1
  {
    var b := if Active(startDate) then [DateFrom(startDate.value)] else [];
    var c := if Active(endDate) then [DateUntil(endDate.value)] else [];
    assert Criteria(orderId, startDate, endDate) == [OrderIdIs(orderId.value)] + (b + c);
    SelectByIdAtMostOne(s, orderId.value, b + c);
  }

  lemma SelectByIdAtMostOne(s: seq<Order>, id: string, more: seq<Criterion>)
    requires DistinctIds(s)
    ensures |Select(s, [OrderIdIs(id)] + more)| <= 1
  {
    if id in Ids(s) {
      WhereUniqueId(s, id);
    } else {
      WhereNoId(s, id);
    }
    SelectNone(s);
    WhereSelect(s, [], OrderIdIs(id));
    assert [] + [OrderIdIs(id)] == [OrderIdIs(id)];
    SelectTail(s, [OrderIdIs(id)], more);
  }

  /** Selecting by more criteria never returns more than selecting by fewer. */
  lemma {:induction false} SelectTail(s: seq<Order>, cs: seq<Criterion>, more: seq<Criterion>)
    ensures |Select(s, cs + more)| <= |Select(s, cs)|
  {
    if s != [] {
      SelectTail(s[1..], cs, more);
      if SatisfiesAll(s[0], cs + more) {
        forall i | 0 <= i < |cs| ensures Satisfies(s[0], cs[i]) {
          assert (cs + more)[i] == cs[i];
        }
      }
    }
  }

  /** A non-empty answer to a date window means the window is not inverted. */
  lemma QueryWindowOrdered(s: seq<Order>, orderId: Option<string>, startDate: Option<string>, endDate: Option<string>)
    requires Active(startDate) && Active(endDate)
    ensures Query(s, orderId, startDate, endDate) != [] ==> LexLe(startDate.value, endDate.value)
  {
    var r := Query(s, orderId, startDate, endDate);
    if r != [] {
      QueryMembers(s, orderId, startDate, endDate, r[0]);
      LexLeTransitive(startDate.value, r[0].date, endDate.value);
    }
  }

  /** A window whose start and end are the same day returns the orders of exactly that day. */
  lemma QuerySingleDay(s: seq<Order>, orderId: Option<string>, day: string, o: Order)
    requires day != ""
    ensures o in Query(s, orderId, Some(day), Some(day)) <==>
      o in s && o.date == day && (Active(orderId) ==> o.orderId == orderId.value)
  {
    QueryMembers(s, orderId, Some(day), Some(day), o);
    LexLeReflexive(day);
    if LexLe(day, o.date) && LexLe(o.date, day) {
      LexLeAntisymmetric(day, o.date);
    }
  }

  /**
    After merging a batch into a list with distinct ids, querying an id of
    the batch returns exactly one order: the last one of the batch with it.
  */
  lemma QueryAfterMerge(s: seq<Order>, batch: seq<Order>, id: string)
    requires DistinctIds(s) && id in Ids(batch) && id != ""
    ensures Query(Merge(s, batch), Some(id), None, None) == [LastWithId(batch, id)]
  {
    var m := Merge(s, batch);
    MergeKeepsDistinct(s, batch);
    MergeHoldsLast(s, batch, id);
    WhereUniqueId(m, id);
    SelectById(m, id);
  }

  /** Querying by id alone is filtering by that id. */
  lemma SelectById(s: seq<Order>, id: string)
    requires id != ""
    ensures Query(s, Some(id), None, None) == Where(s, OrderIdIs(id))
  {
    assert Criteria(Some(id), None, None) == [] + [OrderIdIs(id)];
    SelectNone(s);
    WhereSelect(s, [], OrderIdIs(id));
  }

  /**
    The `forEach` loop of `addOrders`: each batch order replaces the first
    stored order with its id, or is appended when there is none.
  */
  method UpsertAll(stored: seq<Order>, batch: seq<Order>) returns (merged: seq<Order>)
    ensures merged == Merge(stored, batch)
  {
    merged := stored;
    var i := 0;
    while i < |batch|
      invariant 0 <= i <= |batch|
      invariant merged == Merge(stored, batch[..i])
    {
      ghost var next := Upsert(merged, batch[i]);
      MergeStep(stored, batch, i);
      var index := FindIndex(merged, batch[i].orderId);
      if index >= 0 {
        merged := merged[index := batch[i]];
      } else {
        merged := merged + [batch[i]];
      }
      assert merged == next;
      i := i + 1;
    }
    assert batch[..i] == batch;
  }

  // ----- The store -----

  datatype StorageStatus = Written | IoError

  class OrderStore {
    /** Whether the orders file exists. */
    var fileExists: bool
    /** The orders the file holds. */
    var orders: seq<Order>
    /** Every batch handed to `AddOrders`, in call order. */
    ghost var batches: seq<seq<Order>>

    /** No file holds no orders, and the stored ids are pairwise distinct. */
    ghost predicate Valid()
      reads this
    {
      (!fileExists ==> orders == []) && DistinctIds(orders)
    }

    /** The list `addOrders` and `getFilteredOrders` load: empty when there is no file. */
    function Stored(): seq<Order>
      reads this
    {
      if fileExists then orders else []
    }

    /** A store whose file does not exist yet. */
    constructor ()
      ensures Valid() && !fileExists && orders == [] && batches == []
    {
      fileExists := false;
      orders := [];
      batches := [];
    }

    /**
      `addOrders`: loads the stored list, upserts the batch one order at a
      time, and writes the whole list back (even when the batch is empty).
      `ioFails` stands for the file system throwing; then nothing is written.
    */
    method AddOrders(batch: seq<Order>, ioFails: bool) returns (status: StorageStatus)
      requires Valid()
      modifies this
      ensures Valid()
      ensures batches == old(batches) + [batch]
      ensures status == if ioFails then IoError else Written
      ensures ioFails ==> fileExists == old(fileExists) && orders == old(orders)
      ensures !ioFails ==> fileExists && orders == Merge(old(Stored()), batch)
    {
      var existing := if fileExists then orders else [];
      assert DistinctIds(existing);
      existing := UpsertAll(existing, batch);
      MergeKeepsDistinct(old(Stored()), batch);
      batches := batches + [batch];
      if ioFails {
        return IoError;
      }
      orders := existing;
      fileExists := true;
      status := Written;
    }

    /** `getFilteredOrders`: no file reads as no orders; otherwise the filtered stored list. */
    method GetFilteredOrders(orderId: Option<string>, startDate: Option<string>, endDate: Option<string>)
      returns (result: seq<Order>)
      ensures result == Select(Stored(), Criteria(orderId, startDate, endDate))
      ensures forall o :: o in result <==> o in Stored() && Matches(o, orderId, startDate, endDate)
      ensures Valid() && Active(orderId) ==> |result| <= 1
    {
      if !fileExists {
        return [];
      }
      result := Query(orders, orderId, startDate, endDate);
      if Valid() && Active(orderId) {
        QueryByIdAtMostOne(orders, orderId, startDate, endDate);
      }
      forall o ensures o in result <==> o in Stored() && Matches(o, orderId, startDate, endDate) {
        QueryMembers(orders, orderId, startDate, endDate, o);
      }
    }
  }
}
