/**
 * The locally tracked exchange orders (store/orders.ts): an atom holding the
 * list of orders, a selector that sorts them newest first and groups them by
 * status, and a selector saying whether any order is still pending.
 */
module Orders {
  import opened Wrappers
  import opened Seqs

  datatype OrderType = Market | Limit

  datatype OrderStatus = Pending | Confirmed | Cancelled

  /** The ethers transaction handle an order keeps; its contents are opaque here. */
  datatype TransactionRef = TransactionRef(id: nat)

  datatype Order = Order(
    hash: string,
    baseCurrencyKey: string,
    baseCurrencyAmount: string,
    quoteCurrencyKey: string,
    quoteCurrencyAmount: string,
    orderType: OrderType,
    status: OrderStatus,
    timestamp: int,
    transaction: Option<TransactionRef>)

  datatype OrderByStatus = OrderByStatus(
    pending: seq<Order>,
    confirmed: seq<Order>,
    cancelled: seq<Order>)

  /** The state key of an atom or selector of this store. */
  function GetKey(subKey: string): (key: string)
    ensures |key| == |subKey| + 7
    ensures key[..7] == "orders/" && key[7..] == subKey
  {
    "orders/" + subKey
  }

  /** Different sub-keys give different state keys. */
  lemma GetKeyInjective(a: string, b: string)
    requires GetKey(a) == GetKey(b)
    ensures a == b
  {
  }

  const OrdersKey := GetKey("orders")
  const OrdersByStatusKey := GetKey("ordersByStatus")
  const HasPendingOrderKey := GetKey("hasPendingOrder")

  /** The three state keys of the store are pairwise different. */
  lemma StateKeysDistinct()
    ensures OrdersKey != OrdersByStatusKey
    ensures OrdersKey != HasPendingOrderKey
    ensures OrdersByStatusKey != HasPendingOrderKey
  {
    assert OrdersKey[7..] != OrdersByStatusKey[7..];
    assert OrdersByStatusKey[7..] != HasPendingOrderKey[7..];
  }

  /** The default value of the orders atom. */
  const InitialOrders: seq<Order> := []

  /** Sort key for "timestamp, descending": ascending on the negated timestamp. */
  function NegTimestamp(o: Order): int {
    -o.timestamp
  }

  /**
   * `orderBy(orders, 'timestamp', 'desc')`: the same orders, newest first,
   * with orders of the same timestamp in their input order.
   */
  function OrderedByTimestampDesc(orders: seq<Order>): (r: seq<Order>)
    ensures multiset(r) == multiset(orders)
    ensures NewestFirst(r)
    ensures forall k :: WithKey(NegTimestamp, k, r) == WithKey(NegTimestamp, k, orders)
  {
    SortByStableAll(NegTimestamp, orders);
    SortBy(NegTimestamp, orders)
  }

  function HasStatus(st: OrderStatus): Order -> bool {
    (o: Order) => o.status == st
  }

  /** The orders of `s` with status `st`, in the order of `s`. */
  function Bucket(s: seq<Order>, st: OrderStatus): seq<Order> {
    Filter(HasStatus(st), s)
  }

  /** Appending an order extends exactly its own bucket. */
  lemma BucketSnoc(front: seq<Order>, x: Order, st: OrderStatus)
    ensures Bucket(front + [x], st) == Bucket(front, st) + (if x.status == st then [x] else [])
  {
    FilterConcat(HasStatus(st), front, [x]);
    assert [x][1..] == [];
  }

  /** A bucket is non-empty exactly when some order has its status. */
  lemma BucketNonEmpty(s: seq<Order>, st: OrderStatus)
    ensures Bucket(s, st) != [] <==> exists i :: 0 <= i < |s| && s[i].status == st
  {
    var b := Bucket(s, st);
    if b != [] {
      assert b[0] in s;
    }
  }

  /** A missing group reads as the empty list (`?? []`). */
  function GroupOrEmpty(g: map<OrderStatus, seq<Order>>, st: OrderStatus): seq<Order> {
    if st in g then g[st] else []
  }

  /** `g` is the grouping of `s`: exactly the non-empty buckets, under their status. */
  ghost predicate IsGrouping(g: map<OrderStatus, seq<Order>>, s: seq<Order>) {
    && (forall st :: st in g <==> Bucket(s, st) != [])
    && (forall st :: st in g ==> g[st] == Bucket(s, st))
  }

  /** Pushing the next order onto its status's group extends the grouping by that order. */
  lemma GroupPush(g: map<OrderStatus, seq<Order>>, front: seq<Order>, x: Order)
    requires IsGrouping(g, front)
    ensures IsGrouping(g[x.status := GroupOrEmpty(g, x.status) + [x]], front + [x])
  {
    forall st ensures Bucket(front + [x], st) == Bucket(front, st) + (if x.status == st then [x] else []) {
      BucketSnoc(front, x, st);
    }
  }

  /**
   * lodash `groupBy(s, 'status')`: a key for each status that occurs, mapped
   * to the orders with that status pushed in the order of `s`.
   */
  function GroupByStatus(s: seq<Order>): (g: map<OrderStatus, seq<Order>>)
    ensures forall st :: st in g <==> Bucket(s, st) != []
    ensures forall st :: st in g ==> g[st] == Bucket(s, st)
  {
    if s == [] then map[]
    else
      var front, x := s[..|s| - 1], s[|s| - 1];
      var g := GroupByStatus(front);
      assert s == front + [x];
      GroupPush(g, front, x);
      g[x.status := GroupOrEmpty(g, x.status) + [x]]
  }

  /** The `ordersByStatusState` selector. */
  function OrdersByStatus(orders: seq<Order>): (r: OrderByStatus)
    ensures r.pending == Bucket(OrderedByTimestampDesc(orders), Pending)
    ensures r.confirmed == Bucket(OrderedByTimestampDesc(orders), Confirmed)
    ensures r.cancelled == Bucket(OrderedByTimestampDesc(orders), Cancelled)
  {
    var g := GroupByStatus(OrderedByTimestampDesc(orders));
    OrderByStatus(
      pending := GroupOrEmpty(g, Pending),
      confirmed := GroupOrEmpty(g, Confirmed),
      cancelled := GroupOrEmpty(g, Cancelled))
  }

  /** Every order in a bucket has that bucket's status. */
  lemma BucketsHaveTheirStatus(orders: seq<Order>)
    ensures forall o :: o in OrdersByStatus(orders).pending ==> o.status == Pending
    ensures forall o :: o in OrdersByStatus(orders).confirmed ==> o.status == Confirmed
    ensures forall o :: o in OrdersByStatus(orders).cancelled ==> o.status == Cancelled
  {
  }

  lemma BucketsPartition(s: seq<Order>)
    ensures multiset(Bucket(s, Pending)) + multiset(Bucket(s, Confirmed)) + multiset(Bucket(s, Cancelled))
            == multiset(s)
  {
    forall x: Order
      ensures (multiset(Bucket(s, Pending)) + multiset(Bucket(s, Confirmed)) + multiset(Bucket(s, Cancelled)))[x]
              == multiset(s)[x]
    {
      FilterCount(HasStatus(Pending), s, x);
      FilterCount(HasStatus(Confirmed), s, x);
      FilterCount(HasStatus(Cancelled), s, x);
    }
  }

  /** The three buckets together hold exactly the input orders: none lost, none duplicated. */
  lemma BucketsPermutation(orders: seq<Order>)
    ensures var r := OrdersByStatus(orders);
            multiset(r.pending + r.confirmed + r.cancelled) == multiset(orders)
  {
    BucketsPartition(OrderedByTimestampDesc(orders));
  }

  /** Timestamps never increase along `s`. */
  ghost predicate NewestFirst(s: seq<Order>) {
    forall i, j :: 0 <= i < j < |s| ==> s[i].timestamp >= s[j].timestamp
  }

  /** Within each bucket the orders are newest first. */
  lemma BucketsNewestFirst(orders: seq<Order>)
    ensures NewestFirst(OrdersByStatus(orders).pending)
    ensures NewestFirst(OrdersByStatus(orders).confirmed)
    ensures NewestFirst(OrdersByStatus(orders).cancelled)
  {
    var s := OrderedByTimestampDesc(orders);
    FilterSorted(HasStatus(Pending), NegTimestamp, s);
    FilterSorted(HasStatus(Confirmed), NegTimestamp, s);
    FilterSorted(HasStatus(Cancelled), NegTimestamp, s);
  }

  /** Some order of `s` has status `st`. */
  ghost predicate SomeWithStatus(s: seq<Order>, st: OrderStatus) {
    exists i :: 0 <= i < |s| && s[i].status == st
  }

  lemma PermutationKeepsStatuses(a: seq<Order>, b: seq<Order>, st: OrderStatus)
    requires multiset(a) == multiset(b)
    ensures SomeWithStatus(a, st) <==> SomeWithStatus(b, st)
  {
    if SomeWithStatus(a, st) {
      var i :| 0 <= i < |a| && a[i].status == st;
      assert a[i] in multiset(b);
    }
    if SomeWithStatus(b, st) {
      var i :| 0 <= i < |b| && b[i].status == st;
      assert b[i] in multiset(a);
    }
  }

  /** A status no order has yields the empty list. */
  lemma AbsentStatusIsEmpty(orders: seq<Order>, st: OrderStatus)
    requires forall i :: 0 <= i < |orders| ==> orders[i].status != st
    ensures st == Pending ==> OrdersByStatus(orders).pending == []
    ensures st == Confirmed ==> OrdersByStatus(orders).confirmed == []
    ensures st == Cancelled ==> OrdersByStatus(orders).cancelled == []
  {
    var s := OrderedByTimestampDesc(orders);
    PermutationKeepsStatuses(s, orders, st);
    BucketNonEmpty(s, st);
  }

  /** The `hasPendingOrderState` selector. */
  function HasPendingOrder(orders: seq<Order>): (r: bool)
    ensures r <==> exists i :: 0 <= i < |orders| && orders[i].status == Pending
  {
    var s := OrderedByTimestampDesc(orders);
    PermutationKeepsStatuses(s, orders, Pending);
    BucketNonEmpty(s, Pending);
    |OrdersByStatus(orders).pending| > 0
  }

  /** Before any order is recorded every bucket is empty and nothing is pending. */
  lemma InitialStateIsEmpty()
    ensures OrdersByStatus(InitialOrders) == OrderByStatus([], [], [])
    ensures !HasPendingOrder(InitialOrders)
  {
  }
}
