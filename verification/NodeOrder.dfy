/** The order in which a map keyed by node ids is walked: that of the ids as numbers. */
module NodeOrder {
  import opened Metric

  /** The ids of the set, each once, in ascending order. */
  ghost predicate InOrder(order: seq<NodeId>, ids: set<NodeId>)
  {
    && (forall i, j :: 0 <= i < j < |order| ==> Value(order[i]) < Value(order[j]))
    && (forall i :: 0 <= i < |order| ==> order[i] in ids)
    && (forall id :: id in ids ==> id in order)
  }

  /** Everything in order comes before everything in left. */
  ghost predicate Before(order: seq<NodeId>, left: set<NodeId>)
  {
    forall i, id :: 0 <= i < |order| && id in left ==> Value(order[i]) < Value(id)
  }

  method Least(ids: set<NodeId>) returns (id: NodeId)
    requires ids != {}
    ensures id in ids && forall x :: x in ids ==> Value(id) <= Value(x)
  {
    id :| id in ids;
    var left := ids - {id};
    while left != {}
      invariant left <= ids && id in ids
      invariant forall x :: x in ids && x !in left ==> Value(id) <= Value(x)
      decreases |left|
    {
      var x :| x in left;
      var less := Less(x, id);
      if less {
        id := x;
      }
      left := left - {x};
    }
  }

  lemma LeastBefore(order: seq<NodeId>, left: set<NodeId>, id: NodeId)
    requires Before(order, left) && id in left && forall x :: x in left ==> Value(id) <= Value(x)
    ensures Before(order + [id], left - {id}) && Before(order, left - {id})
  {
    forall x | x in left - {id} ensures Value(id) < Value(x) {
      if Value(id) == Value(x) {
        ValueInjective(id, x);
      }
    }
  }

  lemma SnocMember<T>(s: seq<T>, y: T, x: T)
    ensures x in s + [y] <==> x in s || x == y
  {
    assert (s + [y])[|s|] == y;
  }

  lemma InOrderSnoc(order: seq<NodeId>, ids: set<NodeId>, id: NodeId)
    requires InOrder(order, ids) && forall i :: 0 <= i < |order| ==> Value(order[i]) < Value(id)
    ensures InOrder(order + [id], ids + {id})
  {
    forall x | x in ids + {id} ensures x in order + [id] {
      SnocMember(order, id, x);
    }
  }

  lemma {:induction false} Greatest(ids: set<NodeId>) returns (id: NodeId)
    requires ids != {}
    ensures id in ids && forall x :: x in ids && x != id ==> Value(x) < Value(id)
    decreases |ids|
  {
    id :| id in ids;
    var rest := ids - {id};
    assert forall x :: x in ids && x != id ==> x in rest;
    if rest != {} {
      var g := Greatest(rest);
      if Value(id) == Value(g) {
        ValueInjective(id, g);
      }
      id := if Value(g) > Value(id) then g else id;
    }
  }

  lemma {:induction false} OrderExists(ids: set<NodeId>)
    ensures exists order :: InOrder(order, ids)
    decreases |ids|
  {
    if ids == {} {
      assert InOrder([], ids);
    } else {
      var id := Greatest(ids);
      OrderExists(ids - {id});
      var order :| InOrder(order, ids - {id});
      InOrderSnoc(order, ids - {id}, id);
      assert ids - {id} + {id} == ids;
    }
  }

  /** The ids in their order. */
  ghost function OrderOf(ids: set<NodeId>): (order: seq<NodeId>)
    ensures InOrder(order, ids)
  {
    OrderExists(ids);
    var order :| InOrder(order, ids);
    order
  }

  lemma PlaceIn(order: seq<NodeId>, ids: set<NodeId>, id: NodeId) returns (k: nat)
    requires InOrder(order, ids) && id in ids
    ensures k < |order| && order[k] == id && forall l :: k < l < |order| ==> order[l] != id
  {
    k :| 0 <= k < |order| && order[k] == id;
  }

  method Ordered(ids: set<NodeId>) returns (order: seq<NodeId>)
    ensures InOrder(order, ids) && order == OrderOf(ids)
  {
    order := [];
    var left := ids;
    while left != {}
      invariant left <= ids && Before(order, left) && InOrder(order, ids - left)
      decreases |left|
    {
      var id := Least(left);
      LeastBefore(order, left, id);
      InOrderSnoc(order, ids - left, id);
      assert ids - (left - {id}) == ids - left + {id};
      order, left := order + [id], left - {id};
    }
    assert ids - left == ids;
    OrderUnique(order, OrderOf(ids), ids);
  }

  /** There is only one such order. */
  lemma {:induction false} OrderUnique(a: seq<NodeId>, b: seq<NodeId>, ids: set<NodeId>)
    requires InOrder(a, ids) && InOrder(b, ids)
    ensures a == b
    decreases |a|
  {
    if a == [] {
      assert ids == {};
    } else {
      assert a[0] in ids && b != [];
      LastIsLast(a, b, ids);
      LastIsLast(b, a, ids);
      var n, m := |a| - 1, |b| - 1;
      ValueInjective(a[n], b[m]);
      WithoutLast(a, ids);
      WithoutLast(b, ids);
      OrderUnique(a[..n], b[..m], ids - {a[n]});
      assert a == a[..n] + [a[n]] && b == b[..m] + [b[m]];
    }
  }

  lemma LastIsLast(a: seq<NodeId>, b: seq<NodeId>, ids: set<NodeId>)
    requires InOrder(a, ids) && InOrder(b, ids) && a != [] && b != []
    ensures Value(a[|a| - 1]) <= Value(b[|b| - 1])
  {
    var i :| 0 <= i < |b| && b[i] == a[|a| - 1];
  }

  lemma WithoutLast(a: seq<NodeId>, ids: set<NodeId>)
    requires InOrder(a, ids) && a != []
    ensures InOrder(a[..|a| - 1], ids - {a[|a| - 1]})
  {
    var n := |a| - 1;
    forall x | x in ids - {a[n]} ensures x in a[..n] {
      var i :| 0 <= i < |a| && a[i] == x;
      assert a[..n][i] == x;
    }
  }
}
