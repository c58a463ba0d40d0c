/** Kubernetes resource lists: a map from resource name to quantity. Quantities are exact
    (resource.Quantity is a decimal of unbounded precision), so an unbounded integer count of
    the smallest unit models them. A name that is absent reads as the zero quantity. */
module Resources {

  type ResourceList = map<string, int>

  function Amount(list: ResourceList, name: string): int {
    if name in list then list[name] else 0
  }

  /** What `add` leaves in its first argument: every requested name is present afterwards,
      even when its quantity is zero. */
  function Plus(total: ResourceList, req: ResourceList): ResourceList {
    map name | name in total.Keys + req.Keys :: Amount(total, name) + Amount(req, name)
  }

  /** What `sub` leaves in its first argument: a requested name whose quantity drops to zero
      disappears; a name that was not requested keeps even a zero quantity. */
  function Minus(total: ResourceList, req: ResourceList): ResourceList {
    map name | name in total.Keys + req.Keys && (name in req ==> Amount(total, name) != req[name])
      :: Amount(total, name) - Amount(req, name)
  }

  /** The from-scratch total of one resource over a collection of recorded requests. */
  ghost function Sum<K(!new)>(requests: map<K, ResourceList>, name: string): int
    decreases |requests|
  {
    if requests == map[] then 0 else
      var k :| k in requests;
      Amount(requests[k], name) + Sum(requests - {k}, name)
  }

  /** The names some recorded request mentions. */
  ghost function Names<K(!new)>(requests: map<K, ResourceList>): set<string> {
    set k, name | k in requests && name in requests[k] :: name
  }

  /** The sum does not depend on the order in which the requests are taken away. */
  lemma {:induction false} SumWithout<K(!new)>(requests: map<K, ResourceList>, k: K, name: string)
    requires k in requests
    ensures Sum(requests, name) == Amount(requests[k], name) + Sum(requests - {k}, name)
    decreases |requests|
  {
    var j :| j in requests && Sum(requests, name) == Amount(requests[j], name) + Sum(requests - {j}, name);
    if j != k {
      SumWithout(requests - {j}, k, name);
      SumWithout(requests - {k}, j, name);
      assert requests - {j} - {k} == requests - {k} - {j};
    }
  }

  lemma SumWith<K(!new)>(requests: map<K, ResourceList>, k: K, req: ResourceList, name: string)
    ensures Sum(requests[k := req], name) == Amount(req, name) + Sum(requests - {k}, name)
  {
    SumWithout(requests[k := req], k, name);
    assert requests[k := req] - {k} == requests - {k};
  }

  /** A resource that no request mentions sums to zero. */
  lemma {:induction false} SumUnmentioned<K(!new)>(requests: map<K, ResourceList>, name: string)
    requires name !in Names(requests)
    ensures Sum(requests, name) == 0
    decreases |requests|
  {
    if requests != map[] {
      var k :| k in requests;
      assert name !in requests[k];
      SumUnmentioned(requests - {k}, name);
      SumWithout(requests, k, name);
    }
  }

  /** One round of `sub`'s loop: the name taken out of `todo` has now been subtracted too. */
  lemma MinusStep(total: ResourceList, req: ResourceList, todo: set<string>, name: string)
    requires todo <= req.Keys && name in todo
    ensures var done := Minus(total, req - todo);
            var rest := Amount(done, name) - req[name];
            Minus(total, req - (todo - {name})) == if rest == 0 then done - {name} else done[name := rest]
  {
    var before, after := req - todo, req - (todo - {name});
    assert after.Keys == before.Keys + {name};
    var done := Minus(total, before);
    assert Amount(done, name) == Amount(total, name);
    var rest := Amount(done, name) - req[name];
    var next := if rest == 0 then done - {name} else done[name := rest];
    forall n
      ensures n in Minus(total, after) <==> n in next
      ensures n in next ==> Minus(total, after)[n] == next[n]
    {
    }
  }

  /** `add`: accumulate a request into a running total, name by name. */
  method Add(total: ResourceList, req: ResourceList) returns (sum: ResourceList)
    ensures sum == Plus(total, req)
  {
    sum := total;
    var todo := req.Keys;
    while todo != {}
      invariant todo <= req.Keys
      invariant sum == Plus(total, req - todo)
    {
      var name :| name in todo;
      sum := sum[name := Amount(sum, name) + req[name]];
      todo := todo - {name};
    }
    assert req - todo == req;
  }

  /** `sub`: take a request out of a running total, dropping the names that reach zero. */
  method Sub(total: ResourceList, req: ResourceList) returns (rest: ResourceList)
    ensures rest == Minus(total, req)
  {
    rest := total;
    var todo := req.Keys;
    while todo != {}
      invariant todo <= req.Keys
      invariant rest == Minus(total, req - todo)
    {
      var name :| name in todo;
      var left := Amount(rest, name) - req[name];
      MinusStep(total, req, todo, name);
      rest := if left == 0 then rest - {name} else rest[name := left];
      todo := todo - {name};
    }
    assert req - todo == req;
  }

  /** A resource list held by a caller, who may change it at any time. */
  class SharedList {
    var entries: ResourceList

    constructor (entries: ResourceList)
      ensures this.entries == entries
    {
      this.entries := entries;
    }
  }
}
