/** The label-keyed ElasticQuota usage cache (quota/cache.go): a running total per quota that is
    adjusted on every AddPod and RemovePod, against the from-scratch sum of what is recorded. */
module QuotaCache {
  import opened Options
  import opened Resources

  /** What is recorded: quota key, then pod key, then that pod's latest request. */
  type Recorded = map<string, map<string, ResourceList>>

  datatype Op =
    | AddPod(quota: string, pod: string, req: ResourceList)
    | RemovePod(quota: string, pod: string)

  ghost function PodsOf(rec: Recorded, quota: string): map<string, ResourceList> {
    if quota in rec then rec[quota] else map[]
  }

  ghost function Apply(rec: Recorded, op: Op): Recorded {
    match op
    case AddPod(q, p, req) => rec[q := PodsOf(rec, q)[p := req]]
    case RemovePod(q, p) =>
      var rest := PodsOf(rec, q) - {p};
      if rest == map[] then rec - {q} else rec[q := rest]
  }

  ghost function Replay(ops: seq<Op>): Recorded {
    if ops == [] then map[] else Apply(Replay(ops[..|ops| - 1]), ops[|ops| - 1])
  }

  /** The request of the last call about this pod and quota, if that call was an AddPod. */
  ghost function Latest(ops: seq<Op>, quota: string, pod: string): Option<ResourceList> {
    if ops == [] then None else
      var last := ops[|ops| - 1];
      if last.quota != quota || last.pod != pod then Latest(ops[..|ops| - 1], quota, pod)
      else if last.AddPod? then Some(last.req) else None
  }

  ghost function Lookup(rec: Recorded, quota: string, pod: string): Option<ResourceList> {
    if pod in PodsOf(rec, quota) then Some(rec[quota][pod]) else None
  }

  /** After any sequence of calls, exactly the pods whose last call was an AddPod are recorded,
      each with the request of that call: re-adding replaces, removal forgets, and calls about
      other pods or other quotas have no effect. */
  lemma {:induction false} ReplayRecordsLatest(ops: seq<Op>, quota: string, pod: string)
    ensures Lookup(Replay(ops), quota, pod) == Latest(ops, quota, pod)
    ensures quota in Replay(ops) ==> Replay(ops)[quota] != map[]
  {
    if ops != [] {
      ReplayRecordsLatest(ops[..|ops| - 1], quota, pod);
      var last := ops[|ops| - 1];
      assert last.AddPod? ==> last.pod in Replay(ops)[last.quota];
    }
  }

  /** Usage does not depend on the order of the calls: two call sequences that agree, pod by
      pod, on the last call leave the same cache contents, hence the same usage. */
  lemma OrderIndependent(ops: seq<Op>, ops': seq<Op>)
    requires forall q, p :: Latest(ops, q, p) == Latest(ops', q, p)
    ensures Replay(ops) == Replay(ops')
  {
    var r, r' := Replay(ops), Replay(ops');
    forall q
      ensures q in r <==> q in r'
      ensures PodsOf(r, q) == PodsOf(r', q)
    {
      forall p
        ensures Lookup(r, q, p) == Lookup(r', q, p)
      {
        ReplayRecordsLatest(ops, q, p);
        ReplayRecordsLatest(ops', q, p);
      }
      assert forall p :: p in PodsOf(r, q) <==> Lookup(r, q, p).Some?;
      assert forall p :: p in PodsOf(r', q) <==> Lookup(r', q, p).Some?;
      assert PodsOf(r, q).Keys == PodsOf(r', q).Keys;
      assert forall p | p in PodsOf(r, q) :: Lookup(r, q, p).value == PodsOf(r, q)[p];
      ReplayRecordsLatest(ops, q, "");
      ReplayRecordsLatest(ops', q, "");
    }
    assert forall q | q in r :: r[q] == PodsOf(r, q);
  }

  /** A total that agrees with the recorded requests: equal resource by resource, and naming
      only resources some recorded pod asks for. */
  ghost predicate Agrees(total: ResourceList, pods: map<string, ResourceList>) {
    && (forall name :: Amount(total, name) == Sum(pods, name))
    && total.Keys <= Names(pods)
  }

  /** Subtracting a recorded request leaves the total of the others. */
  lemma MinusAgrees(total: ResourceList, pods: map<string, ResourceList>, p: string)
    requires Agrees(total, pods) && p in pods
    ensures Agrees(Minus(total, pods[p]), pods - {p})
  {
    var next := Minus(total, pods[p]);
    forall name
      ensures Amount(next, name) == Sum(pods - {p}, name)
    {
      SumWithout(pods, p, name);
    }
    forall name | name in next
      ensures name in Names(pods - {p})
    {
      if name in pods[p] {
        if name !in Names(pods - {p}) {
          SumUnmentioned(pods - {p}, name);
        }
      } else {
        var k :| k in pods && name in pods[k];
        assert (pods - {p})[k] == pods[k];
      }
    }
  }

  /** Adding a request not yet recorded extends the total to it. */
  lemma PlusAgrees(total: ResourceList, pods: map<string, ResourceList>, p: string, req: ResourceList)
    requires Agrees(total, pods) && p !in pods
    ensures Agrees(Plus(total, req), pods[p := req])
  {
    forall name
      ensures Amount(Plus(total, req), name) == Sum(pods[p := req], name)
    {
      SumWith(pods, p, req, name);
      assert pods - {p} == pods;
    }
    forall name | name in Plus(total, req)
      ensures name in Names(pods[p := req])
    {
      if name in total {
        var k :| k in pods && name in pods[k];
        assert pods[p := req][k] == pods[k];
      } else {
        assert name in pods[p := req][p];
      }
    }
  }

  /** One quota's entry: the recorded requests and their running total. */
  datatype Info = Info(pods: map<string, ResourceList>, total: ResourceList)

  ghost predicate Sound(entry: Info) {
    entry.pods != map[] && Agrees(entry.total, entry.pods)
  }

  ghost function ContentsOf(infos: map<string, Info>): Recorded {
    map q | q in infos :: infos[q].pods
  }

  lemma ContentsAfterUpdate(infos: map<string, Info>, q: string, entry: Info)
    ensures ContentsOf(infos[q := entry]) == ContentsOf(infos)[q := entry.pods]
  {
    var l, r := ContentsOf(infos[q := entry]), ContentsOf(infos)[q := entry.pods];
    assert l.Keys == infos.Keys + {q} == r.Keys;
  }

  lemma ContentsAfterDelete(infos: map<string, Info>, q: string)
    ensures ContentsOf(infos - {q}) == ContentsOf(infos) - {q}
  {
    assert ContentsOf(infos - {q}).Keys == infos.Keys - {q} == (ContentsOf(infos) - {q}).Keys;
  }

  /** `sub(in.total, prev)` and the deletion from `in.pods`, when the pod is recorded. */
  method Without(entry: Info, pod: string) returns (rest: Info)
    requires Agrees(entry.total, entry.pods)
    ensures rest.pods == entry.pods - {pod} && Agrees(rest.total, rest.pods)
  {
    rest := entry;
    if pod in entry.pods {
      var less := Sub(entry.total, entry.pods[pod]);
      MinusAgrees(entry.total, entry.pods, pod);
      rest := Info(entry.pods - {pod}, less);
    } else {
      assert entry.pods - {pod} == entry.pods;
    }
  }

  class Cache {
    var infos: map<string, Info>

    constructor ()
      ensures Valid() && Contents() == map[]
    {
      infos := map[];
    }

    /** Every running total agrees with the requests recorded beside it, and a quota without
        pods leaves no entry behind. */
    ghost predicate Valid()
      reads this
    {
      forall q | q in infos :: Sound(infos[q])
    }

    ghost function Contents(): Recorded
      reads this
    {
      ContentsOf(infos)
    }

    /** Records podKey's request against quotaKey, keeping a copy of the caller's list. */
    method AddPod(quotaKey: string, podKey: string, req: SharedList)
      requires Valid()
      modifies this
      ensures Valid()
      ensures Contents() == Apply(old(Contents()), Op.AddPod(quotaKey, podKey, req.entries))
    {
      var entry := if quotaKey in infos then infos[quotaKey] else Info(map[], map[]);
      assert Agrees(entry.total, entry.pods);
      entry := Without(entry, podKey);
      var more := Add(entry.total, req.entries);
      PlusAgrees(entry.total, entry.pods, podKey, req.entries);
      var next := Info(entry.pods[podKey := req.entries], more);
      assert podKey in next.pods && Sound(next);
      assert next.pods == PodsOf(Contents(), quotaKey)[podKey := req.entries];
      ContentsAfterUpdate(infos, quotaKey, next);
      infos := infos[quotaKey := next];
    }

    /** Drops podKey's contribution from quotaKey; no effect when it is not recorded. */
    method RemovePod(quotaKey: string, podKey: string)
      requires Valid()
      modifies this
      ensures Valid()
      ensures Contents() == Apply(old(Contents()), Op.RemovePod(quotaKey, podKey))
    {
      if quotaKey !in infos {
        assert Contents() - {quotaKey} == Contents();
        return;
      }
      var entry := Without(infos[quotaKey], podKey);
      assert entry.pods == PodsOf(Contents(), quotaKey) - {podKey};
      if entry.pods == map[] {
        ContentsAfterDelete(infos, quotaKey);
        infos := infos - {quotaKey};
      } else {
        ContentsAfterUpdate(infos, quotaKey, entry);
        infos := infos[quotaKey := entry];
      }
    }

    /** A copy of the running total: it agrees with the from-scratch sum of the recorded
        requests, and the caller gets an object of its own. */
    method Used(quotaKey: string) returns (used: SharedList)
      requires Valid()
      ensures fresh(used)
      ensures Agrees(used.entries, PodsOf(Contents(), quotaKey))
    {
      used := new SharedList(if quotaKey in infos then infos[quotaKey].total else map[]);
    }
  }

  /** Every sequence of calls: the cache ends up holding what the call history says, whatever
      callers do to their lists in between. */
  method RunAll(ops: seq<Op>, junk: ResourceList) returns (cache: Cache)
    ensures fresh(cache) && cache.Valid() && cache.Contents() == Replay(ops)
  {
    cache := new Cache();
    for i := 0 to |ops|
      invariant fresh(cache) && cache.Valid() && cache.Contents() == Replay(ops[..i])
    {
      assert ops[..i + 1][..i] == ops[..i];
      match ops[i] {
        case AddPod(q, p, req) =>
          var list := new SharedList(req);
          cache.AddPod(q, p, list);
          list.entries := junk;
        case RemovePod(q, p) =>
          cache.RemovePod(q, p);
      }
      var handedOut := cache.Used(ops[i].quota);
      handedOut.entries := junk;
    }
    assert ops[..|ops|] == ops;
  }
}
