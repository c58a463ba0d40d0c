/** The ElasticQuota controller (controllers/elasticquota.go): informer stores, notification
    handlers, the client-go work queue and the reconcile loop as one interleaved step machine. */
module ElasticQuota {
  import opened Options
  import opened Resources
  import QuotaCache

  // ---- Keys --------------------------------------------------------------------------------

  /** `quota.Key`, the same shape MetaNamespaceKeyFunc gives a namespaced object. */
  function Key(namespace: string, name: string): string { namespace + "/" + name }

  function IndexOf(s: string, c: char): (i: nat)
    ensures i <= |s| && c !in s[..i] && (i < |s| ==> s[i] == c)
  {
    if s == [] || s[0] == c then 0 else 1 + IndexOf(s[1..], c)
  }

  /** SplitMetaNamespaceKey: at most one slash. */
  function SplitKey(key: string): Option<(string, string)> {
    var i := IndexOf(key, '/');
    if i == |key| then Some(("", key))
    else if '/' in key[i + 1..] then None
    else Some((key[..i], key[i + 1..]))
  }

  /** Names the API server admits: non-empty and without a slash. */
  predicate ValidName(s: string) { s != "" && '/' !in s }

  predicate ValidKey(key: string) {
    var parts := SplitKey(key);
    parts.Some? && ValidName(parts.value.0) && ValidName(parts.value.1)
  }

  lemma SplitKeyInverts(namespace: string, name: string)
    ensures SplitKey(Key(namespace, name)) == Some((namespace, name))
            <==> '/' !in namespace && '/' !in name
  {
    var key := Key(namespace, name);
    var i := IndexOf(key, '/');
    assert key[|namespace|] == '/';
    if '/' !in namespace {
      assert key[..|namespace|] == namespace;
      assert i == |namespace|;
      assert key[..i] == namespace && key[i + 1..] == name;
    } else {
      assert i < |key| ==> '/' !in key[..i];
    }
  }

  // ---- Pods and usage ----------------------------------------------------------------------

  datatype Pod = Pod(namespace: string, quota: string, nodeName: string, phase: string, request: ResourceList)

  predicate Terminal(pod: Pod) { pod.phase == "Succeeded" || pod.phase == "Failed" }

  /** Bound to a node and not finished: only such pods consume quota. */
  predicate Counted(pod: Pod) { pod.nodeName != "" && !Terminal(pod) }

  predicate ValidPod(pod: Pod) {
    ValidName(pod.namespace) && (pod.quota != "" ==> ValidName(pod.quota))
  }

  /** The requests charged to one quota, pod by pod. */
  ghost function Charged(pods: map<string, Pod>, namespace: string, name: string): map<string, ResourceList> {
    map id | id in pods && pods[id].namespace == namespace && pods[id].quota == name && Counted(pods[id])
      :: pods[id].request
  }

  /** Exactly the bound pods of the namespace that carry the label and have neither succeeded nor failed
      are charged, each with its request. */
  lemma ChargedIff(pods: map<string, Pod>, namespace: string, name: string, id: string)
    ensures id in Charged(pods, namespace, name) <==>
            && id in pods && pods[id].namespace == namespace && pods[id].quota == name
            && pods[id].nodeName != "" && pods[id].phase !in {"Succeeded", "Failed"}
    ensures id in Charged(pods, namespace, name) ==> Charged(pods, namespace, name)[id] == pods[id].request
  {
  }

  /** The exact usage of a collection of requests: every name any of them mentions. */
  ghost function Total<K(!new)>(requests: map<K, ResourceList>): ResourceList {
    map name | name in Names(requests) :: Sum(requests, name)
  }

  ghost function Expected(pods: map<string, Pod>, key: string): ResourceList {
    match SplitKey(key)
    case None => map[]
    case Some((namespace, name)) => Total(Charged(pods, namespace, name))
  }

  lemma TotalExtends<K(!new)>(requests: map<K, ResourceList>, k: K, req: ResourceList)
    requires k !in requests
    ensures Total(requests[k := req]) == Plus(Total(requests), req)
  {
    var more := requests[k := req];
    forall name
      ensures name in Names(more) <==> name in Names(requests) || name in req
    {
      if name in Names(requests) {
        var j :| j in requests && name in requests[j];
        assert more[j] == requests[j];
      }
      if name in req { assert name in more[k]; }
    }
    forall name | name in Names(more)
      ensures Sum(more, name) == Amount(Total(requests), name) + Amount(req, name)
    {
      SumWith(requests, k, req, name);
      assert requests - {k} == requests;
      if name !in Names(requests) { SumUnmentioned(requests, name); }
    }
    assert Total(more).Keys == Names(more) == Plus(Total(requests), req).Keys;
  }

  /** The accumulation loop of `reconcile`, over the listed pods in whatever order the lister
      returns them. */
  method ComputeUsed(pods: map<string, Pod>, namespace: string, name: string) returns (used: ResourceList)
    ensures used == Total(Charged(pods, namespace, name))
  {
    used := map[];
    var listed := set id | id in pods && pods[id].namespace == namespace && pods[id].quota == name;
    var todo := listed;
    ghost var all := Charged(pods, namespace, name);
    ghost var done: map<string, ResourceList> := map[];
    while todo != {}
      invariant todo <= listed
      invariant done == all - todo
      invariant used == Total(done)
    {
      var id :| id in todo;
      todo := todo - {id};
      if Counted(pods[id]) {
        TotalExtends(done, id, pods[id].request);
        used := Add(used, pods[id].request);
        done := done[id := pods[id].request];
        assert done == all - todo;
      } else {
        assert all - todo == all - (todo + {id});
      }
    }
    assert all - todo == all;
  }

  /** The scheduler's incremental cache and this controller report the same usage: where the
      cache agrees with the recorded requests, it equals the from-scratch total of those
      requests resource by resource, and it differs from it only by omitting zero entries. */
  lemma CacheMatchesController(cached: ResourceList, requests: map<string, ResourceList>)
    requires QuotaCache.Agrees(cached, requests)
    ensures forall name :: Amount(cached, name) == Amount(Total(requests), name)
    ensures cached.Keys <= Total(requests).Keys
    ensures forall name | name in Total(requests).Keys - cached.Keys :: Total(requests)[name] == 0
  {
    forall name
      ensures Amount(cached, name) == Amount(Total(requests), name)
    {
      if name !in Names(requests) { SumUnmentioned(requests, name); }
    }
    forall name | name in Total(requests).Keys - cached.Keys
      ensures Total(requests)[name] == 0
    {
      assert Amount(cached, name) == Sum(requests, name);
    }
  }

  // ---- The controller's state --------------------------------------------------------------

  datatype Quota = Quota(version: nat, used: ResourceList)

  /** How far the worker that holds a key has got in `reconcile`. */
  datatype Work =
    | Started
    | HasQuota(eq: Quota)
    | HasUsage(eq: Quota, used: ResourceList)
    | Finished

  /** pods and lister are the informer stores; api is the API server's copy of every quota;
      inbox holds the notifications whose handler has not run yet; queue, dirty and the domain
      of work are the three parts of a client-go work queue; delayed are rate-limited keys. */
  datatype State = State(
    pods: map<string, Pod>,
    lister: map<string, Quota>,
    api: map<string, Quota>,
    nextVersion: nat,
    inbox: multiset<string>,
    queue: seq<string>,
    dirty: set<string>,
    work: map<string, Work>,
    delayed: set<string>)

  datatype Event =
    | ApiWrite(key: string, used: ResourceList)      // any client creates or updates a quota
    | ApiDelete(key: string)
    | WatchQuota(key: string, eq: Quota)             // the watch delivers some version
    | WatchQuotaDelete(key: string)
    | WatchPod(id: string, pod: Pod)                 // pod added, updated or resynced
    | WatchPodDelete(id: string)
    | Handle(key: string)                            // an event handler calls queue.Add
    | DelayElapsed(key: string)
    | Get(key: string)
    | ReadQuota(key: string)
    | ReadPods(key: string)
    | ReadFails(key: string)
    | Write(key: string)                             // status already right, or UpdateStatus succeeds
    | WriteFails(key: string, applied: bool)         // an error, whether or not the write took effect
    | Done(key: string)

  predicate Empty(s: State) {
    s.pods == map[] && s.lister == map[] && s.inbox == multiset{} && s.queue == [] && s.dirty == {} &&
    s.work == map[] && s.delayed == {} && (forall k | k in s.api :: s.api[k].version < s.nextVersion)
  }

  /** Work queue `Add`: a dirty key is already going to be processed again. */
  function Enqueue(s: State, key: string): State {
    if key in s.dirty then s
    else s.(dirty := s.dirty + {key}, queue := if key in s.work then s.queue else s.queue + [key])
  }

  function Notify(s: State, key: string): State {
    s.(inbox := s.inbox + multiset{key})
  }

  /** `enqueuePod`: a pod without the quota label concerns no quota. */
  function NotifyPod(s: State, pod: Pod): State {
    if pod.quota == "" then s else Notify(s, Key(pod.namespace, pod.quota))
  }

  ghost predicate Enabled(s: State, e: Event) {
    match e
    case ApiWrite(key, _) => true
    case ApiDelete(key) => true
    case WatchQuota(key, eq) => eq.version < s.nextVersion && ValidKey(key)
    case WatchQuotaDelete(key) => true
    case WatchPod(_, pod) => ValidPod(pod)
    case WatchPodDelete(id) => id in s.pods
    case Handle(key) => key in s.inbox
    case DelayElapsed(key) => key in s.delayed
    case Get(key) => s.queue != [] && s.queue[0] == key
    case ReadQuota(key) => key in s.work && s.work[key].Started?
    case ReadPods(key) => key in s.work && s.work[key].HasQuota?
    case ReadFails(key) => key in s.work && (s.work[key].Started? || s.work[key].HasQuota?)
    case Write(key) =>
      key in s.work && s.work[key].HasUsage? &&
      (s.work[key].eq.used != s.work[key].used ==>
         key in s.api && s.api[key].version == s.work[key].eq.version)
    case WriteFails(key, applied) =>
      key in s.work && s.work[key].HasUsage? && s.work[key].eq.used != s.work[key].used &&
      (applied ==> key in s.api && s.api[key].version == s.work[key].eq.version)
    case Done(key) => key in s.work && s.work[key].Finished?
  }

  function Store(s: State, key: string, used: ResourceList): State {
    s.(api := s.api[key := Quota(s.nextVersion, used)], nextVersion := s.nextVersion + 1)
  }

  function Advance(s: State, key: string, w: Work): State {
    s.(work := s.work[key := w])
  }

  ghost function Step(s: State, e: Event): State
    requires Enabled(s, e)
  {
    match e
    case ApiWrite(key, used) => Store(s, key, used)
    case ApiDelete(key) => s.(api := s.api - {key})
    case WatchQuota(key, eq) => Notify(s.(lister := s.lister[key := eq]), key)
    case WatchQuotaDelete(key) => Notify(s.(lister := s.lister - {key}), key)
    case WatchPod(id, pod) => NotifyPod(s.(pods := s.pods[id := pod]), pod)
    case WatchPodDelete(id) => NotifyPod(s.(pods := s.pods - {id}), s.pods[id])
    case Handle(key) => Enqueue(s.(inbox := s.inbox - multiset{key}), key)
    case DelayElapsed(key) => Enqueue(s.(delayed := s.delayed - {key}), key)
    case Get(key) =>
      Advance(s.(queue := s.queue[1..], dirty := s.dirty - {key}), key, Started)
    case ReadQuota(key) => Advance(s, key, if key in s.lister then HasQuota(s.lister[key]) else Finished)
    case ReadPods(key) => Advance(s, key, HasUsage(s.work[key].eq, Expected(s.pods, key)))
    case ReadFails(key) => Advance(s.(delayed := s.delayed + {key}), key, Finished)
    case Write(key) =>
      var w := s.work[key];
      Advance(if w.eq.used == w.used then s else Store(s, key, w.used), key, Finished)
    case WriteFails(key, applied) =>
      var w := s.work[key];
      Advance((if applied then Store(s, key, w.used) else s).(delayed := s.delayed + {key}), key, Finished)
    case Done(key) =>
      s.(work := s.work - {key}, queue := if key in s.dirty then s.queue + [key] else s.queue)
  }

  // ---- The invariant -----------------------------------------------------------------------

  /** A newer version of this quota is on its way to the informer store. */
  predicate Unsynced(s: State, key: string) {
    key in s.lister && (key !in s.api || s.api[key] != s.lister[key])
  }

  /** The key will be reconciled again after everything now in progress. */
  predicate Signalled(s: State, key: string) { key in s.inbox || key in s.dirty }

  /** The key is queued, dirty, in process, rate-limited, or about to be announced. */
  predicate Pending(s: State, key: string) {
    Signalled(s, key) || key in s.work || key in s.delayed
  }

  ghost predicate Exact(s: State, key: string) {
    key in s.lister ==> s.lister[key].used == Expected(s.pods, key)
  }

  ghost predicate Settled(s: State, key: string) {
    Exact(s, key) || key in s.delayed || Unsynced(s, key)
  }

  /** What a worker has read is still current unless its key has been signalled since. */
  ghost predicate Fresh(s: State, key: string)
    requires key in s.work
  {
    !Signalled(s, key) ==>
      match s.work[key]
      case Started => true
      case HasQuota(eq) => key in s.lister && s.lister[key] == eq
      case HasUsage(eq, used) => key in s.lister && s.lister[key] == eq && used == Expected(s.pods, key)
      case Finished => Settled(s, key)
  }

  ghost predicate QueueOk(s: State) {
    && (forall k :: k in s.queue <==> k in s.dirty && k !in s.work)
    && (forall i, j | 0 <= i < j < |s.queue| :: s.queue[i] != s.queue[j])
  }

  ghost predicate WellFormed(s: State) {
    && (forall k | k in s.lister :: s.lister[k].version < s.nextVersion && ValidKey(k))
    && (forall id | id in s.pods :: ValidPod(s.pods[id]))
    && (forall k | k in s.api :: s.api[k].version < s.nextVersion)
  }

  /** No quota is left with a stale status that nothing will revisit. */
  ghost predicate NothingForgotten(s: State) {
    forall k | k in s.lister && s.lister[k].used != Expected(s.pods, k) :: Pending(s, k) || Unsynced(s, k)
  }

  ghost predicate Inv(s: State) {
    && WellFormed(s)
    && QueueOk(s)
    && (forall k | k in s.work :: Fresh(s, k))
    && NothingForgotten(s)
  }

  // ---- Preservation ------------------------------------------------------------------------

  /** Replacing `old` by `new` takes nothing away from another quota: the label is unchanged,
      or the old pod was not charged to any quota. */
  predicate Quiet(old_: Pod, new_: Pod) {
    || (old_.namespace == new_.namespace && old_.quota == new_.quota)
    || old_.quota == "" || !Counted(old_) || old_.request == map[]
  }

  predicate QuietEvent(s: State, e: Event) {
    e.WatchPod? && e.id in s.pods ==> Quiet(s.pods[e.id], e.pod)
  }

  /** Removing a request that asks for nothing does not change the total. */
  lemma TotalWithoutEmpty(requests: map<string, ResourceList>, id: string)
    requires id in requests ==> requests[id] == map[]
    ensures Total(requests - {id}) == Total(requests)
  {
    if id in requests {
      TotalExtends(requests - {id}, id, map[]);
      assert (requests - {id})[id := map[]] == requests;
    } else {
      assert requests - {id} == requests;
    }
  }

  /** A pod's request reaches the expectation of its own quota only. */
  lemma OnlyOwnQuota(pods: map<string, Pod>, id: string, pod: Pod, key: string)
    requires ValidKey(key) && ValidPod(pod)
    requires id in pods ==> Quiet(pods[id], pod)
    requires pod.quota == "" || key != Key(pod.namespace, pod.quota)
    ensures Expected(pods[id := pod], key) == Expected(pods, key)
  {
    var (ns, name) := SplitKey(key).value;
    assert key == Key(ns, name);
    var before, after := Charged(pods, ns, name), Charged(pods[id := pod], ns, name);
    assert after == before - {id};
    TotalWithoutEmpty(before, id);
  }

  lemma DeletionOnlyOwnQuota(pods: map<string, Pod>, id: string, key: string)
    requires id in pods && ValidKey(key)
    requires pods[id].quota == "" || key != Key(pods[id].namespace, pods[id].quota)
    ensures Expected(pods - {id}, key) == Expected(pods, key)
  {
    var (ns, name) := SplitKey(key).value;
    assert key == Key(ns, name);
    assert Charged(pods - {id}, ns, name) == Charged(pods, ns, name);
  }

  /** A change of the pods keeps the invariant when every quota whose expectation moves is signalled. */
  lemma PodsKeepInv(s: State, s': State)
    requires Inv(s) && s' == s.(pods := s'.pods, inbox := s'.inbox)
    requires forall id | id in s'.pods :: ValidPod(s'.pods[id])
    requires forall k :: Signalled(s, k) ==> Signalled(s', k)
    requires forall k | ValidKey(k) && !Signalled(s', k) :: Expected(s'.pods, k) == Expected(s.pods, k)
    ensures Inv(s')
  {
    forall k | k in s'.work
      ensures Fresh(s', k)
    {
      assert Fresh(s, k);
    }
  }

  lemma PodStepKeepsInv(s: State, e: Event)
    requires Inv(s) && Enabled(s, e) && QuietEvent(s, e)
    requires e.WatchPod? || e.WatchPodDelete?
    ensures Inv(Step(s, e))
  {
    var s' := Step(s, e);
    var pod := if e.WatchPod? then e.pod else s.pods[e.id];
    forall k | ValidKey(k) && !Signalled(s', k)
      ensures Expected(s'.pods, k) == Expected(s.pods, k)
    {
      assert pod.quota == "" || k != Key(pod.namespace, pod.quota);
      if e.WatchPod? { OnlyOwnQuota(s.pods, e.id, pod, k); } else { DeletionOnlyOwnQuota(s.pods, e.id, k); }
    }
    PodsKeepInv(s, s');
  }

  /** `queue.Add` never makes a key less pending. */
  lemma EnqueueKeepsQueueOk(s: State, key: string)
    requires QueueOk(s)
    ensures QueueOk(Enqueue(s, key)) && key in Enqueue(s, key).dirty
  {
  }

  /** Moving a key from one waiting place to the next keeps the invariant. */
  lemma RelayKeepsInv(s: State, s': State)
    requires Inv(s) && QueueOk(s')
    requires s'.pods == s.pods && s'.lister == s.lister && s'.api == s.api
    requires s'.nextVersion == s.nextVersion && s'.work == s.work
    requires forall k :: Signalled(s, k) ==> Signalled(s', k)
    requires forall k | k in s.delayed :: k in s'.delayed || Signalled(s', k)
    ensures Inv(s')
  {
    assert forall k :: Unsynced(s', k) <==> Unsynced(s, k);
    forall k | k in s'.work
      ensures Fresh(s', k)
    {
      assert Fresh(s, k);
    }
  }

  lemma HandleKeepsInv(s: State, key: string)
    requires Inv(s) && Enabled(s, Handle(key))
    ensures Inv(Step(s, Handle(key)))
  {
    var s0 := s.(inbox := s.inbox - multiset{key});
    assert QueueOk(s0);
    EnqueueKeepsQueueOk(s0, key);
    var s' := Enqueue(s0, key);
    forall k | Signalled(s, k)
      ensures Signalled(s', k)
    {
      if k != key { assert s0.inbox[k] == s.inbox[k]; }
    }
    RelayKeepsInv(s, s');
  }

  lemma DelayElapsedKeepsInv(s: State, key: string)
    requires Inv(s) && Enabled(s, DelayElapsed(key))
    ensures Inv(Step(s, DelayElapsed(key)))
  {
    var s0 := s.(delayed := s.delayed - {key});
    assert QueueOk(s0);
    EnqueueKeepsQueueOk(s0, key);
    RelayKeepsInv(s, Enqueue(s0, key));
  }

  lemma GetKeepsInv(s: State, key: string)
    requires Inv(s) && Enabled(s, Get(key))
    ensures Inv(Step(s, Get(key)))
  {
    var s' := Step(s, Get(key));
    assert key == s.queue[0] && key !in s.queue[1..];
    assert QueueOk(s');
    assert forall k :: k != key ==> (Signalled(s', k) <==> Signalled(s, k));
    forall k | k in s'.work
      ensures Fresh(s', k)
    {
      if k in s.work { assert Fresh(s, k); }
    }
  }

  lemma DoneKeepsInv(s: State, key: string)
    requires Inv(s) && Enabled(s, Done(key))
    ensures Inv(Step(s, Done(key)))
  {
    var s' := Step(s, Done(key));
    assert QueueOk(s');
    assert forall k :: Signalled(s', k) <==> Signalled(s, k);
    assert Fresh(s, key);
    forall k | k in s'.work
      ensures Fresh(s', k)
    {
      assert Fresh(s, k);
    }
  }

  /** A new version on the API server reaches no store yet; it only makes the store lag. */
  lemma ApiKeepsInv(s: State, e: Event)
    requires Inv(s) && (e.ApiWrite? || e.ApiDelete?)
    ensures Inv(Step(s, e))
  {
    var s' := Step(s, e);
    assert forall k :: Signalled(s', k) <==> Signalled(s, k);
    assert forall k :: Unsynced(s, k) ==> Unsynced(s', k);
    forall k | k in s'.work
      ensures Fresh(s', k)
    {
      assert Fresh(s, k);
    }
  }

  lemma WatchKeepsInv(s: State, e: Event)
    requires Inv(s) && Enabled(s, e) && (e.WatchQuota? || e.WatchQuotaDelete?)
    ensures Inv(Step(s, e))
  {
    var s' := Step(s, e);
    assert forall k :: Signalled(s, k) ==> Signalled(s', k);
    assert Signalled(s', e.key);
    assert forall k :: k != e.key ==> (Unsynced(s', k) <==> Unsynced(s, k));
    forall k | k in s'.work
      ensures Fresh(s', k)
    {
      assert Fresh(s, k);
    }
  }

  /** A worker's step: only its own entry moves, keys may join the delayed ones, and the API
      server may get a newer version of the worker's quota. */
  lemma WorkerKeepsInv(s: State, s': State, key: string)
    requires Inv(s) && key in s.work
    requires s'.pods == s.pods && s'.lister == s.lister && s'.nextVersion >= s.nextVersion
    requires forall k | k in s'.api :: s'.api[k].version < s'.nextVersion
    requires s'.inbox == s.inbox && s'.queue == s.queue && s'.dirty == s.dirty && s.delayed <= s'.delayed
    requires s'.work.Keys == s.work.Keys && forall k | k in s.work && k != key :: s'.work[k] == s.work[k]
    requires forall k :: Unsynced(s, k) ==> Unsynced(s', k)
    requires Fresh(s', key)
    ensures Inv(s')
  {
    assert forall k :: Signalled(s', k) <==> Signalled(s, k);
    forall k | k in s'.work
      ensures Fresh(s', k)
    {
      assert Fresh(s, k);
    }
  }

  lemma ReadKeepsInv(s: State, e: Event)
    requires Inv(s) && Enabled(s, e) && (e.ReadQuota? || e.ReadPods? || e.ReadFails?)
    ensures Inv(Step(s, e))
  {
    assert Fresh(s, e.key);
    WorkerKeepsInv(s, Step(s, e), e.key);
  }

  lemma WriteKeepsInv(s: State, e: Event)
    requires Inv(s) && Enabled(s, e) && (e.Write? || e.WriteFails?)
    ensures Inv(Step(s, e))
  {
    var s' := Step(s, e);
    assert Fresh(s, e.key);
    assert s'.api == s.api || s'.api == s.api[e.key := Quota(s.nextVersion, s.work[e.key].used)];
    assert forall k :: Unsynced(s, k) ==> Unsynced(s', k);
    WorkerKeepsInv(s, s', e.key);
  }

  /** What a reconcile publishes. Unless its key has been signalled since the reads, a status that is
      written is the exact usage of the pods; and when none is written, the informer's is exact, and
      the API server's is exactly when it is the same. */
  lemma WritePublishes(s: State, key: string)
    requires Inv(s) && Enabled(s, Write(key)) && !Signalled(s, key)
    ensures var s' := Step(s, Write(key));
            && s'.pods == s.pods && s'.lister == s.lister && key in s.lister
            && (forall k | k != key :: (k in s'.api <==> k in s.api) && (k in s.api ==> s'.api[k] == s.api[k]))
            && if s.lister[key].used == Expected(s.pods, key) then s'.api == s.api
               else key in s'.api && s'.api[key] == Quota(s.nextVersion, Expected(s.pods, key))
  {
    assert Fresh(s, key);
  }

  lemma StepKeepsInv(s: State, e: Event)
    requires Inv(s) && Enabled(s, e) && QuietEvent(s, e)
    ensures Inv(Step(s, e))
  {
    match e {
      case ApiWrite(_, _) => ApiKeepsInv(s, e);
      case ApiDelete(_) => ApiKeepsInv(s, e);
      case WatchQuota(_, _) => WatchKeepsInv(s, e);
      case WatchQuotaDelete(_) => WatchKeepsInv(s, e);
      case WatchPod(_, _) => PodStepKeepsInv(s, e);
      case WatchPodDelete(_) => PodStepKeepsInv(s, e);
      case Handle(key) => HandleKeepsInv(s, key);
      case DelayElapsed(key) => DelayElapsedKeepsInv(s, key);
      case Get(key) => GetKeepsInv(s, key);
      case Done(key) => DoneKeepsInv(s, key);
      case ReadQuota(_) => ReadKeepsInv(s, e);
      case ReadPods(_) => ReadKeepsInv(s, e);
      case ReadFails(_) => ReadKeepsInv(s, e);
      case Write(_) => WriteKeepsInv(s, e);
      case WriteFails(_, _) => WriteKeepsInv(s, e);
    }
  }

  // ---- Whole runs --------------------------------------------------------------------------

  ghost predicate Admissible(s: State, events: seq<Event>)
    decreases |events|
  {
    events == [] ||
    (Enabled(s, events[0]) && QuietEvent(s, events[0]) && Admissible(Step(s, events[0]), events[1..]))
  }

  ghost function Exec(s: State, events: seq<Event>): State
    requires Admissible(s, events)
    decreases |events|
  {
    if events == [] then s else Exec(Step(s, events[0]), events[1..])
  }

  lemma {:induction false} RunKeepsInv(s: State, events: seq<Event>)
    requires Inv(s) && Admissible(s, events)
    ensures Inv(Exec(s, events))
    decreases |events|
  {
    if events != [] {
      StepKeepsInv(s, events[0]);
      RunKeepsInv(Step(s, events[0]), events[1..]);
    }
  }

  /** In every run, a quota whose published usage is wrong has its key queued, dirty, in
      process, rate-limited or announced, or a newer version of it is about to arrive. */
  lemma StaleStatusIsPending(s: State, events: seq<Event>, key: string)
    requires Empty(s) && Admissible(s, events)
    ensures var t := Exec(s, events);
            key in t.lister && t.lister[key].used != Expected(t.pods, key) ==>
              Pending(t, key) || Unsynced(t, key)
  {
    RunKeepsInv(s, events);
  }

  /** A drained controller is exact: once nothing is pending and the stores have caught up,
      every quota on the API server publishes the usage of exactly its bound, unfinished,
      labelled pods. */
  lemma DrainedMeansExact(s: State, events: seq<Event>)
    requires Empty(s) && Admissible(s, events)
    requires var t := Exec(s, events);
             t.lister == t.api && t.inbox == multiset{} && t.queue == [] && t.work == map[] && t.delayed == {}
    ensures var t := Exec(s, events);
            forall key | key in t.api :: t.api[key].used == Expected(t.pods, key)
  {
    RunKeepsInv(s, events);
    var t := Exec(s, events);
    forall key | key in t.api
      ensures t.api[key].used == Expected(t.pods, key)
    {
      assert key in t.dirty ==> key in t.queue;
      assert !Pending(t, key) && !Unsynced(t, key);
    }
  }

  /** The handlers announce only the new object's quota. Exactly the quiet updates are safe:
      relabelling a charged pod strands the quota it leaves. */
  lemma UpdateSafeIffQuiet(old_: Pod, new_: Pod, id: string)
    requires ValidPod(old_) && ValidPod(new_)
    ensures Quiet(old_, new_) <==>
            forall s: State :: Inv(s) && id in s.pods && s.pods[id] == old_ ==> Inv(Step(s, WatchPod(id, new_)))
  {
    if Quiet(old_, new_) {
      forall s: State | Inv(s) && id in s.pods && s.pods[id] == old_
        ensures Inv(Step(s, WatchPod(id, new_)))
      {
        StepKeepsInv(s, WatchPod(id, new_));
      }
    } else {
      StrandedQuota(old_, new_, id);
    }
  }

  /** One pod, its quota with the pod's request as published usage, and this much of the queue. */
  ghost function WithPod(pod: Pod, id: string, inbox: multiset<string>, queue: seq<string>, dirty: set<string>, work: map<string, Work>): State {
    var key := Key(pod.namespace, pod.quota);
    var eq := Quota(0, pod.request);
    State(map[id := pod], map[key := eq], map[key := eq], 1, inbox, queue, dirty, work, {})
  }

  /** ... with nothing left to do. */
  ghost function Quiesced(old_: Pod, id: string): State { WithPod(old_, id, multiset{}, [], {}, map[]) }

  /** A controller that has not seen the pod and its quota yet. */
  ghost function BeforePod(pod: Pod): State {
    State(map[], map[], map[Key(pod.namespace, pod.quota) := Quota(0, pod.request)], 1, multiset{}, [], {}, map[], {})
  }

  /** Some admissible run leads from s to t. */
  ghost predicate Leads(s: State, t: State) { exists events :: Admissible(s, events) && Exec(s, events) == t }

  lemma LeadsHere(s: State)
    ensures Leads(s, s)
  {
    assert Admissible(s, []) && Exec(s, []) == s;
  }

  lemma LeadsOn(s: State, e: Event, t: State)
    requires Enabled(s, e) && QuietEvent(s, e) && Leads(Step(s, e), t)
    ensures Leads(s, t)
  {
    var rest :| Admissible(Step(s, e), rest) && Exec(Step(s, e), rest) == t;
    var all := [e] + rest;
    assert all[0] == e && all[1..] == rest;
    assert Admissible(s, all) && Exec(s, all) == t;
  }

  /** The worker finds the published usage right. */
  lemma FinishSettles(pod: Pod, id: string)
    requires ValidPod(pod) && pod.quota != ""
    ensures var key, eq := Key(pod.namespace, pod.quota), Quota(0, pod.request);
            Leads(WithPod(pod, id, multiset{}, [], {}, map[key := HasUsage(eq, pod.request)]), Quiesced(pod, id))
  {
    var key, eq := Key(pod.namespace, pod.quota), Quota(0, pod.request);
    var s := WithPod(pod, id, multiset{}, [], {}, map[key := HasUsage(eq, pod.request)]);
    var s' := WithPod(pod, id, multiset{}, [], {}, map[key := Finished]);
    LeadsHere(Quiesced(pod, id));
    assert Step(s', Done(key)) == Quiesced(pod, id);
    LeadsOn(s', Done(key), Quiesced(pod, id));
    assert Step(s, Write(key)) == s';
    LeadsOn(s, Write(key), Quiesced(pod, id));
  }

  lemma PodsRead(pod: Pod, id: string)
    requires ValidPod(pod) && pod.quota != "" && Counted(pod)
    ensures var key, eq := Key(pod.namespace, pod.quota), Quota(0, pod.request);
            Step(WithPod(pod, id, multiset{}, [], {}, map[key := HasQuota(eq)]), ReadPods(key)) ==
            WithPod(pod, id, multiset{}, [], {}, map[key := HasUsage(eq, pod.request)])
  {
    var key, eq := Key(pod.namespace, pod.quota), Quota(0, pod.request);
    OnlyPod(pod, id, pod.namespace, pod.quota);
    UsageRead(WithPod(pod, id, multiset{}, [], {}, map[key := HasQuota(eq)]), key, eq, pod.request);
    assert map[key := HasQuota(eq)][key := HasUsage(eq, pod.request)] == map[key := HasUsage(eq, pod.request)];
  }

  lemma UsageRead(s: State, key: string, eq: Quota, used: ResourceList)
    requires key in s.work && s.work[key] == HasQuota(eq) && Expected(s.pods, key) == used
    ensures Step(s, ReadPods(key)) == s.(work := s.work[key := HasUsage(eq, used)])
  {
  }

  lemma QuotaRead(s: State, key: string, eq: Quota)
    requires key in s.work && s.work[key] == Started && key in s.lister && s.lister[key] == eq
    ensures Step(s, ReadQuota(key)) == s.(work := s.work[key := HasQuota(eq)])
  {
  }

  lemma PodsReadSettles(pod: Pod, id: string)
    requires ValidPod(pod) && pod.quota != "" && Counted(pod)
    ensures var key, eq := Key(pod.namespace, pod.quota), Quota(0, pod.request);
            Leads(WithPod(pod, id, multiset{}, [], {}, map[key := HasQuota(eq)]), Quiesced(pod, id))
  {
    var key, eq := Key(pod.namespace, pod.quota), Quota(0, pod.request);
    FinishSettles(pod, id);
    PodsRead(pod, id);
    LeadsOn(WithPod(pod, id, multiset{}, [], {}, map[key := HasQuota(eq)]), ReadPods(key), Quiesced(pod, id));
  }

  lemma ReadSettles(pod: Pod, id: string)
    requires ValidPod(pod) && pod.quota != "" && Counted(pod)
    ensures Leads(WithPod(pod, id, multiset{}, [], {}, map[Key(pod.namespace, pod.quota) := Started]), Quiesced(pod, id))
  {
    var key, eq := Key(pod.namespace, pod.quota), Quota(0, pod.request);
    var s := WithPod(pod, id, multiset{}, [], {}, map[key := Started]);
    PodsReadSettles(pod, id);
    QuotaRead(s, key, eq);
    assert s.work[key := HasQuota(eq)] == map[key := HasQuota(eq)];
    LeadsOn(s, ReadQuota(key), Quiesced(pod, id));
  }

  /** Both notifications are handled and the key is taken off the queue. */
  lemma HandlingSettles(pod: Pod, id: string)
    requires ValidPod(pod) && pod.quota != "" && Counted(pod)
    ensures var key := Key(pod.namespace, pod.quota);
            Leads(WithPod(pod, id, multiset{key, key}, [], {}, map[]), Quiesced(pod, id))
  {
    var key := Key(pod.namespace, pod.quota);
    var s1 := WithPod(pod, id, multiset{key}, [key], {key}, map[]);
    var s2 := WithPod(pod, id, multiset{}, [key], {key}, map[]);
    ReadSettles(pod, id);
    assert Step(s2, Get(key)) == WithPod(pod, id, multiset{}, [], {}, map[key := Started]);
    LeadsOn(s2, Get(key), Quiesced(pod, id));
    assert Step(s1, Handle(key)) == s2;
    LeadsOn(s1, Handle(key), Quiesced(pod, id));
    FirstHandled(pod, id);
    LeadsOn(WithPod(pod, id, multiset{key, key}, [], {}, map[]), Handle(key), Quiesced(pod, id));
  }

  lemma FirstHandled(pod: Pod, id: string)
    ensures var key := Key(pod.namespace, pod.quota);
            Step(WithPod(pod, id, multiset{key, key}, [], {}, map[]), Handle(key)) ==
            WithPod(pod, id, multiset{key}, [key], {key}, map[])
  {
    var key := Key(pod.namespace, pod.quota);
    assert multiset{key, key} - multiset{key} == multiset{key};
  }

  /** A controller that starts empty reaches the quiet, exact state: the pod and the quota are
      delivered, announced, and reconciled once. */
  lemma ReachesQuiesced(pod: Pod, id: string)
    requires ValidPod(pod) && pod.quota != "" && Counted(pod)
    ensures Empty(BeforePod(pod)) && Leads(BeforePod(pod), Quiesced(pod, id))
  {
    var key, eq := Key(pod.namespace, pod.quota), Quota(0, pod.request);
    SplitKeyInverts(pod.namespace, pod.quota);
    var s := BeforePod(pod).(pods := map[id := pod], inbox := multiset{key});
    HandlingSettles(pod, id);
    assert Step(s, WatchQuota(key, eq)) == WithPod(pod, id, multiset{key, key}, [], {}, map[]);
    LeadsOn(s, WatchQuota(key, eq), Quiesced(pod, id));
    assert Step(BeforePod(pod), WatchPod(id, pod)) == s;
    LeadsOn(BeforePod(pod), WatchPod(id, pod), Quiesced(pod, id));
  }

  lemma OnlyPod(pod: Pod, id: string, namespace: string, name: string)
    requires ValidPod(pod) && ValidName(namespace) && ValidName(name)
    ensures ValidKey(Key(namespace, name))
    ensures Expected(map[id := pod], Key(namespace, name)) ==
            if pod.namespace == namespace && pod.quota == name && Counted(pod) then pod.request else map[]
  {
    SplitKeyInverts(namespace, name);
    var pods := map[id := pod];
    var none: map<string, ResourceList> := map[];
    assert Total(none) == map[];
    if pod.namespace == namespace && pod.quota == name && Counted(pod) {
      assert Charged(pods, namespace, name) == none[id := pod.request];
      TotalExtends(none, id, pod.request);
      assert Plus(map[], pod.request) == pod.request;
    } else {
      assert Charged(pods, namespace, name) == none;
    }
  }

  lemma MovedUnseen(old_: Pod, new_: Pod, id: string)
    requires ValidPod(old_) && ValidPod(new_) && !Quiet(old_, new_)
    ensures !NothingForgotten(Step(Quiesced(old_, id), WatchPod(id, new_)))
  {
    var key := Key(old_.namespace, old_.quota);
    var s' := Step(Quiesced(old_, id), WatchPod(id, new_));
    OnlyPod(new_, id, old_.namespace, old_.quota);
    assert s'.pods == map[id := new_];
    if new_.quota != "" {
      SplitKeyInverts(old_.namespace, old_.quota);
      SplitKeyInverts(new_.namespace, new_.quota);
    }
    assert key !in s'.inbox && !Pending(s', key) && !Unsynced(s', key);
  }

  /** From a quiet, exact state that a controller reaches from its start, relabelling the only charged
      pod leaves its old quota wrong with nothing pending. */
  lemma StrandedQuota(old_: Pod, new_: Pod, id: string)
    requires ValidPod(old_) && ValidPod(new_) && !Quiet(old_, new_)
    ensures Empty(BeforePod(old_)) && Leads(BeforePod(old_), Quiesced(old_, id)) && Inv(Quiesced(old_, id))
    ensures Quiesced(old_, id).pods == map[id := old_] && !NothingForgotten(Step(Quiesced(old_, id), WatchPod(id, new_)))
  {
    ReachesQuiesced(old_, id);
    var events :| Admissible(BeforePod(old_), events) && Exec(BeforePod(old_), events) == Quiesced(old_, id);
    RunKeepsInv(BeforePod(old_), events);
    MovedUnseen(old_, new_, id);
  }
}
