/** The session engine over a cluster that may fail. */
module SessionEngine {
  import opened Decimal
  import opened Options
  import opened Expiry

  datatype Pod = Pod(managed: bool, labels: Labels, image: string, running: bool, ip: string)

  datatype Instance = Instance(name: string, ip: string, image: string, expires: int)

  datatype PodStatus = PodStatus(name: string, ready: bool, ip: string, expires: int)

  /** A namespace of the cluster. Any call may fail, and then changes nothing. */
  class Cluster {
    var pods: map<string, Pod>
    ghost var refused: multiset<string>  // the deletes that failed

    constructor ()
      ensures pods == map[] && refused == multiset{}
    {
      pods := map[];
      refused := multiset{};
    }

    /** The labels of the pods a selector for managed ones returns. */
    function Managed(): map<string, Labels>
      reads this
    {
      map name | name in pods && pods[name].managed :: pods[name].labels
    }

    method Create(name: string, pod: Pod) returns (ok: bool)
      modifies this
      ensures ok ==> name !in old(pods)
      ensures pods == if ok then old(pods)[name := pod] else old(pods)
      ensures refused == old(refused)
    {
      ok := *;
      ok := ok && name !in pods;
      if ok {
        pods := pods[name := pod];
      }
    }

    method Get(name: string) returns (pod: Option<Pod>)
      ensures pod.Some? ==> name in pods && pod.value == pods[name]
    {
      var ok: bool := *;
      pod := if ok && name in pods then Some(pods[name]) else None;
    }

    method List() returns (listing: Option<map<string, Labels>>)
      ensures listing.Some? ==> listing.value == Managed()
    {
      var ok: bool := *;
      listing := if ok then Some(Managed()) else None;
    }

    /** A merge patch that carries the idle label alone. */
    method PatchIdle(name: string, idle: string) returns (ok: bool)
      modifies this
      ensures ok ==> name in old(pods)
      ensures pods == if ok then old(pods)[name := old(pods)[name].(labels := old(pods)[name].labels.(idle := idle))]
                      else old(pods)
      ensures refused == old(refused)
    {
      ok := *;
      ok := ok && name in pods;
      if ok {
        pods := pods[name := pods[name].(labels := pods[name].labels.(idle := idle))];
      }
    }

    method Delete(name: string) returns (ok: bool)
      modifies this
      ensures ok ==> name in old(pods)
      ensures pods == if ok then old(pods) - {name} else old(pods)
      ensures refused == if ok then old(refused) else old(refused) + multiset{name}
    {
      ok := *;
      ok := ok && name in pods;
      if ok {
        pods := pods - {name};
      } else {
        refused := refused + multiset{name};
      }
    }

    /** Waiting for a pod: it is ready once it runs with an address; it may also never be. */
    method WaitForReady(name: string) returns (ip: Option<string>)
      modifies this
      ensures ip.Some? ==>
                && name in old(pods) && ip.value != ""
                && pods == old(pods)[name := old(pods)[name].(running := true, ip := ip.value)]
      ensures ip.None? ==> pods == old(pods)
      ensures refused == old(refused)
    {
      var found: string := *;
      if name in pods && found != "" {
        pods := pods[name := pods[name].(running := true, ip := found)];
        return Some(found);
      }
      return None;
    }
  }

  /** Of the doomed pods, those no longer left to visit are gone or were refused. */
  ghost predicate Collecting(doomed: set<string>, left: set<string>, gone: set<string>, failed: set<string>) {
    gone !! failed && gone + failed == doomed - left
  }

  lemma NoneVisited(doomed: set<string>, left: set<string>, pods: map<string, Pod>, refused: multiset<string>)
    requires doomed <= left
    ensures Collecting(doomed, left, {}, {}) && Without(pods, {}) == pods && Refusals(refused, {}) == refused
  {
  }

  lemma AllVisited(doomed: set<string>, gone: set<string>, failed: set<string>, pods: map<string, Pod>,
                   refused: multiset<string>)
    requires Collecting(doomed, {}, gone, failed)
    ensures failed <= doomed && gone == doomed - failed && Without(pods, gone) == pods - (doomed - failed)
    ensures Refusals(refused, failed) == refused + multiset(failed)
  {
  }

  lemma Visit(doomed: set<string>, left: set<string>, gone: set<string>, failed: set<string>, name: string)
    requires Collecting(doomed, left, gone, failed) && name in left
    ensures name !in gone && name !in failed
    ensures name in doomed ==>
              && Collecting(doomed, left - {name}, gone + {name}, failed)
              && Collecting(doomed, left - {name}, gone, failed + {name})
    ensures name !in doomed ==> Collecting(doomed, left - {name}, gone, failed)
  {
  }

  ghost function Without(pods: map<string, Pod>, gone: set<string>): map<string, Pod> {
    pods - gone
  }

  lemma OneFewer(pods: map<string, Pod>, gone: set<string>, name: string)
    ensures Without(pods, gone) - {name} == Without(pods, gone + {name})
  {
  }

  /** The failed deletes as the cluster counts them. */
  ghost function Refusals(before: multiset<string>, failed: set<string>): multiset<string> {
    before + multiset(failed)
  }

  lemma OneMoreRefusal(before: multiset<string>, failed: set<string>, name: string)
    requires name !in failed
    ensures Refusals(before, failed) + multiset{name} == Refusals(before, failed + {name})
  {
    assert multiset(failed + {name}) == multiset(failed) + multiset{name};
  }

  lemma DoomedAre(listing: map<string, Labels>, now: int)
    ensures Doomed(listing, now) <= listing.Keys
    ensures forall name | name in listing :: name in Doomed(listing, now) <==> Expired(listing[name], now)
  {
  }

  class Engine {
    const cluster: Cluster
    const ttl: int
    const idleTTL: int
    const defaultImage: string

    constructor (cluster: Cluster, ttl: int, idleTTL: int, defaultImage: string)
      ensures this.cluster == cluster && this.ttl == ttl && this.idleTTL == idleTTL
      ensures this.defaultImage == defaultImage
    {
      this.cluster := cluster;
      this.ttl := ttl;
      this.idleTTL := idleTTL;
      this.defaultImage := defaultImage;
    }

    /** Boots a pod under a fresh name; one that never comes up is deleted again if that succeeds. */
    method NewEphemeralInstance(name: string, image: string, now: int) returns (made: Option<Instance>)
      modifies cluster
      ensures forall other | other != name ::
                && (other in cluster.pods <==> other in old(cluster.pods))
                && (other in cluster.pods ==> cluster.pods[other] == old(cluster.pods)[other])
      ensures name in old(cluster.pods) ==> made.None? && cluster.pods == old(cluster.pods)
      ensures made.None? && name !in old(cluster.pods) && name in cluster.pods ==>
                cluster.pods[name].managed && cluster.pods[name].labels == LabelsFor(now, now, ttl, idleTTL)
      ensures made.Some? ==>
                && name !in old(cluster.pods) && name in cluster.pods
                && var pod := cluster.pods[name];
                && pod.managed && pod.running && pod.ip != ""
                && pod.labels == LabelsFor(now, now, ttl, idleTTL)
                && pod.image == (if image == "" then defaultImage else image)
                && made.value == Instance(name, pod.ip, pod.image, EffectiveExpiry(pod.labels))
    {
      hide Print, EffectiveExpiry;
      var image := if image == "" then defaultImage else image;
      var labels := Labels(Print(Unix(now + ttl)), "");
      if idleTTL > 0 {
        labels := labels.(idle := Print(Unix(now + idleTTL)));
      }
      var created := cluster.Create(name, Pod(true, labels, image, false, ""));
      if !created {
        return None;
      }
      var ip := cluster.WaitForReady(name);
      if ip.None? {
        var _ := cluster.Delete(name);
        return None;
      }
      return Some(Instance(name, ip.value, image, EffectiveExpiry(labels)));
    }

    method Status(name: string) returns (status: Option<PodStatus>)
      ensures status.Some? ==>
                && name in cluster.pods
                && var pod := cluster.pods[name];
                   status.value == PodStatus(name, pod.running && pod.ip != "", pod.ip, EffectiveExpiry(pod.labels))
    {
      var pod := cluster.Get(name);
      if pod.None? {
        return None;
      }
      return Some(PodStatus(name, pod.value.running && pod.value.ip != "", pod.value.ip,
                            EffectiveExpiry(pod.value.labels)));
    }

    /** The keepalive slides the idle deadline of one pod to `now + idleTTL` and touches nothing else. */
    method Extend(name: string, now: int) returns (expires: Option<int>)
      modifies cluster
      ensures expires.None? || idleTTL <= 0 ==> cluster.pods == old(cluster.pods)
      ensures expires.Some? ==>
                && name in old(cluster.pods) && name in cluster.pods
                && expires.value == EffectiveExpiry(cluster.pods[name].labels)
      ensures expires.Some? && idleTTL > 0 ==>
                var pod := old(cluster.pods)[name];
                cluster.pods == old(cluster.pods)[name := pod.(labels := Slid(pod.labels, now, idleTTL))]
    {
      hide Print, EffectiveExpiry;
      var pod := cluster.Get(name);
      if pod.None? {
        return None;
      }
      if idleTTL <= 0 {
        return Some(EffectiveExpiry(pod.value.labels));
      }
      var idle := Print(Unix(now + idleTTL));
      var patched := cluster.PatchIdle(name, idle);
      if !patched {
        return None;
      }
      return Some(EffectiveExpiry(Labels(pod.value.labels.hard, idle)));
    }

    /** The collector: lists, reads the clock once, and deletes what that reading finds expired,
        all but those whose delete is refused. It reports how many went. */
    method GCExpiredPods(now: int) returns (deleted: Option<nat>, ghost failed: set<string>)
      modifies cluster
      ensures cluster.refused == old(cluster.refused) + multiset(failed)
      ensures deleted.None? ==> cluster.pods == old(cluster.pods) && failed == {}
      ensures deleted.Some? ==>
                var doomed := Doomed(old(cluster.Managed()), now);
                && failed <= doomed
                && cluster.pods == old(cluster.pods) - (doomed - failed)
                && deleted.value == |doomed - failed|
    {
      hide Doomed, Expired, EffectiveExpiry, Print, Cluster.Managed, Without, Refusals, Collecting;
      failed := {};
      var listing := cluster.List();
      if listing.None? {
        return None, {};
      }
      ghost var before, refused := cluster.pods, cluster.refused;
      var count: nat := 0;
      var left := listing.value.Keys;
      ghost var doomed, gone := Doomed(listing.value, now), {};
      DoomedAre(listing.value, now);
      NoneVisited(doomed, left, before, refused);
      while left != {}
        invariant left <= listing.value.Keys
        invariant Collecting(doomed, left, gone, failed)
        invariant cluster.pods == Without(before, gone) && count == |gone|
        invariant cluster.refused == Refusals(refused, failed)
        decreases |left|
      {
        var name :| name in left;
        Visit(doomed, left, gone, failed, name);
        if Expired(listing.value[name], now) {
          OneFewer(before, gone, name);
          OneMoreRefusal(refused, failed, name);
          var ok := cluster.Delete(name);
          if ok {
            count, gone := count + 1, gone + {name};
          } else {
            failed := failed + {name};
          }
        }
        left := left - {name};
      }
      AllVisited(doomed, gone, failed, before, refused);
      return Some(count), failed;
    }

    /** Deleting a pod that is not there is no error. */
    method DeletePod(name: string) returns (ok: bool)
      modifies cluster
      ensures name !in old(cluster.pods) ==> ok
      ensures cluster.pods == if ok then old(cluster.pods) - {name} else old(cluster.pods)
    {
      if name !in cluster.pods {
        return true;
      }
      ok := cluster.Delete(name);
    }
  }

  /** Whenever it runs, the collector spares a pod whose keepalive was read less than `idleTTL` ago and whose
      hard cap is still ahead, and takes one a second past either. */
  lemma CollectorSpares(listing: map<string, Labels>, name: string, created: int, read: int, ttl: int, idleTTL: int,
                        now: int)
    requires name in listing && listing[name] == LabelsFor(created, read, ttl, idleTTL)
    requires Clock(created) && Clock(read) && Clock(now) && 0 <= ttl <= MAX_INT && 0 < idleTTL <= MAX_INT
    ensures now <= created + ttl && now <= read + idleTTL ==> name !in Doomed(listing, now)
    ensures created + ttl + SECOND <= now || read + idleTTL + SECOND <= now ==> name in Doomed(listing, now)
  {
    LabelsRead(created, read, ttl, idleTTL);
  }
}
