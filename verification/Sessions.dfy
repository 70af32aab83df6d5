/** The engine's calls are runs of the session protocol. */
module Sessions {
  import opened Options
  import opened Expiry
  import E = SessionEngine
  import opened SessionProtocol

  /** The cluster's managed pods are those of a state of the protocol. */
  ghost predicate Shows(cluster: E.Cluster, s: State)
    reads cluster
  {
    cluster.Managed() == s.pods
  }

  /** The labels of the managed ones among these pods. */
  ghost function ManagedOf(pods: map<string, E.Pod>): map<string, Labels> {
    map name | name in pods && pods[name].managed :: pods[name].labels
  }

  lemma ManagedIs(cluster: E.Cluster)
    ensures cluster.Managed() == ManagedOf(cluster.pods)
  {
  }

  lemma ManagedWithout(pods: map<string, E.Pod>, gone: set<string>)
    ensures ManagedOf(pods - gone) == ManagedOf(pods) - gone
  {
  }

  function ConfigOf(engine: E.Engine): Config {
    Config(engine.ttl, engine.idleTTL)
  }

  // ---------------------------------------------------------------------------- Runs in pieces

  lemma RunFirst(c: Config, s: State, e: Event, rest: seq<Event>)
    ensures Possible(c, s, [e] + rest) <==> Enabled(c, s, e) && Possible(c, Next(c, s, e), rest)
    ensures Possible(c, s, [e] + rest) ==> After(c, s, [e] + rest) == After(c, Next(c, s, e), rest)
  {
    hide Enabled, Next;
    assert ([e] + rest)[1..] == rest;
  }

  lemma RunNothing(c: Config, s: State)
    ensures Possible(c, s, []) && After(c, s, []) == s
  {
  }

  lemma RunOne(c: Config, s: State, e: Event)
    ensures Possible(c, s, [e]) <==> Enabled(c, s, e)
    ensures Possible(c, s, [e]) ==> After(c, s, [e]) == Next(c, s, e)
  {
    RunFirst(c, s, e, []);
    assert [e] + [] == [e];
    hide Enabled, Next;
  }

  /** A keepalive that nothing interrupts. */
  lemma KeepaliveRuns(c: Config, s: State, p: Name, k: nat)
    requires k !in s.calls && p in s.pods && p in s.lives && c.idleTTL > 0
    ensures var run := [Get(k, p)] + ([Stamp(k)] + [Land(k)]);
            && Possible(c, s, run)
            && After(c, s, run) == s.(pods := s.pods[p := Slid(s.pods[p], s.now, c.idleTTL)],
                                      lives := s.lives[p := s.lives[p].(read := s.now, wrote := s.now)])
  {
    hide Slid, Possible, After;
    var t := Next(c, s, Get(k, p));
    var u := Next(c, t, Stamp(k));
    RunOne(c, u, Land(k));
    RunFirst(c, t, Stamp(k), [Land(k)]);
    RunFirst(c, s, Get(k, p), [Stamp(k)] + [Land(k)]);
    assert u.calls - {k} == s.calls;
  }

  /** What a pass leaves: time, calls and the pods it was not to take stay. */
  predicate Swept(s: State, t: State, gone: set<Name>) {
    && t.pods == s.pods - gone && t.stage == Resting && t.now == s.now && t.calls == s.calls && t.lives == s.lives
  }

  /** The collector deletes one by one, in whatever order, all but those refused. */
  lemma {:induction false} SweepRuns(c: Config, s: State, failed: set<Name>) returns (run: seq<Event>)
    requires s.stage.Deleting?
    ensures Possible(c, s, run) && Swept(s, After(c, s, run), s.stage.doomed - failed)
    decreases if s.stage.Deleting? then |s.stage.doomed| else 0
  {
    if s.stage.doomed == {} {
      run := [Done];
      SweepEnds(c, s, failed);
    } else {
      var p :| p in s.stage.doomed;
      var e := if p in failed then DeleteFail(p) else Delete(p);
      var rest := SweepRuns(c, Next(c, s, e), failed);
      run := [e] + rest;
      RunFirst(c, s, e, rest);
      hide Possible, After;
      SweepStep(c, s, p, failed, After(c, s, run));
    }
  }

  lemma SweepEnds(c: Config, s: State, failed: set<Name>)
    requires s.stage.Deleting? && s.stage.doomed == {}
    ensures Possible(c, s, [Done]) && Swept(s, After(c, s, [Done]), s.stage.doomed - failed)
  {
    RunOne(c, s, Done);
    assert s.pods - (s.stage.doomed - failed) == s.pods;
  }

  lemma SweepStep(c: Config, s: State, p: Name, failed: set<Name>, t: State)
    requires s.stage.Deleting? && p in s.stage.doomed
    requires var u := Next(c, s, if p in failed then DeleteFail(p) else Delete(p));
             u.stage.Deleting? && Swept(u, t, u.stage.doomed - failed)
    ensures Swept(s, t, s.stage.doomed - failed)
  {
    var d := s.stage.doomed;
    if p in failed {
      assert d - {p} - failed == d - failed;
    } else {
      assert s.pods - {p} - (d - {p} - failed) == s.pods - (d - failed);
    }
  }

  lemma PassRuns(c: Config, s: State, failed: set<Name>) returns (run: seq<Event>)
    requires s.stage.Resting?
    ensures Possible(c, s, run) && Swept(s, After(c, s, run), Doomed(s.pods, s.now) - failed)
    ensures run != [] && run[0] == Tick
  {
    hide Possible, After, Doomed;
    var t := Next(c, s, Tick);
    var u := Next(c, t, List);
    var v := Next(c, u, Decide);
    var rest := SweepRuns(c, v, failed);
    RunFirst(c, u, Decide, rest);
    RunFirst(c, t, List, [Decide] + rest);
    RunFirst(c, s, Tick, [List] + ([Decide] + rest));
    run := [Tick] + ([List] + ([Decide] + rest));
  }

  lemma FailedPassRuns(c: Config, s: State)
    requires s.stage.Resting?
    ensures Possible(c, s, [Tick] + [ListFail]) && Swept(s, After(c, s, [Tick] + [ListFail]), {})
  {
    hide Possible, After;
    RunOne(c, Next(c, s, Tick), ListFail);
    RunFirst(c, s, Tick, [ListFail]);
    assert s.pods - {} == s.pods;
  }

  // ---------------------------------------------------------------------------- The calls

  /** Booting a pod under a name never used is its creation, or no step if it did not come to stay. */
  method Boot(engine: E.Engine, name: string, image: string, now: int, ghost s: State)
    returns (made: Option<E.Instance>, ghost run: seq<Event>)
    requires Shows(engine.cluster, s) && now == s.now && SECOND <= now && name !in s.lives && name !in s.pods
    modifies engine.cluster
    ensures var c := ConfigOf(engine); Possible(c, s, run) && Shows(engine.cluster, After(c, s, run))
    ensures run == [] || run == [Create(name, now)]
    ensures made.Some? ==> run == [Create(name, now)]
  {
    ghost var c := ConfigOf(engine);
    ghost var before := engine.cluster.pods;
    made := engine.NewEphemeralInstance(name, image, now);
    hide LabelsFor, Possible, After, EffectiveExpiry;
    if name !in before && name in engine.cluster.pods {
      run := [Create(name, now)];
      RunOne(c, s, Create(name, now));
    } else {
      run := [];
      RunNothing(c, s);
    }
  }

  /** A keepalive that succeeds is its three steps, and one that fails is none. */
  method Keepalive(engine: E.Engine, name: string, now: int, ghost s: State, ghost k: nat)
    returns (expires: Option<int>, ghost run: seq<Event>)
    requires Shows(engine.cluster, s) && now == s.now && k !in s.calls && s.pods.Keys <= s.lives.Keys
    modifies engine.cluster
    ensures var c := ConfigOf(engine); Possible(c, s, run) && Shows(engine.cluster, After(c, s, run))
    ensures run == [] || run == [Get(k, name)] + ([Stamp(k)] + [Land(k)])
    ensures expires.Some? && name in s.pods && engine.idleTTL > 0 ==> run != []
  {
    ghost var c := ConfigOf(engine);
    expires := engine.Extend(name, now);
    hide Slid, Possible, After, EffectiveExpiry;
    if expires.Some? && engine.idleTTL > 0 && name in s.pods {
      run := [Get(k, name)] + ([Stamp(k)] + [Land(k)]);
      KeepaliveRuns(c, s, name, k);
    } else {
      run := [];
      RunNothing(c, s);
    }
  }

  /** A pass of the collector is a tick and what follows it, down to rest. */
  method Collect(engine: E.Engine, now: int, ghost s: State) returns (deleted: Option<nat>, ghost run: seq<Event>)
    requires Shows(engine.cluster, s) && now == s.now && s.stage.Resting?
    modifies engine.cluster
    ensures var c := ConfigOf(engine);
            && Possible(c, s, run) && Shows(engine.cluster, After(c, s, run))
            && After(c, s, run).stage == Resting && run != [] && run[0] == Tick
  {
    ghost var c := ConfigOf(engine);
    ghost var failed;
    ghost var before := engine.cluster.pods;
    ManagedIs(engine.cluster);
    deleted, failed := engine.GCExpiredPods(now);
    hide Doomed, Possible, After, ManagedOf, E.Cluster.Managed;
    ManagedIs(engine.cluster);
    assert s.pods == ManagedOf(before);
    if deleted.None? {
      run := [Tick] + [ListFail];
      FailedPassRuns(c, s);
    } else {
      run := PassRuns(c, s, failed);
      ManagedWithout(before, Doomed(s.pods, now) - failed);
    }
  }
}
