/** The life of session pods over time. */
module SessionProtocol {
  import opened Decimal
  import opened Expiry

  type Name = string

  datatype Config = Config(ttl: int, idleTTL: int)

  predicate Sane(c: Config) {
    0 <= c.ttl <= MAX_INT && c.idleTTL <= MAX_INT
  }

  /** A keepalive under way: it has seen the pod, or has read the clock and not yet patched. */
  datatype Call = Got(pod: Name) | Stamped(pod: Name, read: int)

  /** Where the collector is: between passes, at the start of one, holding a listing taken `at` some time,
      or deleting. */
  datatype Stage =
    | Resting
    | Begun
    | Listed(listing: map<Name, Labels>, at: int)
    | Deleting(doomed: set<Name>)

  /** Of every pod that ever was: the clock reading behind its hard cap, the one behind the idle label it
      carries, when that label was written and when the pod was made. */
  datatype Life = Life(created: int, read: int, wrote: int, born: int)

  datatype State = State(
    now: int,
    pods: map<Name, Labels>,
    calls: map<nat, Call>,
    stage: Stage,
    began: int,               // when the latest pass began, and the one before
    previous: int,
    lives: map<Name, Life>,   // history
    reaped: map<Name, int>    // when the collector deleted which pod
  )

  /** Pages send keepalives that read a pod, then the clock, then patch a label; a collector that wakes on a
      ticker lists the pods, then reads the clock, then deletes one by one. Steps of all of them interleave
      freely and time passes between any two. */
  datatype Event =
    | Elapse(until: int)
    | Create(pod: Name, read: int)
    | Vanish(pod: Name)                   // deleted by its page, or gone by itself
    | Get(call: nat, pod: Name)
    | Stamp(call: nat)
    | Land(call: nat)
    | Tick
    | List
    | ListFail
    | Decide                              // the collector reads the clock
    | Delete(pod: Name)
    | DeleteFail(pod: Name)
    | Done

  predicate Start(s: State) {
    && Clock(s.now) && s.pods == map[] && s.calls == map[] && s.stage == Resting
    && s.began == s.previous == s.now && s.lives == map[] && s.reaped == map[]
  }

  predicate Enabled(c: Config, s: State, e: Event) {
    match e
    case Elapse(until) => s.now <= until <= MAX_INT
    case Create(p, read) => p !in s.lives && SECOND <= read <= s.now
    case Vanish(p) => true
    case Get(k, p) => k !in s.calls && p in s.pods && c.idleTTL > 0
    case Stamp(k) => k in s.calls && s.calls[k].Got?
    case Land(k) => k in s.calls && s.calls[k].Stamped?
    case Tick => s.stage.Resting?
    case List => s.stage.Begun?
    case ListFail => s.stage.Begun?
    case Decide => s.stage.Listed?
    case Delete(p) => s.stage.Deleting? && p in s.stage.doomed
    case DeleteFail(p) => s.stage.Deleting? && p in s.stage.doomed
    case Done => s.stage.Deleting? && s.stage.doomed == {}
  }

  function Next(c: Config, s: State, e: Event): State
    requires Enabled(c, s, e)
  {
    match e
    case Elapse(until) => s.(now := until)
    case Create(p, read) =>
      s.(pods := s.pods[p := LabelsFor(read, read, c.ttl, c.idleTTL)],
         lives := s.lives[p := Life(read, read, s.now, s.now)])
    case Vanish(p) => s.(pods := s.pods - {p})
    case Get(k, p) => s.(calls := s.calls[k := Got(p)])
    case Stamp(k) => s.(calls := s.calls[k := Stamped(s.calls[k].pod, s.now)])
    case Land(k) => Landed(c, s.(calls := s.calls - {k}), s.calls[k].pod, s.calls[k].read)
    case Tick => s.(stage := Begun, previous := s.began, began := s.now)
    case List => s.(stage := Listed(s.pods, s.now))
    case ListFail => s.(stage := Resting)
    case Decide => s.(stage := Deleting(Doomed(s.stage.listing, s.now)))
    case Delete(p) =>
      s.(stage := Deleting(s.stage.doomed - {p}), pods := s.pods - {p},
         reaped := if p in s.pods then s.reaped[p := s.now] else s.reaped)
    case DeleteFail(p) => s.(stage := Deleting(s.stage.doomed - {p}))
    case Done => s.(stage := Resting)
  }

  /** The patch changes the idle label of a pod that is still there, whatever it held. */
  function Landed(c: Config, s: State, p: Name, read: int): State {
    if p in s.pods && p in s.lives then
      s.(pods := s.pods[p := Slid(s.pods[p], read, c.idleTTL)],
         lives := s.lives[p := s.lives[p].(read := read, wrote := s.now)])
    else s
  }

  predicate Possible(c: Config, s: State, run: seq<Event>)
    decreases |run|
  {
    run == [] || (Enabled(c, s, run[0]) && Possible(c, Next(c, s, run[0]), run[1..]))
  }

  function After(c: Config, s: State, run: seq<Event>): State
    requires Possible(c, s, run)
    decreases |run|
  {
    if run == [] then s else After(c, Next(c, s, run[0]), run[1..])
  }

  // ---------------------------------------------------------------------------- What every step keeps

  function Hard(c: Config, s: State, p: Name): int
    requires p in s.lives
  {
    Unix(s.lives[p].created + c.ttl)
  }

  predicate Lived(l: Life, now: int) {
    Clock(l.created) && Clock(l.read) && l.read <= l.wrote <= now && l.created <= l.born <= l.wrote
  }

  /** Labels are the deadlines of the recorded clock readings. */
  predicate Labelled(c: Config, s: State) {
    && Clock(s.now)
    && (forall p | p in s.lives :: Lived(s.lives[p], s.now))
    && (forall p | p in s.pods ::
          p in s.lives && s.pods[p] == LabelsFor(s.lives[p].created, s.lives[p].read, c.ttl, c.idleTTL))
    && (forall k | k in s.calls :: c.idleTTL > 0 && (s.calls[k].Stamped? ==> SECOND <= s.calls[k].read <= s.now))
    && s.previous <= s.began <= s.now
  }

  lemma LabelledKept(c: Config, s: State, e: Event)
    requires Sane(c) && Labelled(c, s) && Enabled(c, s, e)
    ensures Labelled(c, Next(c, s, e))
  {
    hide Print, Doomed;
  }

  /** A life is never rewritten but by a landing, which moves only its idle part. */
  predicate Continues(s: State, t: State) {
    && s.now <= t.now
    && (forall p | p in s.lives ::
          p in t.lives && t.lives[p].created == s.lives[p].created && t.lives[p].born == s.lives[p].born)
    && (forall p | p in s.lives && p !in s.pods :: p !in t.pods)
  }

  lemma StepContinues(c: Config, s: State, e: Event)
    requires Labelled(c, s) && Enabled(c, s, e)
    ensures Continues(s, Next(c, s, e))
  {
    hide LabelsFor, Slid, Doomed;
  }

  lemma {:induction false} RunContinues(c: Config, s: State, run: seq<Event>)
    requires Sane(c) && Labelled(c, s) && Possible(c, s, run)
    ensures Labelled(c, After(c, s, run)) && Continues(s, After(c, s, run))
    decreases |run|
  {
    if run != [] {
      LabelledKept(c, s, run[0]);
      StepContinues(c, s, run[0]);
      RunContinues(c, Next(c, s, run[0]), run[1..]);
    }
  }

  lemma HardLabelReads(created: int, ttl: int)
    requires Clock(created) && 0 <= ttl <= MAX_INT
    ensures Scan(HardLabel(created, ttl)) == Unix(created + ttl)
  {
    ScanOfPrint(Unix(created + ttl));
  }

  /** The hard cap: from its creation on, in every run, a pod that is there carries the same hard-cap label
      it was made with, and its effective expiry is never later. */
  lemma HardCapFixed(c: Config, s: State, run: seq<Event>, p: Name)
    requires Sane(c) && Labelled(c, s) && Possible(c, s, run) && p in s.lives
    requires p in After(c, s, run).pods
    ensures p in s.pods
    ensures After(c, s, run).pods[p].hard == s.pods[p].hard
    ensures 0 < EffectiveExpiry(After(c, s, run).pods[p]) <= Hard(c, s, p)
    ensures Scan(s.pods[p].hard) == Hard(c, s, p)
  {
    hide Print, Scan, EffectiveExpiry, After, Possible;
    var t := After(c, s, run);
    RunContinues(c, s, run);
    LabelsRead(t.lives[p].created, t.lives[p].read, c.ttl, c.idleTTL);
    HardLabelReads(s.lives[p].created, c.ttl);
  }

  // ---------------------------------------------------------------------------- Keepalive safety

  /** The latest keepalive is recent enough for a listing taken now. */
  predicate Fresh(c: Config, s: State, p: Name, delay: int) {
    p in s.lives ==> s.now - s.lives[p].read + delay <= c.idleTTL
  }

  /** At every listing of the run the pod's keepalive is recent, and the collector reads its clock within
      `delay` of it. */
  predicate Listings(c: Config, s: State, run: seq<Event>, p: Name, delay: int)
    requires Possible(c, s, run)
    decreases |run|
  {
    run == [] || (
      && (run[0].List? ==> Fresh(c, s, p, delay))
      && (run[0].Decide? ==> s.now <= s.stage.at + delay)
      && Listings(c, Next(c, s, run[0]), run[1..], p, delay))
  }

  /** What the collector holds against p is its hard cap alone. */
  predicate OnlyHard(c: Config, s: State, p: Name, delay: int) {
    p in s.lives ==>
      && var hard := Hard(c, s, p);
      && (s.stage.Listed? && p in s.stage.listing ==>
            var soon := Unix(s.stage.at + delay);
            EffectiveExpiry(s.stage.listing[p]) >= (if soon < hard then soon else hard))
      && (s.stage.Deleting? && p in s.stage.doomed ==> hard < Unix(s.now))
      && (p in s.reaped ==> hard < Unix(s.reaped[p]))
  }

  /** Nothing unknown is held. */
  predicate Known(s: State) {
    && (s.stage.Listed? ==> s.stage.listing.Keys <= s.lives.Keys)
    && (s.stage.Deleting? ==> s.stage.doomed <= s.lives.Keys)
    && s.reaped.Keys <= s.lives.Keys
  }

  lemma KnownKept(c: Config, s: State, e: Event)
    requires Labelled(c, s) && Known(s) && Enabled(c, s, e)
    ensures Known(Next(c, s, e))
  {
    hide LabelsFor, Slid, Expired;
  }

  lemma ListedInTime(c: Config, s: State, p: Name, delay: int)
    requires Sane(c) && Labelled(c, s) && Enabled(c, s, List) && OnlyHard(c, s, p, delay) && Fresh(c, s, p, delay)
    ensures OnlyHard(c, Next(c, s, List), p, delay)
  {
    hide EffectiveExpiry, LabelsFor, Clock;
    if p in s.pods {
      assert Clock(s.lives[p].created) && Clock(s.lives[p].read);
      LabelsRead(s.lives[p].created, s.lives[p].read, c.ttl, c.idleTTL);
    }
  }

  lemma DecidedInTime(c: Config, s: State, p: Name, delay: int)
    requires Enabled(c, s, Decide) && OnlyHard(c, s, p, delay) && s.now <= s.stage.at + delay
    ensures OnlyHard(c, Next(c, s, Decide), p, delay)
  {
    hide EffectiveExpiry;
  }

  lemma OnlyHardKept(c: Config, s: State, e: Event, p: Name, delay: int)
    requires Sane(c) && Labelled(c, s) && Known(s) && Enabled(c, s, e) && OnlyHard(c, s, p, delay)
    requires e.List? ==> Fresh(c, s, p, delay)
    requires e.Decide? ==> s.now <= s.stage.at + delay
    ensures OnlyHard(c, Next(c, s, e), p, delay)
  {
    hide EffectiveExpiry, LabelsFor, Slid, Doomed, Expired;
    if e.List? {
      ListedInTime(c, s, p, delay);
    } else if e.Decide? {
      DecidedInTime(c, s, p, delay);
    } else if p in s.lives {
      StepContinues(c, s, e);
    }
  }

  lemma {:induction false} OnlyHardReaped(c: Config, s: State, run: seq<Event>, p: Name, delay: int)
    requires Sane(c) && Labelled(c, s) && Known(s) && Possible(c, s, run) && Listings(c, s, run, p, delay)
    requires OnlyHard(c, s, p, delay)
    ensures var t := After(c, s, run); Known(t) && OnlyHard(c, t, p, delay)
    decreases |run|
  {
    if run != [] {
      LabelledKept(c, s, run[0]);
      KnownKept(c, s, run[0]);
      OnlyHardKept(c, s, run[0], p, delay);
      OnlyHardReaped(c, Next(c, s, run[0]), run[1..], p, delay);
    }
  }

  /** Every keepalive of p lands soon enough after the clock reading of the one before it (the first, after
      the reading at creation), and the collector reads its clock within `delay` of its listing. */
  predicate KeptAlive(c: Config, s: State, run: seq<Event>, p: Name, delay: int)
    requires Possible(c, s, run)
    decreases |run|
  {
    run == [] || (
      && (run[0].Land? && s.calls[run[0].call].pod == p ==> Fresh(c, s, p, delay))
      && (run[0].Decide? ==> s.now <= s.stage.at + delay)
      && KeptAlive(c, Next(c, s, run[0]), run[1..], p, delay))
  }

  /** Before a landing that was in time, the pod was at no moment overdue. */
  lemma FreshBefore(c: Config, s: State, e: Event, p: Name, delay: int)
    requires Labelled(c, s) && Enabled(c, s, e) && Fresh(c, Next(c, s, e), p, delay)
    requires e.Land? && s.calls[e.call].pod == p ==> Fresh(c, s, p, delay)
    ensures Fresh(c, s, p, delay)
  {
    hide LabelsFor, Slid, Doomed;
  }

  lemma {:induction false} FreshThroughout(c: Config, s: State, run: seq<Event>, p: Name, delay: int)
    requires Sane(c) && Labelled(c, s) && Possible(c, s, run) && KeptAlive(c, s, run, p, delay)
    requires Fresh(c, After(c, s, run), p, delay)
    ensures Fresh(c, s, p, delay) && Listings(c, s, run, p, delay)
    decreases |run|
  {
    if run != [] {
      LabelledKept(c, s, run[0]);
      FreshThroughout(c, Next(c, s, run[0]), run[1..], p, delay);
      FreshBefore(c, s, run[0], p, delay);
    }
  }

  /** A run without listings, whose clock readings are prompt. */
  predicate NoListing(c: Config, s: State, run: seq<Event>, delay: int)
    requires Possible(c, s, run)
    decreases |run|
  {
    run == [] || (
      && !run[0].List? && (run[0].Decide? ==> s.now <= s.stage.at + delay)
      && NoListing(c, Next(c, s, run[0]), run[1..], delay))
  }

  lemma {:induction false} NoListingListings(c: Config, s: State, run: seq<Event>, p: Name, delay: int)
    requires Possible(c, s, run) && NoListing(c, s, run, delay)
    ensures Listings(c, s, run, p, delay)
    decreases |run|
  {
    if run != [] {
      NoListingListings(c, Next(c, s, run[0]), run[1..], p, delay);
    }
  }

  /** Keepalive safety. While each keepalive of p lands in time, up to a moment when the next is not yet
      overdue (`main`), the collector deletes p on no ground but its hard cap, and neither does a pass that
      listed by then (`rest`), however the steps interleave. */
  lemma KeepaliveSafety(c: Config, s: State, main: seq<Event>, rest: seq<Event>, p: Name, delay: int)
    requires Sane(c) && Start(s) && Possible(c, s, main) && Possible(c, After(c, s, main), rest)
    requires KeptAlive(c, s, main, p, delay) && Fresh(c, After(c, s, main), p, delay)
    requires NoListing(c, After(c, s, main), rest, delay)
    ensures var t := After(c, After(c, s, main), rest);
            p in t.reaped ==>
              p in t.lives && Hard(c, t, p) < Unix(t.reaped[p]) && t.lives[p].created + c.ttl < t.reaped[p]
  {
    FreshThroughout(c, s, main, p, delay);
    OnlyHardReaped(c, s, main, p, delay);
    var m := After(c, s, main);
    RunContinues(c, s, main);
    NoListingListings(c, m, rest, p, delay);
    OnlyHardReaped(c, m, rest, p, delay);
    RunContinues(c, m, rest);
  }

  // ---------------------------------------------------------------------------- Bounded lifetime

  /** When the collector's next listing must find p expired: a second after its deadline, or when p (or
      its label) came to be, if that was later. `cap` selects the hard cap, else the sooner deadline. */
  function Due(c: Config, s: State, p: Name, cap: bool): int
    requires p in s.pods && p in s.lives
  {
    var l := s.lives[p];
    if cap then Max((Hard(c, s, p) + 1) * SECOND, l.born)
    else Max((EffectiveExpiry(s.pods[p]) + 1) * SECOND, l.wrote)
  }

  function Max(a: int, b: int): int {
    if a < b then b else a
  }

  /** The ticker and the passes keep time: a pass begins within `gap` of the last, and takes at most `pass`. */
  predicate OnTime(s: State, gap: int, pass: int) {
    if s.stage.Resting? then s.now <= s.began + gap else s.now <= s.began + pass
  }

  /** No list or delete of the run fails, and it is on time throughout. */
  predicate Healthy(c: Config, s: State, run: seq<Event>, gap: int, pass: int)
    requires Possible(c, s, run)
    decreases |run|
  {
    OnTime(s, gap, pass) && (run == [] || (
      !run[0].ListFail? && !run[0].DeleteFail? && Healthy(c, Next(c, s, run[0]), run[1..], gap, pass)))
  }

  /** How far the pass under way is with a pod due at `due`. */
  predicate OnItsWay(s: State, p: Name, due: int) {
    match s.stage
    case Resting => s.began <= due
    case Begun => s.previous <= due
    case Listed(listing, at) =>
      s.previous <= due && (s.began > due ==> p in listing && (EffectiveExpiry(listing[p]) + 1) * SECOND <= s.began)
                        && (s.began > due ==> EffectiveExpiry(listing[p]) > 0)
    case Deleting(doomed) =>
      s.previous <= due && (s.began > due ==> p in doomed)
  }

  predicate AllOnTheirWay(c: Config, s: State, cap: bool, gap: int) {
    && s.began <= s.previous + gap
    && forall p | p in s.pods && p in s.lives :: OnItsWay(s, p, Due(c, s, p, cap))
  }

  /** A pod is due no sooner than its labels say. */
  lemma DueIsExpired(c: Config, s: State, p: Name, cap: bool)
    requires Sane(c) && Labelled(c, s) && p in s.pods
    ensures 0 < EffectiveExpiry(s.pods[p]) && (EffectiveExpiry(s.pods[p]) + 1) * SECOND <= Due(c, s, p, cap)
  {
    LabelsRead(s.lives[p].created, s.lives[p].read, c.ttl, c.idleTTL);
    hide EffectiveExpiry, LabelsFor;
  }

  /** A pod's due time changes only at a moment before it. */
  lemma DueMoves(c: Config, s: State, e: Event, p: Name, cap: bool)
    requires Sane(c) && Labelled(c, s) && Enabled(c, s, e) && p in Next(c, s, e).pods
    ensures var t := Next(c, s, e);
            && p in t.lives
            && (Due(c, t, p, cap) >= t.now || (p in s.pods && Due(c, t, p, cap) == Due(c, s, p, cap)))
  {
    hide EffectiveExpiry, LabelsFor, Slid, Doomed, Clock;
  }

  lemma SecondPast(second: int, now: int)
    ensures (second + 1) * SECOND <= now ==> second < Unix(now)
  {
  }

  lemma StageMoves(c: Config, s: State, e: Event, p: Name, due: int)
    requires Labelled(c, s) && Enabled(c, s, e) && !e.ListFail? && !e.DeleteFail?
    requires p in s.pods && p in Next(c, s, e).pods && OnItsWay(s, p, due)
    requires 0 < EffectiveExpiry(s.pods[p]) && (EffectiveExpiry(s.pods[p]) + 1) * SECOND <= due
    ensures OnItsWay(Next(c, s, e), p, due)
  {
    hide EffectiveExpiry, LabelsFor, Slid;
    if e.Decide? && p in s.stage.listing && s.began > due {
      SecondPast(EffectiveExpiry(s.stage.listing[p]), s.now);
    }
  }

  lemma OnItsWayKept(c: Config, s: State, e: Event, p: Name, cap: bool)
    requires Sane(c) && Labelled(c, s) && Enabled(c, s, e) && !e.ListFail? && !e.DeleteFail?
    requires p in s.pods ==> OnItsWay(s, p, Due(c, s, p, cap))
    requires p in Next(c, s, e).pods
    ensures p in Next(c, s, e).lives && OnItsWay(Next(c, s, e), p, Due(c, Next(c, s, e), p, cap))
  {
    LabelledKept(c, s, e);
    DueMoves(c, s, e, p, cap);
    if p in s.pods {
      DueIsExpired(c, s, p, cap);
      StageMoves(c, s, e, p, Due(c, s, p, cap));
    }
    hide EffectiveExpiry, LabelsFor, Slid, Due, Landed;
  }

  lemma AllOnTheirWayKept(c: Config, s: State, e: Event, cap: bool, gap: int, pass: int)
    requires Sane(c) && Labelled(c, s) && Enabled(c, s, e) && !e.ListFail? && !e.DeleteFail?
    requires OnTime(s, gap, pass) && AllOnTheirWay(c, s, cap, gap)
    ensures AllOnTheirWay(c, Next(c, s, e), cap, gap)
  {
    var t := Next(c, s, e);
    forall p | p in t.pods && p in t.lives ensures OnItsWay(t, p, Due(c, t, p, cap)) {
      OnItsWayKept(c, s, e, p, cap);
    }
    hide OnItsWay, Due, LabelsFor, Slid, Doomed;
  }

  lemma {:induction false} RunOnTheWay(c: Config, s: State, run: seq<Event>, cap: bool, gap: int, pass: int)
    requires Sane(c) && Labelled(c, s) && Possible(c, s, run) && Healthy(c, s, run, gap, pass)
    requires AllOnTheirWay(c, s, cap, gap)
    ensures var t := After(c, s, run);
            Labelled(c, t) && AllOnTheirWay(c, t, cap, gap) && OnTime(t, gap, pass)
    decreases |run|
  {
    hide Labelled, AllOnTheirWay, OnTime;
    if run != [] {
      LabelledKept(c, s, run[0]);
      AllOnTheirWayKept(c, s, run[0], cap, gap, pass);
      RunOnTheWay(c, Next(c, s, run[0]), run[1..], cap, gap, pass);
    }
  }

  lemma StartsOnTheWay(c: Config, s: State, run: seq<Event>, gap: int, pass: int)
    requires Start(s) && Possible(c, s, run) && Healthy(c, s, run, gap, pass)
    ensures Labelled(c, s) && AllOnTheirWay(c, s, true, gap) && AllOnTheirWay(c, s, false, gap)
  {
  }

  /** Bounded lifetime. While no list or delete fails and the ticker is on time, a pod is still there no
      later than one tick, one pass and a second of rounding after its hard cap, and no later than that
      after its latest keepalive's reading plus the idle window; a label written only after its own
      deadline counts from its writing. */
  lemma BoundedLifetime(c: Config, s: State, run: seq<Event>, p: Name, gap: int, pass: int)
    requires Sane(c) && Start(s) && Possible(c, s, run) && Healthy(c, s, run, gap, pass) && 0 <= pass
    requires p in After(c, s, run).pods
    ensures var t := After(c, s, run);
            && p in t.lives
            && var l := t.lives[p];
            && t.now <= Max(l.created + c.ttl + SECOND, l.born) + gap + pass
            && (c.idleTTL > 0 ==> t.now <= Max(l.read + c.idleTTL + SECOND, l.wrote) + gap + pass)
  {
    hide *;
    StartsOnTheWay(c, s, run, gap, pass);
    RunOnTheWay(c, s, run, true, gap, pass);
    RunOnTheWay(c, s, run, false, gap, pass);
    Overdue(c, After(c, s, run), p, gap, pass);
  }

  lemma InTime(c: Config, t: State, p: Name, cap: bool, gap: int, pass: int)
    requires Labelled(c, t) && p in t.pods && OnTime(t, gap, pass) && 0 <= pass
    requires AllOnTheirWay(c, t, cap, gap)
    ensures t.now <= Due(c, t, p, cap) + gap + pass
  {
    hide Due, EffectiveExpiry;
  }

  lemma Overdue(c: Config, t: State, p: Name, gap: int, pass: int)
    requires Sane(c) && Labelled(c, t) && p in t.pods && OnTime(t, gap, pass) && 0 <= pass
    requires AllOnTheirWay(c, t, true, gap) && AllOnTheirWay(c, t, false, gap)
    ensures p in t.lives
    ensures var l := t.lives[p];
            && t.now <= Max(l.created + c.ttl + SECOND, l.born) + gap + pass
            && (c.idleTTL > 0 ==> t.now <= Max(l.read + c.idleTTL + SECOND, l.wrote) + gap + pass)
  {
    hide EffectiveExpiry, LabelsFor, OnItsWay, AllOnTheirWay;
    var l := t.lives[p];
    LabelsRead(l.created, l.read, c.ttl, c.idleTTL);
    InTime(c, t, p, true, gap, pass);
    InTime(c, t, p, false, gap, pass);
    UnixOrder(l.created + c.ttl, 0);
    UnixOrder(l.read + Max(c.idleTTL, 0), 0);
  }
}
