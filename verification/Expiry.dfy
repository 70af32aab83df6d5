/** The two deadlines a pod carries as labels, and the collector's view of them. */
module Expiry {
  import opened Decimal

  /** Time is counted in nanoseconds since 1970; labels hold whole seconds. */
  const SECOND := 1_000_000_000

  function Unix(t: int): int {
    t / SECOND
  }

  /** The label texts; an absent label reads as the empty string. */
  datatype Labels = Labels(hard: string, idle: string)

  /** The sooner of the two deadlines, counting only those that are set; 0 if none is. */
  function EffectiveExpiry(l: Labels): int {
    var hard, idle := Scan(l.hard), Scan(l.idle);
    if hard == 0 then idle
    else if idle == 0 then hard
    else if idle < hard then idle
    else hard
  }

  /** What the collector tests. */
  predicate Expired(l: Labels, now: int) {
    EffectiveExpiry(l) != 0 && EffectiveExpiry(l) < Unix(now)
  }

  /** A clock reading far enough from both ends of the label format. */
  predicate Clock(t: int) {
    SECOND <= t <= MAX_INT
  }

  function HardLabel(read: int, ttl: int): string {
    Print(Unix(read + ttl))
  }

  function IdleLabel(read: int, idleTTL: int): string {
    if idleTTL > 0 then Print(Unix(read + idleTTL)) else ""
  }

  /** The labels of a pod whose deadlines were set from these clock readings. */
  function LabelsFor(created: int, read: int, ttl: int, idleTTL: int): Labels {
    Labels(HardLabel(created, ttl), IdleLabel(read, idleTTL))
  }

  /** Reading the labels gives back the deadlines they were written for. */
  lemma LabelsRead(created: int, read: int, ttl: int, idleTTL: int)
    requires Clock(created) && Clock(read) && 0 <= ttl <= MAX_INT && idleTTL <= MAX_INT
    ensures var l := LabelsFor(created, read, ttl, idleTTL);
            var hard, idle := Unix(created + ttl), Unix(read + idleTTL);
            && EffectiveExpiry(l) == (if idleTTL > 0 && idle < hard then idle else hard)
            && 0 < EffectiveExpiry(l) <= hard
  {
    ScanOfPrint(Unix(created + ttl));
    if idleTTL > 0 {
      ScanOfPrint(Unix(read + idleTTL));
    }
    hide Scan, Print;
  }

  /** The label patch of a keepalive whose clock read `read`. */
  function Slid(l: Labels, read: int, idleTTL: int): Labels {
    l.(idle := Print(Unix(read + idleTTL)))
  }

  /** The pods of a listing that the collector sets out to delete. */
  function Doomed(listing: map<string, Labels>, now: int): set<string> {
    set name | name in listing && Expired(listing[name], now)
  }

  /** Whole seconds: what has passed in seconds has passed, and what has passed by a second shows. */
  lemma UnixOrder(a: int, b: int)
    ensures a >= 0 && b >= 0 ==>
              && (Unix(a) < Unix(b) ==> a < b)
              && ((Unix(a) + 1) * SECOND <= b ==> Unix(a) < Unix(b))
              && Unix(a) * SECOND <= a
  {
  }
}
