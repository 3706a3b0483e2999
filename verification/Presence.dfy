/** The presence check of Login and Heartbeat: three passes over an employee's
    stores, by whitelisted IP, then by geofence, then by whitelisted MAC. */
module Presence {
  import opened Results
  import opened StoreModel

  /** One row of ListStoresForLoginByEmployeeID. */
  datatype Candidate = Candidate(id: nat, enabled: bool, fence: Fence, ips: seq<Ip>, macs: seq<Mac>)

  /** What the device sends; metresTo is its great-circle distance to a point. */
  datatype Device = Device(ip: Ip, metresTo: (real, real) -> real, mac: Option<Mac>)

  /** In the order of trust. */
  datatype Tier = ByIp | ByFence | ByMac

  function Rank(t: Tier): nat {
    match t
    case ByIp => 0
    case ByFence => 1
    case ByMac => 2
  }

  predicate Inside(f: Fence, d: Device) {
    f.latitude.Some? && f.longitude.Some? && f.radius.Some?
    && d.metresTo(f.latitude.value, f.longitude.value) <= f.radius.value as real
  }

  /** The store counts as the device's place on this tier. The whitelist switch
      gates both whitelists and not the geofence. */
  predicate Qualifies(t: Tier, c: Candidate, d: Device) {
    match t
    case ByIp => c.enabled && d.ip in c.ips
    case ByFence => Inside(c.fence, d)
    case ByMac => c.enabled && d.mac.Some? && d.mac.value in c.macs
  }

  /** The presence check against a single store. */
  predicate Present(c: Candidate, d: Device) {
    Qualifies(ByIp, c, d) || Qualifies(ByFence, c, d) || Qualifies(ByMac, c, d)
  }

  /** Nothing before position i qualifies on tier t. */
  predicate NoneBefore(cs: seq<Candidate>, d: Device, t: Tier, i: nat) {
    forall j: nat :: j < i && j < |cs| ==> !Qualifies(t, cs[j], d)
  }

  /** The lexicographic order on pairs of tier and list position. */
  predicate Precedes(t: Tier, i: nat, t': Tier, j: nat) {
    Rank(t) < Rank(t') || (t == t' && i <= j)
  }

  /** (t, i) is the least of all qualifying pairs. */
  predicate IsBest(cs: seq<Candidate>, d: Device, t: Tier, i: nat) {
    && i < |cs| && Qualifies(t, cs[i], d)
    && forall t': Tier, j: nat :: j < |cs| && Qualifies(t', cs[j], d) ==> Precedes(t, i, t', j)
  }

  function First(cs: seq<Candidate>, d: Device, t: Tier, from: nat): (r: Option<nat>)
    requires from <= |cs|
    ensures r.Some? ==> from <= r.value < |cs| && Qualifies(t, cs[r.value], d)
    ensures forall j: nat :: from <= j < (if r.Some? then r.value else |cs|) ==> !Qualifies(t, cs[j], d)
    decreases |cs| - from
  {
    if from == |cs| then None else if Qualifies(t, cs[from], d) then Some(from) else First(cs, d, t, from + 1)
  }

  function Best(cs: seq<Candidate>, d: Device): Option<Candidate> {
    var ip := First(cs, d, ByIp, 0);
    var fence := First(cs, d, ByFence, 0);
    var mac := First(cs, d, ByMac, 0);
    if ip.Some? then Some(cs[ip.value])
    else if fence.Some? then Some(cs[fence.value])
    else if mac.Some? then Some(cs[mac.value])
    else None
  }

  /** The answer is the store of the least qualifying pair, and there is no
      answer exactly when no store qualifies on any tier. */
  lemma BestIsLeast(cs: seq<Candidate>, d: Device)
    ensures Best(cs, d).None? <==> forall j: nat :: j < |cs| ==> !Present(cs[j], d)
    ensures Best(cs, d).Some? ==> exists t: Tier, i: nat :: IsBest(cs, d, t, i) && Best(cs, d) == Some(cs[i])
  {
    var ip := First(cs, d, ByIp, 0);
    var fence := First(cs, d, ByFence, 0);
    var mac := First(cs, d, ByMac, 0);
    if ip.Some? {
      assert IsBest(cs, d, ByIp, ip.value) && Present(cs[ip.value], d);
    } else if fence.Some? {
      assert IsBest(cs, d, ByFence, fence.value) && Present(cs[fence.value], d);
    } else if mac.Some? {
      assert IsBest(cs, d, ByMac, mac.value) && Present(cs[mac.value], d);
    }
  }

  /** The whitelist switch gates both lists and not the fence, a fence needs all
      its three fields, and a device that sends no MAC address matches by none. */
  lemma PresentIff(c: Candidate, d: Device)
    ensures Present(c, d) <==>
            || (c.enabled && d.ip in c.ips)
            || (c.fence.latitude.Some? && c.fence.longitude.Some? && c.fence.radius.Some?
                && d.metresTo(c.fence.latitude.value, c.fence.longitude.value) <= c.fence.radius.value as real)
            || (c.enabled && d.mac.Some? && d.mac.value in c.macs)
  {}

  /** In the listed order of tiers, then in list order. */
  lemma IsBestIff(cs: seq<Candidate>, d: Device, i: nat)
    ensures IsBest(cs, d, ByIp, i) <==>
            && i < |cs| && cs[i].enabled && d.ip in cs[i].ips
            && forall j: nat :: j < i ==> !(cs[j].enabled && d.ip in cs[j].ips)
    ensures IsBest(cs, d, ByFence, i) <==>
            && i < |cs| && Inside(cs[i].fence, d)
            && (forall j: nat :: j < |cs| ==> !(cs[j].enabled && d.ip in cs[j].ips))
            && forall j: nat :: j < i ==> !Inside(cs[j].fence, d)
    ensures IsBest(cs, d, ByMac, i) <==>
            && i < |cs| && cs[i].enabled && d.mac.Some? && d.mac.value in cs[i].macs
            && (forall j: nat :: j < |cs| ==> !(cs[j].enabled && d.ip in cs[j].ips) && !Inside(cs[j].fence, d))
            && forall j: nat :: j < i ==> !(cs[j].enabled && d.mac.value in cs[j].macs)
  {
    forall j: nat | j < |cs|
      ensures Qualifies(ByIp, cs[j], d) <==> cs[j].enabled && d.ip in cs[j].ips
      ensures Qualifies(ByFence, cs[j], d) <==> Inside(cs[j].fence, d)
      ensures Qualifies(ByMac, cs[j], d) <==> cs[j].enabled && d.mac.Some? && d.mac.value in cs[j].macs
    {}
    if i < |cs| {
      BestPairs(cs, d, i);
    }
  }

  lemma BestPairs(cs: seq<Candidate>, d: Device, i: nat)
    requires i < |cs|
    ensures IsBest(cs, d, ByIp, i) <==> Qualifies(ByIp, cs[i], d) && NoneBefore(cs, d, ByIp, i)
    ensures IsBest(cs, d, ByFence, i) <==>
            Qualifies(ByFence, cs[i], d) && NoneBefore(cs, d, ByIp, |cs|) && NoneBefore(cs, d, ByFence, i)
    ensures IsBest(cs, d, ByMac, i) <==>
            && Qualifies(ByMac, cs[i], d) && NoneBefore(cs, d, ByIp, |cs|) && NoneBefore(cs, d, ByFence, |cs|)
            && NoneBefore(cs, d, ByMac, i)
  {}

  /** The store Login chose, looked at alone with the same device, is a match. */
  lemma ChosenStoreMatchesAgain(cs: seq<Candidate>, d: Device)
    requires Best(cs, d).Some?
    ensures Present(Best(cs, d).value, d) && Best([Best(cs, d).value], d) == Best(cs, d)
  {}

  /** On one candidate the check is the disjunction of the three tiers. */
  lemma SingleMatch(c: Candidate, d: Device)
    ensures Best([c], d).Some? <==> Present(c, d)
  {}

  /** matchStore: three passes with early return. */
  method MatchStore(cs: seq<Candidate>, d: Device) returns (r: Option<Candidate>)
    ensures r == Best(cs, d)
    ensures r.None? <==> forall j: nat :: j < |cs| ==> !Present(cs[j], d)
    ensures r.Some? ==> exists t: Tier, i: nat :: IsBest(cs, d, t, i) && r == Some(cs[i])
  {
    BestIsLeast(cs, d);
    for i := 0 to |cs|
      invariant NoneBefore(cs, d, ByIp, i)
    {
      if !cs[i].enabled {
        continue;
      }
      if d.ip in cs[i].ips {
        return Some(cs[i]);
      }
    }
    for i := 0 to |cs|
      invariant NoneBefore(cs, d, ByIp, |cs|) && NoneBefore(cs, d, ByFence, i)
    {
      if Inside(cs[i].fence, d) {
        return Some(cs[i]);
      }
    }
    if d.mac.Some? {
      for i := 0 to |cs|
        invariant NoneBefore(cs, d, ByIp, |cs|) && NoneBefore(cs, d, ByFence, |cs|) && NoneBefore(cs, d, ByMac, i)
      {
        if !cs[i].enabled {
          continue;
        }
        for k := 0 to |cs[i].macs|
          invariant d.mac.value !in cs[i].macs[..k]
        {
          if cs[i].macs[k] == d.mac.value {
            return Some(cs[i]);
          }
        }
      }
    }
    return None;
  }
}
