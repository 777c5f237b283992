// Decisions shared by both revisions of the session logic: the connectable
// guard, first-match selection of the heart-rate service and measurement
// characteristic, and two facts about the command log that every callback keeps.

module Gatt {
  import opened Radio

  /** k is the position of the first element of s that satisfies matches. */
  ghost predicate IsFirst<T>(s: seq<T>, matches: T -> bool, k: int)
  {
    0 <= k < |s| && matches(s[k]) && forall j :: 0 <= j < k ==> !matches(s[j])
  }

  /** No element of s satisfies matches. */
  ghost predicate NoneMatch<T>(s: seq<T>, matches: T -> bool)
  {
    forall j :: 0 <= j < |s| ==> !matches(s[j])
  }

  /** Linear search from the front, as first(where:) does. */
  function FirstIndex<T>(s: seq<T>, matches: T -> bool): (r: Option<nat>)
    ensures r.Some? ==> IsFirst(s, matches, r.value)
    ensures r.None? ==> NoneMatch(s, matches)
  {
    if s == [] then None
    else if matches(s[0]) then Some(0)
    else match FirstIndex(s[1..], matches)
         case None => None
         case Some(k) => Some(k + 1)
  }

  predicate IsHeartRateService(s: Service)
  {
    s.uuid == HeartRateServiceUuid
  }

  predicate IsHeartRateMeasurement(c: Characteristic)
  {
    c.uuid == HeartRateMeasurementUuid
  }

  /**
   * The advertisement guard: the IsConnectable entry must be present, must be
   * a Boolean, and must be true.
   */
  function IsConnectable(ad: AdvertisementData): (r: bool)
    ensures IsConnectableKey !in ad ==> !r
    ensures IsConnectableKey in ad && ad[IsConnectableKey].OtherValue? ==> !r
    ensures IsConnectableKey in ad && ad[IsConnectableKey].BoolValue? ==> r == ad[IsConnectableKey].b
  {
    IsConnectableKey in ad && ad[IsConnectableKey] == BoolValue(true)
  }

  /**
   * What the services-discovered callback asks of peripheral p: discovery of the
   * measurement characteristic on the first heart-rate service, or nothing when
   * the service list is absent or holds no heart-rate service.
   */
  function CharacteristicDiscovery(p: Peripheral, services: Option<seq<Service>>): (r: Option<Command>)
    ensures services.None? ==> r.None?
    ensures services.Some? ==>
      (r.None? <==> NoneMatch(services.value, IsHeartRateService))
    ensures r.Some? ==>
      && services.Some?
      && exists k :: IsFirst(services.value, IsHeartRateService, k) &&
           r.value == DiscoverCharacteristics(p, [HeartRateMeasurementUuid], services.value[k])
  {
    match services
    case None => None
    case Some(ss) =>
      match FirstIndex(ss, IsHeartRateService)
      case None => None
      case Some(k) => Some(DiscoverCharacteristics(p, [HeartRateMeasurementUuid], ss[k]))
  }

  /**
   * What the characteristics-discovered callback asks of peripheral p: enable
   * notifications on the first measurement characteristic of the service, or
   * nothing when the list is absent or holds no such characteristic.
   */
  function NotifyRequest(p: Peripheral, service: Service): (r: Option<Command>)
    ensures service.characteristics.None? ==> r.None?
    ensures service.characteristics.Some? ==>
      (r.None? <==> NoneMatch(service.characteristics.value, IsHeartRateMeasurement))
    ensures r.Some? ==>
      && service.characteristics.Some?
      && exists k :: IsFirst(service.characteristics.value, IsHeartRateMeasurement, k) &&
           r.value == SetNotifyValue(p, true, service.characteristics.value[k])
  {
    match service.characteristics
    case None => None
    case Some(cs) =>
      match FirstIndex(cs, IsHeartRateMeasurement)
      case None => None
      case Some(k) => Some(SetNotifyValue(p, true, cs[k]))
  }

  /** The peripheral of the most recent Connect in the log, if there is one. */
  function LastConnectTarget(cmds: seq<Command>): (r: Option<Peripheral>)
  {
    if cmds == [] then None
    else if cmds[|cmds| - 1].Connect? then Some(cmds[|cmds| - 1].peripheral)
    else LastConnectTarget(cmds[..|cmds| - 1])
  }

  /**
   * LastConnectTarget names the target of a Connect entry that no later Connect
   * follows, and is absent exactly when the log holds no Connect.
   */
  lemma {:induction false} LastConnectTargetIsLast(cmds: seq<Command>)
    ensures LastConnectTarget(cmds).Some? ==>
      exists i :: 0 <= i < |cmds| && cmds[i] == Connect(LastConnectTarget(cmds).value) &&
                  forall j :: i < j < |cmds| ==> !cmds[j].Connect?
    ensures LastConnectTarget(cmds).None? <==> forall i :: 0 <= i < |cmds| ==> !cmds[i].Connect?
  {
    if cmds != [] {
      var n := |cmds| - 1;
      if cmds[n].Connect? {
        assert cmds[n] == Connect(LastConnectTarget(cmds).value);
      } else {
        var front := cmds[..n];
        LastConnectTargetIsLast(front);
        if LastConnectTarget(front).Some? {
          var i :| 0 <= i < |front| && front[i] == Connect(LastConnectTarget(front).value) &&
                   forall j :: i < j < |front| ==> !front[j].Connect?;
          assert cmds[i] == front[i];
        } else {
          assert forall i :: 0 <= i < n ==> cmds[i] == front[i];
        }
      }
    }
  }

  /** Every Connect in the log comes right after a StopScan. */
  ghost predicate ConnectsFollowStopScan(cmds: seq<Command>)
  {
    forall i :: 0 <= i < |cmds| && cmds[i].Connect? ==> 0 < i && cmds[i - 1] == StopScan
  }

  lemma {:induction false} LastConnectTargetAppend(cmds: seq<Command>, more: seq<Command>)
    ensures LastConnectTarget(cmds + more) ==
      if LastConnectTarget(more).Some? then LastConnectTarget(more) else LastConnectTarget(cmds)
    decreases |more|
  {
    if more != [] {
      var n := |more| - 1;
      assert (cmds + more)[..|cmds + more| - 1] == cmds + more[..n];
      assert (cmds + more)[|cmds + more| - 1] == more[n];
      if !more[n].Connect? {
        LastConnectTargetAppend(cmds, more[..n]);
      }
    } else {
      assert cmds + more == cmds;
    }
  }

  lemma ConnectsFollowStopScanAppend(cmds: seq<Command>, more: seq<Command>)
    requires ConnectsFollowStopScan(cmds) && ConnectsFollowStopScan(more)
    ensures ConnectsFollowStopScan(cmds + more)
  {
  }

  /**
   * Appending commands that hold no Connect keeps the last Connect target and
   * keeps every Connect right after a StopScan.
   */
  lemma AppendWithoutConnect(cmds: seq<Command>, more: seq<Command>)
    requires ConnectsFollowStopScan(cmds)
    requires forall i :: 0 <= i < |more| ==> !more[i].Connect?
    ensures LastConnectTarget(cmds + more) == LastConnectTarget(cmds)
    ensures ConnectsFollowStopScan(cmds + more)
  {
    LastConnectTargetIsLast(more);
    LastConnectTargetAppend(cmds, more);
    ConnectsFollowStopScanAppend(cmds, more);
  }
}
