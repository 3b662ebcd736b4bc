/** The client-side geofence of a checked-in guest: a tracker that samples
    the position every 45 seconds, remembers since when the guest has been
    outside the venue radius, and asks for an automatic check-out once that
    has lasted five minutes. Browser callbacks (position results, position
    errors, permission changes, timers) are the methods of the class, each
    called with the time it happens at in integer milliseconds. */
module Geofence {
  import opened Base

  const SampleIntervalMs: nat := 45000
  const OutsideThresholdMs: int := 300000
  const ErrLocationDenied: string := "Location access denied. Manual check-out will be required."

  /** The result of `checkUserInRadiusAction` as the component sees it. */
  datatype RadiusCheck = CheckFailed | Checked(inRadius: bool)

  /** A step of the `outsideRadiusSince` updater: the new value, and whether
      the step schedules an automatic check-out. */
  datatype OutsideStep = OutsideStep(since: Option<int>, fire: bool)

  /** JavaScript `!prev` for a timestamp: null and 0 both count as unset. */
  predicate Stamped(prev: Option<int>) {
    prev.Some? && prev.value != 0
  }

  /** The updater given to `setOutsideRadiusSince`, with the minute
      arithmetic of the source. */
  function NextOutsideSince(prev: Option<int>, now: int, inRadius: bool): (r: OutsideStep)
    // back inside: the timer is reset and nothing is scheduled
    ensures inRadius ==> r == OutsideStep(None, false)
    // first sample outside: the sample time is stamped
    ensures !inRadius && !Stamped(prev) ==> r == OutsideStep(Some(now), false)
    // later samples outside keep the original stamp ...
    ensures !inRadius && Stamped(prev) ==> r.since == prev
    // ... and schedule a check-out exactly when it is at least five minutes old
    ensures !inRadius && Stamped(prev) ==> (r.fire <==> now - prev.value >= OutsideThresholdMs)
  {
    if inRadius then OutsideStep(None, false)
    else if !Stamped(prev) then OutsideStep(Some(now), false)
    else
      var minutesOutside := (now - prev.value) as real / 1000.0 / 60.0;
      OutsideStep(prev, minutesOutside >= 5.0)
  }

  /** A sample: the time of a successful radius check and its answer. */
  datatype Sample = Sample(at: int, inRadius: bool)

  /** `outsideRadiusSince` after a sequence of successful radius checks. */
  function Replay(prev: Option<int>, samples: seq<Sample>): Option<int> {
    if samples == [] then prev
    else
      var last := samples[|samples| - 1];
      NextOutsideSince(Replay(prev, samples[..|samples| - 1]), last.at, last.inRadius).since
  }

  /** Whether the `i`-th sample of a run schedules an automatic check-out. */
  function FiresAt(prev: Option<int>, samples: seq<Sample>, i: nat): bool
    requires i < |samples|
  {
    NextOutsideSince(Replay(prev, samples[..i]), samples[i].at, samples[i].inRadius).fire
  }

  predicate AllOutside(samples: seq<Sample>) {
    forall i :: 0 <= i < |samples| ==> !samples[i].inRadius
  }

  /** Throughout a run of outside samples that starts unstamped, the stamp
      is the time of the first sample (when that time is not 0). */
  lemma {:induction false} OutsideRunKeepsFirstStamp(samples: seq<Sample>, n: nat)
    requires AllOutside(samples) && 1 <= n <= |samples| && samples[0].at != 0
    ensures Replay(None, samples[..n]) == Some(samples[0].at)
  {
    var prefix := samples[..n];
    assert prefix[..n - 1] == samples[..n - 1];
    if n > 1 {
      OutsideRunKeepsFirstStamp(samples, n - 1);
    } else {
      assert samples[..0] == [];
    }
  }

  /** In such a run, sample `i` schedules a check-out exactly when it comes
      at least five minutes after the first: every later outside sample
      schedules another one. */
  lemma OutsideRunFires(samples: seq<Sample>, i: nat)
    requires AllOutside(samples) && i < |samples| && samples[0].at != 0
    ensures FiresAt(None, samples, i) <==> i > 0 && samples[i].at - samples[0].at >= OutsideThresholdMs
  {
    if i > 0 {
      OutsideRunKeepsFirstStamp(samples, i);
    } else {
      assert samples[..0] == [];
    }
  }

  /** A sample inside the radius clears the stamp whatever came before. */
  lemma InsideSampleResets(prev: Option<int>, samples: seq<Sample>, at: int)
    ensures Replay(prev, samples + [Sample(at, true)]) == None
  {
    assert (samples + [Sample(at, true)])[..|samples|] == samples;
  }

  datatype PermissionState = Granted | Denied | Prompt

  datatype PositionError = PermissionDenied | PositionUnavailable | Timeout

  class GeofenceMonitor {
    /** `locationPermission` (`null` until known). */
    var permission: Option<PermissionState>
    var isTracking: bool
    /** `trackingIntervalRef.current`: the handle of the 45 s interval. */
    var trackingInterval: Option<nat>
    /** `watchIdRef.current`: cleared on stop, never set. */
    var watchId: Option<nat>
    var outsideRadiusSince: Option<int>
    /** Position requests issued (`getCurrentPosition` calls). */
    var samplesRequested: nat
    /** Automatic check-out calls scheduled by the updater. */
    var checkOutsScheduled: nat
    /** `onCheckOut` notifications delivered. */
    var checkOutsNotified: nat
    /** Messages passed to `onError`. */
    var reportedErrors: seq<string>

    ghost predicate Valid()
      reads this
    {
      (isTracking <==> trackingInterval.Some?) && watchId.None?
    }

    /** Stopped: no interval, no watch, not tracking. */
    predicate Stopped()
      reads this
    {
      !isTracking && trackingInterval.None? && watchId.None?
    }

    constructor ()
      ensures Valid() && Stopped()
      ensures permission.None? && outsideRadiusSince.None?
      ensures samplesRequested == 0 && checkOutsScheduled == 0 && checkOutsNotified == 0 && reportedErrors == []
    {
      permission := None;
      isTracking := false;
      trackingInterval := None;
      watchId := None;
      outsideRadiusSince := None;
      samplesRequested := 0;
      checkOutsScheduled := 0;
      checkOutsNotified := 0;
      reportedErrors := [];
    }

    /** `stopTracking()`. Harmless to repeat: on a stopped tracker it
        changes nothing. */
    method StopTracking()
      modifies this
      ensures Valid() && Stopped()
      ensures permission == old(permission) && outsideRadiusSince == old(outsideRadiusSince)
      ensures samplesRequested == old(samplesRequested) && checkOutsScheduled == old(checkOutsScheduled)
      ensures checkOutsNotified == old(checkOutsNotified) && reportedErrors == old(reportedErrors)
      ensures old(Stopped()) ==> unchanged(this)
    {
      if trackingInterval.Some? {
        trackingInterval := None;
      }
      if watchId.Some? {
        watchId := None;
      }
      isTracking := false;
    }

    /** `startTracking()`: `timerId` is the handle `setInterval` returns. */
    method StartTracking(timerId: nat)
      requires Valid()
      modifies this
      ensures Valid()
      // already tracking: nothing happens
      ensures old(isTracking) ==> unchanged(this)
      // otherwise: tracking, one interval installed, one immediate sample
      ensures !old(isTracking) ==>
        && isTracking && trackingInterval == Some(timerId)
        && samplesRequested == old(samplesRequested) + 1
        && permission == old(permission) && outsideRadiusSince == old(outsideRadiusSince)
        && checkOutsScheduled == old(checkOutsScheduled) && checkOutsNotified == old(checkOutsNotified)
        && reportedErrors == old(reportedErrors) && watchId == old(watchId)
    {
      if isTracking {
        return;
      }
      isTracking := true;
      trackingInterval := Some(timerId);
      samplesRequested := samplesRequested + 1;
    }

    /** The 45-second interval fires (only an installed interval does). */
    method IntervalFired()
      requires Valid() && trackingInterval.Some?
      modifies this
      ensures Valid()
      ensures samplesRequested == old(samplesRequested) + 1
      ensures permission == old(permission) && isTracking == old(isTracking)
      ensures trackingInterval == old(trackingInterval) && outsideRadiusSince == old(outsideRadiusSince)
      ensures checkOutsScheduled == old(checkOutsScheduled) && checkOutsNotified == old(checkOutsNotified)
      ensures reportedErrors == old(reportedErrors)
    {
      samplesRequested := samplesRequested + 1;
    }

    /** The success callback of a position request, after the radius check
        has answered at time `now`. */
    method OnPosition(now: int, check: RadiusCheck)
      requires Valid()
      modifies this
      ensures Valid()
      // a failed radius check changes nothing
      ensures check.CheckFailed? ==> unchanged(this)
      ensures check.Checked? ==>
        var step := NextOutsideSince(old(outsideRadiusSince), now, check.inRadius);
        && outsideRadiusSince == step.since
        && checkOutsScheduled == old(checkOutsScheduled) + (if step.fire then 1 else 0)
        && permission == old(permission) && isTracking == old(isTracking)
        && trackingInterval == old(trackingInterval) && watchId == old(watchId)
        && samplesRequested == old(samplesRequested) && checkOutsNotified == old(checkOutsNotified)
        && reportedErrors == old(reportedErrors)
    {
      if check.CheckFailed? {
        return;
      }
      var step := NextOutsideSince(outsideRadiusSince, now, check.inRadius);
      outsideRadiusSince := step.since;
      if step.fire {
        checkOutsScheduled := checkOutsScheduled + 1;
      }
    }

    /** A scheduled `autoCheckOutAction` has answered. */
    method OnCheckOutResult(failed: bool)
      requires Valid()
      modifies this
      ensures Valid()
      ensures failed ==> unchanged(this)
      // only a successful check-out notifies and stops tracking
      ensures !failed ==>
        && checkOutsNotified == old(checkOutsNotified) + 1 && Stopped()
        && permission == old(permission) && outsideRadiusSince == old(outsideRadiusSince)
        && samplesRequested == old(samplesRequested) && checkOutsScheduled == old(checkOutsScheduled)
        && reportedErrors == old(reportedErrors)
    {
      if failed {
        return;
      }
      checkOutsNotified := checkOutsNotified + 1;
      StopTracking();
    }

    /** The error callback of a position request made while tracking. */
    method OnPositionError(error: PositionError)
      requires Valid()
      modifies this
      ensures Valid()
      // only a refusal changes anything: denied, reported, stopped
      ensures !error.PermissionDenied? ==> unchanged(this)
      ensures error.PermissionDenied? ==>
        && permission == Some(Denied) && Stopped()
        && reportedErrors == old(reportedErrors) + [ErrLocationDenied]
        && outsideRadiusSince == old(outsideRadiusSince)
        && samplesRequested == old(samplesRequested) && checkOutsScheduled == old(checkOutsScheduled)
        && checkOutsNotified == old(checkOutsNotified)
    {
      if !error.PermissionDenied? {
        return;
      }
      permission := Some(Denied);
      reportedErrors := reportedErrors + [ErrLocationDenied];
      StopTracking();
    }

    /** `permission.onchange`: `timerId` is the handle a start would install. */
    method OnPermissionChange(state: PermissionState, timerId: nat)
      requires Valid()
      modifies this
      ensures Valid() && permission == Some(state)
      // granted starts tracking (a no-op if already tracking) ...
      ensures state == Granted ==>
        && isTracking
        && (old(isTracking) ==> trackingInterval == old(trackingInterval) && samplesRequested == old(samplesRequested))
        && (!old(isTracking) ==> trackingInterval == Some(timerId) && samplesRequested == old(samplesRequested) + 1)
      // ... and any other state stops it
      ensures state != Granted ==> Stopped() && samplesRequested == old(samplesRequested)
      ensures outsideRadiusSince == old(outsideRadiusSince) && checkOutsScheduled == old(checkOutsScheduled)
      ensures checkOutsNotified == old(checkOutsNotified) && reportedErrors == old(reportedErrors)
    {
      permission := Some(state);
      if state == Granted {
        StartTracking(timerId);
      } else {
        StopTracking();
      }
    }

    /** The permission query made on mount has answered. */
    method OnPermissionQueried(state: PermissionState, timerId: nat)
      requires Valid()
      modifies this
      ensures Valid() && permission == Some(state)
      ensures state == Granted ==> isTracking
      ensures state == Granted && !old(isTracking) ==>
        trackingInterval == Some(timerId) && samplesRequested == old(samplesRequested) + 1
      ensures state != Granted ==>
        && isTracking == old(isTracking) && trackingInterval == old(trackingInterval)
        && samplesRequested == old(samplesRequested)
      ensures outsideRadiusSince == old(outsideRadiusSince) && checkOutsScheduled == old(checkOutsScheduled)
      ensures checkOutsNotified == old(checkOutsNotified) && reportedErrors == old(reportedErrors)
    {
      permission := Some(state);
      if state == Granted {
        StartTracking(timerId);
      }
    }
  }
}
