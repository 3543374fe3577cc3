/** The usage checker: turns a reply of the usage service into a usage
    snapshot, keeps the last snapshot, and reports what happened to its
    listeners. The HTTP request itself is outside the model: each completed
    request arrives as a `RestResponse`, and each callback runs as one step. */
module UsageChecking {
  import opened Wrappers
  import opened Strings
  import opened UsefulExtensions

  /** The fields of the service's XML reply (UsageReturnValue). The usage
      figures are single-precision floats in GiB that the checker only
      copies; they are kept as reals. */
  datatype UsageReturnValue = UsageReturnValue(
    version: string,
    response: string,          // "Valid" when all is well, otherwise an error text
    key: string,
    usageStartDate: string,    // en-GB display text, unused by the checker
    usageEndDate: string,      // en-GB display text, unused by the checker
    usageStartDateString: Int64,  // despite the name, a Unix timestamp
    usageEndDateString: Int64,    // despite the name, a Unix timestamp
    usagePeak: real,
    usageOffPeak: real,
    usageTotal: real)

  /** What the HTTP client hands back: its error text (null when there is
      none), whether an exception was caught, and the parsed reply. */
  datatype RestResponse = RestResponse(
    errorMessage: Option<string>,
    hasErrorException: bool,
    data: UsageReturnValue)

  /** The service's dispatch rule: the success callback runs exactly when
      there is no error text and no exception. */
  function TransportSucceeded(resp: RestResponse): (ok: bool)
    ensures resp.hasErrorException ==> !ok
    ensures resp.errorMessage.Some? ==>
              (exists i :: 0 <= i < |resp.errorMessage.value| && !IsWhiteSpace(resp.errorMessage.value[i])) ==> !ok
    ensures !resp.hasErrorException && (resp.errorMessage == None || IsBlank(resp.errorMessage.value)) ==> ok
  {
    IsNullOrWhiteSpace(resp.errorMessage) && !resp.hasErrorException
  }

  /** A usage snapshot (UsageInformation); the dates are local time. */
  datatype UsageInformation = UsageInformation(
    usage: real,
    offPeakUsage: real,
    peakUsage: real,
    startDate: DateTime,
    endDate: DateTime)

  /** `CreateUsageInformation`: no snapshot (null) unless the reply says
      "Valid"; otherwise the figures are copied and the dates come from the
      two Unix timestamps, shown in the machine's zone. A timestamp outside
      `DateTime`'s range makes the conversion throw. */
  function CreateUsageInformation(val: UsageReturnValue, zone: TimeZone): (r: Result<Option<UsageInformation>, Error>)
    ensures r == Ok(None) <==> val.response != "Valid"
    ensures r.Err? <==> val.response == "Valid" &&
                        (ToDateTimeInt64(val.usageStartDateString).Err? || ToDateTimeInt64(val.usageEndDateString).Err?)
    ensures r.Ok? && r.value.Some? ==>
              && r.value.value.usage == val.usageTotal
              && r.value.value.offPeakUsage == val.usageOffPeak
              && r.value.value.peakUsage == val.usagePeak
              && r.value.value.startDate.kind == Local
              && r.value.value.endDate.kind == Local
  {
    if val.response != "Valid" then Ok(None)
    else
      match (ToDateTimeInt64(val.usageStartDateString), ToDateTimeInt64(val.usageEndDateString))
      case (Ok(start), Ok(end)) =>
        Ok(Some(UsageInformation(
          val.usageTotal, val.usageOffPeak, val.usagePeak,
          ToLocalTime(start, zone), ToLocalTime(end, zone))))
      case _ => Err(ArgumentOutOfRange)
  }

  /** The en-GB date texts play no part in the snapshot. */
  lemma DatesIgnoreDisplayText(val: UsageReturnValue, zone: TimeZone, startText: string, endText: string)
    ensures CreateUsageInformation(val.(usageStartDate := startText, usageEndDate := endText), zone)
         == CreateUsageInformation(val, zone)
  {
  }

  /** The snapshot's dates denote the reply's timestamps whenever the zone
      reads its local clock back to the same offset at those instants. */
  lemma DatesComeFromTimestamps(val: UsageReturnValue, zone: TimeZone)
    requires CreateUsageInformation(val, zone).Ok?
    requires CreateUsageInformation(val, zone).value.Some?
    requires var u := UnixEpochTicks + val.usageStartDateString * TicksPerSecond;
             var local := u + zone.offsetAtUtc(u);
             0 <= local <= MaxTicks && zone.offsetAtLocal(local) == zone.offsetAtUtc(u)
    requires var u := UnixEpochTicks + val.usageEndDateString * TicksPerSecond;
             var local := u + zone.offsetAtUtc(u);
             0 <= local <= MaxTicks && zone.offsetAtLocal(local) == zone.offsetAtUtc(u)
    ensures var info := CreateUsageInformation(val, zone).value.value;
            && ToTimestamp(info.startDate, zone) == val.usageStartDateString
            && ToTimestamp(info.endDate, zone) == val.usageEndDateString
  {
    LocalRoundTrip(val.usageStartDateString, zone);
    LocalRoundTrip(val.usageEndDateString, zone);
  }

  /** `ValidateHashCode`: the value it passes to its callback. */
  function ValidateHashCode(resp: RestResponse): (valid: bool)
    ensures valid <==> TransportSucceeded(resp) &&
                       forall zone :: CreateUsageInformation(resp.data, zone) != Ok(None)
  {
    var anyZone := TimeZone(t => 0, t => 0);
    assert resp.data.response != "Valid" ==> CreateUsageInformation(resp.data, anyZone) == Ok(None);
    TransportSucceeded(resp) && resp.data.response == "Valid"
  }

  /** What the checker reports: a `UsageUpdated` event with the cached value,
      or an error alert with its full text. */
  datatype Event = UsageUpdated(usage: Option<UsageInformation>) | ErrorAlert(text: string)

  const InvalidHashCode: string := "Invalid Hash Code"

  function AlertText(errorMessage: string): string
  {
    "Could not get usage information: " + errorMessage
  }

  /** The cache and the events after one completed request. */
  datatype FetchStep = FetchStep(cache: Option<UsageInformation>, raised: seq<Event>)

  /** The two callbacks of `UpdateUsageInformation`. On a transport failure
      the error is alerted and nothing else happens. On a reply the snapshot
      replaces the cache, or the cache is cleared and "Invalid Hash Code"
      alerted, and listeners then get the cached value. If building the
      snapshot throws, the callback stops before touching anything. */
  function Fetch(cache: Option<UsageInformation>, resp: RestResponse, zone: TimeZone): (step: FetchStep)
    ensures step.cache != cache ==> UsageUpdated(step.cache) in step.raised
    ensures CountUpdates(step.raised) <= 1
  {
    if !TransportSucceeded(resp) then
      var message := if resp.errorMessage.Some? then resp.errorMessage.value else "";
      FetchStep(cache, [ErrorAlert(AlertText(message))])
    else
      match CreateUsageInformation(resp.data, zone)
      case Err(_) => FetchStep(cache, [])
      case Ok(Some(info)) => FetchStep(Some(info), [UsageUpdated(Some(info))])
      case Ok(None) =>
        var raised := [ErrorAlert(AlertText(InvalidHashCode)), UsageUpdated(None)];
        assert raised[1..] == [UsageUpdated(None)] && raised[1..][1..] == [];
        assert CountUpdates(raised[1..]) == 1;
        assert UsageUpdated(None) == raised[1];
        FetchStep(None, raised)
  }

  function CountUpdates(events: seq<Event>): nat
  {
    if |events| == 0 then 0
    else (if events[0].UsageUpdated? then 1 else 0) + CountUpdates(events[1..])
  }

  function CountAlerts(events: seq<Event>): nat
  {
    if |events| == 0 then 0
    else (if events[0].ErrorAlert? then 1 else 0) + CountAlerts(events[1..])
  }

  lemma ValidReplyReplacesCache(cache: Option<UsageInformation>, resp: RestResponse, zone: TimeZone)
    requires TransportSucceeded(resp) && resp.data.response == "Valid"
    requires MinUnixSeconds <= resp.data.usageStartDateString <= MaxUnixSeconds
    requires MinUnixSeconds <= resp.data.usageEndDateString <= MaxUnixSeconds
    ensures var step := Fetch(cache, resp, zone);
            && step.cache.Some?
            && step.cache.value.usage == resp.data.usageTotal
            && step.cache.value.offPeakUsage == resp.data.usageOffPeak
            && step.cache.value.peakUsage == resp.data.usagePeak
            && step.raised == [UsageUpdated(step.cache)]
    ensures Fetch(cache, resp, zone).cache == CreateUsageInformation(resp.data, zone).value
  {
  }

  lemma InvalidReplyClearsCache(cache: Option<UsageInformation>, resp: RestResponse, zone: TimeZone)
    requires TransportSucceeded(resp) && resp.data.response != "Valid"
    ensures var step := Fetch(cache, resp, zone);
            && step.cache == None
            && CountAlerts(step.raised) == 1
            && ErrorAlert(AlertText(InvalidHashCode)) in step.raised
            && step.raised[|step.raised| - 1] == UsageUpdated(None)
  {
    var raised := Fetch(cache, resp, zone).raised;
    assert raised == [ErrorAlert(AlertText(InvalidHashCode)), UsageUpdated(None)];
    assert raised[1..] == [UsageUpdated(None)];
    assert CountAlerts(raised[1..]) == 0 by { assert raised[1..][1..] == []; }
  }

  lemma TransportFailureKeepsCache(cache: Option<UsageInformation>, resp: RestResponse, zone: TimeZone)
    requires !TransportSucceeded(resp)
    ensures var step := Fetch(cache, resp, zone);
            && step.cache == cache
            && CountUpdates(step.raised) == 0
            && step.raised == [ErrorAlert(AlertText(
                 if resp.errorMessage.Some? then resp.errorMessage.value else ""))]
  {
  }

  /** Every reply that reaches the checker (and does not throw) raises
      `UsageUpdated` exactly once, carrying the value now cached. */
  lemma EveryReplyNotifiesOnce(cache: Option<UsageInformation>, resp: RestResponse, zone: TimeZone)
    requires TransportSucceeded(resp) && CreateUsageInformation(resp.data, zone).Ok?
    ensures var step := Fetch(cache, resp, zone);
            && CountUpdates(step.raised) == 1
            && UsageUpdated(step.cache) in step.raised
  {
    var raised := Fetch(cache, resp, zone).raised;
    if CreateUsageInformation(resp.data, zone).value.None? {
      assert raised == [ErrorAlert(AlertText(InvalidHashCode)), UsageUpdated(None)];
      assert raised[1..] == [UsageUpdated(None)];
      assert CountUpdates(raised[1..]) == 1 by { assert raised[1..][1..] == []; }
    } else {
      assert raised[1..] == [];
    }
  }

  /** A hash code passes validation exactly when fetching with it reports no
      error. */
  lemma ValidationMatchesFetch(cache: Option<UsageInformation>, resp: RestResponse, zone: TimeZone)
    ensures ValidateHashCode(resp) <==> CountAlerts(Fetch(cache, resp, zone).raised) == 0
  {
  }

  /** The usage checker object: the cached snapshot, whether the refresh timer
      exists, the requests it has sent and the events it has raised. */
  class UsageChecker {
    const hashCode: string
    /** The machine's time zone, which `ToLocalTime` consults. */
    const zone: TimeZone
    var currentUsage: Option<UsageInformation>
    var timerRunning: bool
    /** The hash keys sent to the usage service, one per request. */
    var requests: seq<string>
    /** `UsageUpdated` events and error alerts, in the order raised. */
    var events: seq<Event>

    /** Starts the 30-minute timer and sends the first request. */
    constructor (hashCode: string, zone: TimeZone)
      ensures this.hashCode == hashCode && this.zone == zone
      ensures timerRunning && currentUsage == None
      ensures requests == [hashCode] && events == []
    {
      this.hashCode := hashCode;
      this.zone := zone;
      currentUsage := None;
      timerRunning := true;
      requests := [hashCode];
      events := [];
    }

    /** Replaces any timer by a new running one. */
    method SetupAutoFetch()
      modifies this`timerRunning
      ensures timerRunning
    {
      StopAutoFetch();
      timerRunning := true;
    }

    /** Stops and drops the timer if there is one. */
    method StopAutoFetch()
      modifies this`timerRunning
      ensures !timerRunning
      ensures !old(timerRunning) ==> unchanged(this)
    {
      if timerRunning {
        timerRunning := false;
      }
    }

    method Dispose()
      modifies this`timerRunning
      ensures !timerRunning
      ensures !old(timerRunning) ==> unchanged(this)
    {
      StopAutoFetch();
    }

    /** Sends one request for this checker's hash code. */
    method UpdateUsageInformation()
      modifies this`requests
      ensures requests == old(requests) + [hashCode]
    {
      requests := requests + [hashCode];
    }

    /** The timer fires only while it exists. */
    method TimerElapsed()
      requires timerRunning
      modifies this`requests
      ensures requests == old(requests) + [hashCode]
    {
      UpdateUsageInformation();
    }

    /** A request completes: the success or failure callback runs. */
    method RequestCompleted(resp: RestResponse)
      modifies this`currentUsage, this`events
      ensures currentUsage == Fetch(old(currentUsage), resp, zone).cache
      ensures events == old(events) + Fetch(old(currentUsage), resp, zone).raised
      ensures !TransportSucceeded(resp) ==> currentUsage == old(currentUsage)
      ensures TransportSucceeded(resp) && resp.data.response != "Valid" ==> currentUsage == None
    {
      if !TransportSucceeded(resp) {
        var message := if resp.errorMessage.Some? then resp.errorMessage.value else "";
        events := events + [ErrorAlert(AlertText(message))];
      } else {
        var created := CreateUsageInformation(resp.data, zone);
        if created.Ok? {
          if created.value.Some? {
            currentUsage := created.value;
          } else {
            currentUsage := None;
            events := events + [ErrorAlert(AlertText(InvalidHashCode))];
          }
          events := events + [UsageUpdated(currentUsage)];
        }
      }
    }
  }
}
