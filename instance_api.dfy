/** The endpoints the later backend adds to the catalog: `GET /health` and
    `GET /instance`, which reports an instance descriptor captured once at
    startup. The GUID text, the machine name and the clock readings are
    parameters; times are .NET ticks. */
module InstanceApi {
  import opened Results
  import Uptime

  /** The per-process descriptor bound once at startup. */
  datatype InstanceDescriptor = InstanceDescriptor(instanceId: string, hostname: string, startupTime: int)

  /** `record InstanceInfo(string InstanceId, string Hostname, DateTime StartupTime, string Uptime)`. */
  datatype InstanceInfo = InstanceInfo(instanceId: string, hostname: string, startupTime: int, uptime: string)

  /** The anonymous `{ status, timestamp }` object of `GET /health`. */
  datatype Health = Health(status: string, timestamp: int)

  predicate IsLowerHex(c: char)
  {
    ('0' <= c <= '9') || ('a' <= c <= 'f')
  }

  /** The shape of `Guid.ToString("N")`: 32 lower-case hexadecimal digits. */
  predicate IsGuidN(s: string)
  {
    |s| == 32 && forall i :: 0 <= i < |s| ==> IsLowerHex(s[i])
  }

  /** Startup: the instance id is the first eight characters of the GUID's
      "N" text; the host name and the startup time are kept as given. */
  function Startup(guidN: string, machineName: string, utcNow: int): (d: InstanceDescriptor)
    requires IsGuidN(guidN)
    ensures |d.instanceId| == 8 && d.instanceId <= guidN
    ensures forall i :: 0 <= i < |d.instanceId| ==> IsLowerHex(d.instanceId[i])
    ensures d.hostname == machineName && d.startupTime == utcNow
  {
    InstanceDescriptor(guidN[..8], machineName, utcNow)
  }

  /** `GET /health`: always 200, status "healthy" and the current time. */
  function GetHealth(utcNow: int): (r: HttpResult<Health>)
    ensures r.Ok? && r.value.status == "healthy" && r.value.timestamp == utcNow
  {
    Ok(Health("healthy", utcNow))
  }

  /** `GET /instance`: always 200, with the startup descriptor and the
      uptime `utcNow - startupTime` written as `HH:MM:SS`. */
  function GetInstance(d: InstanceDescriptor, utcNow: int): (r: HttpResult<InstanceInfo>)
    requires utcNow >= d.startupTime
    ensures r.Ok?
    ensures r.value.instanceId == d.instanceId && r.value.hostname == d.hostname
    ensures r.value.startupTime == d.startupTime
    ensures |r.value.uptime| == 8 && r.value.uptime[2] == ':' && r.value.uptime[5] == ':'
    ensures forall i :: 0 <= i < 8 && i != 2 && i != 5 ==> Uptime.IsDigit(r.value.uptime[i])
    ensures var c := Uptime.Components(utcNow - d.startupTime);
      && c.hours < 24 && c.minutes < 60 && c.seconds < 60
      && Uptime.TwoDigitValue(r.value.uptime[0], r.value.uptime[1]) == c.hours
      && Uptime.TwoDigitValue(r.value.uptime[3], r.value.uptime[4]) == c.minutes
      && Uptime.TwoDigitValue(r.value.uptime[6], r.value.uptime[7]) == c.seconds
    ensures Uptime.ParseClock(r.value.uptime)
              == Uptime.WholeSeconds(utcNow - d.startupTime) % Uptime.SecondsPerDay
  {
    Uptime.RoundTrip(utcNow - d.startupTime);
    Ok(InstanceInfo(d.instanceId, d.hostname, d.startupTime, Uptime.Format(utcNow - d.startupTime)))
  }

  /** Two `GET /instance` requests of one process report the same id, host
      name and startup time. */
  lemma InstanceStableAcrossRequests(d: InstanceDescriptor, t1: int, t2: int)
    requires t1 >= d.startupTime && t2 >= d.startupTime
    ensures GetInstance(d, t1).value.instanceId == GetInstance(d, t2).value.instanceId
    ensures GetInstance(d, t1).value.hostname == GetInstance(d, t2).value.hostname
    ensures GetInstance(d, t1).value.startupTime == GetInstance(d, t2).value.startupTime
  {
  }

  /** A request exactly one day later reports exactly the same instance
      information: the hours of the uptime wrap every 24 hours. */
  lemma InstanceRepeatsNextDay(d: InstanceDescriptor, utcNow: int)
    requires utcNow >= d.startupTime
    ensures GetInstance(d, utcNow + Uptime.TicksPerDay) == GetInstance(d, utcNow)
  {
    Uptime.OneDayLater(utcNow - d.startupTime);
    assert (utcNow + Uptime.TicksPerDay) - d.startupTime == (utcNow - d.startupTime) + Uptime.TicksPerDay;
  }
}
