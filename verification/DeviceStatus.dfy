/** The logical on/off status of a producer node: the status resource with its warm-up timer, and
    the telemetry that reflects it. Times are milliseconds. */
module DeviceStatus {
  import opened Common

  /** `device_on`, `device_starting`, and when the start-up timer is due, if it is running. */
  datatype Device = Device(on: bool, starting: bool, timer: Option<int>)

  const BOOTED_OFF := Device(false, false, None)

  /** What is compiled into one node type: its simulation ranges, how many publishes in a hundred
      inject a fault, and its warm-up time, 0 for none. */
  datatype Config = Config(vBase: nat, vRange: nat, iBase: nat, iRange: nat, injectPercent: nat, startupDelayMs: nat)

  const DIESEL := Config(220, 11, 5, 11, 0, 40000)

  datatype Reply = SaysOn | SaysOff | SaysStarting | BadRequest

  datatype Request = TurnOn | TurnOff | Invalid

  function RequestOf(payload: string): Request {
    if "off" <= payload then TurnOff
    else if "on" <= payload then TurnOn
    else Invalid
  }

  function PutStatus(d: Device, c: Config, payload: string, now: int): (Device, Reply) {
    match RequestOf(payload)
    case Invalid => (d, BadRequest)
    case TurnOff =>
      (if c.startupDelayMs > 0 then Device(false, false, None) else d.(on := false), SaysOff)
    case TurnOn =>
      if c.startupDelayMs == 0 then (d.(on := true), SaysOn)
      else if !d.on && !d.starting then (Device(false, true, Some(now + c.startupDelayMs)), SaysStarting)
      else (d, if d.on then SaysOn else SaysStarting)
  }

  /** The timer callback; the timer is then no longer running. */
  function StartupComplete(d: Device): Device { Device(true, false, None) }

  /** What a GET answers. */
  function StatusReply(d: Device): Reply {
    if d.on then SaysOn else if d.starting then SaysStarting else SaysOff
  }

  lemma RequestOfBody(payload: string)
    ensures RequestOf(payload) == TurnOff <==>
            |payload| >= 3 && payload[0] == 'o' && payload[1] == 'f' && payload[2] == 'f'
    ensures RequestOf(payload) == TurnOn <==> |payload| >= 2 && payload[0] == 'o' && payload[1] == 'n'
  {
    if |payload| >= 3 && payload[0] == 'o' && payload[1] == 'f' && payload[2] == 'f' {
      assert payload[..3] == "off";
    }
    if |payload| >= 2 && payload[0] == 'o' && payload[1] == 'n' {
      assert payload[..2] == "on";
    }
  }

  /** A PUT is answered by the status that the device then has, a GET's answer; any body but "on..." and
      "off..." is refused without change. */
  lemma ReplyIsStatus(d: Device, c: Config, payload: string, now: int)
    requires c.startupDelayMs == 0 ==> !d.starting
    ensures var (d', reply) := PutStatus(d, c, payload, now);
            if RequestOf(payload) == Invalid then d' == d && reply == BadRequest else reply == StatusReply(d')
  {
  }

  // ---------- telemetry ----------

  /** The random numbers drawn for one publish. */
  datatype Draw = Draw(v: nat, vFrac: nat, i: nat, iFrac: nat, fault: nat)

  datatype Status = ON | STARTING | OFF

  datatype Telemetry = Telemetry(v: real, i: real, anomaly: bool, status: Status) {
    function Power(): real { v * i }
  }

  /** The exported decision tree: is class 1 the likelier one? */
  predicate DetectAnomaly(v: real, i: real) {
    if i <= 72.90320587158203 then
      if v <= 0.5086576044559479 then i <= 19.780384063720703 else false
    else if i <= 83.65932083129883 then v <= 0.07334069348871708
    else true
  }

  function Tenth(whole: nat, frac: nat): real { whole as real + frac as real / 10.0 }

  predicate Injects(d: Device, c: Config, r: Draw) { d.on && r.fault % 100 < c.injectPercent }

  function TelemetryOf(d: Device, c: Config, r: Draw): Telemetry
    requires c.vRange > 0 && c.iRange > 0
  {
    var status := if d.on then ON else if d.starting then STARTING else OFF;
    if Injects(d, c, r) then
      Telemetry(Tenth(c.vBase / 4, r.vFrac % 10), Tenth(c.iBase * 3 + r.i % c.iRange, r.iFrac % 10), true, status)
    else if d.on then
      var v, i := Tenth(c.vBase + r.v % c.vRange, r.vFrac % 10), Tenth(c.iBase + r.i % c.iRange, r.iFrac % 10);
      Telemetry(v, i, DetectAnomaly(v, i), status)
    else Telemetry(0.0, 0.0, false, status)
  }

  /** Publishing an anomaly shuts the device down, after the message has left. */
  function AfterPublish(d: Device, t: Telemetry): Device {
    if t.anomaly then d.(on := false) else d
  }

  /** The anomalous readings, as three boxes of voltage and current. */
  lemma AnomalyBoxes(v: real, i: real)
    ensures DetectAnomaly(v, i) <==>
            || (v <= 0.5086576044559479 && i <= 19.780384063720703)
            || (v <= 0.07334069348871708 && 72.90320587158203 < i)
            || 83.65932083129883 < i
  {
  }

  /** What a message says of the device: its status, zeros unless it is on, and readings within the configured
      ranges, or, for an injected fault, a quarter of the voltage and three times the current. It reports an
      anomaly exactly when the device is on and a fault was injected or its readings lie in the boxes. */
  lemma MessageTells(d: Device, c: Config, r: Draw)
    requires c.vRange > 0 && c.iRange > 0
    ensures var t := TelemetryOf(d, c, r);
            var fault := r.fault % 100 < c.injectPercent;
            && (t.status == ON <==> d.on) && (t.status == STARTING <==> !d.on && d.starting)
            && (!d.on ==> t.v == 0.0 && t.i == 0.0 && !t.anomaly)
            && (d.on ==> (t.anomaly <==> fault || DetectAnomaly(t.v, t.i)))
            && (d.on && !fault ==> c.vBase as real <= t.v < (c.vBase + c.vRange) as real
                                   && c.iBase as real <= t.i < (c.iBase + c.iRange) as real)
            && (d.on && fault ==> (c.vBase / 4) as real <= t.v < (c.vBase / 4 + 1) as real
                                  && (c.iBase * 3) as real <= t.i < (c.iBase * 3 + c.iRange) as real)
  {
    hide DetectAnomaly;
    TenthInRange(c.vBase + r.v % c.vRange, r.vFrac % 10);
    TenthInRange(c.iBase + r.i % c.iRange, r.iFrac % 10);
    TenthInRange(c.vBase / 4, r.vFrac % 10);
    TenthInRange(c.iBase * 3 + r.i % c.iRange, r.iFrac % 10);
  }

  lemma TenthInRange(whole: nat, frac: nat)
    requires frac < 10
    ensures whole as real <= Tenth(whole, frac) < (whole + 1) as real
  {
  }

  // ---------- the firmware ----------

  class DeviceNode {
    const config: Config
    var deviceOn: bool
    var deviceStarting: bool
    var startupTimer: Option<int>

    constructor (config: Config, defaultOn: bool)
      ensures Contents() == Device(defaultOn, false, None)
      ensures this.config == config
    {
      this.config := config;
      deviceOn, deviceStarting, startupTimer := defaultOn, false, None;
    }

    function Contents(): Device
      reads this
    {
      Device(deviceOn, deviceStarting, startupTimer)
    }

    method Put(payload: string, now: int) returns (reply: Reply)
      modifies this
      ensures (Contents(), reply) == PutStatus(old(Contents()), config, payload, now)
    {
      if |payload| <= 0 {
        return BadRequest;
      }
      if |payload| >= 3 && payload[..3] == "off" {
        if config.startupDelayMs > 0 {
          startupTimer := None;
          deviceStarting := false;
        }
        deviceOn := false;
        reply := SaysOff;
      } else if |payload| >= 2 && payload[..2] == "on" {
        if config.startupDelayMs == 0 {
          deviceOn := true;
          reply := SaysOn;
        } else if !deviceOn && !deviceStarting {
          deviceStarting := true;
          startupTimer := Some(now + config.startupDelayMs);
          reply := SaysStarting;
        } else {
          reply := if deviceOn then SaysOn else SaysStarting;
        }
      } else {
        reply := BadRequest;
      }
    }

    method OnStartupTimer()
      modifies this
      ensures Contents() == StartupComplete(old(Contents()))
    {
      startupTimer := None;
      deviceStarting := false;
      deviceOn := true;
    }

    method PublishTelemetry(r: Draw) returns (t: Telemetry)
      requires config.vRange > 0 && config.iRange > 0
      modifies this
      ensures t == TelemetryOf(old(Contents()), config, r)
      ensures Contents() == AfterPublish(old(Contents()), t)
    {
      var v, i := 0.0, 0.0;
      if deviceOn {
        v := Tenth(config.vBase + r.v % config.vRange, r.vFrac % 10);
        i := Tenth(config.iBase + r.i % config.iRange, r.iFrac % 10);
      }
      var anomaly := false;
      if deviceOn && r.fault % 100 < config.injectPercent {
        v := Tenth(config.vBase / 4, r.vFrac % 10);
        i := Tenth(config.iBase * 3 + r.i % config.iRange, r.iFrac % 10);
        anomaly := true;
      } else if deviceOn {
        anomaly := DetectAnomaly(v, i);
      }
      t := Telemetry(v, i, anomaly, if deviceOn then ON else if deviceStarting then STARTING else OFF);
      if anomaly {
        deviceOn := false;
      }
    }
  }
}
