/** The configuration record read from mac2mqtt.yaml and the checks and
    defaults getConfig applies to it. A key missing from the YAML file
    arrives here as the zero value ("" or 0). */
module Config {
  import opened Results

  datatype Config = Config(
    mqttIp: string,
    port: string,
    user: string,
    password: string,
    volumeInterval: int,
    batteryInterval: int,
    cpuInterval: int,
    memoryInterval: int,
    uptimeInterval: int,
    publicIpInterval: int,
    diskInterval: int,
    mediaInterval: int)

  /** The eight polling intervals, in seconds. */
  datatype IntervalKind = Volume | Battery | Cpu | Memory | Uptime | PublicIp | Disk | Media

  function Interval(c: Config, k: IntervalKind): int {
    match k
    case Volume => c.volumeInterval
    case Battery => c.batteryInterval
    case Cpu => c.cpuInterval
    case Memory => c.memoryInterval
    case Uptime => c.uptimeInterval
    case PublicIp => c.publicIpInterval
    case Disk => c.diskInterval
    case Media => c.mediaInterval
  }

  /** The interval used when the file gives none. */
  function DefaultInterval(k: IntervalKind): (d: int)
    ensures d > 0
  {
    match k
    case Volume => 5
    case Battery => 60
    case Cpu => 10
    case Memory => 10
    case Uptime => 60
    case PublicIp => 300
    case Disk => 60
    case Media => 5
  }

  /** The four required connection settings, in the order they are checked,
      with the YAML key each error message names. */
  const RequiredKeys: seq<string> := ["mqtt_ip", "mqtt_port", "mqtt_user", "mqtt_password"]

  function Required(c: Config, index: nat): string
    requires index < 4
  {
    if index == 0 then c.mqttIp
    else if index == 1 then c.port
    else if index == 2 then c.user
    else c.password
  }

  /** log.Fatal("Must specify <key> in mac2mqtt.yaml"). */
  datatype ConfigError = MustSpecify(key: string)

  /** The interval that replaces a zero one. */
  function WithDefault(value: int, k: IntervalKind): int {
    if value == 0 then DefaultInterval(k) else value
  }

  function ApplyDefaults(c: Config): Config {
    c.(volumeInterval := WithDefault(c.volumeInterval, Volume),
       batteryInterval := WithDefault(c.batteryInterval, Battery),
       cpuInterval := WithDefault(c.cpuInterval, Cpu),
       memoryInterval := WithDefault(c.memoryInterval, Memory),
       uptimeInterval := WithDefault(c.uptimeInterval, Uptime),
       publicIpInterval := WithDefault(c.publicIpInterval, PublicIp),
       diskInterval := WithDefault(c.diskInterval, Disk),
       mediaInterval := WithDefault(c.mediaInterval, Media))
  }

  /** getConfig after the file has been read and unmarshalled: the first empty
      required setting is fatal; otherwise every zero interval takes its
      default, every nonzero interval and every string is kept. */
  function GetConfig(c: Config): (r: Result<Config, ConfigError>)
    ensures r.Failure? <==> exists i :: 0 <= i < 4 && Required(c, i) == ""
    ensures r.Failure? ==>
      exists i :: 0 <= i < 4 && Required(c, i) == "" && r.error == MustSpecify(RequiredKeys[i])
        && forall j :: 0 <= j < i ==> Required(c, j) != ""
    ensures r.Success? ==>
      && r.value.mqttIp == c.mqttIp && r.value.port == c.port
      && r.value.user == c.user && r.value.password == c.password
    ensures r.Success? ==> forall k :: Interval(c, k) != 0 ==> Interval(r.value, k) == Interval(c, k)
    ensures r.Success? ==> forall k :: Interval(c, k) == 0 ==> Interval(r.value, k) == DefaultInterval(k)
  {
    if c.mqttIp == "" then
      assert Required(c, 0) == "";
      Failure(MustSpecify("mqtt_ip"))
    else if c.port == "" then
      assert Required(c, 1) == "";
      Failure(MustSpecify("mqtt_port"))
    else if c.user == "" then
      assert Required(c, 2) == "";
      Failure(MustSpecify("mqtt_user"))
    else if c.password == "" then
      assert Required(c, 3) == "";
      Failure(MustSpecify("mqtt_password"))
    else
      Success(ApplyDefaults(c))
  }

  /** A configuration getConfig accepted is accepted again unchanged. */
  lemma GetConfigIdempotent(c: Config)
    requires GetConfig(c).Success?
    ensures GetConfig(GetConfig(c).value) == GetConfig(c)
  {
    var r := GetConfig(c).value;
    assert forall k :: Interval(r, k) != 0;
  }

  /** No interval is zero after getConfig, and none becomes negative unless the file said so. */
  lemma GetConfigIntervalsNonzero(c: Config, k: IntervalKind)
    requires GetConfig(c).Success?
    ensures Interval(GetConfig(c).value, k) != 0
    ensures Interval(c, k) >= 0 ==> Interval(GetConfig(c).value, k) > 0
  {
  }
}
