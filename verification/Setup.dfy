/** The setup of the GUI: devices whose settings follow a table of commands, and its JSON form. */
module Setup {
  import opened Packets

  const DEFAULT_PORT := 54321
  const BUS_COUNT: nat := 8

  /** Values as json.loads() returns them; floating point numbers are taken as real ones. */
  datatype Json =
    | Null
    | Bool(b: bool)
    | Int(n: int)
    | Float(r: real)
    | Str(s: string)
    | Arr(items: seq<Json>)
    | Obj(fields: map<string, Json>)

  type Dict = map<string, Json>

  // ---- the command tables ----

  datatype Command = Command(key: string, defaults: Dict)

  const COMMON_SETTINGS: seq<Command> := [
    Command("data_dest", map["address" := Str("0.0.0.0"), "port" := Int(54321)]),
    Command("timing", map["role" := Str("Master"), "term" := Str("On"), "ext_sync" := Bool(false)])]

  const MDLL_SETTINGS: seq<Command> := [
    Command("thresholds", map["threshold_x" := Int(0), "threshold_y" := Int(0), "threshold_anode" := Int(0)]),
    Command("spectrum", map["shift_x" := Int(0), "shift_y" := Int(0), "scale_x" := Int(0), "scale_y" := Int(0)]),
    Command("energy_window", map["lower_threshold" := Int(0), "upper_threshold" := Int(255)]),
    Command("timing_window", map["t_sum_limit_x_low" := Int(0), "t_sum_limit_x_high" := Int(1024),
                                 "t_sum_limit_y_low" := Int(0), "t_sum_limit_y_high" := Int(1024)]),
    Command("pulser", map["enable" := Bool(false), "amplitude" := Int(0), "position" := Str("Middle")])]

  const MCPD_SETTINGS: seq<Command> := []

  const MPSD_SETTINGS: seq<Command> := [
    Command("gain", map["gain0" := Int(0), "gain1" := Int(0), "gain2" := Int(0), "gain3" := Int(0),
                        "gain4" := Int(0), "gain5" := Int(0), "gain6" := Int(0), "gain7" := Int(0)]),
    Command("threshold", map["threshold" := Int(0)]),
    Command("mode", map["mode" := Str("Position")]),
    Command("tx_format", map["tx_format" := Str("0x0000")])]

  function SettingsFor(deviceType: Json): seq<Command> {
    COMMON_SETTINGS + if deviceType == Str("mdll") then MDLL_SETTINGS else MCPD_SETTINGS
  }

  function Defaults(commands: seq<Command>): map<string, Dict> {
    if commands == [] then map[]
    else Defaults(commands[..|commands| - 1])[commands[|commands| - 1].key := commands[|commands| - 1].defaults]
  }

  /** The defaults of a key are those of the last command with that key, and there are no others. */
  lemma {:induction false} DefaultsAreTheLast(commands: seq<Command>, i: nat)
    requires i < |commands| && forall j | i < j < |commands| :: commands[j].key != commands[i].key
    ensures commands[i].key in Defaults(commands) && Defaults(commands)[commands[i].key] == commands[i].defaults
    ensures forall k :: k in Defaults(commands) ==> exists j :: 0 <= j < |commands| && commands[j].key == k
  {
    var n := |commands| - 1;
    var before := commands[..n];
    if n > 0 {
      if i < n {
        DefaultsAreTheLast(before, i);
      } else {
        DefaultsAreTheLast(before, n - 1);
      }
      forall k | k in Defaults(commands)
        ensures exists j :: 0 <= j < |commands| && commands[j].key == k
      {
        if k != commands[n].key {
          var j :| 0 <= j < |before| && before[j].key == k;
          assert commands[j].key == k;
        }
      }
    }
  }

  // ---- merge_settings ----

  /** v.items() raises for a value that is no dict, but only known keys are looked at. */
  predicate Mergeable(defaults: map<string, Dict>, values: Dict) {
    forall k | k in values && k in defaults :: values[k].Obj?
  }

  function Updated(defaults: Dict, known: Dict): Dict {
    map a | a in defaults :: if a in known then known[a] else defaults[a]
  }

  function MergedWith(defaults: map<string, Dict>, values: Dict): Dict
    requires Mergeable(defaults, values)
  {
    map k | k in defaults :: Obj(if k in values then Updated(defaults[k], values[k].fields) else defaults[k])
  }

  function Merge(commands: seq<Command>, values: Dict): Option<Dict> {
    var defaults := Defaults(commands);
    if Mergeable(defaults, values) then Some(MergedWith(defaults, values)) else None
  }

  /** merge_settings: None stands for the exception. */
  method MergeSettings(commands: seq<Command>, values: Dict) returns (result: Option<Dict>)
    ensures result == Merge(commands, values)
  {
    var defaults := Defaults(commands);
    var merged := defaults;
    var todo := values.Keys;
    while todo != {}
      invariant todo <= values.Keys && merged.Keys == defaults.Keys
      invariant forall k | k in values && k in defaults && k !in todo :: values[k].Obj?
      invariant forall k | k in defaults ::
        merged[k] == if k in values && k !in todo then Updated(defaults[k], values[k].fields) else defaults[k]
      decreases |todo|
    {
      var key :| key in todo;
      if key in merged {
        if !values[key].Obj? {
          return None;
        }
        merged := merged[key := Updated(merged[key], values[key].fields)];
      }
      todo := todo - {key};
    }
    var r: Dict := map k | k in merged :: Obj(merged[k]);
    assert r == MergedWith(defaults, values);
    return Some(r);
  }

  /** Exactly the keys of the commands, each with exactly its arguments. */
  ghost predicate Shaped(commands: seq<Command>, settings: Dict) {
    var defaults := Defaults(commands);
    && settings.Keys == defaults.Keys
    && forall k | k in settings :: settings[k].Obj? && settings[k].fields.Keys == defaults[k].Keys
  }

  /** What merge_settings returns has the shape of the commands, and values of that shape,
      only those, are returned unchanged. */
  lemma MergeIsIdentityIff(commands: seq<Command>, values: Dict)
    ensures Merge(commands, values).Some? ==> Shaped(commands, Merge(commands, values).value)
    ensures Merge(commands, values) == Some(values) <==> Shaped(commands, values)
  {
    hide Defaults;
    var defaults := Defaults(commands);
    if Shaped(commands, values) {
      var merged := MergedWith(defaults, values);
      forall k | k in values
        ensures merged[k] == values[k]
      {
        assert Updated(defaults[k], values[k].fields) == values[k].fields;
      }
      assert merged == values;
    }
  }

  /** The values given for an argument of a command: none when the key or the argument is missing. */
  predicate IsGiven(values: Dict, key: string, arg: string) {
    key in values && values[key].Obj? && arg in values[key].fields
  }

  /** Every argument of every command, and nothing else, has the value given for it, and the
      default if none is given, whichever others are missing or unknown. The exception comes
      exactly when a known key holds something else than a dict. */
  lemma MergedValues(commands: seq<Command>, values: Dict)
    ensures Merge(commands, values).None? <==>
      exists k :: k in values && k in Defaults(commands) && !values[k].Obj?
    ensures Merge(commands, values).Some? ==> KeepsGiven(commands, values, Merge(commands, values).value)
  {
    hide Defaults;
    if !Mergeable(Defaults(commands), values) {
      assert exists k :: k in values && k in Defaults(commands) && !values[k].Obj?;
    }
  }

  ghost predicate KeepsGiven(commands: seq<Command>, values: Dict, merged: Dict) {
    && (forall k :: k in merged <==> k in Defaults(commands))
    && forall k | k in merged ::
         && merged[k].Obj?
         && (forall a :: a in merged[k].fields <==> a in Defaults(commands)[k])
         && forall a | a in merged[k].fields ::
              merged[k].fields[a] == if IsGiven(values, k, a) then values[k].fields[a] else Defaults(commands)[k][a]
  }

  // ---- devices ----

  datatype Mpsd = Mpsd(present: bool, settings: Dict)

  datatype Device = Device(name: Json, address: Json, mcpdId: int, port: int, enabled: bool,
                           deviceType: Json, settings: Dict, mpsds: seq<Mpsd>)

  function DefaultMpsd(): (m: Mpsd)
    ensures NormalMpsd(m)
  {
    assert Mergeable(Defaults(MPSD_SETTINGS), map[]);
    MergeIsIdentityIff(MPSD_SETTINGS, map[]);
    Mpsd(false, Merge(MPSD_SETTINGS, map[]).value)
  }

  /** mpsds + 8 new ones, cut to 8; none for other device types. */
  function AdaptedMpsds(deviceType: Json, mpsds: seq<Mpsd>): seq<Mpsd> {
    if deviceType == Str("mcpd") then (mpsds + seq(BUS_COUNT, _ => DefaultMpsd()))[..BUS_COUNT] else []
  }

  function Normalized(d: Device): Option<Device> {
    match Merge(SettingsFor(d.deviceType), d.settings)
    case None => None
    case Some(settings) => Some(d.(settings := settings, mpsds := AdaptedMpsds(d.deviceType, d.mpsds)))
  }

  ghost predicate NormalMpsd(m: Mpsd) {
    Shaped(MPSD_SETTINGS, m.settings)
  }

  ghost predicate AllNormalMpsds(mpsds: seq<Mpsd>) {
    forall i | 0 <= i < |mpsds| :: NormalMpsd(mpsds[i])
  }

  ghost predicate NormalForm(d: Device) {
    && Shaped(SettingsFor(d.deviceType), d.settings)
    && |d.mpsds| == (if d.deviceType == Str("mcpd") then BUS_COUNT else 0)
    && AllNormalMpsds(d.mpsds)
  }

  class DeviceConfig {
    const name: Json
    var address: Json
    var mcpdId: int
    var port: int
    var enabled: bool
    var deviceType: Json
    var settings: Dict
    var mpsds: seq<Mpsd>

    constructor (d: Device)
      ensures View() == d
    {
      name, address, mcpdId, port, enabled := d.name, d.address, d.mcpdId, d.port, d.enabled;
      deviceType, settings, mpsds := d.deviceType, d.settings, d.mpsds;
    }

    function View(): Device
      reads this
    {
      Device(name, address, mcpdId, port, enabled, deviceType, settings, mpsds)
    }

    /** ok is false when merge_settings raises; the device is then as before. */
    method Normalize() returns (ok: bool)
      modifies this
      ensures ok <==> Normalized(old(View())).Some?
      ensures View() == if ok then Normalized(old(View())).value else old(View())
    {
      hide Merge, Defaults;
      var merged := MergeSettings(SettingsFor(deviceType), settings);
      match merged {
        case None => return false;
        case Some(s) => settings := s;
      }
      if deviceType == Str("mcpd") {
        var extra := seq(BUS_COUNT, _ => DefaultMpsd());
        mpsds := (mpsds + extra)[..BUS_COUNT];
      } else {
        mpsds := [];
      }
      ok := true;
    }
  }

  /** normalize() brings every device with sound MPSDs into normal form, and leaves exactly
      the devices in normal form alone; so doing it twice is doing it once. */
  lemma NormalizeIsIdentityIff(d: Device)
    requires AllNormalMpsds(d.mpsds)
    ensures Normalized(d).Some? ==> NormalForm(Normalized(d).value)
    ensures Normalized(d) == Some(d) <==> NormalForm(d)
  {
    hide Merge, Shaped, NormalMpsd;
    MergeIsIdentityIff(SettingsFor(d.deviceType), d.settings);
    var mpsds := AdaptedMpsds(d.deviceType, d.mpsds);
    assert AllNormalMpsds(mpsds);
    if NormalForm(d) {
      assert mpsds == d.mpsds;
    }
  }

  lemma NormalizeIsIdempotent(d: Device)
    requires Normalized(d).Some?
    ensures Normalized(Normalized(d).value) == Normalized(d)
  {
    hide Merge, Shaped;
    var e := Normalized(d).value;
    MergeIsIdentityIff(SettingsFor(d.deviceType), d.settings);
    MergeIsIdentityIff(SettingsFor(d.deviceType), e.settings);
    assert AdaptedMpsds(d.deviceType, e.mpsds) == e.mpsds;
  }

  /** normalize() keeps every value given for an argument of the device type and fills in the
      others; it keeps the MPSDs there are, up to eight of an MCPD, and adds new ones behind them.
      Nothing else changes. */
  lemma NormalizeKeeps(d: Device)
    requires Normalized(d).Some?
    ensures
      var e := Normalized(d).value;
      && KeepsGiven(SettingsFor(d.deviceType), d.settings, e.settings)
      && e == d.(settings := e.settings, mpsds := e.mpsds)
      && |e.mpsds| == (if d.deviceType == Str("mcpd") then 8 else 0)
      && forall i | 0 <= i < |e.mpsds| :: e.mpsds[i] == if i < |d.mpsds| then d.mpsds[i] else DefaultMpsd()
  {
    hide Merge, KeepsGiven;
    MergedValues(SettingsFor(d.deviceType), d.settings);
  }

  /** A new MPSD is absent and has the default of every command. */
  lemma DefaultMpsdValues()
    ensures !DefaultMpsd().present && KeepsGiven(MPSD_SETTINGS, map[], DefaultMpsd().settings)
  {
    MergedValues(MPSD_SETTINGS, map[]);
  }

  // ---- changing the device type ----

  /** The GUI assigns device_type and normalizes. */
  function Retyped(d: Device, deviceType: Json): Option<Device> {
    Normalized(d.(deviceType := deviceType))
  }

  function RetypedAll(d: Device, types: seq<Json>): Option<Device> {
    if types == [] then Some(d)
    else match RetypedAll(d, types[..|types| - 1])
         case None => None
         case Some(e) => Retyped(e, types[|types| - 1])
  }

  ghost predicate IsCommon(key: string) {
    key in Defaults(COMMON_SETTINGS)
  }

  lemma DefaultsOfConcat(a: seq<Command>, b: seq<Command>)
    ensures Defaults(a + b) == Defaults(a) + Defaults(b)
  {
    if b == [] {
      assert a + b == a;
    } else {
      var n := |b| - 1;
      assert (a + b)[..|a + b| - 1] == a + b[..n];
      DefaultsOfConcat(a, b[..n]);
    }
  }

  lemma MdllKeys(key: string)
    ensures key in Defaults(MDLL_SETTINGS) <==>
            key == "thresholds" || key == "spectrum" || key == "energy_window" || key == "timing_window"
            || key == "pulser"
  {
    var c := MDLL_SETTINGS;
    assert c[..4][..3] == c[..3] && c[..3][..2] == c[..2] && c[..2][..1] == c[..1] && c[..1][..0] == [];
    assert Defaults(c[..1]).Keys == {"thresholds"};
    assert Defaults(c[..2]).Keys == {"thresholds", "spectrum"};
    assert Defaults(c[..3]).Keys == {"thresholds", "spectrum", "energy_window"};
    assert Defaults(c[..4]).Keys == {"thresholds", "spectrum", "energy_window", "timing_window"};
  }

  lemma CommonKeys(key: string)
    ensures IsCommon(key) <==> key == "data_dest" || key == "timing"
  {
    var c := COMMON_SETTINGS;
    assert c[..1][..0] == [];
    assert Defaults(c[..1]).Keys == {"data_dest"};
  }

  /** The tables share no key, so each type has the common settings unaltered. */
  lemma CommonDefaults(deviceType: Json, key: string)
    ensures IsCommon(key) ==>
              (key in Defaults(SettingsFor(deviceType))
               && Defaults(SettingsFor(deviceType))[key] == Defaults(COMMON_SETTINGS)[key])
    ensures key in Defaults(SettingsFor(deviceType)) <==>
            IsCommon(key) || (deviceType == Str("mdll") && key in Defaults(MDLL_SETTINGS))
  {
    hide Defaults;
    DefaultsOfConcat(COMMON_SETTINGS, MDLL_SETTINGS);
    assert COMMON_SETTINGS + MCPD_SETTINGS == COMMON_SETTINGS;
    MdllKeys(key);
    CommonKeys(key);
  }

  /** One change of type: it succeeds, gives the normal form of the new type, and keeps the
      common settings and everything outside settings and mpsds. */
  lemma RetypeKeepsCommon(d: Device, deviceType: Json)
    requires NormalForm(d)
    ensures Retyped(d, deviceType).Some?
    ensures var e := Retyped(d, deviceType).value;
            && NormalForm(e) && SameIdentity(d, e) && e.deviceType == deviceType && SameCommon(d, e)
  {
    hide Defaults, Shaped, IsCommon, SettingsFor, NormalMpsd, MergedWith;
    var commands := SettingsFor(deviceType);
    NormalIsMergeable(d, commands);
    NormalizeIsIdentityIff(d.(deviceType := deviceType));
    forall key | IsCommon(key)
      ensures key in d.settings && key in MergedWith(Defaults(commands), d.settings)
      ensures MergedWith(Defaults(commands), d.settings)[key] == d.settings[key]
    {
      CommonDefaults(d.deviceType, key);
      CommonDefaults(deviceType, key);
      KeptValue(SettingsFor(d.deviceType), commands, d.settings, key);
    }
  }

  ghost predicate SameIdentity(d: Device, e: Device) {
    d.name == e.name && d.address == e.address && d.mcpdId == e.mcpdId && d.port == e.port && d.enabled == e.enabled
  }

  ghost predicate SameCommon(d: Device, e: Device) {
    forall key | IsCommon(key) :: key in d.settings && key in e.settings && e.settings[key] == d.settings[key]
  }

  lemma NormalIsMergeable(d: Device, commands: seq<Command>)
    requires NormalForm(d)
    ensures Mergeable(Defaults(commands), d.settings)
  {
    hide Defaults;
  }

  /** Merging keeps the value of a key with the same arguments in both tables. */
  lemma KeptValue(a: seq<Command>, b: seq<Command>, settings: Dict, key: string)
    requires Shaped(a, settings) && Mergeable(Defaults(b), settings)
    requires key in Defaults(a) && key in Defaults(b) && Defaults(a)[key] == Defaults(b)[key]
    ensures key in settings && key in MergedWith(Defaults(b), settings)
    ensures MergedWith(Defaults(b), settings)[key] == settings[key]
  {
    hide Defaults;
    assert key in settings.Keys;
    assert Updated(Defaults(b)[key], settings[key].fields) == settings[key].fields;
  }

  /** Any number of type changes keeps the normal form, and the common settings survive them all. */
  lemma {:induction false} CommonSettingsSurvive(d: Device, types: seq<Json>)
    requires NormalForm(d)
    ensures RetypedAll(d, types).Some?
    ensures var e := RetypedAll(d, types).value; NormalForm(e) && SameIdentity(d, e) && SameCommon(d, e)
  {
    hide NormalForm, Retyped, SettingsFor, IsCommon;
    if types == [] {
      assert SameCommon(d, d) by { NormalHasCommon(d); }
    } else {
      var n := |types| - 1;
      CommonSettingsSurvive(d, types[..n]);
      RetypeKeepsCommon(RetypedAll(d, types[..n]).value, types[n]);
    }
  }

  lemma NormalHasCommon(d: Device)
    requires NormalForm(d)
    ensures SameCommon(d, d)
  {
    RetypeKeepsCommon(d, d.deviceType);
  }

  /** The other settings do not survive: an MDLL device that was something else in between
      has the default values of the MDLL commands again, an MCPD device default MPSDs. */
  lemma DetourForgets(d: Device, other: Json)
    requires NormalForm(d) && other != d.deviceType
    ensures RetypedAll(d, [other, d.deviceType]).Some?
    ensures var e := RetypedAll(d, [other, d.deviceType]).value;
            && (forall key | key in Defaults(MDLL_SETTINGS) && d.deviceType == Str("mdll") ::
                  key in e.settings && e.settings[key] == Obj(Defaults(SettingsFor(Str("mdll")))[key]))
            && (d.deviceType == Str("mcpd") ==> forall i | 0 <= i < |e.mpsds| :: e.mpsds[i] == DefaultMpsd())
  {
    hide Defaults, Shaped, SettingsFor, NormalMpsd;
    var types := [other, d.deviceType];
    assert types[..1] == [other] && [other][..0] == [];
    RetypeKeepsCommon(d, other);
    var m := Retyped(d, other).value;
    RetypeKeepsCommon(m, d.deviceType);
    assert RetypedAll(d, []) == Some(d);
    assert RetypedAll(d, [other]) == Some(m);
    forall key | key in Defaults(MDLL_SETTINGS) && d.deviceType == Str("mdll")
      ensures key !in m.settings && key in Defaults(SettingsFor(Str("mdll")))
    {
      CommonDefaults(other, key);
      CommonDefaults(Str("mdll"), key);
      MdllKeys(key);
      CommonKeys(key);
      assert Shaped(SettingsFor(other), m.settings);
      ShapedKeys(SettingsFor(other), m.settings);
    }
  }

  lemma ShapedKeys(commands: seq<Command>, settings: Dict)
    requires Shaped(commands, settings)
    ensures settings.Keys == Defaults(commands).Keys
  {
  }

  // ---- JSON ----

  datatype Setup = Setup(dataPort: int, writeListfile: bool, listfileDir: Json, devices: seq<Device>)

  function MpsdToJson(m: Mpsd): Json {
    Obj(map["present" := Bool(m.present), "settings" := Obj(m.settings)])
  }

  function MpsdsToJson(ms: seq<Mpsd>): seq<Json> {
    if ms == [] then [] else [MpsdToJson(ms[0])] + MpsdsToJson(ms[1..])
  }

  function DeviceToJson(d: Device): Json {
    Obj(map["name" := d.name, "address" := d.address, "mcpd_id" := Int(d.mcpdId), "port" := Int(d.port),
            "enabled" := Bool(d.enabled), "device_type" := d.deviceType, "settings" := Obj(d.settings),
            "mpsds" := Arr(MpsdsToJson(d.mpsds))])
  }

  function DevicesToJson(ds: seq<Device>): seq<Json> {
    if ds == [] then [] else [DeviceToJson(ds[0])] + DevicesToJson(ds[1..])
  }

  function ToJson(s: Setup): Json {
    Obj(map["data_port" := Int(s.dataPort), "write_listfile" := Bool(s.writeListfile),
            "listfile_dir" := s.listfileDir, "devices" := Arr(DevicesToJson(s.devices))])
  }

  /** bool() of a JSON value. */
  function Truth(j: Json): bool {
    match j
    case Null => false
    case Bool(b) => b
    case Int(n) => n != 0
    case Float(r) => r != 0.0
    case Str(s) => s != ""
    case Arr(items) => items != []
    case Obj(fields) => fields != map[]
  }

  predicate IsDigit(c: char) { '0' <= c <= '9' }

  predicate IsSpace(c: char) { c == ' ' || 9 <= c as int <= 13 || 28 <= c as int <= 31 }

  /** Digits, with single underscores allowed between them. */
  function Digits(s: string): Option<nat> {
    if s == [] || !IsDigit(s[|s| - 1]) then None
    else
      var last := s[|s| - 1] as int - '0' as int;
      if |s| == 1 then Some(last)
      else
        match Digits(if s[|s| - 2] == '_' then s[..|s| - 2] else s[..|s| - 1])
        case None => None
        case Some(n) => Some(10 * n + last)
  }

  function Stripped(s: string): string {
    if s != [] && IsSpace(s[0]) then Stripped(s[1..])
    else if s != [] && IsSpace(s[|s| - 1]) then Stripped(s[..|s| - 1])
    else s
  }

  /** int() of a string of ASCII characters; None is the ValueError. */
  function ParseInt(s: string): Option<int> {
    var t := Stripped(s);
    if t == [] then None
    else if t[0] == '-' then match Digits(t[1..]) case Some(n) => Some(0 - n) case None => None
    else if t[0] == '+' then Digits(t[1..])
    else Digits(t)
  }

  function Decimal(n: nat): string {
    if n < 10 then [('0' as int + n) as char] else Decimal(n / 10) + [('0' as int + n % 10) as char]
  }

  /** int() undoes str(). */
  lemma {:induction false} IntOfDecimal(n: nat)
    ensures Digits(Decimal(n)) == Some(n)
  {
    if n >= 10 {
      IntOfDecimal(n / 10);
      var s := Decimal(n);
      assert s[..|s| - 1] == Decimal(n / 10);
    }
  }

  /** int() of a JSON value: floating point numbers are truncated towards zero. */
  function IntOf(j: Json): Option<int> {
    match j
    case Bool(b) => Some(if b then 1 else 0)
    case Int(n) => Some(n)
    case Float(r) => Some(if r >= 0.0 then r.Floor else 0 - (0.0 - r).Floor)
    case Str(s) => ParseInt(s)
    case _ => None
  }

  /** What a for loop runs over. Characters and keys are strings, which from_dict() refuses. */
  function ItemsOf(j: Json): Option<seq<Json>> {
    match j
    case Arr(items) => Some(items)
    case Str(s) => if s == "" then Some([]) else None
    case Obj(fields) => if fields == map[] then Some([]) else None
    case _ => None
  }

  function Get(d: Dict, key: string, default: Json): Json {
    if key in d then d[key] else default
  }

  function MpsdFromJson(j: Json): Option<Mpsd> {
    if !j.Obj? then None
    else
      var settings := Get(j.fields, "settings", Obj(map[]));
      if !settings.Obj? then None
      else match Merge(MPSD_SETTINGS, settings.fields)
           case None => None
           case Some(s) => Some(Mpsd(Truth(Get(j.fields, "present", Bool(false))), s))
  }

  function MpsdsFromJson(js: seq<Json>): Option<seq<Mpsd>> {
    if js == [] then Some([])
    else match (MpsdFromJson(js[0]), MpsdsFromJson(js[1..]))
         case (Some(m), Some(ms)) => Some([m] + ms)
         case _ => None
  }

  function MpsdListFromJson(j: Json): Option<seq<Mpsd>> {
    match ItemsOf(j)
    case None => None
    case Some(items) => MpsdsFromJson(items)
  }

  function DeviceFromJson(j: Json): Option<Device> {
    if !j.Obj? || "name" !in j.fields || "address" !in j.fields then None
    else
      var d := j.fields;
      var settings := Get(d, "settings", Obj(map[]));
      match (IntOf(Get(d, "mcpd_id", Int(0))), IntOf(Get(d, "port", Int(DEFAULT_PORT))),
             MpsdListFromJson(Get(d, "mpsds", Arr([]))))
      case (Some(id), Some(port), Some(mpsds)) =>
        if !settings.Obj? then None
        else Normalized(Device(d["name"], d["address"], id, port, Truth(Get(d, "enabled", Bool(true))),
                               Get(d, "device_type", Str("mcpd")), settings.fields, mpsds))
      case _ => None
  }

  function DevicesFromJson(js: seq<Json>): Option<seq<Device>> {
    if js == [] then Some([])
    else match (DeviceFromJson(js[0]), DevicesFromJson(js[1..]))
         case (Some(d), Some(ds)) => Some([d] + ds)
         case _ => None
  }

  /** Setup.from_json after json.loads(); None stands for any exception. */
  function FromJson(j: Json): Option<Setup> {
    if !j.Obj? then None
    else
      var d := j.fields;
      match (IntOf(Get(d, "data_port", Int(DEFAULT_PORT))), ItemsOf(Get(d, "devices", Arr([]))))
      case (Some(dataPort), Some(items)) =>
        (match DevicesFromJson(items)
         case None => None
         case Some(devices) =>
           Some(Setup(dataPort, Truth(Get(d, "write_listfile", Bool(true))), Get(d, "listfile_dir", Str("")), devices)))
      case _ => None
  }

  /** What is loaded for a device keeps each value that was given, whichever others are missing. */
  lemma LoadedDeviceKeeps(j: Json)
    requires DeviceFromJson(j).Some?
    ensures
      var d := DeviceFromJson(j).value;
      var f := j.fields;
      && "name" in f && "address" in f && d.name == f["name"] && d.address == f["address"]
      && d.deviceType == (if "device_type" in f then f["device_type"] else Str("mcpd"))
      && ("mcpd_id" in f ==> IntOf(f["mcpd_id"]) == Some(d.mcpdId)) && ("mcpd_id" !in f ==> d.mcpdId == 0)
      && ("port" in f ==> IntOf(f["port"]) == Some(d.port)) && ("port" !in f ==> d.port == 54321)
      && d.enabled == (if "enabled" in f then Truth(f["enabled"]) else true)
      && KeepsGiven(SettingsFor(d.deviceType), if "settings" in f then f["settings"].fields else map[], d.settings)
      && ("mpsds" !in f ==> forall i | 0 <= i < |d.mpsds| :: d.mpsds[i] == DefaultMpsd())
      && ("mpsds" in f && d.deviceType == Str("mcpd") ==>
            var given := MpsdListFromJson(f["mpsds"]).value;
            forall i | 0 <= i < 8 :: d.mpsds[i] == if i < |given| then given[i] else DefaultMpsd())
  {
    hide KeepsGiven, Merge;
    var f := j.fields;
    var d := Device(f["name"], f["address"], IntOf(Get(f, "mcpd_id", Int(0))).value,
                    IntOf(Get(f, "port", Int(DEFAULT_PORT))).value, Truth(Get(f, "enabled", Bool(true))),
                    Get(f, "device_type", Str("mcpd")), Get(f, "settings", Obj(map[])).fields,
                    MpsdListFromJson(Get(f, "mpsds", Arr([]))).value);
    assert DeviceFromJson(j) == Normalized(d);
    NormalizeKeeps(d);
  }

  /** The same for an MPSD. */
  lemma LoadedMpsdKeeps(j: Json)
    requires MpsdFromJson(j).Some?
    ensures
      var m := MpsdFromJson(j).value;
      var f := j.fields;
      && m.present == (if "present" in f then Truth(f["present"]) else false)
      && KeepsGiven(MPSD_SETTINGS, if "settings" in f then f["settings"].fields else map[], m.settings)
  {
    hide KeepsGiven, Merge;
    MergedValues(MPSD_SETTINGS, Get(j.fields, "settings", Obj(map[])).fields);
  }

  /** A device without a name or an address cannot be loaded; one with nothing else can. */
  lemma NameAndAddressSuffice(f: Dict)
    ensures "name" !in f || "address" !in f ==> DeviceFromJson(Obj(f)) == None
    ensures f.Keys == {"name", "address"} ==> DeviceFromJson(Obj(f)).Some?
  {
    if f.Keys == {"name", "address"} {
      assert "mcpd_id" !in f.Keys && "port" !in f.Keys && "enabled" !in f.Keys;
      assert "device_type" !in f.Keys && "settings" !in f.Keys && "mpsds" !in f.Keys;
      assert Mergeable(Defaults(SettingsFor(Str("mcpd"))), map[]);
      assert Merge(SettingsFor(Str("mcpd")), map[]).Some?;
    }
  }

  /** An empty setup has the default values. */
  lemma EmptySetup()
    ensures FromJson(Obj(map[])) == Some(Setup(54321, true, Str(""), []))
  {
  }

  // ---- what can be loaded ----

  /** No key of the commands holds anything but a dict. */
  ghost predicate OnlyDicts(commands: seq<Command>, values: Dict) {
    forall k | k in values && k in Defaults(commands) :: values[k].Obj?
  }

  ghost predicate MpsdLoads(j: Json) {
    && j.Obj?
    && ("settings" in j.fields ==> j.fields["settings"].Obj? && OnlyDicts(MPSD_SETTINGS, j.fields["settings"].fields))
  }

  lemma MpsdLoadsIff(j: Json)
    ensures MpsdFromJson(j).Some? <==> MpsdLoads(j)
  {
    hide Defaults;
  }

  /** The MPSDs are loaded one by one, in order, or not at all. */
  lemma {:induction false} MpsdsLoadIff(js: seq<Json>)
    ensures MpsdsFromJson(js).Some? <==> forall i | 0 <= i < |js| :: MpsdLoads(js[i])
    ensures MpsdsFromJson(js).Some? ==>
      && |MpsdsFromJson(js).value| == |js|
      && forall i | 0 <= i < |js| :: MpsdFromJson(js[i]) == Some(MpsdsFromJson(js).value[i])
  {
    hide MpsdFromJson, MpsdLoads;
    if js != [] {
      MpsdLoadsIff(js[0]);
      MpsdsLoadIff(js[1..]);
      assert forall i | 0 < i < |js| :: js[i] == js[1..][i - 1];
    }
  }

  /** A device is loaded exactly if it has a name and an address, numbers where numbers are needed, a
      list of MPSDs that can be loaded, and no command of its type without a dict. */
  ghost predicate DeviceLoads(j: Json) {
    && j.Obj? && "name" in j.fields && "address" in j.fields
    && ("mcpd_id" in j.fields ==> IntOf(j.fields["mcpd_id"]).Some?)
    && ("port" in j.fields ==> IntOf(j.fields["port"]).Some?)
    && ("settings" in j.fields ==>
          j.fields["settings"].Obj?
          && OnlyDicts(SettingsFor(if "device_type" in j.fields then j.fields["device_type"] else Str("mcpd")),
                       j.fields["settings"].fields))
    && ("mpsds" in j.fields ==>
          ItemsOf(j.fields["mpsds"]).Some? && forall m | m in ItemsOf(j.fields["mpsds"]).value :: MpsdLoads(m))
  }

  lemma DeviceLoadsIff(j: Json)
    ensures DeviceFromJson(j).Some? <==> DeviceLoads(j)
  {
    hide Defaults, SettingsFor, MpsdsFromJson, MpsdLoads, ParseInt;
    if j.Obj? {
      MpsdListLoadsIff(Get(j.fields, "mpsds", Arr([])));
    }
  }

  lemma MpsdListLoadsIff(j: Json)
    ensures MpsdListFromJson(j).Some? <==> ItemsOf(j).Some? && forall m | m in ItemsOf(j).value :: MpsdLoads(m)
  {
    hide MpsdsFromJson, MpsdLoads;
    if ItemsOf(j).Some? {
      MpsdsLoadIff(ItemsOf(j).value);
    }
  }

  lemma {:induction false} DevicesLoadIff(js: seq<Json>)
    ensures DevicesFromJson(js).Some? <==> forall i | 0 <= i < |js| :: DeviceLoads(js[i])
    ensures DevicesFromJson(js).Some? ==>
      && |DevicesFromJson(js).value| == |js|
      && forall i | 0 <= i < |js| :: DeviceFromJson(js[i]) == Some(DevicesFromJson(js).value[i])
  {
    hide DeviceFromJson, DeviceLoads;
    if js != [] {
      DeviceLoadsIff(js[0]);
      DevicesLoadIff(js[1..]);
      assert forall i | 0 < i < |js| :: js[i] == js[1..][i - 1];
    }
  }

  /** A setup is loaded exactly if all its devices are, each from its entry and in order; one device
      that cannot be loaded makes the whole setup fail. */
  lemma SetupLoadsIff(d: Dict)
    ensures FromJson(Obj(d)).Some? <==>
      && ("data_port" in d ==> IntOf(d["data_port"]).Some?)
      && ("devices" in d ==>
            ItemsOf(d["devices"]).Some? && forall j | j in ItemsOf(d["devices"]).value :: DeviceLoads(j))
    ensures FromJson(Obj(d)).Some? ==>
      var s := FromJson(Obj(d)).value;
      && ("data_port" in d ==> IntOf(d["data_port"]) == Some(s.dataPort)) && ("data_port" !in d ==> s.dataPort == 54321)
      && s.writeListfile == (if "write_listfile" in d then Truth(d["write_listfile"]) else true)
      && s.listfileDir == (if "listfile_dir" in d then d["listfile_dir"] else Str(""))
      && var items := if "devices" in d then ItemsOf(d["devices"]).value else [];
         && |s.devices| == |items|
         && forall i | 0 <= i < |items| :: DeviceFromJson(items[i]) == Some(s.devices[i])
  {
    hide DeviceFromJson, DeviceLoads, DevicesFromJson, ParseInt;
    var items := ItemsOf(Get(d, "devices", Arr([])));
    if items.Some? {
      DevicesLoadIff(items.value);
    }
  }

  /** Lists stand for themselves, an empty string or dict for an empty list, and nothing else will do. */
  lemma ItemsIff(j: Json)
    ensures ItemsOf(j).Some? <==> j.Arr? || j == Str("") || j == Obj(map[])
    ensures ItemsOf(j).Some? ==> ItemsOf(j).value == if j.Arr? then j.items else []
  {
  }

  /** One underscore between digits does not matter; two, or one at an end, are refused. */
  lemma UnderscoreBetweenDigits(s: string, digit: char)
    requires s != "" && s[|s| - 1] != '_' && IsDigit(digit)
    ensures Digits(s + "_" + [digit]) == Digits(s + [digit])
    ensures Digits(s + "__" + [digit]) == Digits(s + "_") == Digits("_" + [digit]) == None
  {
    hide Digits;
    LastDigit(s, digit);
    LastDigit(s + "_", digit);
    LastDigit(s + "__", digit);
    LastDigit("_", digit);
    NoDigitAtEnd(s + "_");
    NoDigitAtEnd("");
    assert (s + "_")[..|s|] == s && (s + "__")[..|s| + 1] == s + "_" && "_"[..0] == "";
  }

  lemma {:induction false} LastDigit(s: string, digit: char)
    requires s != "" && IsDigit(digit)
    ensures
      var before := Digits(if s[|s| - 1] == '_' then s[..|s| - 1] else s);
      Digits(s + [digit]) == if before.None? then None else Some(10 * before.value + (digit as int - '0' as int))
  {
    var t := s + [digit];
    assert t[..|t| - 1] == s && t[..|t| - 2] == s[..|s| - 1];
  }

  lemma NoDigitAtEnd(s: string)
    requires s == "" || !IsDigit(s[|s| - 1])
    ensures Digits(s) == None
  {
  }

  /** bool(): zeros, empty things and None are false, everything else is true. */
  lemma FalseIff(j: Json)
    ensures !Truth(j) <==>
      || j == Null || j == Bool(false) || j == Int(0) || j == Float(0.0)
      || j == Str("") || j == Arr([]) || j == Obj(map[])
  {
  }

  /** int() of a floating point number is the nearest integer towards zero. */
  lemma IntOfFloat(r: real)
    ensures
      var n := IntOf(Float(r)).value as real;
      if r >= 0.0 then n <= r < n + 1.0 else n - 1.0 < r <= n
  {
  }

  ghost predicate IsBlank(s: string) {
    forall i | 0 <= i < |s| :: s[i] == ' ' || s[i] == '\n' || s[i] == '\t'
  }

  /** int() of a string: the digits of a number, with a sign and blanks around if need be. */
  lemma IntOfString(n: nat, sign: string, before: string, behind: string)
    requires sign == "" || sign == "+" || sign == "-"
    requires IsBlank(before) && IsBlank(behind)
    ensures IntOf(Str(before + (sign + Decimal(n)) + behind)) == Some(if sign == "-" then 0 - n else n)
    ensures IntOf(Str(before + (sign + Decimal(n) + "x") + behind)) == None
    ensures IntOf(Str(before + "" + behind)) == None
  {
    hide Digits, Stripped, Decimal, IsBlank;
    var s := Decimal(n);
    DecimalIsDigits(n);
    IntOfDecimal(n);
    NoDigits(s);
    if sign == "" {
      assert sign + s == s;
    } else {
      assert (sign + s)[1..] == s && (sign + s + "x")[1..] == s + "x";
    }
    StripsBlanks(before, sign + s, behind);
    StripsBlanks(before, sign + s + "x", behind);
    StripsBlanks(before, "", behind);
  }

  lemma NoDigits(s: string)
    ensures Digits(s + "x") == None
  {
  }

  /** Blanks are stripped off a text that neither starts nor ends with one. */
  lemma {:induction false} StripsBlanks(before: string, s: string, behind: string)
    requires IsBlank(before) && IsBlank(behind)
    requires s != "" ==> !IsSpace(s[0]) && !IsSpace(s[|s| - 1])
    ensures Stripped(before + s + behind) == s
    decreases |before| + |behind|
  {
    var t := before + s + behind;
    if before != "" {
      assert t[0] == before[0] && t[1..] == before[1..] + s + behind;
      StripsBlanks(before[1..], s, behind);
    } else if behind == "" {
      assert t == s;
    } else if s == "" {
      assert t[0] == behind[0] && t[1..] == before + s + behind[1..];
      StripsBlanks(before, s, behind[1..]);
    } else {
      assert t[0] == s[0] && t[|t| - 1] == behind[|behind| - 1];
      assert t[..|t| - 1] == before + s + behind[..|behind| - 1];
      StripsBlanks(before, s, behind[..|behind| - 1]);
    }
  }

  lemma {:induction false} DecimalIsDigits(n: nat)
    ensures Decimal(n) != [] && forall i | 0 <= i < |Decimal(n)| :: IsDigit(Decimal(n)[i])
  {
    if n >= 10 {
      DecimalIsDigits(n / 10);
    }
  }

  ghost predicate NormalSetup(s: Setup) {
    forall i | 0 <= i < |s.devices| :: NormalForm(s.devices[i])
  }

  // ---- whatever is loaded is in normal form ----

  lemma MpsdIsLoadedNormal(j: Json)
    ensures MpsdFromJson(j).Some? ==> NormalMpsd(MpsdFromJson(j).value)
  {
    hide Merge, Shaped;
    if MpsdFromJson(j).Some? {
      MergeIsIdentityIff(MPSD_SETTINGS, Get(j.fields, "settings", Obj(map[])).fields);
    }
  }

  lemma {:induction false} MpsdsAreLoadedNormal(js: seq<Json>)
    ensures MpsdsFromJson(js).Some? ==> AllNormalMpsds(MpsdsFromJson(js).value)
  {
    hide MpsdFromJson, NormalMpsd;
    if js != [] {
      MpsdIsLoadedNormal(js[0]);
      MpsdsAreLoadedNormal(js[1..]);
    }
  }

  lemma DeviceIsLoadedNormal(j: Json)
    ensures DeviceFromJson(j).Some? ==> NormalForm(DeviceFromJson(j).value)
  {
    hide Normalized, NormalForm, AllNormalMpsds, MpsdsFromJson;
    if DeviceFromJson(j).Some? {
      var d := j.fields;
      var mpsds := MpsdListFromJson(Get(d, "mpsds", Arr([]))).value;
      MpsdsAreLoadedNormal(ItemsOf(Get(d, "mpsds", Arr([]))).value);
      NormalizeIsIdentityIff(
        Device(d["name"], d["address"],
               IntOf(Get(d, "mcpd_id", Int(0))).value, IntOf(Get(d, "port", Int(DEFAULT_PORT))).value,
               Truth(Get(d, "enabled", Bool(true))), Get(d, "device_type", Str("mcpd")),
               Get(d, "settings", Obj(map[])).fields, mpsds));
    }
  }

  lemma {:induction false} DevicesAreLoadedNormal(js: seq<Json>)
    ensures DevicesFromJson(js).Some? ==>
      forall i | 0 <= i < |DevicesFromJson(js).value| :: NormalForm(DevicesFromJson(js).value[i])
  {
    hide DeviceFromJson, NormalForm;
    if js != [] {
      DeviceIsLoadedNormal(js[0]);
      DevicesAreLoadedNormal(js[1..]);
    }
  }

  // ---- round trip ----

  lemma MpsdRoundTrip(m: Mpsd)
    requires NormalMpsd(m)
    ensures MpsdFromJson(MpsdToJson(m)) == Some(m)
  {
    hide Merge, Shaped;
    MergeIsIdentityIff(MPSD_SETTINGS, m.settings);
  }

  lemma {:induction false} MpsdsRoundTrip(ms: seq<Mpsd>)
    requires AllNormalMpsds(ms)
    ensures MpsdsFromJson(MpsdsToJson(ms)) == Some(ms)
  {
    hide MpsdFromJson, MpsdToJson, NormalMpsd;
    if ms != [] {
      MpsdRoundTrip(ms[0]);
      MpsdsRoundTrip(ms[1..]);
      var js := MpsdsToJson(ms);
      assert js[0] == MpsdToJson(ms[0]) && js[1..] == MpsdsToJson(ms[1..]);
      assert ms == [ms[0]] + ms[1..];
    }
  }

  lemma DeviceRoundTrip(d: Device)
    requires NormalForm(d)
    ensures DeviceFromJson(DeviceToJson(d)) == Some(d)
  {
    hide Normalized, Shaped, MpsdsFromJson, MpsdsToJson, NormalMpsd;
    MpsdsRoundTrip(d.mpsds);
    NormalizeIsIdentityIff(d);
  }

  lemma {:induction false} DevicesRoundTrip(ds: seq<Device>)
    requires forall i | 0 <= i < |ds| :: NormalForm(ds[i])
    ensures DevicesFromJson(DevicesToJson(ds)) == Some(ds)
  {
    hide DeviceFromJson, DeviceToJson, NormalForm;
    if ds != [] {
      DeviceRoundTrip(ds[0]);
      DevicesRoundTrip(ds[1..]);
      var js := DevicesToJson(ds);
      assert js[0] == DeviceToJson(ds[0]) && js[1..] == DevicesToJson(ds[1..]);
      assert ds == [ds[0]] + ds[1..];
    }
  }

  /** Loading gives only setups in normal form, and saving and loading gives the same setup
      back for exactly these. */
  lemma SetupRoundTripIff(s: Setup)
    ensures FromJson(ToJson(s)) == Some(s) <==> NormalSetup(s)
  {
    hide DevicesFromJson, DevicesToJson, NormalForm;
    DevicesAreLoadedNormal(DevicesToJson(s.devices));
    if NormalSetup(s) {
      DevicesRoundTrip(s.devices);
    }
  }

  lemma SetupIsLoadedNormal(j: Json)
    ensures FromJson(j).Some? ==> NormalSetup(FromJson(j).value)
  {
    hide DevicesFromJson, NormalForm;
    if FromJson(j).Some? {
      DevicesAreLoadedNormal(ItemsOf(Get(j.fields, "devices", Arr([]))).value);
    }
  }

  /** So loading, saving and loading again changes nothing more. */
  lemma LoadSaveLoad(j: Json)
    requires FromJson(j).Some?
    ensures FromJson(ToJson(FromJson(j).value)) == FromJson(j)
  {
    hide FromJson, ToJson, NormalSetup;
    SetupIsLoadedNormal(j);
    SetupRoundTripIff(FromJson(j).value);
  }
}
