/** Merging discovered devices into the saved printers (src/server.rs). */
module Bootstrap {
  import opened Common
  import opened Printers
  import opened QueueNames
  import opened Status

  datatype Device = Device(info: string, uri: string, deviceId: string)

  /** `driver_for_device(device_id, uri)` of the backend. */
  type DriverFor = (string, string) -> Option<string>

  /** `make_config(name, info, driver, uri, device_id)` of the application. */
  type MakeConfig = (string, string, string, string, string) -> Option<Config>

  predicate Known(configs: seq<Config>, uri: string) {
    exists i :: 0 <= i < |configs| && configs[i].deviceUri == uri
  }

  function ConfigFor(d: Device, driverFor: DriverFor, makeConfig: MakeConfig): Option<Config> {
    var driver := driverFor(d.deviceId, d.uri);
    if driver.None? then None
    else makeConfig(QueueName(d.uri, d.info), d.info, driver.value, d.uri, d.deviceId)
  }

  function AddDevice(configs: seq<Config>, d: Device, driverFor: DriverFor, makeConfig: MakeConfig): seq<Config> {
    var config := ConfigFor(d, driverFor, makeConfig);
    if config.None? || Known(configs, d.uri) then configs else configs + [config.value]
  }

  function Merge(configs: seq<Config>, devices: seq<Device>, driverFor: DriverFor, makeConfig: MakeConfig): seq<Config> {
    if devices == [] then configs
    else AddDevice(Merge(configs, devices[..|devices| - 1], driverFor, makeConfig), devices[|devices| - 1], driverFor, makeConfig)
  }

  /** Distinct new records of the configurations. */
  ghost predicate Fresh(records: seq<PrinterRecord>, configs: seq<Config>)
    reads records
  {
    && |records| == |configs|
    && (forall i :: 0 <= i < |records| ==> records[i].View() == NewPrinter(configs[i]))
    && (forall i, j :: 0 <= i < j < |records| ==> records[i] != records[j])
  }

  method Load(saved: seq<Config>) returns (records: seq<PrinterRecord>)
    ensures Fresh(records, saved) && forall k :: 0 <= k < |records| ==> fresh(records[k])
  {
    records := [];
    for i := 0 to |saved|
      invariant Fresh(records, saved[..i])
      invariant forall k :: 0 <= k < |records| ==> fresh(records[k])
    {
      var rec := new PrinterRecord(saved[i]);
      records := records + [rec];
    }
    assert saved[..|saved|] == saved;
  }

  /** `Server::persist`: what is saved of a registry. */
  method Persist(records: seq<PrinterRecord>) returns (disk: seq<Config>)
    ensures disk == Configs(Views(records))
  {
    disk := [];
    for i := 0 to |records|
      invariant |disk| == i && forall k :: 0 <= k < i ==> disk[k] == records[k].config
    {
      disk := disk + [records[i].config];
    }
  }

  /** One turn of the loop over the devices. */
  method Consider(records: seq<PrinterRecord>, d: Device, driverFor: DriverFor, makeConfig: MakeConfig,
                  ghost configs: seq<Config>)
    returns (records': seq<PrinterRecord>)
    requires Fresh(records, configs)
    ensures Fresh(records', AddDevice(configs, d, driverFor, makeConfig))
    ensures forall k :: 0 <= k < |records'| ==> fresh(records'[k]) || records'[k] in records
  {
    records' := records;
    var driver := driverFor(d.deviceId, d.uri);
    if driver.None? {
      return;
    }
    var name := QueueName(d.uri, d.info);
    if exists k :: 0 <= k < |records| && records[k].config.deviceUri == d.uri {
      assert Known(configs, d.uri);
      return;
    }
    assert !Known(configs, d.uri);
    var cfg := makeConfig(name, d.info, driver.value, d.uri, d.deviceId);
    if cfg.None? {
      return;
    }
    var rec := new PrinterRecord(cfg.value);
    records' := records + [rec];
  }

  /** `bootstrap_printers`: the new registry, and the configurations it saves. */
  method BootstrapPrinters(saved: seq<Config>, devices: seq<Device>, driverFor: DriverFor, makeConfig: MakeConfig)
    returns (records: seq<PrinterRecord>, disk: seq<Config>)
    ensures Configs(Views(records)) == Merge(saved, devices, driverFor, makeConfig) == disk
    ensures forall i :: 0 <= i < |records| ==> fresh(records[i]) && records[i].View() == Printer(disk[i], Idle, {}, None, None)
    ensures forall i, j :: 0 <= i < j < |records| ==> records[i] != records[j]
  {
    records := Load(saved);
    for n := 0 to |devices|
      invariant Fresh(records, Merge(saved, devices[..n], driverFor, makeConfig))
      invariant forall k :: 0 <= k < |records| ==> fresh(records[k])
    {
      assert devices[..n + 1][..n] == devices[..n];
      records := Consider(records, devices[n], driverFor, makeConfig, Merge(saved, devices[..n], driverFor, makeConfig));
    }
    assert devices[..|devices|] == devices;
    disk := Persist(records);
  }

  // ---- what the merge achieves ------------------------------------------------------------------

  /** The application keeps the device URI it is given. */
  ghost predicate KeepsUri(makeConfig: MakeConfig) {
    forall name, info, driver, uri, id :: var c := makeConfig(name, info, driver, uri, id);
      c.Some? ==> c.value.deviceUri == uri
  }

  ghost predicate FromDevice(c: Config, devices: seq<Device>, driverFor: DriverFor, makeConfig: MakeConfig) {
    exists k :: 0 <= k < |devices| && ConfigFor(devices[k], driverFor, makeConfig) == Some(c)
  }

  /** The saved printers survive in front, in order; what follows comes from listed devices. */
  lemma {:induction false} SavedSurvive(saved: seq<Config>, devices: seq<Device>, driverFor: DriverFor, makeConfig: MakeConfig)
    ensures var merged := Merge(saved, devices, driverFor, makeConfig);
            && saved <= merged
            && forall i :: |saved| <= i < |merged| ==> FromDevice(merged[i], devices, driverFor, makeConfig)
  {
    if devices != [] {
      var before, merged := devices[..|devices| - 1], Merge(saved, devices, driverFor, makeConfig);
      var merged1 := Merge(saved, before, driverFor, makeConfig);
      SavedSurvive(saved, before, driverFor, makeConfig);
      forall i | |saved| <= i < |merged| ensures FromDevice(merged[i], devices, driverFor, makeConfig) {
        if i < |merged1| {
          var k :| 0 <= k < |before| && ConfigFor(before[k], driverFor, makeConfig) == Some(merged[i]);
          assert devices[k] == before[k];
        } else {
          assert ConfigFor(devices[|devices| - 1], driverFor, makeConfig) == Some(merged[i]);
        }
      }
    }
  }

  /** `c` is the configuration of a listed device whose own URI is not among `configs`. */
  ghost predicate NewTo(configs: seq<Config>, c: Config, devices: seq<Device>, driverFor: DriverFor, makeConfig: MakeConfig) {
    exists k :: 0 <= k < |devices| && ConfigFor(devices[k], driverFor, makeConfig) == Some(c) && !Known(configs, devices[k].uri)
  }

  lemma {:induction false} AddedAreNew(saved: seq<Config>, devices: seq<Device>, driverFor: DriverFor, makeConfig: MakeConfig, i: nat)
    requires |saved| <= i < |Merge(saved, devices, driverFor, makeConfig)|
    ensures var merged := Merge(saved, devices, driverFor, makeConfig); NewTo(merged[..i], merged[i], devices, driverFor, makeConfig)
  {
    if devices != [] {
      var before := devices[..|devices| - 1];
      var merged1, merged := Merge(saved, before, driverFor, makeConfig), Merge(saved, devices, driverFor, makeConfig);
      if i < |merged1| {
        AddedAreNew(saved, before, driverFor, makeConfig, i);
        assert merged[..i] == merged1[..i];
        var k :| 0 <= k < |before| && ConfigFor(before[k], driverFor, makeConfig) == Some(merged1[i])
                 && !Known(merged1[..i], before[k].uri);
        assert devices[k] == before[k];
      } else {
        assert merged[..i] == merged1;
        assert ConfigFor(devices[|before|], driverFor, makeConfig) == Some(merged[i]);
      }
    }
  }

  /** Every added entry is that of a device whose URI no entry before it carries; so, where the
      application keeps the URI, no device is added next to an entry with its URI. */
  lemma NoUriAddedTwice(saved: seq<Config>, devices: seq<Device>, driverFor: DriverFor, makeConfig: MakeConfig, i: nat)
    requires |saved| <= i < |Merge(saved, devices, driverFor, makeConfig)|
    ensures var merged := Merge(saved, devices, driverFor, makeConfig);
            && NewTo(merged[..i], merged[i], devices, driverFor, makeConfig)
            && (KeepsUri(makeConfig) ==> forall j :: 0 <= j < i ==> merged[j].deviceUri != merged[i].deviceUri)
  {
    var merged := Merge(saved, devices, driverFor, makeConfig);
    AddedAreNew(saved, devices, driverFor, makeConfig, i);
    if KeepsUri(makeConfig) {
      NewUri(merged[..i], merged[i], devices, driverFor, makeConfig);
      forall j | 0 <= j < i ensures merged[j].deviceUri != merged[i].deviceUri {
        assert merged[..i][j] == merged[j];
      }
    }
  }

  lemma NewUri(configs: seq<Config>, c: Config, devices: seq<Device>, driverFor: DriverFor, makeConfig: MakeConfig)
    requires NewTo(configs, c, devices, driverFor, makeConfig) && KeepsUri(makeConfig)
    ensures !Known(configs, c.deviceUri)
  {
    var k :| 0 <= k < |devices| && ConfigFor(devices[k], driverFor, makeConfig) == Some(c) && !Known(configs, devices[k].uri);
    ConfigKeepsUri(devices[k], c, driverFor, makeConfig);
  }

  lemma ConfigKeepsUri(d: Device, c: Config, driverFor: DriverFor, makeConfig: MakeConfig)
    requires ConfigFor(d, driverFor, makeConfig) == Some(c) && KeepsUri(makeConfig)
    ensures c.deviceUri == d.uri
  {
  }

  /** The device is there, by its URI or with its own configuration. */
  ghost predicate Present(configs: seq<Config>, d: Device, driverFor: DriverFor, makeConfig: MakeConfig)
    requires ConfigFor(d, driverFor, makeConfig).Some?
  {
    && (Known(configs, d.uri) || ConfigFor(d, driverFor, makeConfig).value in configs)
    && (KeepsUri(makeConfig) ==> Known(configs, d.uri))
  }

  lemma AddedIsPresent(configs: seq<Config>, d: Device, driverFor: DriverFor, makeConfig: MakeConfig)
    requires ConfigFor(d, driverFor, makeConfig).Some?
    ensures Present(AddDevice(configs, d, driverFor, makeConfig), d, driverFor, makeConfig)
  {
    if !Known(configs, d.uri) {
      var c := ConfigFor(d, driverFor, makeConfig).value;
      var all := configs + [c];
      assert all[|configs|] == c;
    }
  }

  lemma PresentStays(configs: seq<Config>, all: seq<Config>, d: Device, driverFor: DriverFor, makeConfig: MakeConfig)
    requires ConfigFor(d, driverFor, makeConfig).Some? && Present(configs, d, driverFor, makeConfig) && configs <= all
    ensures Present(all, d, driverFor, makeConfig)
  {
    if Known(configs, d.uri) {
      var i :| 0 <= i < |configs| && configs[i].deviceUri == d.uri;
      assert all[i] == configs[i];
    }
  }

  /** Every listed device with a driver and a configuration is in the merge: by its URI, or with its own
      configuration; by its URI where the application keeps it. */
  lemma {:induction false} EveryDevicePresent(saved: seq<Config>, devices: seq<Device>, driverFor: DriverFor,
                                              makeConfig: MakeConfig, k: nat)
    requires k < |devices| && ConfigFor(devices[k], driverFor, makeConfig).Some?
    ensures Present(Merge(saved, devices, driverFor, makeConfig), devices[k], driverFor, makeConfig)
  {
    var before, last := devices[..|devices| - 1], devices[|devices| - 1];
    var merged1 := Merge(saved, before, driverFor, makeConfig);
    if k < |before| {
      EveryDevicePresent(saved, before, driverFor, makeConfig, k);
      PresentStays(merged1, AddDevice(merged1, last, driverFor, makeConfig), devices[k], driverFor, makeConfig);
    } else {
      AddedIsPresent(merged1, last, driverFor, makeConfig);
    }
  }

  /** Every listed device with a configuration is there already. */
  ghost predicate AllKnown(configs: seq<Config>, devices: seq<Device>, driverFor: DriverFor, makeConfig: MakeConfig) {
    forall k :: 0 <= k < |devices| && ConfigFor(devices[k], driverFor, makeConfig).Some? ==> Known(configs, devices[k].uri)
  }

  lemma {:induction false} NothingToAdd(configs: seq<Config>, devices: seq<Device>, driverFor: DriverFor, makeConfig: MakeConfig)
    requires AllKnown(configs, devices, driverFor, makeConfig)
    ensures Merge(configs, devices, driverFor, makeConfig) == configs
  {
    if devices != [] {
      var before := devices[..|devices| - 1];
      forall k | 0 <= k < |before| && ConfigFor(before[k], driverFor, makeConfig).Some? ensures Known(configs, before[k].uri) {
        assert before[k] == devices[k];
      }
      NothingToAdd(configs, before, driverFor, makeConfig);
    }
  }

  lemma {:induction false} NothingAdded(configs: seq<Config>, devices: seq<Device>, driverFor: DriverFor, makeConfig: MakeConfig)
    requires Merge(configs, devices, driverFor, makeConfig) == configs
    ensures AllKnown(configs, devices, driverFor, makeConfig)
  {
    if devices != [] {
      var before := devices[..|devices| - 1];
      SavedSurvive(configs, before, driverFor, makeConfig);
      assert Merge(configs, before, driverFor, makeConfig) == configs;
      NothingAdded(configs, before, driverFor, makeConfig);
      forall k | 0 <= k < |devices| && ConfigFor(devices[k], driverFor, makeConfig).Some? ensures Known(configs, devices[k].uri) {
        if k < |before| { assert before[k] == devices[k]; }
      }
    }
  }

  /** A merge adds nothing exactly if every device with a configuration is there already. */
  lemma MergeFixedExactly(configs: seq<Config>, devices: seq<Device>, driverFor: DriverFor, makeConfig: MakeConfig)
    ensures Merge(configs, devices, driverFor, makeConfig) == configs <==> AllKnown(configs, devices, driverFor, makeConfig)
  {
    if AllKnown(configs, devices, driverFor, makeConfig) {
      NothingToAdd(configs, devices, driverFor, makeConfig);
    }
    if Merge(configs, devices, driverFor, makeConfig) == configs {
      NothingAdded(configs, devices, driverFor, makeConfig);
    }
  }

  /** Starting again with the same devices adds nothing exactly if the first start left every device
      with a configuration under its own URI; so always where the application keeps the URI. */
  lemma SecondBootstrap(saved: seq<Config>, devices: seq<Device>, driverFor: DriverFor, makeConfig: MakeConfig)
    ensures var merged := Merge(saved, devices, driverFor, makeConfig);
            && (Merge(merged, devices, driverFor, makeConfig) == merged <==> AllKnown(merged, devices, driverFor, makeConfig))
            && (KeepsUri(makeConfig) ==> Merge(merged, devices, driverFor, makeConfig) == merged)
  {
    var merged := Merge(saved, devices, driverFor, makeConfig);
    MergeFixedExactly(merged, devices, driverFor, makeConfig);
    if KeepsUri(makeConfig) {
      forall k | 0 <= k < |devices| && ConfigFor(devices[k], driverFor, makeConfig).Some?
        ensures Known(merged, devices[k].uri)
      {
        EveryDevicePresent(saved, devices, driverFor, makeConfig, k);
      }
    }
  }

  /** An application that changes the URI gets its printer again at every start. */
  lemma ChangedUriAddsAgain(d: Device, driver: string, config: Config)
    requires config.deviceUri != d.uri
    ensures var driverFor: DriverFor := (id, uri) => Some(driver);
            var makeConfig: MakeConfig := (name, info, driver, uri, id) => Some(config);
            var once := Merge([], [d], driverFor, makeConfig);
            |once| == 1 && |Merge(once, [d], driverFor, makeConfig)| == 2
  {
    var driverFor: DriverFor := (id, uri) => Some(driver);
    var makeConfig: MakeConfig := (name, info, driver, uri, id) => Some(config);
    assert [d][..0] == [];
    assert Merge([], [], driverFor, makeConfig) == [];
    assert Merge([], [d], driverFor, makeConfig) == [config];
    assert !Known([config], d.uri);
    assert Merge([config], [], driverFor, makeConfig) == [config];
  }

  /** The application writes what it is given into the configuration. */
  ghost predicate WritesDown(makeConfig: MakeConfig) {
    forall name, info, driver, uri, id :: var c := makeConfig(name, info, driver, uri, id);
      c.Some? ==> c.value.name == name && c.value.displayName == info && c.value.driverName == driver
                  && c.value.deviceUri == uri && c.value.deviceId == id
  }

  /** The configuration carries the queue name, the description, the URI and the id of the device, and the
      driver the backend names for that id and URI. */
  predicate Describes(c: Config, d: Device, driverFor: DriverFor) {
    && c.deviceUri == d.uri && c.deviceId == d.deviceId && c.displayName == d.info
    && c.name == QueueName(d.uri, d.info) && driverFor(d.deviceId, d.uri) == Some(c.driverName)
  }

  lemma ConfigDescribes(d: Device, c: Config, driverFor: DriverFor, makeConfig: MakeConfig)
    requires WritesDown(makeConfig) && ConfigFor(d, driverFor, makeConfig) == Some(c)
    ensures Describes(c, d, driverFor)
  {
  }

  /** Then every printer added describes one of the listed devices. */
  lemma AddedDescribesDevice(saved: seq<Config>, devices: seq<Device>, driverFor: DriverFor, makeConfig: MakeConfig, i: nat)
    requires WritesDown(makeConfig) && |saved| <= i < |Merge(saved, devices, driverFor, makeConfig)|
    ensures exists k :: 0 <= k < |devices| && Describes(Merge(saved, devices, driverFor, makeConfig)[i], devices[k], driverFor)
  {
    SavedSurvive(saved, devices, driverFor, makeConfig);
    var c := Merge(saved, devices, driverFor, makeConfig)[i];
    var k :| 0 <= k < |devices| && ConfigFor(devices[k], driverFor, makeConfig) == Some(c);
    ConfigDescribes(devices[k], c, driverFor, makeConfig);
  }

  // ---- queue names --------------------------------------------------------------------------------

  /** The application keeps the queue name it is given. */
  ghost predicate KeepsName(makeConfig: MakeConfig) {
    forall name, info, driver, uri, id :: var c := makeConfig(name, info, driver, uri, id);
      c.Some? ==> c.value.name == name
  }

  /** One of the first `n` devices has a configuration and this URI. */
  ghost predicate Offered(devices: seq<Device>, driverFor: DriverFor, makeConfig: MakeConfig, n: nat, uri: string)
    requires n <= |devices|
  {
    exists j :: 0 <= j < n && devices[j].uri == uri && ConfigFor(devices[j], driverFor, makeConfig).Some?
  }

  /** Device `k` is one to add: it has a configuration, and its URI is neither saved nor that of an
      earlier device with one. */
  ghost predicate IsNew(saved: seq<Config>, devices: seq<Device>, driverFor: DriverFor, makeConfig: MakeConfig, k: nat)
    requires k < |devices|
  {
    && ConfigFor(devices[k], driverFor, makeConfig).Some? && !Known(saved, devices[k].uri)
    && !Offered(devices, driverFor, makeConfig, k, devices[k].uri)
  }

  /** The devices to add among the first `n`. */
  ghost function Added(saved: seq<Config>, devices: seq<Device>, driverFor: DriverFor, makeConfig: MakeConfig, n: nat): (a: seq<Device>)
    requires n <= |devices|
    ensures forall i :: 0 <= i < |a| ==> ConfigFor(a[i], driverFor, makeConfig).Some?
  {
    if n == 0 then []
    else
      Added(saved, devices, driverFor, makeConfig, n - 1)
      + if IsNew(saved, devices, driverFor, makeConfig, n - 1) then [devices[n - 1]] else []
  }

  function ConfigsFor(added: seq<Device>, driverFor: DriverFor, makeConfig: MakeConfig): (c: seq<Config>)
    requires forall i :: 0 <= i < |added| ==> ConfigFor(added[i], driverFor, makeConfig).Some?
    ensures |c| == |added| && forall i :: 0 <= i < |c| ==> Some(c[i]) == ConfigFor(added[i], driverFor, makeConfig)
  {
    seq(|added|, i requires 0 <= i < |added| => ConfigFor(added[i], driverFor, makeConfig).value)
  }

  lemma KnownAppend(configs: seq<Config>, c: Config, uri: string)
    ensures Known(configs + [c], uri) <==> Known(configs, uri) || c.deviceUri == uri
  {
    var all := configs + [c];
    assert all[|configs|] == c;
    forall i | 0 <= i < |configs| ensures all[i] == configs[i] {}
  }

  lemma MergeNext(saved: seq<Config>, devices: seq<Device>, driverFor: DriverFor, makeConfig: MakeConfig, n: nat)
    requires n < |devices|
    ensures Merge(saved, devices[..n + 1], driverFor, makeConfig)
         == AddDevice(Merge(saved, devices[..n], driverFor, makeConfig), devices[n], driverFor, makeConfig)
  {
    assert devices[..n + 1][..n] == devices[..n];
  }

  lemma {:induction false} KnownAfterMerge(saved: seq<Config>, devices: seq<Device>, driverFor: DriverFor, makeConfig: MakeConfig,
                                           n: nat, uri: string)
    requires KeepsUri(makeConfig) && n <= |devices|
    ensures Known(Merge(saved, devices[..n], driverFor, makeConfig), uri) <==>
            Known(saved, uri) || Offered(devices, driverFor, makeConfig, n, uri)
  {
    if n > 0 {
      var d, merged1 := devices[n - 1], Merge(saved, devices[..n - 1], driverFor, makeConfig);
      var config := ConfigFor(d, driverFor, makeConfig);
      KnownAfterMerge(saved, devices, driverFor, makeConfig, n - 1, uri);
      MergeNext(saved, devices, driverFor, makeConfig, n - 1);
      if config.Some? {
        KnownAppend(merged1, config.value, uri);
      }
    }
  }

  /** The merge is the saved printers and then the devices to add. */
  lemma {:induction false} MergeIsAdded(saved: seq<Config>, devices: seq<Device>, driverFor: DriverFor, makeConfig: MakeConfig, n: nat)
    requires KeepsUri(makeConfig) && n <= |devices|
    ensures Merge(saved, devices[..n], driverFor, makeConfig)
         == saved + ConfigsFor(Added(saved, devices, driverFor, makeConfig, n), driverFor, makeConfig)
  {
    if n > 0 {
      MergeIsAdded(saved, devices, driverFor, makeConfig, n - 1);
      MergeNext(saved, devices, driverFor, makeConfig, n - 1);
      KnownAfterMerge(saved, devices, driverFor, makeConfig, n - 1, devices[n - 1].uri);
      if IsNew(saved, devices, driverFor, makeConfig, n - 1) {
        AppendConfig(saved, Added(saved, devices, driverFor, makeConfig, n - 1), devices[n - 1], driverFor, makeConfig);
      }
    }
  }

  lemma AppendConfig(saved: seq<Config>, added: seq<Device>, d: Device, driverFor: DriverFor, makeConfig: MakeConfig)
    requires forall i :: 0 <= i < |added| ==> ConfigFor(added[i], driverFor, makeConfig).Some?
    requires ConfigFor(d, driverFor, makeConfig).Some?
    ensures saved + ConfigsFor(added + [d], driverFor, makeConfig)
         == saved + ConfigsFor(added, driverFor, makeConfig) + [ConfigFor(d, driverFor, makeConfig).value]
  {
  }

  lemma DistinctAppend(a: seq<Config>, b: seq<Config>)
    ensures DistinctConfigs(a + b) <==>
            && DistinctConfigs(a) && DistinctConfigs(b)
            && forall i, j :: 0 <= i < |a| && 0 <= j < |b| ==> a[i].name != b[j].name
  {
    var c := a + b;
    forall i | 0 <= i < |a| ensures c[i] == a[i] {}
    forall j | 0 <= j < |b| ensures c[|a| + j] == b[j] {}
  }

  function NameOf(d: Device): string {
    QueueName(d.uri, d.info)
  }

  /** Where the application keeps URI and name, the merged printers have distinct names exactly if the
      saved ones have, and the queue names of the devices to add differ from each other and from theirs. */
  lemma NamesDistinctExactly(saved: seq<Config>, devices: seq<Device>, driverFor: DriverFor, makeConfig: MakeConfig)
    requires KeepsUri(makeConfig) && KeepsName(makeConfig)
    ensures var added := Added(saved, devices, driverFor, makeConfig, |devices|);
            DistinctConfigs(Merge(saved, devices, driverFor, makeConfig)) <==>
            && DistinctConfigs(saved)
            && (forall i, j :: 0 <= i < j < |added| ==> NameOf(added[i]) != NameOf(added[j]))
            && forall i, j :: 0 <= i < |saved| && 0 <= j < |added| ==> saved[i].name != NameOf(added[j])
  {
    var added := Added(saved, devices, driverFor, makeConfig, |devices|);
    var configs := ConfigsFor(added, driverFor, makeConfig);
    MergeIsAdded(saved, devices, driverFor, makeConfig, |devices|);
    assert devices[..|devices|] == devices;
    DistinctAppend(saved, configs);
    forall i | 0 <= i < |added| ensures configs[i].name == NameOf(added[i]) {
      assert Some(configs[i]) == ConfigFor(added[i], driverFor, makeConfig);
    }
  }

  /** Only URIs are told apart: devices that describe themselves alike come under one queue name. */
  lemma AlikeDevicesShareAName(info: string, uri: string, uri': string, driverFor: DriverFor, makeConfig: MakeConfig)
    requires uri != uri' && info != "" && KeepsUri(makeConfig)
    requires forall d: Device :: ConfigFor(d, driverFor, makeConfig).Some?
    requires forall n, i, dr, u, id :: makeConfig(n, i, dr, u, id).Some? ==> makeConfig(n, i, dr, u, id).value.name == n
    ensures var merged := Merge([], [Device(info, uri, "")] + [Device(info, uri', "")], driverFor, makeConfig);
            |merged| == 2 && merged[0].name == merged[1].name
  {
    var d, d' := Device(info, uri, ""), Device(info, uri', "");
    assert ([d] + [d'])[..1] == [d] && [d][..0] == [];
    assert Merge([], [], driverFor, makeConfig) == [];
    var c := ConfigFor(d, driverFor, makeConfig);
    assert Merge([], [d], driverFor, makeConfig) == [c.value];
    assert !Known([c.value], uri');
  }
}
