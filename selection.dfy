/**
 * Scanner discovery with a descriptor walk: the attached devices are
 * filtered on vendor (and on product unless the product id asked for is 0);
 * each selected device then yields one scanner bound to its first IN
 * endpoint, found by walking configurations, interfaces, setups and
 * endpoints in order; a device without an IN endpoint yields none.
 */
module Selection {
  import opened Common
  import opened Usb

  /** The configuration a scanner reads with: the ids asked for and the endpoint it is bound to. */
  datatype UsbConfig = UsbConfig(vendor: uint16, product: uint16, config: uint8, iface: uint8, setup: uint8, endpoint: uint8)

  datatype Scanner = Scanner(device: Device, config: UsbConfig)

  datatype SelectError = ListError | ErrorDeviceNotFound

  /** The endpoint a scanner is bound to: configuration, interface, setup and endpoint numbers. */
  datatype Binding = Binding(config: uint8, iface: uint8, setup: uint8, endpoint: uint8)

  /** The listing predicate: vendor must match, and product too unless the product asked for is 0. */
  predicate Selected(config: UsbConfig, desc: Descriptor)
  {
    var selected := desc.vendor == config.vendor;
    if config.product != 0 then selected && desc.product == config.product else selected
  }

  /** The listing predicate as the function value handed to `ListDevices`. */
  function Selector(config: UsbConfig): Descriptor -> bool
  {
    d => Selected(config, d)
  }

  /** The first of two searches that finds something. */
  function OrElse(a: Option<Binding>, b: Option<Binding>): Option<Binding>
  {
    if a.Some? then a else b
  }

  // ---------------------------------------------------------------------
  // The walk, level by level, as the nested loops perform it

  function FirstInEndpoints(c: uint8, i: uint8, s: uint8, eps: seq<EndpointInfo>): Option<Binding>
  {
    if eps == [] then None
    else if eps[0].direction == In then Some(Binding(c, i, s, eps[0].number))
    else FirstInEndpoints(c, i, s, eps[1..])
  }

  function FirstInSetups(c: uint8, i: uint8, setups: seq<InterfaceSetup>): Option<Binding>
  {
    if setups == [] then None
    else OrElse(FirstInEndpoints(c, i, setups[0].number, setups[0].endpoints), FirstInSetups(c, i, setups[1..]))
  }

  function FirstInInterfaces(c: uint8, ifaces: seq<InterfaceInfo>): Option<Binding>
  {
    if ifaces == [] then None
    else OrElse(FirstInSetups(c, ifaces[0].number, ifaces[0].setups), FirstInInterfaces(c, ifaces[1..]))
  }

  function FirstInConfigs(configs: seq<ConfigInfo>): Option<Binding>
  {
    if configs == [] then None
    else OrElse(FirstInInterfaces(configs[0].config, configs[0].interfaces), FirstInConfigs(configs[1..]))
  }

  /** The endpoint a device's scanner is bound to, if the device has an IN endpoint. */
  function Pick(desc: Descriptor): Option<Binding>
  {
    FirstInConfigs(desc.configs)
  }

  /** The scanner for a selected device: the ids asked for, the picked endpoint, and no read timeout. */
  function MakeScanner(config: UsbConfig, dev: Device, b: Binding): Scanner
  {
    Scanner(dev.(readTimeout := 0), config.(config := b.config, iface := b.iface, setup := b.setup, endpoint := b.endpoint))
  }

  /** The scanners the walk yields for the selected devices, in device order. */
  function Scanners(config: UsbConfig, devices: seq<Device>): seq<Scanner>
  {
    if devices == [] then []
    else
      match Pick(devices[0].descriptor)
      case None => Scanners(config, devices[1..])
      case Some(b) => [MakeScanner(config, devices[0], b)] + Scanners(config, devices[1..])
  }

  /** `GetScanners`, with the listing's failure as an input. */
  function GetScannersSpec(config: UsbConfig, attached: seq<Device>, listFailed: bool): Result<seq<Scanner>, SelectError>
  {
    if listFailed then Err(ListError)
    else
      var devices := ListDevices(attached, Selector(config));
      if |devices| == 0 then Err(ErrorDeviceNotFound) else Ok(Scanners(config, devices))
  }

  /** The Go pair `(scanners, err)` as a result. */
  function AsResult(scanners: seq<Scanner>, err: Option<SelectError>): Result<seq<Scanner>, SelectError>
  {
    if err.Some? then Err(err.value) else Ok(scanners)
  }

  /** A listed device with an IN endpoint contributes its scanner ahead of the later devices'. */
  lemma ScannersTake(config: UsbConfig, devices: seq<Device>, n: nat, b: Binding)
    requires n < |devices| && Pick(devices[n].descriptor) == Some(b)
    ensures Scanners(config, devices[n..]) == [MakeScanner(config, devices[n], b)] + Scanners(config, devices[n + 1..])
  {
    assert devices[n..][0] == devices[n] && devices[n..][1..] == devices[n + 1..];
  }

  /** A listed device without an IN endpoint contributes nothing. */
  lemma ScannersSkip(config: UsbConfig, devices: seq<Device>, n: nat)
    requires n < |devices| && Pick(devices[n].descriptor) == None
    ensures Scanners(config, devices[n..]) == Scanners(config, devices[n + 1..])
  {
    assert devices[n..][0] == devices[n] && devices[n..][1..] == devices[n + 1..];
  }

  // One step of each loop of the walk

  lemma ConfigsStep(configs: seq<ConfigInfo>, n: nat)
    requires n < |configs|
    ensures FirstInConfigs(configs[n..]) == OrElse(FirstInInterfaces(configs[n].config, configs[n].interfaces), FirstInConfigs(configs[n + 1..]))
  {
    assert configs[n..][0] == configs[n] && configs[n..][1..] == configs[n + 1..];
  }

  lemma InterfacesStep(c: uint8, ifaces: seq<InterfaceInfo>, n: nat)
    requires n < |ifaces|
    ensures FirstInInterfaces(c, ifaces[n..]) == OrElse(FirstInSetups(c, ifaces[n].number, ifaces[n].setups), FirstInInterfaces(c, ifaces[n + 1..]))
  {
    assert ifaces[n..][0] == ifaces[n] && ifaces[n..][1..] == ifaces[n + 1..];
  }

  lemma SetupsStep(c: uint8, i: uint8, setups: seq<InterfaceSetup>, n: nat)
    requires n < |setups|
    ensures FirstInSetups(c, i, setups[n..]) == OrElse(FirstInEndpoints(c, i, setups[n].number, setups[n].endpoints), FirstInSetups(c, i, setups[n + 1..]))
  {
    assert setups[n..][0] == setups[n] && setups[n..][1..] == setups[n + 1..];
  }

  lemma EndpointsStep(c: uint8, i: uint8, s: uint8, eps: seq<EndpointInfo>, n: nat)
    requires n < |eps|
    ensures eps[n].direction == In ==> FirstInEndpoints(c, i, s, eps[n..]) == Some(Binding(c, i, s, eps[n].number))
    ensures eps[n].direction != In ==> FirstInEndpoints(c, i, s, eps[n..]) == FirstInEndpoints(c, i, s, eps[n + 1..])
  {
    assert eps[n..][0] == eps[n] && eps[n..][1..] == eps[n + 1..];
  }

  /**
   * The descriptor walk of one device: configurations, interfaces, setups
   * and endpoints in order, stopping at the first IN endpoint (where the
   * Go code leaves the device with `continue getDevice`).
   */
  method FindInEndpoint(desc: Descriptor) returns (found: Option<Binding>)
    ensures found == Pick(desc)
  {
    var configs := desc.configs;
    for ci := 0 to |configs|
      invariant Pick(desc) == FirstInConfigs(configs[ci..])
    {
      var cfg := configs[ci];
      ghost var afterCfg := FirstInConfigs(configs[ci + 1..]);
      ConfigsStep(configs, ci);
      for ii := 0 to |cfg.interfaces|
        invariant Pick(desc) == OrElse(FirstInInterfaces(cfg.config, cfg.interfaces[ii..]), afterCfg)
      {
        var alt := cfg.interfaces[ii];
        ghost var afterAlt := OrElse(FirstInInterfaces(cfg.config, cfg.interfaces[ii + 1..]), afterCfg);
        InterfacesStep(cfg.config, cfg.interfaces, ii);
        for si := 0 to |alt.setups|
          invariant Pick(desc) == OrElse(FirstInSetups(cfg.config, alt.number, alt.setups[si..]), afterAlt)
        {
          var iface := alt.setups[si];
          ghost var afterSetup := OrElse(FirstInSetups(cfg.config, alt.number, alt.setups[si + 1..]), afterAlt);
          SetupsStep(cfg.config, alt.number, alt.setups, si);
          for ei := 0 to |iface.endpoints|
            invariant Pick(desc) == OrElse(FirstInEndpoints(cfg.config, alt.number, iface.number, iface.endpoints[ei..]), afterSetup)
          {
            var end := iface.endpoints[ei];
            EndpointsStep(cfg.config, alt.number, iface.number, iface.endpoints, ei);
            if end.direction == In {
              return Some(Binding(cfg.config, alt.number, iface.number, end.number));
            }
          }
          assert iface.endpoints[|iface.endpoints|..] == [];
        }
        assert alt.setups[|alt.setups|..] == [];
      }
      assert cfg.interfaces[|cfg.interfaces|..] == [];
    }
    assert configs[|configs|..] == [];
    return None;
  }

  /** `GetScanners`: list, then give every listed device that has an IN endpoint one scanner bound to it. */
  method GetScanners(config: UsbConfig, attached: seq<Device>, listFailed: bool) returns (scanners: seq<Scanner>, err: Option<SelectError>)
    ensures AsResult(scanners, err) == GetScannersSpec(config, attached, listFailed)
    ensures err.Some? ==> scanners == []
  {
    scanners := [];
    if listFailed {
      return scanners, Some(ListError);
    }
    var devices := ListDevices(attached, Selector(config));
    if |devices| == 0 {
      return scanners, Some(ErrorDeviceNotFound);
    }
    for n := 0 to |devices|
      invariant scanners + Scanners(config, devices[n..]) == Scanners(config, devices)
    {
      var dev := devices[n];
      var found := FindInEndpoint(dev.descriptor);
      if found.Some? {
        var b := found.value;
        // the four endpoint fields of `config` are overwritten; vendor and product stay as asked
        var current := config.(config := b.config, iface := b.iface, setup := b.setup, endpoint := b.endpoint);
        var sc := Scanner(dev, current);
        // don't time out reading
        sc := sc.(device := sc.device.(readTimeout := 0));
        assert sc == MakeScanner(config, dev, b);
        ScannersTake(config, devices, n, b);
        SeqAssoc(scanners, [sc], Scanners(config, devices[n + 1..]));
        scanners := scanners + [sc];
      } else {
        // no IN endpoint: this device yields no scanner
        ScannersSkip(config, devices, n);
      }
    }
    assert devices[|devices|..] == [] && scanners + [] == scanners;
    return scanners, None;
  }

  // ---------------------------------------------------------------------
  // Listing

  /** Product id 0 is a wildcard; any other product id must match exactly, and the vendor always must. */
  lemma SelectedIff(config: UsbConfig, desc: Descriptor)
    ensures Selected(config, desc) <==> desc.vendor == config.vendor && (config.product == 0 || desc.product == config.product)
  {
  }

  /** A failed listing is returned as the error, with no scanners. */
  lemma ListFailureReturned(config: UsbConfig, attached: seq<Device>)
    ensures GetScannersSpec(config, attached, true) == Err(ListError)
  {
  }

  /** `ErrorDeviceNotFound` is returned exactly when the listing succeeds and no attached device is selected. */
  lemma NotFoundIff(config: UsbConfig, attached: seq<Device>)
    ensures GetScannersSpec(config, attached, false) == Err(ErrorDeviceNotFound) <==>
      forall k :: 0 <= k < |attached| ==> !Selected(config, attached[k].descriptor)
  {
    ListDevicesEmptyIff(attached, Selector(config));
  }

  // ---------------------------------------------------------------------
  // One scanner per device that has an IN endpoint, in device order

  /** The scanners of a concatenation are those of each part, in order. */
  lemma {:induction false} ScannersAppend(config: UsbConfig, a: seq<Device>, b: seq<Device>)
    ensures Scanners(config, a + b) == Scanners(config, a) + Scanners(config, b)
    decreases |a|
  {
    if a == [] {
      assert a + b == b;
    } else {
      assert (a + b)[0] == a[0] && (a + b)[1..] == a[1..] + b;
      ScannersAppend(config, a[1..], b);
      match Pick(a[0].descriptor)
      case None =>
      case Some(p) =>
        SeqAssoc([MakeScanner(config, a[0], p)], Scanners(config, a[1..]), Scanners(config, b));
    }
  }

  /** A device without an IN endpoint contributes no scanner and does not disturb the others. */
  lemma DeviceWithoutInSkipped(config: UsbConfig, a: seq<Device>, d: Device, b: seq<Device>)
    requires Pick(d.descriptor) == None
    ensures Scanners(config, a + [d] + b) == Scanners(config, a + b)
  {
    ScannersAppend(config, a + [d], b);
    ScannersAppend(config, a, [d]);
    ScannersAppend(config, a, b);
    assert [d][1..] == [];
    assert Scanners(config, [d]) == [];
  }

  /**
   * At most one scanner per device: each device contributes its own part,
   * in place, of at most one scanner, so there are never more scanners
   * than devices.
   */
  lemma {:induction false} AtMostOnePerDevice(config: UsbConfig, a: seq<Device>, d: Device, b: seq<Device>)
    ensures Scanners(config, a + [d] + b) == Scanners(config, a) + Scanners(config, [d]) + Scanners(config, b)
    ensures |Scanners(config, [d])| <= 1
    ensures |Scanners(config, a + [d] + b)| <= |a + [d] + b|
  {
    ScannersAppend(config, a + [d], b);
    ScannersAppend(config, a, [d]);
    assert [d][1..] == [];
    AtMostOneEach(config, a + [d] + b);
  }

  /** There are never more scanners than devices. */
  lemma {:induction false} AtMostOneEach(config: UsbConfig, devices: seq<Device>)
    ensures |Scanners(config, devices)| <= |devices|
  {
    if devices != [] {
      AtMostOneEach(config, devices[1..]);
    }
  }

  /**
   * When every device has an IN endpoint, the k-th scanner belongs to the
   * k-th device: same device with no read timeout, the ids asked for, and
   * that device's first IN endpoint.
   */
  lemma {:induction false} ScannerPerDevice(config: UsbConfig, devices: seq<Device>)
    requires forall k :: 0 <= k < |devices| ==> Pick(devices[k].descriptor).Some?
    ensures |Scanners(config, devices)| == |devices|
    ensures forall k :: 0 <= k < |devices| ==>
      Scanners(config, devices)[k] == MakeScanner(config, devices[k], Pick(devices[k].descriptor).value)
  {
    if devices != [] {
      ScannerPerDevice(config, devices[1..]);
      var p := Pick(devices[0].descriptor).value;
      assert Scanners(config, devices) == [MakeScanner(config, devices[0], p)] + Scanners(config, devices[1..]);
    }
  }

  /**
   * Every scanner belongs to a listed device, keeps the vendor and product
   * asked for, reads with no timeout, and is bound to the first IN endpoint
   * of its own device.
   */
  lemma {:induction false} ScannerFields(config: UsbConfig, devices: seq<Device>)
    ensures forall sc :: sc in Scanners(config, devices) ==>
      && sc.config.vendor == config.vendor && sc.config.product == config.product
      && sc.device.readTimeout == 0
      && Pick(sc.device.descriptor) == Some(Binding(sc.config.config, sc.config.iface, sc.config.setup, sc.config.endpoint))
      && exists d :: d in devices && sc.device == d.(readTimeout := 0)
  {
    if devices != [] {
      ScannerFields(config, devices[1..]);
      forall sc | sc in Scanners(config, devices[1..])
        ensures exists d :: d in devices && sc.device == d.(readTimeout := 0)
      {
        var d :| d in devices[1..] && sc.device == d.(readTimeout := 0);
        assert d in devices;
      }
      assert devices[0] in devices;
    }
  }

  // ---------------------------------------------------------------------
  // A device contributes nothing exactly when it has no IN endpoint

  predicate HasInEndpoint(eps: seq<EndpointInfo>)
  {
    exists e :: 0 <= e < |eps| && eps[e].direction == In
  }

  predicate HasInSetup(setups: seq<InterfaceSetup>)
  {
    exists s :: 0 <= s < |setups| && HasInEndpoint(setups[s].endpoints)
  }

  predicate HasInInterface(ifaces: seq<InterfaceInfo>)
  {
    exists i :: 0 <= i < |ifaces| && HasInSetup(ifaces[i].setups)
  }

  /** Some endpoint anywhere in the descriptor tree is an IN endpoint. */
  predicate HasIn(desc: Descriptor)
  {
    exists c :: 0 <= c < |desc.configs| && HasInInterface(desc.configs[c].interfaces)
  }

  lemma {:induction false} EndpointsNoneIff(c: uint8, i: uint8, s: uint8, eps: seq<EndpointInfo>)
    ensures FirstInEndpoints(c, i, s, eps) == None <==> !HasInEndpoint(eps)
  {
    if eps != [] {
      EndpointsNoneIff(c, i, s, eps[1..]);
      if HasInEndpoint(eps[1..]) {
        var e :| 0 <= e < |eps[1..]| && eps[1..][e].direction == In;
        assert eps[e + 1].direction == In;
      }
      if HasInEndpoint(eps) && eps[0].direction != In {
        var e :| 0 <= e < |eps| && eps[e].direction == In;
        assert eps[1..][e - 1].direction == In;
      }
    }
  }

  lemma {:induction false} SetupsNoneIff(c: uint8, i: uint8, setups: seq<InterfaceSetup>)
    ensures FirstInSetups(c, i, setups) == None <==> !HasInSetup(setups)
  {
    if setups != [] {
      EndpointsNoneIff(c, i, setups[0].number, setups[0].endpoints);
      SetupsNoneIff(c, i, setups[1..]);
      if HasInSetup(setups[1..]) {
        var s :| 0 <= s < |setups[1..]| && HasInEndpoint(setups[1..][s].endpoints);
        assert HasInEndpoint(setups[s + 1].endpoints);
      }
      if HasInSetup(setups) && !HasInEndpoint(setups[0].endpoints) {
        var s :| 0 <= s < |setups| && HasInEndpoint(setups[s].endpoints);
        assert HasInEndpoint(setups[1..][s - 1].endpoints);
      }
    }
  }

  lemma {:induction false} InterfacesNoneIff(c: uint8, ifaces: seq<InterfaceInfo>)
    ensures FirstInInterfaces(c, ifaces) == None <==> !HasInInterface(ifaces)
  {
    if ifaces != [] {
      SetupsNoneIff(c, ifaces[0].number, ifaces[0].setups);
      InterfacesNoneIff(c, ifaces[1..]);
      if HasInInterface(ifaces[1..]) {
        var i :| 0 <= i < |ifaces[1..]| && HasInSetup(ifaces[1..][i].setups);
        assert HasInSetup(ifaces[i + 1].setups);
      }
      if HasInInterface(ifaces) && !HasInSetup(ifaces[0].setups) {
        var i :| 0 <= i < |ifaces| && HasInSetup(ifaces[i].setups);
        assert HasInSetup(ifaces[1..][i - 1].setups);
      }
    }
  }

  lemma {:induction false} ConfigsNoneIff(configs: seq<ConfigInfo>)
    ensures FirstInConfigs(configs) == None <==> !(exists c :: 0 <= c < |configs| && HasInInterface(configs[c].interfaces))
  {
    if configs != [] {
      InterfacesNoneIff(configs[0].config, configs[0].interfaces);
      ConfigsNoneIff(configs[1..]);
      if exists c :: 0 <= c < |configs[1..]| && HasInInterface(configs[1..][c].interfaces) {
        var c :| 0 <= c < |configs[1..]| && HasInInterface(configs[1..][c].interfaces);
        assert HasInInterface(configs[c + 1].interfaces);
      }
      if (exists c :: 0 <= c < |configs| && HasInInterface(configs[c].interfaces)) && !HasInInterface(configs[0].interfaces) {
        var c :| 0 <= c < |configs| && HasInInterface(configs[c].interfaces);
        assert HasInInterface(configs[1..][c - 1].interfaces);
      }
    }
  }

  /** A device yields a scanner exactly when some endpoint in its descriptor tree is an IN endpoint. */
  lemma PickSomeIff(desc: Descriptor)
    ensures Pick(desc).Some? <==> HasIn(desc)
  {
    ConfigsNoneIff(desc.configs);
  }

  /**
   * Listed devices none of which has an IN endpoint give no scanner and
   * no error: the result is an empty list, not `ErrorDeviceNotFound`.
   * Attached devices that are not selected may have IN endpoints.
   */
  lemma NoInEndpointNoError(config: UsbConfig, attached: seq<Device>)
    requires exists k :: 0 <= k < |attached| && Selected(config, attached[k].descriptor)
    requires forall k :: 0 <= k < |attached| && Selected(config, attached[k].descriptor) ==> !HasIn(attached[k].descriptor)
    ensures GetScannersSpec(config, attached, false) == Ok([])
  {
    NotFoundIff(config, attached);
    var devices := ListDevices(attached, Selector(config));
    forall d | d in devices ensures !HasIn(d.descriptor) {
      var k :| 0 <= k < |attached| && attached[k] == d;
    }
    NoneYield(config, devices);
  }

  /** Devices none of which has an IN endpoint yield no scanners. */
  lemma {:induction false} NoneYield(config: UsbConfig, devices: seq<Device>)
    requires forall d :: d in devices ==> !HasIn(d.descriptor)
    ensures Scanners(config, devices) == []
  {
    if devices != [] {
      assert devices[0] in devices;
      PickSomeIff(devices[0].descriptor);
      NoneYield(config, devices[1..]);
    }
  }

  // ---------------------------------------------------------------------
  // The walk as one flat list of endpoints: the pick is its first IN endpoint

  /** An endpoint together with the numbers it would bind. */
  datatype Candidate = Candidate(binding: Binding, direction: Direction)

  function FlatEndpoints(c: uint8, i: uint8, s: uint8, eps: seq<EndpointInfo>): (r: seq<Candidate>)
    ensures |r| == |eps|
    ensures forall e :: 0 <= e < |eps| ==> r[e] == Candidate(Binding(c, i, s, eps[e].number), eps[e].direction)
  {
    if eps == [] then [] else [Candidate(Binding(c, i, s, eps[0].number), eps[0].direction)] + FlatEndpoints(c, i, s, eps[1..])
  }

  function FlatSetups(c: uint8, i: uint8, setups: seq<InterfaceSetup>): seq<Candidate>
  {
    if setups == [] then [] else FlatEndpoints(c, i, setups[0].number, setups[0].endpoints) + FlatSetups(c, i, setups[1..])
  }

  function FlatInterfaces(c: uint8, ifaces: seq<InterfaceInfo>): seq<Candidate>
  {
    if ifaces == [] then [] else FlatSetups(c, ifaces[0].number, ifaces[0].setups) + FlatInterfaces(c, ifaces[1..])
  }

  /** Every endpoint of the descriptor in configuration, interface, setup, endpoint order. */
  function Flatten(configs: seq<ConfigInfo>): seq<Candidate>
  {
    if configs == [] then [] else FlatInterfaces(configs[0].config, configs[0].interfaces) + Flatten(configs[1..])
  }

  /** Position `k` holds IN endpoint `b` and no earlier position holds an IN endpoint. */
  predicate FirstInAt(cands: seq<Candidate>, k: int, b: Binding)
  {
    0 <= k < |cands| && cands[k] == Candidate(b, In) && forall j :: 0 <= j < k ==> cands[j].direction != In
  }

  /** The first IN endpoint of a flat list. */
  function FirstIn(cands: seq<Candidate>): (r: Option<Binding>)
    ensures r.Some? ==> exists k :: FirstInAt(cands, k, r.value)
    ensures r.None? <==> forall k :: 0 <= k < |cands| ==> cands[k].direction != In
  {
    if cands == [] then None
    else if cands[0].direction == In then (assert FirstInAt(cands, 0, cands[0].binding); Some(cands[0].binding))
    else
      var r := FirstIn(cands[1..]);
      assert r.Some? ==> exists k :: FirstInAt(cands, k, r.value) by {
        if r.Some? {
          var k :| FirstInAt(cands[1..], k, r.value);
          forall j | 0 <= j < k + 1 ensures cands[j].direction != In {
            if j > 0 {
              assert cands[j] == cands[1..][j - 1];
            }
          }
          assert FirstInAt(cands, k + 1, r.value);
        }
      }
      assert r.None? <==> forall k :: 0 <= k < |cands| ==> cands[k].direction != In by {
        if r.None? {
          forall k | 0 <= k < |cands| ensures cands[k].direction != In {
            if k > 0 {
              assert cands[k] == cands[1..][k - 1];
            }
          }
        } else {
          assert forall k :: 0 <= k < |cands[1..]| ==> cands[1..][k] == cands[k + 1];
        }
      }
      r
  }

  /** Searching a concatenation: the first part's IN endpoint if it has one, otherwise the second's. */
  lemma {:induction false} FirstInAppend(a: seq<Candidate>, b: seq<Candidate>)
    ensures FirstIn(a + b) == OrElse(FirstIn(a), FirstIn(b))
  {
    if a == [] {
      assert a + b == b;
    } else {
      assert (a + b)[0] == a[0] && (a + b)[1..] == a[1..] + b;
      FirstInAppend(a[1..], b);
    }
  }

  lemma {:induction false} EndpointsFirst(c: uint8, i: uint8, s: uint8, eps: seq<EndpointInfo>)
    ensures FirstInEndpoints(c, i, s, eps) == FirstIn(FlatEndpoints(c, i, s, eps))
  {
    if eps != [] {
      EndpointsFirst(c, i, s, eps[1..]);
      assert FlatEndpoints(c, i, s, eps)[1..] == FlatEndpoints(c, i, s, eps[1..]);
    }
  }

  lemma {:induction false} SetupsFirst(c: uint8, i: uint8, setups: seq<InterfaceSetup>)
    ensures FirstInSetups(c, i, setups) == FirstIn(FlatSetups(c, i, setups))
  {
    if setups != [] {
      EndpointsFirst(c, i, setups[0].number, setups[0].endpoints);
      SetupsFirst(c, i, setups[1..]);
      FirstInAppend(FlatEndpoints(c, i, setups[0].number, setups[0].endpoints), FlatSetups(c, i, setups[1..]));
    }
  }

  lemma {:induction false} InterfacesFirst(c: uint8, ifaces: seq<InterfaceInfo>)
    ensures FirstInInterfaces(c, ifaces) == FirstIn(FlatInterfaces(c, ifaces))
  {
    if ifaces != [] {
      SetupsFirst(c, ifaces[0].number, ifaces[0].setups);
      InterfacesFirst(c, ifaces[1..]);
      FirstInAppend(FlatSetups(c, ifaces[0].number, ifaces[0].setups), FlatInterfaces(c, ifaces[1..]));
    }
  }

  lemma {:induction false} ConfigsFirst(configs: seq<ConfigInfo>)
    ensures FirstInConfigs(configs) == FirstIn(Flatten(configs))
  {
    if configs != [] {
      InterfacesFirst(configs[0].config, configs[0].interfaces);
      ConfigsFirst(configs[1..]);
      FirstInAppend(FlatInterfaces(configs[0].config, configs[0].interfaces), Flatten(configs[1..]));
    }
  }

  /**
   * The nested loops pick the first IN endpoint of the flattened walk:
   * it is an IN endpoint of the device, and every endpoint before it in
   * configuration, interface, setup, endpoint order is an OUT endpoint.
   */
  lemma PickIsFirstOfWalk(desc: Descriptor)
    ensures Pick(desc) == FirstIn(Flatten(desc.configs))
    ensures Pick(desc).Some? ==> exists k :: FirstInAt(Flatten(desc.configs), k, Pick(desc).value)
    ensures Pick(desc).None? <==> forall k :: 0 <= k < |Flatten(desc.configs)| ==> Flatten(desc.configs)[k].direction != In
  {
    ConfigsFirst(desc.configs);
  }
}
