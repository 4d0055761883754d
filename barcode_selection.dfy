/**
 * Scanner discovery of the fixed-endpoint variant: the listing keeps the
 * devices whose vendor and product both match exactly, and every listed
 * device becomes one scanner. There is no descriptor walk: the read loops
 * of this variant open a fixed endpoint.
 */
module BarcodeSelection {
  import opened Common
  import opened Usb
  import Selection

  /** A scanner here is only the device handle. */
  datatype Scanner = Scanner(device: Device)

  datatype SelectError = ListError | ErrorDeviceNotFound

  /** The listing predicate: exact vendor and product, no wildcard. */
  predicate Matches(vendor: uint16, product: uint16, desc: Descriptor)
  {
    desc.vendor == vendor && desc.product == product
  }

  function Selector(vendor: uint16, product: uint16): Descriptor -> bool
  {
    d => Matches(vendor, product, d)
  }

  /** `GetScanners(ctx, v, p)`, with the listing's failure as an input. */
  method GetScanners(vendor: uint16, product: uint16, attached: seq<Device>, listFailed: bool)
    returns (scanners: seq<Scanner>, err: Option<SelectError>)
    ensures listFailed ==> scanners == [] && err == Some(ListError)
    ensures !listFailed && (forall k :: 0 <= k < |attached| ==> !Matches(vendor, product, attached[k].descriptor)) ==>
      scanners == [] && err == Some(ErrorDeviceNotFound)
    ensures !listFailed && (exists k :: 0 <= k < |attached| && Matches(vendor, product, attached[k].descriptor)) ==>
      && err == None
      && |scanners| == |ListDevices(attached, Selector(vendor, product))|
      && forall k :: 0 <= k < |scanners| ==> scanners[k].device == ListDevices(attached, Selector(vendor, product))[k]
  {
    scanners := [];
    if listFailed {
      return scanners, Some(ListError);
    }
    var devices := ListDevices(attached, Selector(vendor, product));
    ListDevicesEmptyIff(attached, Selector(vendor, product));
    if |devices| == 0 {
      return scanners, Some(ErrorDeviceNotFound);
    }
    for n := 0 to |devices|
      invariant |scanners| == n
      invariant forall k :: 0 <= k < n ==> scanners[k].device == devices[k]
    {
      var sc := Scanner(devices[n]);
      scanners := scanners + [sc];
    }
    return scanners, None;
  }

  // ---------------------------------------------------------------------
  // Properties of the listing

  /** Every listed device matches both ids exactly, and every attached device that does is listed. */
  lemma ListedIffExact(vendor: uint16, product: uint16, attached: seq<Device>, d: Device)
    ensures d in ListDevices(attached, Selector(vendor, product)) <==>
      d in attached && d.descriptor.vendor == vendor && d.descriptor.product == product
  {
  }

  /**
   * The two listing predicates agree whenever the product asked for is not
   * 0; with product 0 the descriptor-walk variant takes any product of the
   * vendor, while this one takes only devices whose product id is 0.
   */
  lemma PredicatesAgree(config: Selection.UsbConfig, desc: Descriptor)
    ensures config.product != 0 ==> (Selection.Selected(config, desc) <==> Matches(config.vendor, config.product, desc))
    ensures config.product == 0 ==> (Selection.Selected(config, desc) <==> desc.vendor == config.vendor)
    ensures config.product == 0 ==> (Matches(config.vendor, config.product, desc) <==> desc.vendor == config.vendor && desc.product == 0)
  {
  }
}
