/**
 * The parts of the USB library the scanner code reads: device descriptors
 * as a tree (configurations, interfaces, alternate setups, endpoints) and
 * `ListDevices`, which keeps the attached devices a predicate selects. The
 * library's own behaviour (opening devices, decoding endpoint addresses)
 * is not modelled; a device list is an input.
 */
module Usb {
  import opened Common

  datatype Direction = In | Out

  /** An endpoint, with its number and direction already decoded from the address. */
  datatype EndpointInfo = EndpointInfo(number: uint8, direction: Direction)

  /** One alternate setting of an interface. */
  datatype InterfaceSetup = InterfaceSetup(number: uint8, alternate: uint8, endpoints: seq<EndpointInfo>)

  datatype InterfaceInfo = InterfaceInfo(number: uint8, setups: seq<InterfaceSetup>)

  datatype ConfigInfo = ConfigInfo(config: uint8, interfaces: seq<InterfaceInfo>)

  /** A device descriptor: where the device sits, its ids and its configuration tree. */
  datatype Descriptor = Descriptor(bus: uint8, address: uint8, vendor: uint16, product: uint16, configs: seq<ConfigInfo>)

  /** An opened device, with the read timeout the library applies to its endpoints. */
  datatype Device = Device(descriptor: Descriptor, readTimeout: int)

  /** `ctx.ListDevices(selected)`: the attached devices whose descriptor is selected, in the order they are attached. */
  function ListDevices(attached: seq<Device>, selected: Descriptor -> bool): (r: seq<Device>)
    ensures |r| <= |attached|
    ensures forall d :: d in r <==> d in attached && selected(d.descriptor)
  {
    if attached == [] then []
    else (if selected(attached[0].descriptor) then [attached[0]] else []) + ListDevices(attached[1..], selected)
  }

  /** The listing keeps the attached order: listing a concatenation lists each part in turn. */
  lemma {:induction false} ListDevicesAppend(a: seq<Device>, b: seq<Device>, selected: Descriptor -> bool)
    ensures ListDevices(a + b, selected) == ListDevices(a, selected) + ListDevices(b, selected)
  {
    if a == [] {
      assert a + b == b;
    } else {
      assert (a + b)[0] == a[0] && (a + b)[1..] == a[1..] + b;
      ListDevicesAppend(a[1..], b, selected);
      SeqAssoc(if selected(a[0].descriptor) then [a[0]] else [], ListDevices(a[1..], selected), ListDevices(b, selected));
    }
  }

  /** The listing is empty exactly when no attached device is selected. */
  lemma ListDevicesEmptyIff(attached: seq<Device>, selected: Descriptor -> bool)
    ensures ListDevices(attached, selected) == [] <==> forall k :: 0 <= k < |attached| ==> !selected(attached[k].descriptor)
  {
    if ListDevices(attached, selected) != [] {
      var d := ListDevices(attached, selected)[0];
      assert d in ListDevices(attached, selected);
    } else {
      forall k | 0 <= k < |attached| ensures !selected(attached[k].descriptor) {
        assert attached[k] in attached;
      }
    }
  }
}
