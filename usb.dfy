/** The USB enumerator of flasher/process.py (`FindClass`,
    `usb_storage_devices`) and its earlier copy in flasher.py (`find_class`).
    The descriptor tree that pyusb exposes is given as plain data. */
module Usb {

  /** USB class code of mass-storage devices and interfaces. */
  const MASS_STORAGE: int := 8

  /** An interface descriptor (every alternate setting is listed). */
  datatype Interface = Interface(bInterfaceClass: int)

  datatype Configuration = Configuration(interfaces: seq<Interface>)

  datatype Device = Device(
    idVendor: int,
    idProduct: int,
    portNumber: int,
    address: int,
    bDeviceClass: int,
    configurations: seq<Configuration>)

  /** `(idVendor, idProduct, port_number, address)`. */
  type Identity = (int, int, int, int)

  function IdentityOf(d: Device): Identity {
    (d.idVendor, d.idProduct, d.portNumber, d.address)
  }

  /** `usb.util.find_descriptor(cfg, bInterfaceClass=cls) is not None`. */
  function HasInterfaceClass(ifaces: seq<Interface>, cls: int): (r: bool)
    ensures r <==> exists i :: 0 <= i < |ifaces| && ifaces[i].bInterfaceClass == cls
  {
    if ifaces == [] then false
    else ifaces[0].bInterfaceClass == cls || HasInterfaceClass(ifaces[1..], cls)
  }

  /** The loop over the configurations of `FindClass.__call__`. */
  function AnyConfigurationHas(cfgs: seq<Configuration>, cls: int): (r: bool)
    ensures r <==> exists c, i :: 0 <= c < |cfgs| && 0 <= i < |cfgs[c].interfaces|
                                  && cfgs[c].interfaces[i].bInterfaceClass == cls
  {
    if cfgs == [] then false
    else if HasInterfaceClass(cfgs[0].interfaces, cls) then true
    else
      var r := AnyConfigurationHas(cfgs[1..], cls);
      assert forall c :: 1 <= c < |cfgs| ==> cfgs[c] == cfgs[1..][c - 1];
      r
  }

  /** `FindClass(cls)(device)`: the device-level class matches, or some
      interface of some configuration does. */
  function FindClass(cls: int, d: Device): (r: bool)
    ensures r <==> || d.bDeviceClass == cls
                   || exists c, i :: 0 <= c < |d.configurations|
                                     && 0 <= i < |d.configurations[c].interfaces|
                                     && d.configurations[c].interfaces[i].bInterfaceClass == cls
  {
    if d.bDeviceClass == cls then true else AnyConfigurationHas(d.configurations, cls)
  }

  /** `usb_storage_devices()`: identities of the attached mass-storage
      devices, in enumeration order. */
  function StorageDevices(attached: seq<Device>): (r: seq<Identity>)
    ensures |r| <= |attached|
    ensures forall x :: x in r <==> exists d :: d in attached && FindClass(MASS_STORAGE, d) && IdentityOf(d) == x
  {
    if attached == [] then []
    else
      var rest := StorageDevices(attached[1..]);
      assert forall d :: d in attached <==> d == attached[0] || d in attached[1..];
      if FindClass(MASS_STORAGE, attached[0]) then [IdentityOf(attached[0])] + rest else rest
  }
}
