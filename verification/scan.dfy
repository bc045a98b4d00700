/** The pure part of `scan_for_airpods` (src/main.rs): which manufacturer
    data a discovered peripheral hands to the decoder, and whose status the
    scan reports. The Bluetooth adapter, the scan start/stop calls and the
    sleep are left out; the peripherals' properties, as read after the scan
    window, are the input. */
module Scan {
  import opened Wrappers
  import opened AirPods

  /** A Bluetooth SIG company identifier (Rust's `u16`). */
  type CompanyId = bv16

  /** The company identifier of Apple Inc. */
  const AppleManufacturerId: CompanyId := 0x004C

  /** A peripheral's manufacturer data, keyed by company identifier. */
  type ManufacturerData = map<CompanyId, seq<Byte>>

  /** The admission check: the data is keyed by Apple's company identifier
      and is exactly as long as an AirPods payload. */
  predicate Admits(company: CompanyId, data: seq<Byte>) {
    company == AppleManufacturerId && |data| == AirPodsDataLength
  }

  /** The payload a peripheral's manufacturer data offers the decoder: the
      Apple entry, when there is one of the right length. */
  function AdmittedData(md: ManufacturerData): (r: Option<seq<Byte>>)
    ensures r.Some? <==> exists c :: c in md && Admits(c, md[c])
    ensures r.Some? ==> AppleManufacturerId in md && r.value == md[AppleManufacturerId]
    ensures r.Some? ==> |r.value| == AirPodsDataLength
  {
    if AppleManufacturerId in md && |md[AppleManufacturerId]| == AirPodsDataLength then
      Some(md[AppleManufacturerId])
    else
      None
  }

  /** Admitted data always decodes: the decoder's own length check never
      rejects what the admission check let through. */
  lemma AdmittedDataDecodes(company: CompanyId, data: seq<Byte>)
    requires Admits(company, data)
    ensures ParseAirPodsData(data).Some?
  {
  }

  /** A peripheral's properties: None when the read succeeded but returned
      no properties. A failed read aborts the Rust scan and is not modelled. */
  type Peripheral = Option<ManufacturerData>

  /** The status one peripheral yields: its admitted payload, decoded. */
  function PeripheralStatus(p: Peripheral): Option<AirPodsStatus> {
    match p
    case None => None
    case Some(md) =>
      match AdmittedData(md)
      case None => None
      case Some(data) => ParseAirPodsData(data)
  }

  /** A peripheral whose readable properties carry admitted data. */
  predicate IsCandidate(p: Peripheral) {
    p.Some? && AdmittedData(p.value).Some?
  }

  /** Reference definition of the scan's answer: the status of the first
      peripheral, in discovery order, that yields one. */
  function FirstStatus(peripherals: seq<Peripheral>): (r: Option<AirPodsStatus>)
    ensures r.None? <==> forall i :: 0 <= i < |peripherals| ==> !IsCandidate(peripherals[i])
    ensures r.Some? ==>
              exists i :: && 0 <= i < |peripherals|
                          && IsCandidate(peripherals[i])
                          && (forall j :: 0 <= j < i ==> !IsCandidate(peripherals[j]))
                          && r == PeripheralStatus(peripherals[i])
    decreases |peripherals|
  {
    if |peripherals| == 0 then None
    else
      var first := PeripheralStatus(peripherals[0]);
      if first.Some? then first
      else
        var r := FirstStatus(peripherals[1..]);
        assert forall i :: 1 <= i < |peripherals| ==> peripherals[i] == peripherals[1..][i - 1];
        r
  }

  /** The selection loop of the scan: walks the peripherals in discovery
      order and stops at the first whose admitted data decodes. */
  method ScanPeripherals(peripherals: seq<Peripheral>) returns (r: Option<AirPodsStatus>)
    ensures r == FirstStatus(peripherals)
  {
    var i := 0;
    while i < |peripherals|
      invariant 0 <= i <= |peripherals|
      invariant FirstStatus(peripherals) == FirstStatus(peripherals[i..])
    {
      var p := peripherals[i];
      if p.Some? {
        var md := p.value;
        if AppleManufacturerId in md {
          var data := md[AppleManufacturerId];
          if |data| == AirPodsDataLength {
            var status := ParseAirPodsData(data);
            if status.Some? {
              return status;
            }
          }
        }
      }
      assert peripherals[i..][1..] == peripherals[i + 1..];
      i := i + 1;
    }
    return None;
  }
}
