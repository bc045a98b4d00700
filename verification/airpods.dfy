/** Decoding of the 27-byte Apple manufacturer-data payload that AirPods
    broadcast, into a model name, three battery levels and three charging
    flags (`parse_airpods_data` and `battery_level` in src/main.rs). */
module AirPods {
  import opened Wrappers

  type Byte = bv8

  /** Rust's `i8`: the type a masked battery nibble is cast to. */
  newtype i8 = x: int | -128 <= x < 128

  /** Rust's `u8`: the type of a battery percentage. Arithmetic on it is
      checked against the range, so an overflow would fail verification. */
  newtype u8 = x: int | 0 <= x < 256

  /** The only payload length the decoder accepts. */
  const AirPodsDataLength: nat := 27

  /** Byte offsets the decoder reads. The two pod batteries are "first" and
      "second" because the flip bit decides which of them is the left one. */
  const ModelByte: nat := 7
  const FlipByte: nat := 10
  const FirstPodByte: nat := 12
  const SecondPodByte: nat := 13
  const ChargingByte: nat := 14
  const CaseByte: nat := 15

  /** Masks within the flip byte and the charging byte. */
  const FlipMask: Byte := 0x02
  const ChargingFirstMask: Byte := 0x01
  const ChargingSecondMask: Byte := 0x02
  const ChargingCaseMask: Byte := 0x04

  /** The decoded status, one field per field of Rust's `AirPodsStatus`.
      Battery levels are percentages, absent when the pod or case reports no
      level. */
  datatype AirPodsStatus = AirPodsStatus(
    model: string,
    left: Option<u8>,
    right: Option<u8>,
    caseBattery: Option<u8>,
    chargingLeft: bool,
    chargingRight: bool,
    chargingCase: bool)

  // ---------------------------------------------------------------------------
  // Battery levels
  // ---------------------------------------------------------------------------

  /** The percentages a battery code can denote, indexed by the code. */
  const PercentTable: seq<u8> := [5, 15, 25, 35, 45, 55, 65, 75, 85, 95, 100]

  /** A percentage that some battery code denotes. */
  predicate IsBatteryPercent(p: u8) {
    p == 100 || (5 <= p <= 95 && p % 10 == 5)
  }

  /** An optional battery field the decoder can produce. */
  predicate IsBatteryField(o: Option<u8>) {
    o.None? || IsBatteryPercent(o.value)
  }

  /** Maps a raw battery code to a percentage: codes 0..9 step by ten from
      5%, code 10 is full, and every other code (the 15 "not connected"
      sentinel, the undefined 11..14, and negative values) is absent. */
  function BatteryLevel(raw: i8): (r: Option<u8>)
    ensures r.Some? <==> 0 <= raw <= 10
    ensures r.Some? ==> 5 <= r.value <= 100 && IsBatteryPercent(r.value)
  {
    if raw == 10 then Some(100)
    else if 0 <= raw <= 9 then Some((raw as u8) * 10 + 5)
    else None
  }

  /** BatteryLevel agrees with the percentage table on every code. */
  lemma BatteryLevelMatchesTable(raw: i8)
    ensures BatteryLevel(raw) ==
              if 0 <= raw as int < |PercentTable| then Some(PercentTable[raw]) else None
  {
  }

  /** Higher codes mean strictly higher percentages, so no two codes share a
      percentage and the code can be recovered from the level. */
  lemma BatteryLevelStrictlyIncreasing(a: i8, b: i8)
    requires 0 <= a < b <= 10
    ensures BatteryLevel(a).Some? && BatteryLevel(b).Some?
    ensures BatteryLevel(a).value < BatteryLevel(b).value
  {
  }

  /** The code that denotes a battery field: the inverse of BatteryLevel,
      with 15 ("not connected") for an absent level. */
  function BatteryCode(o: Option<u8>): (code: Byte)
    requires IsBatteryField(o)
    ensures code <= 0x0F
  {
    match o
    case None => 0x0F
    case Some(p) => if p == 100 then 0x0A else ((p - 5) / 10) as Byte
  }

  /** The low four bits of a byte, cast to `i8` as the decoder does. */
  function LowNibble(b: Byte): (n: i8)
    ensures 0 <= n <= 15
  {
    (b & 0x0F) as i8
  }

  /** Encoding a battery field and decoding it gives the field back. */
  lemma BatteryCodeRoundTrip(o: Option<u8>)
    requires IsBatteryField(o)
    ensures BatteryLevel(LowNibble(BatteryCode(o))) == o
  {
  }

  // ---------------------------------------------------------------------------
  // Model names
  // ---------------------------------------------------------------------------

  /** The name reported for a model byte that is not in the table. */
  const GenericModelName: string := "AirPods"

  /** The known model bytes and their names, as a reference table. */
  const ModelTable: seq<(Byte, string)> := [
    (0x0e, "AirPods Pro"),
    (0x03, "AirPods 3"),
    (0x0f, "AirPods 2"),
    (0x02, "AirPods 1"),
    (0x0a, "AirPods Max")
  ]

  /** A model byte listed in the table. */
  predicate IsKnownModelCode(code: Byte) {
    exists i :: 0 <= i < |ModelTable| && ModelTable[i].0 == code
  }

  /** A model name the decoder can report. */
  predicate IsModelName(name: string) {
    name == GenericModelName || exists i :: 0 <= i < |ModelTable| && ModelTable[i].1 == name
  }

  /** Names the model from byte 7; an unknown byte falls back to the generic
      name rather than failing. */
  function ModelName(code: Byte): string {
    match code
    case 0x0e => "AirPods Pro"
    case 0x03 => "AirPods 3"
    case 0x0f => "AirPods 2"
    case 0x02 => "AirPods 1"
    case 0x0a => "AirPods Max"
    case _ => "AirPods"
  }

  /** ModelName agrees with the reference table: a listed byte gets its
      listed name, and any other byte gets the generic name. */
  lemma ModelNameMatchesTable(code: Byte)
    ensures forall i | 0 <= i < |ModelTable| :: ModelTable[i].0 == code ==> ModelName(code) == ModelTable[i].1
    ensures !IsKnownModelCode(code) ==> ModelName(code) == GenericModelName
    ensures IsModelName(ModelName(code))
  {
    match code
    case 0x0e => assert ModelTable[0].0 == code;
    case 0x03 => assert ModelTable[1].0 == code;
    case 0x0f => assert ModelTable[2].0 == code;
    case 0x02 => assert ModelTable[3].0 == code;
    case 0x0a => assert ModelTable[4].0 == code;
    case _ =>
  }

  /** A known model byte is identified by its name: no two model bytes in
      the table share a name, and none of them is named generically. */
  lemma ModelNameIdentifiesKnownCode(a: Byte, b: Byte)
    requires IsKnownModelCode(a)
    ensures ModelName(a) != GenericModelName
    ensures ModelName(a) == ModelName(b) <==> a == b
  {
  }

  /** A model byte that names `name`: the inverse of ModelName, choosing a
      byte outside the table for the generic name. */
  function ModelCode(name: string): (code: Byte)
    requires IsModelName(name)
    ensures ModelName(code) == name
  {
    if name == "AirPods Pro" then 0x0e
    else if name == "AirPods 3" then 0x03
    else if name == "AirPods 2" then 0x0f
    else if name == "AirPods 1" then 0x02
    else if name == "AirPods Max" then 0x0a
    else 0x00
  }

  // ---------------------------------------------------------------------------
  // The decoder
  // ---------------------------------------------------------------------------

  /** The flip flag: set when bit 0x02 of the flip byte is clear. */
  predicate Flipped(flipByte: Byte) {
    flipByte & FlipMask == 0
  }

  /** A status that the decoder can produce. */
  predicate IsDecodable(s: AirPodsStatus) {
    && IsModelName(s.model)
    && IsBatteryField(s.left)
    && IsBatteryField(s.right)
    && IsBatteryField(s.caseBattery)
  }

  /** Decodes a manufacturer-data payload. Any length other than 27 gives
      None; every 27-byte payload gives a status. The flip flag decides
      whether byte 12 or byte 13 is the left pod, and whether charging bit
      0x01 or 0x02 is the left one; the case battery and case charging bit
      are not affected by it. */
  function ParseAirPodsData(data: seq<Byte>): (r: Option<AirPodsStatus>)
    ensures r.Some? <==> |data| == AirPodsDataLength
    ensures r.Some? ==> IsDecodable(r.value)
    ensures r.Some? ==> r.value.model == ModelName(data[ModelByte])
    ensures r.Some? ==> r.value.caseBattery == BatteryLevel(LowNibble(data[CaseByte]))
    ensures r.Some? ==> (r.value.chargingCase <==> data[ChargingByte] & ChargingCaseMask != 0)
  {
    if |data| != AirPodsDataLength then None
    else
      var flip := Flipped(data[FlipByte]);
      var model := ModelName(data[ModelByte]);
      var (leftPos, rightPos) := if flip then (SecondPodByte, FirstPodByte)
                                 else (FirstPodByte, SecondPodByte);
      var left := BatteryLevel(LowNibble(data[leftPos]));
      var right := BatteryLevel(LowNibble(data[rightPos]));
      var caseBattery := BatteryLevel(LowNibble(data[CaseByte]));
      var chargingStatus := data[ChargingByte];
      var chargingLeft := if flip then chargingStatus & ChargingSecondMask != 0
                          else chargingStatus & ChargingFirstMask != 0;
      var chargingRight := if flip then chargingStatus & ChargingFirstMask != 0
                           else chargingStatus & ChargingSecondMask != 0;
      var chargingCase := chargingStatus & ChargingCaseMask != 0;
      ModelNameMatchesTable(data[ModelByte]);
      Some(AirPodsStatus(model, left, right, caseBattery,
                         chargingLeft, chargingRight, chargingCase))
  }

  // ---------------------------------------------------------------------------
  // Properties of the decoder
  // ---------------------------------------------------------------------------

  /** With bit 0x02 of byte 10 clear, the left pod is byte 13 and charging
      bit 0x02; with it set, the left pod is byte 12 and charging bit 0x01. */
  lemma FlipBitSelectsOrientation(data: seq<Byte>)
    requires |data| == AirPodsDataLength
    ensures var s := ParseAirPodsData(data).value;
            if data[10] & 0x02 == 0 then
              && s.left == BatteryLevel(LowNibble(data[13]))
              && s.right == BatteryLevel(LowNibble(data[12]))
              && (s.chargingLeft <==> data[14] & 0x02 != 0)
              && (s.chargingRight <==> data[14] & 0x01 != 0)
            else
              && s.left == BatteryLevel(LowNibble(data[12]))
              && s.right == BatteryLevel(LowNibble(data[13]))
              && (s.chargingLeft <==> data[14] & 0x01 != 0)
              && (s.chargingRight <==> data[14] & 0x02 != 0)
  {
  }

  /** Toggling the flip bit swaps left and right, both battery and charging,
      and changes nothing else. */
  lemma FlipSwapsSides(data: seq<Byte>)
    requires |data| == AirPodsDataLength
    ensures var s := ParseAirPodsData(data).value;
            var t := ParseAirPodsData(data[FlipByte := data[FlipByte] ^ FlipMask]).value;
            t == s.(left := s.right, right := s.left,
                    chargingLeft := s.chargingRight, chargingRight := s.chargingLeft)
  {
  }

  /** Two payloads that agree on the bits the decoder reads: byte 7, bit
      0x02 of byte 10, the low nibbles of bytes 12, 13 and 15, and bits
      0x01, 0x02 and 0x04 of byte 14. */
  predicate SameDecodedBits(a: seq<Byte>, b: seq<Byte>)
    requires |a| == |b| == AirPodsDataLength
  {
    && a[ModelByte] == b[ModelByte]
    && a[FlipByte] & FlipMask == b[FlipByte] & FlipMask
    && a[FirstPodByte] & 0x0F == b[FirstPodByte] & 0x0F
    && a[SecondPodByte] & 0x0F == b[SecondPodByte] & 0x0F
    && a[CaseByte] & 0x0F == b[CaseByte] & 0x0F
    && a[ChargingByte] & 0x07 == b[ChargingByte] & 0x07
  }

  /** Only the bits named by SameDecodedBits influence the status. */
  lemma DecodedBitsDetermineStatus(a: seq<Byte>, b: seq<Byte>)
    requires |a| == |b| == AirPodsDataLength
    requires SameDecodedBits(a, b)
    ensures ParseAirPodsData(a) == ParseAirPodsData(b)
  {
  }

  /** Rewriting the high nibble of a battery byte (12, 13 or 15) leaves the
      whole status, and so every battery field, unchanged. */
  lemma HighNibbleIgnored(data: seq<Byte>, i: nat, v: Byte)
    requires |data| == AirPodsDataLength
    requires i == FirstPodByte || i == SecondPodByte || i == CaseByte
    requires v & 0x0F == data[i] & 0x0F
    ensures ParseAirPodsData(data[i := v]) == ParseAirPodsData(data)
  {
    DecodedBitsDetermineStatus(data[i := v], data);
  }

  /** Rewriting any bits of byte 14 other than 0x01, 0x02 and 0x04 leaves
      the status unchanged. */
  lemma OtherChargingBitsIgnored(data: seq<Byte>, v: Byte)
    requires |data| == AirPodsDataLength
    requires v & 0x07 == data[ChargingByte] & 0x07
    ensures ParseAirPodsData(data[ChargingByte := v]) == ParseAirPodsData(data)
  {
    DecodedBitsDetermineStatus(data[ChargingByte := v], data);
  }

  /** Builds a 27-byte payload that carries `s`, oriented by `flip`, with
      every byte the decoder ignores set to zero. */
  function Encode(s: AirPodsStatus, flip: bool): (data: seq<Byte>)
    requires IsDecodable(s)
    ensures |data| == AirPodsDataLength
  {
    var first := if flip then s.right else s.left;
    var second := if flip then s.left else s.right;
    var chargingFirst := if flip then s.chargingRight else s.chargingLeft;
    var chargingSecond := if flip then s.chargingLeft else s.chargingRight;
    var charging := (if chargingFirst then ChargingFirstMask else 0)
                    | (if chargingSecond then ChargingSecondMask else 0)
                    | (if s.chargingCase then ChargingCaseMask else 0);
    seq(AirPodsDataLength, i =>
      if i == ModelByte then ModelCode(s.model)
      else if i == FlipByte then (if flip then 0 else FlipMask)
      else if i == FirstPodByte then BatteryCode(first)
      else if i == SecondPodByte then BatteryCode(second)
      else if i == ChargingByte then charging
      else if i == CaseByte then BatteryCode(s.caseBattery)
      else 0)
  }

  /** Every status the decoder can produce is decoded back from its
      encoding, in either orientation: the decoder loses nothing a status
      can express. */
  lemma EncodeParseRoundTrip(s: AirPodsStatus, flip: bool)
    requires IsDecodable(s)
    ensures ParseAirPodsData(Encode(s, flip)) == Some(s)
  {
    var data := Encode(s, flip);
    BatteryCodeRoundTrip(s.left);
    BatteryCodeRoundTrip(s.right);
    BatteryCodeRoundTrip(s.caseBattery);
    assert data[ModelByte] == ModelCode(s.model);
    assert Flipped(data[FlipByte]) == flip;
  }
}
