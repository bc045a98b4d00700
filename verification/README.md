# AirPods advertisement decoder (podpower), modelled in Dafny

`podpower` is a command-line tool. It scans for Bluetooth Low Energy
advertisements and reports the battery and charging status of nearby AirPods.
This project models its core in `src/main.rs`:

- `parse_airpods_data` decodes the 27-byte Apple manufacturer-data payload into
  an `AirPodsStatus` record. The record holds a model name, left, right and case
  battery percentages, and three charging flags.
- `battery_level` maps a 4-bit battery code to an optional percentage.
- The admission check in the scan loop accepts only data keyed by Apple's company
  identifier `0x004C` that is exactly 27 bytes long.
- The selection logic of the scan loop reports the status of the first discovered
  peripheral whose admitted data decodes.

Files:

- `wrappers.dfy` (module `Wrappers`): the `Option` datatype.
- `airpods.dfy` (module `AirPods`): the status record, `BatteryLevel`,
  `ModelName`, `ParseAirPodsData`, and their properties.
- `scan.dfy` (module `Scan`): the admission check and the selection of the first
  decodable peripheral.

Bytes are `bv8`, so masks such as `& 0x02` and `& 0x0f` mean exactly what they
mean in Rust. The masked nibble is cast to Rust's `i8`, modelled as a newtype,
before `battery_level` sees it. The percentage is a `u8` newtype, so
`(raw as u8) * 10 + 5` is range-checked and cannot overflow. Every index the
decoder reads lies between 7 and 15. Dafny checks each one against the
27-byte length, so the decoder never indexes outside the payload.

Reference definitions used in the lemmas:

- a table of percentages indexed by battery code;
- a table of model bytes and their names;
- an encoder `Encode` that builds a payload from a status, used for a round-trip
  lemma;
- a recursive reference definition `FirstStatus` for the scan loop.

The payload layout that `parse_airpods_data` reads:

- The model comes from byte 7. Five codes are known: `0x0e`, `0x03`, `0x0f`,
  `0x02` and `0x0a`. Every other value gives the generic name.
- The flip flag is bit `0x02` of byte 10.
- The pod batteries are the low nibbles of bytes 12 and 13. The case battery is
  the low nibble of byte 15.
- The charging flags are bits `0x01`, `0x02` and `0x04` of byte 14.
- Every model, AirPods Max (`0x0a`) included, gets the same record shape. A
  disconnected battery never makes the decode fail.

## Model

| member | source | states |
|---|---|---|
| AirPods.BatteryLevel | src/main.rs:152-158 | A code has a level exactly when it is 0..10. Every level is 5..100 and is 100 or ends in 5, so the u8 arithmetic never overflows. |
| AirPods.BatteryLevelMatchesTable | src/main.rs:152-158 | Codes 0..10 give 5, 15, ..., 95, 100 in order. Every other `i8` code, including 11..15 and negative values, gives None. |
| AirPods.BatteryLevelStrictlyIncreasing | src/main.rs:152-158 | A higher code gives a strictly higher percentage, so different codes never share a level. |
| AirPods.BatteryCodeRoundTrip | src/main.rs:119-125 | Every level the decoder can report, including absent, has a nibble code that decodes back to it. |
| AirPods.ModelNameMatchesTable | src/main.rs:106-114 | Byte 7 values 0x0e, 0x03, 0x0f, 0x02 and 0x0a give "AirPods Pro", "AirPods 3", "AirPods 2", "AirPods 1" and "AirPods Max". Every other value gives the generic "AirPods". |
| AirPods.ModelNameIdentifiesKnownCode | src/main.rs:107-114 | A known model byte never gets the generic name, and no other byte gets the same name. |
| AirPods.ModelCode | src/main.rs:107-114 | Every name the decoder can report is produced by some model byte. |
| AirPods.ParseAirPodsData | src/main.rs:98-150 | Returns None exactly when the length is not 27, and a status for every 27-byte payload. The model depends only on byte 7. The case level is the low nibble of byte 15. The case charging flag is exactly bit 0x04 of byte 14. Every field is a value a status can hold. |
| AirPods.FlipBitSelectsOrientation | src/main.rs:103-138 | With bit 0x02 of byte 10 clear, left comes from byte 13 and charging bit 0x02, and right from byte 12 and bit 0x01. With the bit set, the sides are the other way round. |
| AirPods.FlipSwapsSides | src/main.rs:104-139 | Toggling bit 0x02 of byte 10 swaps the left and right levels and the left and right charging flags. The model, the case level and the case charging flag stay the same. |
| AirPods.DecodedBitsDetermineStatus | src/main.rs:98-150 | Two 27-byte payloads that agree on the bits the decoder reads give the same status. Those bits are byte 7, bit 0x02 of byte 10, the low nibbles of bytes 12, 13 and 15, and bits 0x07 of byte 14. |
| AirPods.HighNibbleIgnored | src/main.rs:119-121 | Changing the high nibble of byte 12, 13 or 15 leaves the status unchanged. |
| AirPods.OtherChargingBitsIgnored | src/main.rs:127-139 | Changing bits of byte 14 other than 0x01, 0x02 and 0x04 leaves the status unchanged. |
| AirPods.EncodeParseRoundTrip | src/main.rs:98-150 | Encode any status the decoder can produce into a payload, in either flip orientation, and the decoder returns that same status. |
| Scan.AdmittedData | src/main.rs:82-84 | Data is offered to the decoder exactly when some entry is keyed by 0x004C and is 27 bytes long. The data offered is that Apple entry. |
| Scan.AdmittedDataDecodes | src/main.rs:83-85 | Admitted data always decodes to a status. |
| Scan.FirstStatus | src/main.rs:78-95 | The scan's answer is None exactly when no peripheral has admitted data. Otherwise it is the decoded status of the first such peripheral in discovery order. |
| Scan.ScanPeripherals | src/main.rs:78-95 | The loop returns the same answer as FirstStatus: the status of the first peripheral, in discovery order, whose Apple entry is 27 bytes long, or None if there is none. |

## Left out

- `main` (src/main.rs:23-54): argument parsing, the JSON or plain-text choice and the exit codes are I/O.
- `print_plain_text` (src/main.rs:160-186): console output.
- The serde `Serialize`/`Deserialize` derives and `serde_json` rendering: library-generated serialisation.
- Adapter discovery, `start_scan`, `stop_scan`, the three-second sleep and `properties()` in `scan_for_airpods` (src/main.rs:57-75, 79, 86, 94): foreign async calls and radio I/O. The peripherals' properties, as read after the scan window, are the input of `Scan.ScanPeripherals`. `properties()` returning `Ok(None)` is `None`; an `Err` aborts the Rust scan and has no counterpart here, and neither do the other errors these calls propagate with `?`.
