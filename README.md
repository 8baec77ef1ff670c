# Mijia sensor dashboard and logger: a Dafny model

The system has two parts:
- a BLE logger that listens for the advertisements of Xiaomi Mijia thermometers running a custom firmware, decodes them, and appends new readings to one SQLite store per device;
- a web server that reads each device's latest row and shows it as a card, with a battery icon, a dew-point caption and a "how long ago" label.

This project models the computational core of both parts and proves properties of it.

Server (`server/main.go`, `loadSensorData` and `plural`):
- `Freshness` is the relative-time label. Elapsed seconds are banded into "Up to date", minutes, hours and days, using Go's truncating division and `plural`. The label reads back to its band and count (`ReadAge`). An unparsable timestamp is passed through as it is.
- `Sensors` is the per-device record. It covers scaling by 1/100, the six-band battery icon chain and the dew-point caption.
- `Sensors` also holds the assembly loop over the configured devices, which appends one record per device even when the query failed. The records are then sorted in place by address.
- `LexOrder` is Go's string `<`. `Decimal` is Go's `%d` for the counts.

Logger (`logger/logger.py`, `callback` and the counter reset in `main`):
- `Unpack` is `struct.unpack` for little-endian unsigned layouts, with its inverse `Packed`.
- `Logger.Decode` validates and decodes the 15-byte service payload (`<HHHBBB` after the six address bytes).
- `Logger.MijiaLogger` keeps the last counter of every configured device. `Handle` is the callback: it filters on the lower-cased address, checks for one service UUID, service data under it and 15 bytes, and stores a row only when the counter changed.

The clock, the RFC 3339 parser (section 5.6 of RFC 3339, through Go's `time.Parse`) and the floating-point dew point and absolute humidity formulas are parameters (`Sensors.Externals`). The database query is an input: its success flag and the row that `Scan` left.

## Model

| member | source | states |
|---|---|---|
| `Freshness.Plural` | server/main.go:72-78 | `""` when the count is 1, `part` otherwise |
| `Freshness.AgeOf` | server/main.go:134-149 | under 60 s (negative included) is up to date; 60..3599 s is minutes, 3600..86399 s is hours and from 86400 s on is days; the count is the elapsed time divided by the unit, and it lies in 1..59, 1..23 or is at least 1 |
| `Freshness.ReadAgeText` | server/main.go:138-149 | every label reads back to the band and count it was formatted from |
| `Freshness.AgeTextInjective` | server/main.go:138-149 | two different bands or counts never give the same label |
| `Freshness.GoQuotTruncates` | server/main.go:135-137 | Go's integer division by a positive divisor truncates toward zero: the quotient times the divisor lies between 0 and the dividend, less than one divisor away from it, for negative dividends too |
| `Freshness.Unit` | server/main.go:141-148 | the text after the count starts with a space, and it carries the plural "s" exactly when the count is not 1 |
| `Freshness.AgeText` | server/main.go:138-148 | "Up to date" exactly for the up-to-date band; otherwise the text starts with the `%d` digits of the band's count, which end where the unit starts and spell the count back |
| `Freshness.RelativeTime` | server/main.go:132-153 | an unparsed timestamp gives the raw string verbatim; a parsed one gives exactly the band text `AgeText(AgeOf(now - timestamp))`, `%d` digits included, and that text reads back as the band and count of `now - timestamp` |
| `Freshness.UpToDateIff` | server/main.go:134-140 | the label is "Up to date" if and only if less than 60 s elapsed, including negative elapsed times from clock skew |
| `Freshness.AgoOnlyBelowOneDay` | server/main.go:141-149 | the label ends in " ago" exactly in the minute and hour bands; the day band has no "ago" |
| `Freshness.AgoInText` | server/main.go:141-148 | a band's text ends in " ago" exactly for minutes and hours |
| `Freshness.UpToDateExamples` | server/main.go:138-140 | -5 s and 59 s give "Up to date" |
| `Freshness.OneMinuteExamples` | server/main.go:141-143 | 60 s and 119 s give "1 Minute ago" |
| `Freshness.TwoMinutesExample` | server/main.go:141-143 | 120 s gives "2 Minutes ago" |
| `Freshness.OneHourExample` | server/main.go:144-146 | 3600 s gives "1 Hour ago" |
| `Freshness.TwoHoursExample` | server/main.go:144-146 | 7200 s gives "2 Hours ago" |
| `Freshness.OneDayExample` | server/main.go:147-148 | 86400 s gives "1 Day" |
| `Freshness.TwoDaysExample` | server/main.go:147-148 | 172800 s gives "2 Days" |
| `Freshness.UnparsedExamples` | server/main.go:150-153 | the unparsable timestamps "" and "yesterday" are shown unchanged |
| `Decimal.Format` | server/main.go:143-148 | `%d` of a count is a non-empty string of digits with no leading zero |
| `Decimal.ValueOfFormat` | server/main.go:143-148 | the digits `%d` writes spell the count back |
| `Decimal.LeadingDigitsOfPrefix` | server/main.go:143-148 | the digits of a count end where the following space starts |
| `LexOrder.Less` | server/main.go:159 | an address never sorts before an equal one |
| `LexOrder.LessAtFirstDifference` | server/main.go:159 | one address sorts before another exactly when it is a proper prefix of it, or when at the first position where they differ it has the smaller character |
| `LexOrder.Irreflexive` | server/main.go:158-160 | no address sorts before itself |
| `LexOrder.Asymmetric` | server/main.go:158-160 | two addresses never sort before each other |
| `LexOrder.Transitive` | server/main.go:158-160 | the order of addresses is transitive |
| `LexOrder.Total` | server/main.go:158-160 | of two different addresses one sorts first |
| `Sensors.BatteryIcon` | server/main.go:107-121 | the icon is one of the six band icons and never the "fa-battery-exclamation" placeholder |
| `Sensors.BatteryIconByThresholds` | server/main.go:107-121 | the first-match chain picks the icon indexed by how many of the thresholds 5, 15, 35, 65, 85 the level has reached |
| `Sensors.ReachedMonotone` | server/main.go:107-121 | a higher battery level never gets a lower band |
| `Sensors.BatteryIconEdges` | server/main.go:107-121 | 4 is "empty red", 5 is "empty yellow", 15 is "quarter", 35 is "half", 65 is "three-quarters", 85 is "full green", and so on at each band edge |
| `Sensors.DewPointText` | server/main.go:125-129 | "Freezing point" if and only if the temperature is below 0, otherwise "Dew point" |
| `Sensors.BuildSensor` | server/main.go:86-153 | the record carries the address and location. Temperature and humidity are the raw values divided by 100. The icon comes from the threshold count. The dew point is computed from humidity and temperature whatever the caption. The caption follows the sign of the raw temperature. The relative time is the raw timestamp when it does not parse, and otherwise exactly the band text `AgeText(AgeOf(now - timestamp))` of the elapsed time |
| `Sensors.FailedQueryRecord` | server/main.go:89-105 | a device whose query returned nothing still gets a record: zero readings, the "empty red" icon and an empty relative time |
| `Sensors.MinByMac` | server/main.go:158-160 | the index returned holds an address no later one in the range sorts before |
| `Sensors.SortByMac` | server/main.go:158-160 | after the in-place sort the records are ordered by address and are a permutation of the records before |
| `Sensors.SelectionStep` | server/main.go:158-160 | moving the least remaining record to the front of the unsorted part extends the sorted part |
| `Sensors.DistinctPermutation` | server/main.go:158-160 | a permutation of pairwise-different records has pairwise-different records |
| `Sensors.SortedRecords` | server/main.go:155-160 | sorting the distinct devices' records keeps exactly those records and orders them strictly by address |
| `Sensors.CollectRecords` | server/main.go:84-156 | the loop appends exactly one record per configured device, built from that device's row, whatever the map's order. A failed query is reported and its record is still appended |
| `Sensors.LoadSensorData` | server/main.go:80-160 | the result has one record per configured device, each built from its row, strictly ascending by address. The `failed` flag, which stands for the `http.Error` call at server/main.go:101-103, is set exactly when some device's query failed |
| `Unpack.LittleEndian` | logger/logger.py:59 | a little-endian field of n bytes is below 256^n |
| `Unpack.LittleEndianOfBytes` | logger/logger.py:59 | reading back the bytes of a value gives the value |
| `Unpack.BytesOfLittleEndian` | logger/logger.py:59 | writing out the value of some bytes gives the bytes |
| `Unpack.Unpacked` | logger/logger.py:59 | unpacking succeeds exactly when the data is as long as the layout, and every field fits its width |
| `Unpack.UnpackPacked` | logger/logger.py:59 | unpacking packed values gives the values back |
| `Unpack.PackUnpacked` | logger/logger.py:59 | packing unpacked fields gives the data back |
| `Logger.UnpackFields` | logger/logger.py:59 | `<HHHBBB` reads bytes 0-1, 2-3 and 4-5 as little-endian u16 and bytes 6, 7 and 8 as u8 |
| `Logger.Decode` | logger/logger.py:52-59 | a payload decodes exactly when it is 15 bytes long. Then temp = b[6]+256·b[7], humidity = b[8]+256·b[9], battery_mv = b[10]+256·b[11], battery_level = b[12], counter = b[13], flags = b[14] |
| `Logger.DecodeEncode` | logger/logger.py:56-59 | decoding an encoded packet gives the packet |
| `Logger.EncodeDecode` | logger/logger.py:52-59 | re-encoding a decoded 15-byte payload with its six address bytes gives the payload |
| `Logger.LowerChar` | logger/logger.py:37 | each of A-Z becomes the matching letter of a-z, at the same distance from the start of the alphabet; every other character is unchanged, and no upper-case ASCII letter is left |
| `Logger.LowerIdempotent` | logger/logger.py:37 | lower-casing an already lower-cased address changes nothing |
| `Logger.Lower` | logger/logger.py:37 | the lower-cased address has the same length and is lower-cased character by character |
| `Logger.Judge` | logger/logger.py:37-62 | a row is stored only for the lower-cased address of a configured device whose stored counter differs from the packet's |
| `Logger.Apply` | logger/logger.py:62-78 | no device is added or removed; only a stored packet's device changes, and its counter becomes the packet's |
| `Logger.StartCounters` | logger/logger.py:84-85 | the counters start with exactly the configured devices as keys, each at 0 |
| `Logger.MijiaLogger.constructor` | logger/logger.py:84-85 | every configured device's counter starts at 0 |
| `Logger.MijiaLogger.Handle` | logger/logger.py:32-78 | the callback does what `Judge` says, and the counters become `Apply` of that |
| `Logger.IgnoredUnlessConfigured` | logger/logger.py:37-40 | an unconfigured address is ignored: nothing is stored and no counter changes |
| `Logger.RejectedPackets` | logger/logger.py:42-54 | a packet without exactly one service UUID, or whose payload is not 15 bytes, is rejected, and a packet that is not stored changes no counter |
| `Logger.InsertIffCounterChanged` | logger/logger.py:62-78 | a well-formed packet is stored if and only if its counter differs from the stored one. The row is exactly (temp, humidity, battery_mv, battery_level). Afterwards the stored counter is the packet's |
| `Logger.RepeatStoredOnce` | logger/logger.py:62-78 | handling the same advertisement twice in a row stores it at most once, and the second time changes nothing |
| `Logger.OnlySenderChanges` | logger/logger.py:77-78 | every other device's counter is unchanged and the set of devices stays the same |
| `Logger.FirstZeroCounterSkipped` | logger/logger.py:84-85 | right after start-up, a packet carrying counter 0 is not stored, because every counter starts at 0 |
| `Logger.SensorPacketStored` | logger/logger.py:42-78 | right after start-up, a configured sensor's encoded packet under any single service UUID, with a non-zero counter, is stored with its own readings and counter; the same advertisement handled again is a repeat and is not stored |

## Left out

- `calcDewPoint` and `calcAbsHum` (server/main.go:50-70) use floating-point logarithm, exponential and rounding. They are parameters of `Sensors.Externals`, so the model only states which arguments they receive.
- Temperature and humidity are divided by 100 exactly, as reals. Go divides in float64, which can round the last bit. The sign, and so the dew-point caption, is the same either way.
- The SQL query and `Scan` are an input: a success flag and the row `Scan` left. A conversion error, such as a battery level that does not fit `int8`, is one way the flag can be false.
- `time.Now()` and `time.Parse(time.RFC3339, …)` are the `now` and `parse` parameters. The parser is not modelled. `Sensors.FailedQueryRecord` assumes that the empty string does not parse.
- The int64 subtraction `now - timestamp` is done without overflow. RFC 3339 years stay within 0000..9999, so it cannot overflow.
- `Sensors.LoadSensorData`: its `failed` flag stands only for the `http.Error` call after a failed query (server/main.go:101-103). The template parsing and rendering at server/main.go:163-167 are not modelled: neither the panic of `template.Must` nor the `http.Error` after a failed `Execute`. The routes are not modelled either.
- `loadConfig`, `main`'s opening of the stores, and the HTTP server are I/O and startup wiring.
- Go's map iteration order is a nondeterministic choice (`:|`) in `Sensors.CollectRecords`.
- `sort.Slice` is modelled by a selection sort. Go does not specify its algorithm. The addresses are distinct map keys, so every correct sort gives the same result.
- `Sensors.LoadSensorData`: the source's loop is split into `CollectRecords` and the sort. The source appends to a growing slice; the model builds a sequence and copies it into an array for the in-place sort.
- In the logger, these are not modelled: the BLE scanner, the aiosqlite connections, table creation, logging, reading `config.json`, and the asyncio event loop and lock. The lock-protected update is an ordinary sequential update.
- Concurrent callbacks that interleave between the counter check and the update could each insert. The model handles one callback at a time.
- A failing insert raises before the counter update, so that counter stays unchanged. The model treats the insert as always succeeding.
- `Logger.Lower` lower-cases ASCII letters only. Python's `str.lower` also folds other Unicode letters, which never occur in a BLE address.
- The reversed address slice (logger/logger.py:56) is never used. The model keeps the six address bytes only as the prefix that `Logger.Encode` takes.
- `Logger.Judge` treats a missing service-data entry as `NoServiceData`. In the source, that lookup raises `KeyError` and the callback stops, with no insert and no counter change.
- A failed query does not abort the run: the code reports an error and keeps the device's record, and the model does the same.
- The battery level is an `int8` and is classified into icon strings.
