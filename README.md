# GPS tracker dashboard rules, in Dafny

This project models the logic inside a small Next.js dashboard for GPS trackers:

- the per-field schema a tracker reading must satisfy, written as a validator that collects one
  issue per failing field, as zod version 4 reports them;
- the derived values the reading popup and the map show: km/h from knots, a clamped battery
  percentage after a fixed 284 mV offset, a six-grade dilution-of-precision label, the fix
  label, an s/m/h/d age label and the 95% accuracy radius;
- the split of a newest-first history into the latest marker, the accuracy circles and the line;
- the "last ping" cell of the device list, with its label and urgency colour;
- the owner-checked history query: session, parameter and ownership guards, then filter by key,
  sort newest first with ties broken by descending id, keep 500 and serialise;
- the masked API-key prefix, and the add-device dialog's name rule and state.

The current time is an integer number of milliseconds passed in as a parameter. Numeric reading
fields are `real`. The session, the key-to-owner lookup, the stored readings and the ISO date
formatter are parameters of the history query.

Modules, one per source file plus shared helpers:

- `Wrappers`: `Option` and `Result`.
- `Json`: the raw value a field may hold (number, string, object, anything else).
- `Decimal`: how JavaScript prints an integer, with a parse function that inverts it.
- `ObjectId`: the 12-byte document id and its 24-digit hex text.
- `Elapsed`: seconds to an amount and a unit, shared by the age label and the last-ping cell.
- `TrackerReading`: `app/api/device/types.ts`.
- `TrackerPopup`: `components/tracker-popup.tsx`.
- `MarkerHistory`: `components/marker-history.tsx`.
- `LastPing`: `components/cells/last-ping.tsx`. The cell is a method with the source's local
  variables and if-chains. It is proved equal to a function of the direct floor divisions.
- `DeviceHistory`: `app/dashboard/functions.tsx`.
- `ApiStart`: `components/cells/api-start.tsx`.
- `AddDevice`: `components/add-device.tsx`. The dialog is a class whose methods update
  `open`, `apiKey` and `name`.

Behaviour worth noting:

- History ties are broken by descending `_id`.
- The circles use a range error of 7 m. The comment beside that line says 5 m.
- The key view of the add-device dialog is shown for a truthy key, so an empty key shows the
  name field.
- The device POST handler neither validates nor stores a reading, so there is no ingestion step
  in the model.

## Model

| member | source | states |
|---|---|---|
| TrackerReading.ValidateSucceedsIff | app/api/device/types.ts:4-38 | A raw value is accepted exactly when it is an object and no field of the schema fails its rule. |
| TrackerReading.ValidateCollectsIssues | app/api/device/types.ts:4-38 | A rejected object gets one issue per failing field and none for any other field. Every issue is that field's own issue, and no two issues share a path, so checking does not stop at the first failure. |
| TrackerReading.IssueAtPathIff | app/api/device/types.ts:4-38 | A field fails exactly when the issue list has an entry whose path is that field's key. |
| TrackerReading.IssuePathsDistinct | app/api/device/types.ts:4-38 | No two issues of one validation name the same field. |
| TrackerReading.CollectSound | app/api/device/types.ts:4-38 | The collected issues are exactly the issues the per-field checks produce, and the list is empty exactly when every check passes. |
| TrackerReading.CollectLabelsDistinct | app/api/device/types.ts:4-38 | Collecting over distinct fields whose issues carry distinct tags gives issues with distinct tags. |
| TrackerReading.CollectNamed | app/api/device/types.ts:4-38 | A field's check fails exactly when some collected issue carries that field's name. |
| TrackerReading.CollectedAtPathIff | app/api/device/types.ts:4-38 | Over the schema's field list, a field fails exactly when some collected issue has its key as path. |
| TrackerReading.FieldIssuePath | app/api/device/types.ts:4-38 | The issue of a failing field has the one-element path made of that field's key. |
| TrackerReading.PathNamesField | app/api/device/types.ts:4-38 | An issue path names exactly one field. |
| TrackerReading.ValidateKeepsValues | app/api/device/types.ts:4-41 | An accepted reading holds, field for field, the value the input held under that key. |
| TrackerReading.BuildFieldValue | app/api/device/types.ts:4-41 | A field that passes its rule is copied unchanged into the reading. |
| TrackerReading.ValidateEnsuresValidReading | app/api/device/types.ts:4-41 | Every accepted reading satisfies all the schema's range and literal constraints. |
| TrackerReading.ValidFromChecks | app/api/device/types.ts:4-38 | A reading that every field rule accepts satisfies the whole schema. |
| TrackerReading.ChecksFromValid | app/api/device/types.ts:4-38 | A reading that satisfies the whole schema passes every field rule. |
| TrackerReading.ValidGnssFromChecks | app/api/device/types.ts:6-10 | The fix and satellite-count rules together give the GNSS group's constraints. |
| TrackerReading.ValidPositionFromChecks | app/api/device/types.ts:12-15 | The coordinate and hemisphere rules together give the position group's constraints. |
| TrackerReading.ValidTimestampFromChecks | app/api/device/types.ts:17-22 | The six calendar rules together give the timestamp group's constraints. |
| TrackerReading.ValidMotionFromChecks | app/api/device/types.ts:24-26 | The altitude, speed and course rules together give the motion group's constraints. |
| TrackerReading.ValidPrecisionFromChecks | app/api/device/types.ts:28-33 | The DOP and satellite-total rules together give the precision group's constraints. |
| TrackerReading.ValidSupplyFromChecks | app/api/device/types.ts:36-37 | The two millivolt rules together give the supply group's constraints. |
| TrackerReading.ToJsonField | app/api/device/types.ts:41 | A reading written back as an object holds each field's value under that field's key. |
| TrackerReading.ToJsonAccepted | app/api/device/types.ts:4-41 | A valid reading written back as an object passes every field rule. |
| TrackerReading.ValidateToJson | app/api/device/types.ts:4-41 | Validating a valid reading written as an object gives back the same reading. |
| TrackerReading.ReadingExt | app/api/device/types.ts:41 | Two readings with the same value in every field are the same reading. |
| TrackerReading.SameGnss | app/api/device/types.ts:6-10 | Equal field values give equal GNSS fields. |
| TrackerReading.SamePosition | app/api/device/types.ts:12-15 | Equal field values give equal position fields. |
| TrackerReading.SameTimestamp | app/api/device/types.ts:17-22 | Equal field values give equal calendar fields. |
| TrackerReading.SameMotion | app/api/device/types.ts:24-26 | Equal field values give equal altitude, speed and course. |
| TrackerReading.SamePrecision | app/api/device/types.ts:28-33 | Equal field values give equal DOP values and satellite totals. |
| TrackerReading.SameSupply | app/api/device/types.ts:36-37 | Equal field values give equal millivolt fields. |
| TrackerReading.FieldOfKeyInverse | app/api/device/types.ts:4-38 | Decoding a field's key gives back that field. |
| TrackerReading.KeyInjective | app/api/device/types.ts:4-38 | Different fields have different keys. |
| TrackerReading.KeysDistinct | app/api/device/types.ts:4-38 | No two schema fields share a key. |
| TrackerReading.FieldsDistinct | app/api/device/types.ts:4-38 | The schema lists each field once. |
| TrackerReading.FieldsComplete | app/api/device/types.ts:4-38 | Every field appears in the schema's list, at its own position. |
| TrackerReading.PositionOfIndex | app/api/device/types.ts:4-38 | The field at each position of the list is the one with that position. |
| TrackerReading.IsFixRule | app/api/device/types.ts:6 | The fix code is accepted exactly when it is the number 0, 2 or 3. The value 1 is an issue. |
| TrackerReading.SatelliteCountRule | app/api/device/types.ts:7-10 | Each satellite count is accepted exactly when it is an integer in [0, 65535]. The value 3.5 is an integer issue. |
| TrackerReading.PositionRules | app/api/device/types.ts:12-15 | Latitude must lie in [-90, 90], longitude in [-180, 180], both bounds inclusive. The hemisphere letters must be "N" or "S" and "E" or "W". |
| TrackerReading.HemisphereUnchecked | app/api/device/types.ts:12-13 | A southern latitude marked "N" is still a valid position, because the letter is not checked against the sign. |
| TrackerReading.CalendarRules | app/api/device/types.ts:17-22 | Year, month, day, hour, minute and second are each accepted exactly when they are integers within their own bounds. |
| TrackerReading.April31Accepted | app/api/device/types.ts:18-19 | 31 April passes, because the calendar fields are not checked against each other. |
| TrackerReading.MotionRules | app/api/device/types.ts:24-26 | Altitude must lie in [-1000, 20000], speed must be at least 0, and course must lie in [0, 360], all bounds inclusive. |
| TrackerReading.PrecisionRule | app/api/device/types.ts:28-33 | PDOP, HDOP, VDOP, GSV and GSU only need to be non-negative numbers. |
| TrackerReading.MoreUsedThanInView | app/api/device/types.ts:32-33 | More satellites used than in view is still accepted. |
| TrackerReading.SupplyRule | app/api/device/types.ts:36-37 | Battery and solar millivolts are accepted exactly when they are integers in [0, 100000]. |
| TrackerPopup.KnotsToKmhIncreasing | components/tracker-popup.tsx:26 | 0 kn is 0 km/h, and the conversion is strictly increasing. |
| TrackerPopup.EstimateBatteryPct | components/tracker-popup.tsx:28-33 | The percentage is always in [0, 100]. |
| TrackerPopup.BatteryPctShape | components/tracker-popup.tsx:28-33 | The percentage is 0 up to 2500 mV and 100 from 4200 mV. In between it is the linear (mv - 2500) / 17, strictly inside (0, 100) on the open interval. |
| TrackerPopup.BatteryPctMonotone | components/tracker-popup.tsx:28-33 | A higher voltage never gives a lower percentage. |
| TrackerPopup.DopQualityBands | components/tracker-popup.tsx:35-42 | A value gets a grade exactly when it lies in that grade's band: above the previous bound and at most its own. |
| TrackerPopup.DopQualityBoundaries | components/tracker-popup.tsx:35-42 | 1.0 is "ideal", 1.01 is "exzellent", 20.0 is "mäßig" and 20.01 is "schlecht". |
| TrackerPopup.DopQualityMonotone | components/tracker-popup.tsx:35-42 | A larger dilution never gets a better grade. |
| TrackerPopup.Previous | components/tracker-popup.tsx:35-42 | Every grade but the best has a neighbour one rank better, and that neighbour has an upper bound. |
| TrackerPopup.FixLabelCases | components/tracker-popup.tsx:44-49 | 3 is "3D-Fix", 2 is "2D-Fix", and every other code is "Kein Fix"; among valid codes that is exactly 0. |
| TrackerPopup.AgeFromNow | components/tracker-popup.tsx:51-61 | The label computed with the nested floors equals the bucket of the direct floor of the seconds, clamped at 0. |
| TrackerPopup.AgeOfFutureReading | components/tracker-popup.tsx:52-54 | A reading taken less than a second ago, or stamped in the future, reads "0s". |
| TrackerPopup.AgeTextInjective | components/tracker-popup.tsx:54-60 | The age label determines the amount and the unit it was printed from: two different (amount, unit) pairs never print alike. |
| TrackerPopup.PopupSupply | components/tracker-popup.tsx:85-194 | Both voltages are shown 284 mV below the measured value. The charge reads 0 exactly up to 2784 mV measured and 100 exactly from 4484 mV. |
| Elapsed.SuccessiveFloors | components/tracker-popup.tsx:55-59 | Dividing seconds by 60, 60 and 24 in turn gives the direct floors by 3600 and 86400. |
| Elapsed.SuccessiveFloorsBucket | components/cells/last-ping.tsx:12-27 | The chain of tests on successive floors picks the same unit and amount as tests on the seconds themselves. |
| Elapsed.NestedFloor | components/cells/last-ping.tsx:12-15 | Flooring by a and then by b is flooring by a times b, for negative values too. |
| Elapsed.BucketAmount | components/cells/last-ping.tsx:18-27 | The amount shown is the floor of the seconds by the unit's length, so the span lies between amount and amount + 1 units. |
| Elapsed.BucketUnitChoice | components/cells/last-ping.tsx:18-27 | Each unit is chosen exactly on its range of seconds. Minutes run from 1 to 59, hours from 1 to 23, and days start at 1. |
| Elapsed.BucketMonotone | components/cells/last-ping.tsx:18-27 | A longer span never gets a smaller unit, and within one unit never a smaller amount. |
| Decimal.NatToString | components/cells/last-ping.tsx:20 | A non-negative integer prints as digits, with no leading zero except for 0 itself. |
| Decimal.IntToString | components/cells/last-ping.tsx:20 | An integer prints as non-empty text whose first character is '-' exactly when the integer is negative, and every other character is a digit. |
| Decimal.ParseNatToString | components/cells/last-ping.tsx:20 | Reading the printed digits back gives the number. |
| Decimal.ParseIntToString | components/cells/last-ping.tsx:20 | Reading a printed integer back gives the integer. |
| Decimal.IntToStringInjective | components/cells/last-ping.tsx:20 | Different integers print differently. |
| Decimal.NumberPrefixFree | components/cells/last-ping.tsx:20-26 | A number followed by a unit text that starts with neither a digit nor '-' determines both the number and the unit. |
| LastPing.LastPingCell | components/cells/last-ping.tsx:4-41 | The cell computed with local floors and if-chains is the reference cell: "Never" without a call, and otherwise the bucket label and the urgency of the whole seconds since the call. |
| LastPing.NeverIffNoRequest | components/cells/last-ping.tsx:7-9 | "Never" is shown exactly when there was no call, and a call never gets the default colour. |
| LastPing.UrgencyExamples | components/cells/last-ping.tsx:38-41 | 4 minutes is success, 10 minutes is warning, 2 hours is destructive and 3 days is secondary. |
| LastPing.UrgencyMonotone | components/cells/last-ping.tsx:38-41 | An older call never gets a less alarming colour, counting secondary as the oldest. |
| LastPing.ColorMatchesUnit | components/cells/last-ping.tsx:18-41 | Secondary appears exactly with a label in days. Success and warning appear only with a label in seconds or minutes. |
| LastPing.FutureRequest | components/cells/last-ping.tsx:11-20 | A call in the future is not clamped: it shows a negative count of seconds with the success colour. |
| LastPing.LabelTextInjective | components/cells/last-ping.tsx:18-27 | The label determines the amount and the unit it was printed from: two different (amount, unit) pairs never print alike. |
| MarkerHistory.HorizR95Properties | components/marker-history.tsx:19 | The radius is non-negative for non-negative inputs and linear in the dilution. HDOP 1 with a range error of 7 gives 12.124 m. |
| MarkerHistory.History | components/marker-history.tsx:30 | The history is one shorter than the data, or empty for no data. |
| MarkerHistory.LayersSplit | components/marker-history.tsx:29-46 | The latest marker is present exactly when there is data. Latest followed by the history is the data, and circle i is drawn for reading i + 1. |
| MarkerHistory.PositionsOfHistory | components/marker-history.tsx:31-46 | There is one point per earlier reading, in order, never the latest. Each circle is centred on its point with the radius for its own HDOP and a range error of 7. |
| MarkerHistory.PolylineIff | components/marker-history.tsx:57 | The line is drawn exactly when there are at least three readings. |
| DeviceHistory.NoSessionUnauthorized | app/dashboard/functions.tsx:15-17 | Without a session the query fails with "Unauthorized", whatever the parameter, the owners and the store. |
| DeviceHistory.BadParameterRejected | app/dashboard/functions.tsx:19-20 | With a session but no string apiKeyId, the query fails with "Invalid Parameter". The owners and the store do not affect the result. |
| DeviceHistory.ParseParameter | app/dashboard/functions.tsx:8 | The parameter is read exactly when it is an object with a string apiKeyId, and then it is that string. |
| DeviceHistory.MissingAndForeignKeysAlike | app/dashboard/functions.tsx:23-32 | An unknown key and a key of another user fail with the same "Unauthorized". |
| DeviceHistory.SucceedsIff | app/dashboard/functions.tsx:15-32 | The query succeeds exactly when there is a session, the parameter is well formed, and the key belongs to the session's user. |
| DeviceHistory.Filter | app/dashboard/functions.tsx:37 | The filter keeps exactly the store's records for the requested key, each as many times as the store holds it, and no other record. |
| DeviceHistory.FilterKeepsAll | app/dashboard/functions.tsx:37 | A store holding only the requested key's records is kept whole. |
| DeviceHistory.Insert | app/dashboard/functions.tsx:38 | Inserting into a newest-first list keeps it newest first and adds exactly the one record. |
| DeviceHistory.SortNewestFirst | app/dashboard/functions.tsx:38 | The sort is a permutation, ordered by createdAt descending and then by id descending. |
| DeviceHistory.NewerOrSameTransitive | app/dashboard/functions.tsx:38 | The sort order is transitive. |
| DeviceHistory.WindowSorted | app/dashboard/functions.tsx:36-40 | The window is sorted newest first and holds min(500, number of the key's records) records. |
| DeviceHistory.WindowOwnKey | app/dashboard/functions.tsx:37-39 | Every record in the window is a record of the store with the requested key, and the window is a sub-multiset of the filter. |
| DeviceHistory.WindowIsNewest | app/dashboard/functions.tsx:38-39 | Every record kept is at least as new as every record of the key that was left out. |
| DeviceHistory.SortedArrangementUnique | app/dashboard/functions.tsx:38 | Two sorted arrangements of the same records with distinct ids are equal, so the order is fully determined. |
| DeviceHistory.WindowOfSorted | app/dashboard/functions.tsx:36-40 | For at most 500 records of one key with distinct ids, the window is their unique sorted arrangement. |
| DeviceHistory.TiesByDescendingId | app/dashboard/functions.tsx:38 | Three records with the same time come back in descending id order. |
| DeviceHistory.SuccessIsSerializedWindow | app/dashboard/functions.tsx:42-48 | A successful result has one entry per window record, in order. Each entry's hex id reads back as its record's id, and its createdAt is the ISO text of the record's time. Its key and reading are unchanged. |
| ObjectId.ToHex | app/dashboard/functions.tsx:44 | An id prints as exactly 24 hex digits. |
| ObjectId.ParseToHex | app/dashboard/functions.tsx:44 | Reading the 24 digits back gives the id. |
| ObjectId.ToHexInjective | app/dashboard/functions.tsx:44 | Different ids print differently. |
| ApiStart.MaskShape | components/cells/api-start.tsx:4 | The text is the prefix, or "?" for a missing or empty prefix, followed by exactly eight bullets. A non-empty prefix is shown whole and unaltered. |
| ApiStart.MaskInjective | components/cells/api-start.tsx:4 | Two non-empty prefixes give the same text only when they are the same prefix. |
| AddDevice.NameRule | components/add-device.tsx:33-35 | A name is accepted exactly when it has 2 to 100 characters. Shorter names get the "at least" message and longer ones the "at most" message. |
| AddDevice.AddDeviceDialog.constructor | components/add-device.tsx:38-46 | The dialog starts closed, with no key and an empty name. |
| AddDevice.AddDeviceDialog.OnOpenChange | components/add-device.tsx:63-66 | Opening clears the key, so the name field and Confirm are shown; closing changes nothing but the open flag. |
| AddDevice.AddDeviceDialog.EditName | components/add-device.tsx:95-107 | Typing changes only the name. |
| AddDevice.AddDeviceDialog.Submit | components/add-device.tsx:49-60 | For an accepted name and a returned key, the key is stored and the name reset. Otherwise the state is unchanged, and the dialog stays open or closed as it was. A non-empty stored key brings up the key view and Done. |
| AddDevice.AddDeviceDialog.PressDone | components/add-device.tsx:119 | Done closes the dialog and leaves the key and the name as they were. |
| AddDevice.ViewsAgree | components/add-device.tsx:81-122 | The main area and the footer, each testing the key on its own, agree. The key view, showing the stored key itself, comes exactly with Done, and both exactly when the key is present and non-empty. Otherwise the name field comes with Confirm. |
| AddDevice.OneRound | components/add-device.tsx:38-122 | Open, type and submit a fresh dialog. The main area then shows the returned key exactly when the name was accepted and the key is non-empty, and the name field otherwise. After Done and reopening, the name field is back. |

## Left out

- The device POST handler (`app/api/device/route.ts`) checks the API key, then logs and echoes the payload whatever the result. It validates and stores nothing, so it has no logic to model.
- Floating point: the fields are `real`, so IEEE rounding, NaN and infinities are not modelled. The display rounding (`round`, `Math.round`) is left out too.
- Dates: parsing, `toLocaleString` and `toISOString` are not modelled. Times are integer milliseconds, "now" is a parameter, and the ISO formatter is a parameter of the history query.
- Zod: only an issue's path and a coarse reason are kept. Its issue codes, messages and object types are not. A non-object input gives one issue at the root.
- TrackerReading.ValidateCollectsIssues: one issue per failing field follows zod version 4. A failed integer check there stops the field's later checks. Under zod version 3, `gps_satellite_num: -0.5` gives two issues at one path (not integer, below 0). Under version 4, an integer above 2^53 - 1 gets a safe-integer too-big issue and then the `.max` issue. The model gives one issue in both cases.
- zod counts string length in UTF-16 code units; the name rule counts Dafny characters.
- The auth library and MongoDB are not modelled. The session is an `Option`, the key owners are a map, and the collection is a sequence. Their internals, their errors and the headers they read are left out.
- DeviceHistory.SortedArrangementUnique: the returned order is fixed only for records with distinct ids. MongoDB's order among records equal in both createdAt and id is not modelled. The model's sort fixes one such order, which the source does not promise.
- The serialised record type is imported from a module whose declaration is not part of this model. It is modelled as the stored record with the id and createdAt turned into strings.
- React: rendering, the JSX, react-query caching and refetching, react-hook-form's machinery, Leaflet, the CSS class names, and the dashboard's other components (actions, settings, device list and marker, page) are not modelled.
- AddDevice.AddDeviceDialog.Submit: checking the name and receiving the created key are one step in the model. The wait for the create call is not modelled, so a name edited while the call is in flight is not either. A key that arrives after the dialog was closed is modelled by calling Submit on a closed dialog.
- Not modelled: the console log in the submit handler and the query-cache invalidation after it.
