# Cusqueñita meal check-in: a verified model

This project models the check-in logic of the Cusqueñita canteen app. The app
has four screens:

- **Scanner** (`NfcScreen.js`). An operator scans a worker's 8-digit DNI
  barcode. The screen debounces repeats, looks the worker up, lets the
  operator confirm or change the meal shift, and records one meal. This is
  refused when the worker is unknown or inactive, or has reached their daily
  meal limit. The same screen records bulk meals for a contractor company:
  one record per company, shift and day.
- **Bulk dialog** (`RegisterDialog.js`). It collects a quantity, a company
  and a shift. It defaults the shift from the shift table's `HH:MM` windows,
  which may wrap past midnight.
- **Worker form** (`TrabajadorFormScreen.js`). It validates a new worker
  through an ordered chain of checks. It refuses a DNI that is already
  registered, and stores the estado lower-cased.
- **History** (`HistorialScreen.js`). It merges individual and bulk records
  into display rows, sorts them newest first, and filters them by
  Hoy/Ayer/Semana/Mes. The scanner shows a top-10 recent panel built the
  same way.

## Modules

| module | what it holds |
|---|---|
| `JsText` | The JavaScript primitives the screens rely on: `trim`, `parseInt`, `Number` on strings, `split`/join, ASCII `toLowerCase`. |
| `Shifts` | The scanner's clock-based shift resolver and the picker's id-to-name map. |
| `ShiftTable` | The dialog's table-based shift resolver (a loop with invariants), `HH:MM` parsing round trips, and the agreement between the two resolvers. |
| `Tables` | The store as the screens see it: worker, company, meal, bulk-meal and audit tables, their queries, and the invariants the protocols keep. `Store` is a class whose inserts append a row with the next serial id. |
| `Registration` | The individual and bulk protocols as decisions over a store snapshot. Store errors are parameters. Lemmas state when each protocol registers and that each keeps the store's invariants. |
| `Dialog` | The bulk dialog as a class. |
| `Scanner` | The scanner screen as a class, with debouncing, the worker card, and handlers that run the protocols against the store. |
| `WorkerForm` | The validation chain, the duplicate-DNI guard, and the form screen as a class. |
| `History` | Row formatting, a stable newest-first insertion sort, the date filters, and the recent panel. |

### Representation

- **Store.** The backend store is an in-memory `Store` object.
  - Each query that can fail takes a boolean fault parameter.
  - `maybeSingle()` is `Tables.MaybeSingle`, which reports an error for
    several rows.
- **Times and dates.**
  - Times are integer milliseconds, or minutes of the day.
  - The `YYYY-MM-DD` date key is an opaque day number.
  - `hora_registro` is a constant of the scanner screen, because the source
    computes it once when the module loads.
- **Session.** The signed-in operator is the `usuario_id` session string,
  passed as a parameter. `Number(usuario_id)` is read by `JsText.NumberOf`,
  and NaN is stored as null.
- **Shift windows.** Both resolvers include both ends of each window, so
  each cold-ration gap starts one minute after a meal window ends.
- **Worker form.** The company query runs once, when the form mounts
  (`loaded`). Until it returns the picker is empty, so the load selects the
  first listed company unconditionally without replacing any choice.

### Where the code departs from its evident intent

- **Bulk quantity.** It is never checked for positivity: `"0"`, `"-5"` and
  text that `parseInt` cannot read (NaN) all pass and are recorded.
  - `Dialog.AcceptLetsNaNThrough` and `Registration.BulkIgnoresQuantity`
    show this.
- **Dialog defaults.** The dialog's company and shift defaults compare
  against the selections of the render in which the dialog opened. Those are
  the selections from before the reset.
  - So after a reopen that follows a selection, no default is applied.
  - `Dialog.ReopenAppliesNoDefault` shows this.
- **Errors in the individual protocol.** Every caught exception raises the
  *limit* dialog, not a failure dialog: no shift, nobody signed in, a failed
  count, a failed insert.
  - `Registration.ExceptionsReadAsLimit` and `Registration.IndividualFailedIff`
    show this.

## Model

| member | source | states |
|---|---|---|
| Shifts.MinuteOfDay | cusquenitaapp-mobile/screens/NfcScreen.js:30-31 | The minute of the day lies in 0..1439 and gives back its hour and minute. |
| Shifts.ResolveShift | cusquenitaapp-mobile/screens/NfcScreen.js:29-48 | The clock resolver always gives an id in 1..4, under the name the picker gives that id. |
| Shifts.PickerName | cusquenitaapp-mobile/screens/NfcScreen.js:517-527 | The shift picker names ids 1, 2 and 3 Desayuno, Almuerzo and Cena. Every other id, including null, gets the name Rancho Frio. |
| Shifts.ResolveShiftPartition | cusquenitaapp-mobile/screens/NfcScreen.js:29-48 | Every minute resolves to one id in 1..4. It is the id of the meal window holding the minute, and 4 exactly when no meal window holds it. The name is the picker's name for that id. |
| Shifts.MealWindowsDisjoint | cusquenitaapp-mobile/screens/NfcScreen.js:33-41 | No minute lies in two meal windows. |
| Shifts.MealWindowsFacts | cusquenitaapp-mobile/screens/NfcScreen.js:33-41 | A minute lies in no meal window iff it is outside 240-510, 690-870 and 1051-1380. |
| Shifts.ColdBranchIsFallback | cusquenitaapp-mobile/screens/NfcScreen.js:42-47 | A minute in the explicit cold-ration gaps is in no meal window. Within a day, the final fallback is reached exactly before 04:00 or after 23:00. |
| Shifts.ShiftBoundaries | cusquenitaapp-mobile/screens/NfcScreen.js:33-47 | Each window edge belongs to its window, and the minute beyond it does not. |
| ShiftTable.FirstMatchSpec | cusquenitaapp-mobile/screens/RegisterDialog.js:12-29 | The table resolver returns the id of the first matching row. It returns null exactly when no row matches. |
| ShiftTable.ClockMinutes | cusquenitaapp-mobile/screens/RegisterDialog.js:13-16 | A clock text reads as NaN or as a non-negative minute count. |
| ShiftTable.Matches | cusquenitaapp-mobile/screens/RegisterDialog.js:18-26 | The window test of one row. Its meaning is stated by PlainWindow, WrappingWindow and UnparsableStart. |
| ShiftTable.FirstMatch | cusquenitaapp-mobile/screens/RegisterDialog.js:12-29 | Any id found belongs to a row whose window holds the minute. |
| ShiftTable.FirstMatchUnique | cusquenitaapp-mobile/screens/RegisterDialog.js:12-29 | The first matching row is the one the resolver returns. |
| ShiftTable.ShiftByTime | cusquenitaapp-mobile/screens/RegisterDialog.js:8-30 | The loop returns the first matching row's id, or null iff no row matches. |
| ShiftTable.PlainWindow | cusquenitaapp-mobile/screens/RegisterDialog.js:18-21 | When start <= end, a row matches exactly the minutes from start to end, both included. |
| ShiftTable.WrappingWindow | cusquenitaapp-mobile/screens/RegisterDialog.js:22-25 | When start > end, a row matches every minute except those strictly between end and start. |
| ShiftTable.UnparsableStart | cusquenitaapp-mobile/screens/RegisterDialog.js:13-23 | A start that parses to NaN makes `start <= end` false. The row then matches every minute up to its end. |
| ShiftTable.ClockOfParts | cusquenitaapp-mobile/screens/RegisterDialog.js:13-16 | An `a:b` string reads as `Number(a) * 60 + Number(b)`, and NaN propagates. |
| ShiftTable.ClockRoundTrip | cusquenitaapp-mobile/screens/RegisterDialog.js:13-16 | A minute formatted as `HH:MM` parses back to itself. |
| ShiftTable.ClockWithSecondsRoundTrip | cusquenitaapp-mobile/screens/RegisterDialog.js:13-16 | A minute formatted as `HH:MM:SS` parses back to itself, ignoring the seconds. |
| ShiftTable.PolicyTableListsMealWindows | cusquenitaapp-mobile/screens/NfcScreen.js:33-41 | The meal windows written as `HH:MM` table rows parse back to the windows' bounds. |
| ShiftTable.TableAgreesWithClock | cusquenitaapp-mobile/screens/RegisterDialog.js:8-30 | Over a table listing the meal windows, the table resolver agrees with the clock resolver (NfcScreen.js:29-48). It gives that resolver's meal shift, and null exactly where that resolver falls back to id 4. |
| JsText.JsMulAdd | cusquenitaapp-mobile/screens/RegisterDialog.js:15-16 | `h * 60 + m` is a number iff both parts are numbers. |
| JsText.TrimStartSpec | cusquenitaapp-mobile/screens/NfcScreen.js:193 | `trimStart` drops exactly the leading whitespace. |
| JsText.TrimEndSpec | cusquenitaapp-mobile/screens/NfcScreen.js:193 | `trimEnd` drops exactly the trailing whitespace. |
| JsText.TrimSpec | cusquenitaapp-mobile/screens/NfcScreen.js:193 | `trim` returns the infix left after the leading and trailing whitespace. The infix neither starts nor ends with whitespace. |
| JsText.PaddedTrim | cusquenitaapp-mobile/screens/NfcScreen.js:193 | Whitespace padding on either side does not change the trim. |
| JsText.TrimIdempotent | cusquenitaapp-mobile/screens/NfcScreen.js:193 | Trimming twice is trimming once. |
| JsText.TrimOfTrimmed | cusquenitaapp-mobile/screens/NfcScreen.js:193 | A string with no whitespace at either end is its own trim. |
| JsText.Trim | cusquenitaapp-mobile/screens/NfcScreen.js:193 | Trimming never lengthens a text. Its meaning is stated by TrimSpec. |
| JsText.ParseInt | cusquenitaapp-mobile/screens/TrabajadorFormScreen.js:57 | A number is read only from a text with something after its leading whitespace. A negative result needs a leading minus sign. |
| JsText.NumberOf | cusquenitaapp-mobile/screens/RegisterDialog.js:13-14 | `Number` of a trimmed text is NaN or a non-negative value. |
| JsText.Split | cusquenitaapp-mobile/screens/RegisterDialog.js:13-14 | `split` gives at least one part, and no part contains the separator. |
| JsText.ParseIntDigits | cusquenitaapp-mobile/screens/TrabajadorFormScreen.js:57 | `parseInt` of a decimal digit string is its value. |
| JsText.ParseIntIgnoresSuffix | cusquenitaapp-mobile/screens/TrabajadorFormScreen.js:57 | `parseInt` stops at the first non-digit, so trailing text is ignored. |
| JsText.ParseIntOfIntToString | cusquenitaapp-mobile/screens/RegisterDialog.js:179 | `parseInt(String(n) + rest)` is `n` for every integer, negatives included, when `rest` does not continue the number. |
| JsText.SplitJoin | cusquenitaapp-mobile/screens/RegisterDialog.js:13-14 | Joining the parts of `split(sep)` with `sep` gives back the string. |
| JsText.SplitNoSeparator | cusquenitaapp-mobile/screens/RegisterDialog.js:13-14 | A string without the separator splits into itself alone. |
| JsText.SplitAfter | cusquenitaapp-mobile/screens/RegisterDialog.js:13-14 | Splitting `a + sep + b` gives `a`, then the parts of `b`. |
| JsText.LowerAscii | cusquenitaapp-mobile/screens/TrabajadorFormScreen.js:92 | Lower-casing keeps the length. It maps each of A-Z to its lower-case letter and leaves every other character alone. |
| Tables.MaybeSingle | cusquenitaapp-mobile/screens/NfcScreen.js:204-208 | `maybeSingle` finds a row iff there is exactly one. It reports absence iff there are none, and an error otherwise. |
| Tables.WorkersWithDni | cusquenitaapp-mobile/screens/NfcScreen.js:204-208 | The DNI query returns exactly the workers holding the DNI. |
| Tables.FindWorkerByDni | cusquenitaapp-mobile/screens/NfcScreen.js:204-208 | The `.eq('dni').maybeSingle()` lookup is absent exactly when no worker holds the DNI. A found row is a worker holding that DNI. |
| Tables.BulksFor | cusquenitaapp-mobile/screens/NfcScreen.js:414-420 | The duplicate query returns exactly the bulk records for (company, shift, day). |
| Tables.CompanyName | cusquenitaapp-mobile/screens/NfcScreen.js:217 | The joined company name is never empty. It is the first company with the id's name when that name is non-empty, and 'Empresa desconocida' when no company has the id or its name is empty. |
| Tables.MealCount | cusquenitaapp-mobile/screens/NfcScreen.js:249-253 | The count of a worker's meals on a day never exceeds the table size. |
| Tables.MealCountAppend | cusquenitaapp-mobile/screens/NfcScreen.js:249-273 | A new meal record adds one to the count of its own (worker, day) and to no other count. |
| Tables.MealCountAbsent | cusquenitaapp-mobile/screens/NfcScreen.js:249-253 | A worker no record refers to has no meals on any day. |
| Tables.FindWorkerUnique | cusquenitaapp-mobile/screens/NfcScreen.js:238-247 | With unique DNIs, the DNI lookup never errs on several rows. It finds nothing exactly when no worker holds the DNI, and otherwise finds a row of the table. |
| Tables.Store.constructor | cusquenitaapp-mobile/screens/NfcScreen.js:238-281 | An empty store with its company list satisfies every invariant. |
| Tables.Store.InsertWorker | cusquenitaapp-mobile/screens/TrabajadorFormScreen.js:83-93 | The insert appends the worker with the next serial id and leaves the other tables unchanged. |
| Tables.Store.InsertMeal | cusquenitaapp-mobile/screens/NfcScreen.js:261-273 | The insert appends the meal with the next serial id and leaves the other tables unchanged. |
| Tables.Store.InsertBulk | cusquenitaapp-mobile/screens/NfcScreen.js:425-436 | The insert appends the bulk record with the next serial id and leaves the other tables unchanged. |
| Tables.Store.InsertAudit | cusquenitaapp-mobile/screens/NfcScreen.js:277-281 | The insert appends the audit row with the next serial id and leaves the other tables unchanged. |
| Registration.OperatorId | cusquenitaapp-mobile/screens/NfcScreen.js:268-278 | `Number(usuarioId)` is stored as a number iff the session string reads as one, and as null otherwise. |
| Registration.SignedIn | cusquenitaapp-mobile/screens/NfcScreen.js:235-236 | An operator is signed in when `usuario_id` is stored and non-empty; otherwise the handler throws. The protocol lemmas state what follows from it. |
| Registration.FoundWorkerIndex | cusquenitaapp-mobile/screens/NfcScreen.js:238-247 | With serial ids and unique DNIs, the found worker is the table row at index `id - 1`, and holds the DNI. |
| Registration.IndividualDecision | cusquenitaapp-mobile/screens/NfcScreen.js:229-294 | A registration needs a shift, a signed-in operator, and no lookup, count or insert error. A reached limit is only reported after a successful count. |
| Registration.IndividualAlert | cusquenitaapp-mobile/screens/NfcScreen.js:244-294 | The success dialog shows exactly for a recorded meal. The limit dialog shows both for a reached limit and for every caught exception. |
| Registration.NewMeal | cusquenitaapp-mobile/screens/NfcScreen.js:261-271 | The inserted meal takes the next serial id. It raises the worker's count for today by one and leaves every other count unchanged. |
| Registration.MealsAfterIndividual | cusquenitaapp-mobile/screens/NfcScreen.js:261-275 | An attempt keeps every earlier meal and adds at most one. |
| Registration.AuditsAfterIndividual | cusquenitaapp-mobile/screens/NfcScreen.js:277-281 | An attempt keeps every earlier audit row and adds at most one. |
| Registration.IndividualRegisteredIff | cusquenitaapp-mobile/screens/NfcScreen.js:229-294 | An individual attempt registers iff all of these hold: a shift is selected; an operator is signed in; the lookup, count and insert succeed; and the DNI belongs to an `activo` worker with fewer meals today than their limit. |
| Registration.InactiveOrUnknownDenied | cusquenitaapp-mobile/screens/NfcScreen.js:244-247 | An unknown or inactive worker is refused with the denied dialog, and no meal or audit row is written. |
| Registration.AtLimitNeverRegisters | cusquenitaapp-mobile/screens/NfcScreen.js:249-259 | A worker whose count today has reached the limit is never registered, whatever the shift, session or errors. |
| Registration.ExceptionsReadAsLimit | cusquenitaapp-mobile/screens/NfcScreen.js:231-293 | A missing shift or session ends in the caught exception, whatever the store does. Caught exceptions and a reached limit both raise the limit dialog. |
| Registration.IndividualFailedIff | cusquenitaapp-mobile/screens/NfcScreen.js:229-294 | With unique DNIs, an attempt ends in the caught exception iff one of these holds: the shift or the operator is missing; or an active worker holds the DNI and then the count fails; or that worker's count is below the limit and the insert fails. Every such ending raises the limit dialog. |
| Registration.AuditFailureIgnored | cusquenitaapp-mobile/screens/NfcScreen.js:277-281 | The audit insert's outcome changes neither the result nor the meal table. |
| Registration.RegisteredAddsOneMeal | cusquenitaapp-mobile/screens/NfcScreen.js:261-273 | A registration appends one meal: for the scanned active worker, today and the selected shift, with estado `registrado` and validated. It raises that worker's count for today by one, keeps it within the limit, and moves no other count. |
| Registration.IndividualKeepsTablesValid | cusquenitaapp-mobile/screens/NfcScreen.js:238-281 | An individual attempt keeps every store invariant: serial ids, unique DNIs, meals referring to workers, no worker over their daily limit on any day, one bulk per key, and audits that resolve. |
| Registration.StoredQuantity | cusquenitaapp-mobile/screens/NfcScreen.js:429 | `Number(cantidad)` is stored as the number, or as null for NaN. |
| Registration.BulkDecision | cusquenitaapp-mobile/screens/NfcScreen.js:405-456 | A bulk registration needs a signed-in operator and no check or insert error. A duplicate is reported only when a record exists for the key. |
| Registration.BulkAlert | cusquenitaapp-mobile/screens/NfcScreen.js:446-455 | The success dialog shows exactly for an inserted bulk record. Every other outcome shows the denied dialog, never the limit dialog. |
| Registration.BulksAfter | cusquenitaapp-mobile/screens/NfcScreen.js:425-438 | A bulk attempt keeps every earlier record and adds at most one. |
| Registration.AuditsAfterBulk | cusquenitaapp-mobile/screens/NfcScreen.js:440-444 | A bulk attempt keeps every earlier audit row and adds at most one. |
| Registration.BulkRegisteredIff | cusquenitaapp-mobile/screens/NfcScreen.js:405-456 | A bulk attempt registers iff an operator is signed in, the check and the insert succeed, and no record exists for (company, shift, today). A duplicate report means such a record exists. |
| Registration.BulkIgnoresQuantity | cusquenitaapp-mobile/screens/NfcScreen.js:425-434 | The quantity does not affect the decision. The stored quantity is the parsed value, or null for NaN. |
| Registration.SecondBulkRefused | cusquenitaapp-mobile/screens/NfcScreen.js:413-423 | After a bulk registration, a second attempt for the same key is refused with the denied dialog and writes nothing. |
| Registration.BulkKeepsTablesValid | cusquenitaapp-mobile/screens/NfcScreen.js:414-444 | A bulk attempt keeps every store invariant, in particular at most one record per (company, shift, day). |
| Scanner.ScanVerdict | cusquenitaapp-mobile/screens/NfcScreen.js:192-197 | An accepted scan is the trimmed text, and is exactly eight digits. |
| Scanner.IsScanCode | cusquenitaapp-mobile/screens/NfcScreen.js:196 | A scan code is exactly eight decimal digits. WorkerForm.ValidDniScans shows that every DNI the form accepts is such a code. |
| Scanner.AfterScan | cusquenitaapp-mobile/screens/NfcScreen.js:196-199 | The remembered scan is kept, or replaced by the trimmed eight-digit code at the scan's time. |
| Scanner.MalformedScanIgnored | cusquenitaapp-mobile/screens/NfcScreen.js:193-196 | A scan whose trimmed text is not eight digits is ignored and leaves the remembered scan alone. |
| Scanner.PaddedScanAccepted | cusquenitaapp-mobile/screens/NfcScreen.js:193-196 | A code padded with whitespace is accepted as the bare code. |
| Scanner.DebounceBoundary | cusquenitaapp-mobile/screens/NfcScreen.js:197-199 | A repeat of the remembered code is ignored 2999 ms later and accepted 3000 ms later. |
| Scanner.OtherCodeAcceptedAtOnce | cusquenitaapp-mobile/screens/NfcScreen.js:197-199 | A code other than the remembered one is accepted immediately. |
| Scanner.AcceptedRepeatsSpaced | cusquenitaapp-mobile/screens/NfcScreen.js:192-199 | In any run of scans, two consecutive acceptances of the same code are at least 3000 ms apart. The first acceptance is also at least 3000 ms after a remembered scan of the same code. |
| Scanner.ScanLookupSpec | cusquenitaapp-mobile/screens/NfcScreen.js:203-224 | With unique DNIs, a worker card is shown iff the lookup succeeds and some worker holds the DNI. The card carries that worker's names and the name of their company (`Tables.CompanyName`), which is never empty. |
| Scanner.ScanLookup | cusquenitaapp-mobile/screens/NfcScreen.js:203-224 | A card is shown only after a successful lookup, and always carries a non-empty company name. |
| Scanner.ScannerScreen.constructor | cusquenitaapp-mobile/screens/NfcScreen.js:54-75 | The screen starts with no remembered scan, no held scan, no shift, and every modal and dialog closed. |
| Scanner.ScannerScreen.MountShiftResolved | cusquenitaapp-mobile/screens/NfcScreen.js:94-99 | On mount, the shift the clock resolver gives for the device's hour and minute is preselected, and its name shown. That shift has an id in 1..4 and the picker's name for it. |
| Scanner.ScannerScreen.OpenCamera | cusquenitaapp-mobile/screens/NfcScreen.js:357-360 | The scan card shows the camera and clears the held scan, which re-attaches the handler. |
| Scanner.ScannerScreen.CloseCamera | cusquenitaapp-mobile/screens/NfcScreen.js:468 | Cancel hides the camera and leaves everything else unchanged. |
| Scanner.ScannerScreen.OnBarcodeScanned | cusquenitaapp-mobile/screens/NfcScreen.js:192-227 | While a scan is held nothing changes. Otherwise an accepted code becomes the remembered and held scan, the card is the lookup's result, and the confirmation opens. An ignored scan changes nothing. |
| Scanner.ScannerScreen.CancelScan | cusquenitaapp-mobile/screens/NfcScreen.js:296-299 | The confirmation closes and the held scan is dropped. |
| Scanner.ScannerScreen.LeaveForWorkerForm | cusquenitaapp-mobile/screens/NfcScreen.js:499-505 | For an unknown worker, the confirmation closes and the scan stays held. |
| Scanner.ScannerScreen.PickShift | cusquenitaapp-mobile/screens/NfcScreen.js:514-536 | Picking id 1..4 selects that shift under the picker's name, and shows that name. |
| Scanner.ScannerScreen.ConfirmAndRegister | cusquenitaapp-mobile/screens/NfcScreen.js:229-294 | The result is the individual decision for the held DNI. The meal and audit tables become the protocol's effect, and the other tables are unchanged. The camera closes on success or on an exception, and the matching dialog is raised. |
| Scanner.ScannerScreen.OpenBulkDialog | cusquenitaapp-mobile/screens/NfcScreen.js:366 | The bulk button shows the dialog, which resets its fields. |
| Scanner.ScannerScreen.CloseBulkDialog | cusquenitaapp-mobile/screens/NfcScreen.js:404 | The dialog's cancel hides it. |
| Scanner.ScannerScreen.ConfirmBulk | cusquenitaapp-mobile/screens/NfcScreen.js:405-456 | The dialog's values run the bulk protocol for (company, shift, today), with null read as 0. The bulk and audit tables become its effect. Success raises the success dialog and closes the camera. Every other ending raises the denied dialog. |
| Scanner.PickNumber | cusquenitaapp-mobile/screens/NfcScreen.js:417-430 | `Number()` of a picker value: a picked id is read as itself, and null as 0. |
| Scanner.ScannerScreen.RefreshRecentHistory | cusquenitaapp-mobile/screens/NfcScreen.js:107-190 | The recent panel becomes the merged top rows of both queries. A failed query keeps the old panel. |
| Scanner.ScannerScreen.DismissSuccess | cusquenitaapp-mobile/screens/NfcScreen.js:398 | Either button of the success dialog closes that dialog only. |
| Scanner.ScannerScreen.DismissLimit | cusquenitaapp-mobile/screens/NfcScreen.js:399 | Either button of the limit dialog closes that dialog only. |
| Scanner.ScannerScreen.DismissDenied | cusquenitaapp-mobile/screens/NfcScreen.js:400 | Either button of the denied dialog closes that dialog only. |
| Scanner.HeldScanIgnoresEvents | cusquenitaapp-mobile/screens/NfcScreen.js:462 | While a scan is held, further barcode events change neither the remembered scan nor the card nor the confirmation. |
| Dialog.FirstOpenDefaults | cusquenitaapp-mobile/screens/RegisterDialog.js:56-83 | On a first opening, the company defaults to the first listed company. A first matching row with a non-zero id becomes the default shift. Any default shift is a first matching row's id, and the shift stays null when no row matches. |
| Dialog.CompanyAfterLoad | cusquenitaapp-mobile/screens/RegisterDialog.js:56-63 | The company after the list loads is the current one or the first listed company. |
| Dialog.ShiftAfterLoad | cusquenitaapp-mobile/screens/RegisterDialog.js:72-81 | The shift after the table loads is the current one, or a non-zero id of a row whose window holds the current minute. |
| Dialog.CanAccept | cusquenitaapp-mobile/screens/RegisterDialog.js:146-149 | The Accept button's enabling test. Its consequences are stated by ReopenAppliesNoDefault and AcceptLetsNaNThrough. |
| Dialog.ReopenAppliesNoDefault | cusquenitaapp-mobile/screens/RegisterDialog.js:40-83 | After a reopen that follows a selection, the loads apply no default, and Accept stays disabled. |
| Dialog.AcceptLetsNaNThrough | cusquenitaapp-mobile/screens/RegisterDialog.js:149-179 | Accept is enabled for a quantity text that `parseInt` reads as NaN. |
| Dialog.RegisterDialog.constructor | cusquenitaapp-mobile/screens/RegisterDialog.js:33-38 | The dialog starts hidden, with empty fields and lists. |
| Dialog.RegisterDialog.Open | cusquenitaapp-mobile/screens/RegisterDialog.js:40-48 | Opening resets the quantity to '' and both pickers to null. It remembers the selections the loads will compare against. |
| Dialog.RegisterDialog.Close | cusquenitaapp-mobile/screens/RegisterDialog.js:153 | Closing hides the dialog and keeps its fields. |
| Dialog.RegisterDialog.CompaniesLoaded | cusquenitaapp-mobile/screens/RegisterDialog.js:50-65 | A failed load empties the list. A successful one lists the companies, and defaults the company when the opening render had none and the list is non-empty. |
| Dialog.RegisterDialog.ShiftsLoaded | cusquenitaapp-mobile/screens/RegisterDialog.js:67-83 | A failed load empties the list. A successful one lists the shifts, and sets the shift to a truthy time match when the opening render had none. |
| Dialog.RegisterDialog.SetCantidad | cusquenitaapp-mobile/screens/RegisterDialog.js:98-104 | The quantity text becomes what was typed. |
| Dialog.RegisterDialog.PickCompany | cusquenitaapp-mobile/screens/RegisterDialog.js:110-121 | The company becomes the placeholder (null) or a listed company. |
| Dialog.RegisterDialog.PickShift | cusquenitaapp-mobile/screens/RegisterDialog.js:129-140 | The shift becomes the placeholder (null) or a listed shift. |
| Dialog.RegisterDialog.Accept | cusquenitaapp-mobile/screens/RegisterDialog.js:146-150 | Accept works only with quantity, company and shift all truthy. It opens the confirmation. |
| Dialog.RegisterDialog.CancelConfirm | cusquenitaapp-mobile/screens/RegisterDialog.js:169-172 | The confirmation closes. |
| Dialog.RegisterDialog.Confirm | cusquenitaapp-mobile/screens/RegisterDialog.js:175-180 | The confirmation closes and hands over `parseInt(cantidad)`, the company and the shift. |
| WorkerForm.ValidateSpec | cusquenitaapp-mobile/screens/TrabajadorFormScreen.js:36-65 | The chain accepts iff every check passes. Otherwise it reports a failing check all of whose predecessors, in the source's order, pass. |
| WorkerForm.Validate | cusquenitaapp-mobile/screens/TrabajadorFormScreen.js:36-65 | Any error the chain reports names a check the form fails. ValidateSpec and AcceptedFields state the rest of its meaning. |
| WorkerForm.SubmitDecision | cusquenitaapp-mobile/screens/TrabajadorFormScreen.js:36-105 | A submit is refused as invalid iff the chain rejects the form, and it reports the chain's error. A save needs no lookup or insert error. |
| WorkerForm.WorkersAfterSubmit | cusquenitaapp-mobile/screens/TrabajadorFormScreen.js:68-95 | A submit extends the worker table. It grows by exactly one row iff the submit is saved, and is unchanged otherwise. |
| WorkerForm.NewWorker | cusquenitaapp-mobile/screens/TrabajadorFormScreen.js:83-93 | The inserted worker takes the next serial id and the form's DNI. It has a daily limit of at least 1 and an estado of `activo` or `inactivo`. |
| WorkerForm.AcceptedFields | cusquenitaapp-mobile/screens/TrabajadorFormScreen.js:37-65 | An accepted form has a truthy company and an 8-digit DNI. Its limit parses to at least 1. Its estado lower-cases to `activo` or `inactivo`, and to `activo` exactly for `Activo`. |
| WorkerForm.LowerEstado | cusquenitaapp-mobile/screens/TrabajadorFormScreen.js:92 | The picker's `Activo` and `Inactivo` are stored as `activo` and `inactivo`. |
| WorkerForm.LimitIgnoresSuffix | cusquenitaapp-mobile/screens/TrabajadorFormScreen.js:57-61 | A limit text that starts with a positive number passes whatever follows it ("3abc" passes as 3). |
| WorkerForm.NonPositiveLimitRefused | cusquenitaapp-mobile/screens/TrabajadorFormScreen.js:57-61 | A limit text that reads as zero or a negative number fails. |
| WorkerForm.ValidDniScans | cusquenitaapp-mobile/screens/TrabajadorFormScreen.js:32-34 | Every DNI the form accepts is a code the scanner accepts (NfcScreen.js:196). |
| WorkerForm.ValidDni | cusquenitaapp-mobile/screens/TrabajadorFormScreen.js:32-34 | `validarDNI`: a DNI is accepted when it is exactly eight decimal digits as typed, without trimming. ValidDniScans and ValidateSpec state what follows from it. |
| WorkerForm.SubmitSavedIff | cusquenitaapp-mobile/screens/TrabajadorFormScreen.js:69-105 | With unique DNIs, a submit saves iff the form is accepted, the store does not fail, and no worker holds the DNI. A taken DNI is reported as a duplicate. |
| WorkerForm.SubmitKeepsTablesValid | cusquenitaapp-mobile/screens/TrabajadorFormScreen.js:70-95 | A submit keeps every store invariant. In particular it never creates a second worker with the same DNI. |
| WorkerForm.SavedWorkerFound | cusquenitaapp-mobile/screens/TrabajadorFormScreen.js:83-93 | After a save, the DNI lookup finds exactly the new row, with the next serial id. |
| WorkerForm.SavedActiveWorkerIsServed | cusquenitaapp-mobile/screens/TrabajadorFormScreen.js:85-93 | A worker saved as Activo is registered by the scanner's next error-free attempt. The stored `activo` matches the scanner's test, and their limit is at least 1. |
| WorkerForm.SavedInactiveWorkerIsRefused | cusquenitaapp-mobile/screens/TrabajadorFormScreen.js:85-93 | A worker saved as Inactivo is refused by the scanner. |
| WorkerForm.WorkerFormScreen.constructor | cusquenitaapp-mobile/screens/TrabajadorFormScreen.js:7-14 | The form starts with role `trabajador`, limit `3`, estado `Activo`, and no company. |
| WorkerForm.WorkerFormScreen.CompaniesLoaded | cusquenitaapp-mobile/screens/TrabajadorFormScreen.js:16-28 | The company query runs once, on mount. A failed load leaves the list empty and nothing selected. A successful one lists the companies and, when the list is non-empty, selects the first unconditionally; no selection can precede it, since the picker lists only loaded companies. |
| WorkerForm.WorkerFormScreen.PickCompany | cusquenitaapp-mobile/screens/TrabajadorFormScreen.js:113-121 | The company becomes a listed company. |
| WorkerForm.WorkerFormScreen.SetDni | cusquenitaapp-mobile/screens/TrabajadorFormScreen.js:125-132 | The DNI field keeps at most the first eight characters typed. |
| WorkerForm.WorkerFormScreen.SetNombres | cusquenitaapp-mobile/screens/TrabajadorFormScreen.js:135-140 | The names field becomes what was typed. |
| WorkerForm.WorkerFormScreen.SetApellidos | cusquenitaapp-mobile/screens/TrabajadorFormScreen.js:143-148 | The surnames field becomes what was typed. |
| WorkerForm.WorkerFormScreen.SetRol | cusquenitaapp-mobile/screens/TrabajadorFormScreen.js:151-156 | The role field becomes what was typed. |
| WorkerForm.WorkerFormScreen.SetLimite | cusquenitaapp-mobile/screens/TrabajadorFormScreen.js:159-164 | The limit field becomes what was typed. |
| WorkerForm.WorkerFormScreen.PickEstado | cusquenitaapp-mobile/screens/TrabajadorFormScreen.js:168-175 | The estado becomes `Activo` or `Inactivo`. |
| WorkerForm.WorkerFormScreen.Submit | cusquenitaapp-mobile/screens/TrabajadorFormScreen.js:36-105 | The result is the submit decision over the worker table. The worker table becomes its effect, and the other tables are unchanged. |
| History.HistoryIndividualRows | cusquenitaapp-mobile/screens/HistorialScreen.js:56-66 | One row per meal, in order, formatted with the history screen's fallbacks. |
| History.RecentIndividualRows | cusquenitaapp-mobile/screens/NfcScreen.js:129-142 | One row per meal, in order, formatted with the recent panel's fallbacks. |
| History.BulkRows | cusquenitaapp-mobile/screens/HistorialScreen.js:68-78 | One row per bulk record, in order. |
| History.HistoryIndividualRow | cusquenitaapp-mobile/screens/HistorialScreen.js:56-66 | A history row carries the meal's key and time. A missing worker shows 'Empresa desconocida'. A non-empty meal type is shown as stored. MissingWorkerName and KnownWorkerName state the name. |
| History.RecentIndividualRow | cusquenitaapp-mobile/screens/NfcScreen.js:129-142 | A panel row carries the meal's key and time. A missing worker shows 'Empresa desconocida'. A non-empty meal type is shown as stored. MissingWorkerName and KnownWorkerName state the name. |
| History.BulkRow | cusquenitaapp-mobile/screens/HistorialScreen.js:68-78 | A bulk row carries the record's `mas-` key and time. Its company is the stored name when non-empty, and 'Empresa desconocida' when it is missing. Its name is the quantity followed by ' comidas', and 'null comidas' when the quantity is null. BulkNameRoundTrip shows that `parseInt` reads the quantity back from that name. |
| History.MissingWorkerName | cusquenitaapp-mobile/screens/HistorialScreen.js:60-61 | A meal without a joined worker shows '¿?' in the history, 'Trabajador desconocido' in the recent panel, and 'Empresa desconocida'. |
| History.KnownWorkerName | cusquenitaapp-mobile/screens/HistorialScreen.js:60 | A worker whose `nombres` and `apellidos` are both non-empty, with no leading blank on `nombres` and no trailing blank on `apellidos`, shows as 'nombres apellidos' on both screens. |
| History.BulkNameRoundTrip | cusquenitaapp-mobile/screens/HistorialScreen.js:72 | The quantity reads back from a bulk row's '<cantidad> comidas' name. |
| History.InsertDescSpec | cusquenitaapp-mobile/screens/HistorialScreen.js:80-81 | Inserting into a newest-first list keeps it newest-first, and adds exactly the new row. |
| History.InsertDescMultiset | cusquenitaapp-mobile/screens/HistorialScreen.js:80-81 | Inserting adds exactly the new row. |
| History.InsertDescSorted | cusquenitaapp-mobile/screens/HistorialScreen.js:80-81 | Inserting into a newest-first list keeps it newest-first. |
| History.SortDescSpec | cusquenitaapp-mobile/screens/HistorialScreen.js:80-81 | The sort returns a newest-first permutation of its input. |
| History.SortDesc | cusquenitaapp-mobile/screens/HistorialScreen.js:80-81 | Sorting keeps the number of rows. |
| History.InsertDescAt | cusquenitaapp-mobile/screens/HistorialScreen.js:80-81 | Among rows registered at one instant, an inserted row goes first. |
| History.SortDescStable | cusquenitaapp-mobile/screens/HistorialScreen.js:80-81 | The sort is stable: rows with equal times keep their input order. |
| History.SortSortedIdentity | cusquenitaapp-mobile/screens/HistorialScreen.js:134 | Sorting an already newest-first list leaves it unchanged. |
| History.InsertDescKeys | cusquenitaapp-mobile/screens/HistorialScreen.js:80-81 | Inserting a row with a new key keeps keys distinct and the rows exactly the old ones plus the new. |
| History.SortDescKeys | cusquenitaapp-mobile/screens/HistorialScreen.js:80-81 | Sorting keeps keys distinct. |
| History.KeyFacts | cusquenitaapp-mobile/screens/HistorialScreen.js:59-71 | An `ind-` key never equals a `mas-` key, and each kind of key is injective in the id. |
| History.MergedKeysDistinct | cusquenitaapp-mobile/screens/HistorialScreen.js:56-80 | Rows merged from two tables with distinct ids have distinct keys. |
| History.HistoryRowsSpec | cusquenitaapp-mobile/screens/HistorialScreen.js:56-83 | The history list is newest first and holds exactly the formatted meals and bulk records, with distinct keys. |
| History.FailedQueryShowsTheOther | cusquenitaapp-mobile/screens/HistorialScreen.js:23-68 | When the meal query fails, the list shows the bulk rows alone, sorted. |
| History.HistoryRows | cusquenitaapp-mobile/screens/HistorialScreen.js:21-87 | The history holds one row per record of each query that succeeded. |
| History.FilterRows | cusquenitaapp-mobile/screens/HistorialScreen.js:117-131 | The filter keeps exactly the rows the selection keeps. |
| History.Keeps | cusquenitaapp-mobile/screens/HistorialScreen.js:93-131 | The range test of one row. Its meaning is stated by DayRanges, WeekAndMonthRanges and OtherSelectionKeepsAll. |
| History.DayOf | cusquenitaapp-mobile/screens/HistorialScreen.js:117-128 | `toDateString` as a day number: the day returned is the one whose 86,400,000 ms span holds the time. |
| History.Filtered | cusquenitaapp-mobile/screens/HistorialScreen.js:89-137 | The shown list never holds more rows than were loaded. |
| History.FilterRowsMultiset | cusquenitaapp-mobile/screens/HistorialScreen.js:117-131 | The filter keeps each kept row with its multiplicity and adds nothing. |
| History.FilteredSpec | cusquenitaapp-mobile/screens/HistorialScreen.js:115-136 | The shown list is newest first and holds exactly the kept rows, with their multiplicities. |
| History.OtherSelectionKeepsAll | cusquenitaapp-mobile/screens/HistorialScreen.js:111-115 | A selection other than Hoy/Ayer/Semana/Mes shows the sorted list unchanged. |
| History.FilterAll | cusquenitaapp-mobile/screens/HistorialScreen.js:115-131 | When every row is kept, the filter returns the list itself. |
| History.DayRanges | cusquenitaapp-mobile/screens/HistorialScreen.js:117-128 | 'Hoy' keeps exactly the rows of today's day, and 'Ayer' those of the day before. |
| History.WeekAndMonthRanges | cusquenitaapp-mobile/screens/HistorialScreen.js:103-110 | 'Semana' cuts at exactly now minus 7 days, not at midnight. Hoy and Ayer rows are within Semana, and Semana rows are within Mes. |
| History.SortedPrefix | cusquenitaapp-mobile/screens/NfcScreen.js:182-184 | A prefix of a sorted permutation is sorted, and no dropped row is newer than a kept one. |
| History.RecentRows | cusquenitaapp-mobile/screens/NfcScreen.js:182-186 | The recent panel holds at most ten rows. |
| History.RecentMerge | cusquenitaapp-mobile/screens/NfcScreen.js:119-180 | The panel merge holds every individual row, in order, followed by the first twenty bulk rows (`.limit(20)`). The bulk input is taken in the server's order, newest first, so these are the twenty newest records. |
| History.RecentRowsSpec | cusquenitaapp-mobile/screens/NfcScreen.js:158-184 | The recent panel holds the newest min(10, meals + min(20, bulks)) rows of the merge, newest first. No dropped row is newer than a shown one. |

## Left out

- **Store.** The backend's network calls, joins and server-side ordering are
  not modelled. Query results and their failures are parameters, and the
  joined views of the history screen are inputs.
- **Concurrency.** Two devices can both pass the daily-count check, or the
  bulk duplicate check, before either inserts. The model is sequential
  only.
- **Login and session.** The session store and the login screen are not
  modelled. The signed-in operator is an optional string parameter.
- **Device features.** The camera, its permission request, the success
  sound, navigation, modal animation and styles are not modelled.
  - The worker form's closing of the scanner camera on success is a
    navigation callback and is not modelled.
- **Locale and time zone.** Date and time formatting is not modelled, so
  the rows carry no formatted `fechaHora`.
  - The `YYYY-MM-DD` day key is an opaque integer.
  - `horaLocal` is a fixed constant of the screen.
- **Fixed UI strings.** Hard-coded texts are not modelled. The limit
  dialog's "3 veces" subtitle, for example, does not reflect the worker's
  actual limit.
- **Meal type column.** The row fallback 'Tipo desconocido' is carried as
  data (`tipoComida`), and no property is stated about it.
- **Recent panel refresh.** The refresh after a successful registration
  runs in the background and is not awaited. It is modelled as the separate
  `RefreshRecentHistory` step.
- **Render lag.** State updates take effect immediately. React's re-render
  delay is modelled in one place only: the dialog's remembered selections.
- JsText.NumberOf: `Number` on a string is modelled for trimmed decimal
  digit strings only. Signs, decimals, exponents, hex and `Infinity` read as
  NaN here.
- JsText.ParseInt: `parseInt` is modelled with unbounded integers. Float
  precision loss on very long digit strings is not modelled.
- JsText.LowerAscii: `toLowerCase` is modelled for ASCII letters only.
  Accented capitals are left unchanged.
- History.DayRanges: calendar days are fixed 86 400 000 ms blocks. The
  device's time zone and daylight-saving shifts in `toDateString` and
  `setHours` are not modelled, and 'Semana'/'Mes' subtract 7 and 30 such
  blocks.
- Scanner.ScannerScreen.OpenCamera: the scan card cannot be pressed while
  the confirmation modal covers the screen, so the method requires the
  confirmation to be closed.
- Scanner.ScannerScreen.OnBarcodeScanned: the handler is detached (NfcScreen.js:462) in
  the same step that holds the scan. In the app it is detached only after the
  next render. Until then only the remembered scan guards it: a different
  eight-digit code in the same frames is accepted, replaces the held scan and
  starts a second lookup. The model does not capture that window.
- Scanner.HeldScanIgnoresEvents: it holds because of the same simplification.
  Between the acceptance and the next render, the app does not ignore a
  different code.
