/**
 * The scanner screen: barcode acceptance with a single remembered scan for
 * debouncing, the worker card shown after a scan, the shift picker, and the
 * handlers that run the individual and bulk registration protocols against
 * the store and raise the success, limit or denied dialog.
 */
module Scanner {
  import opened JsText
  import opened Tables
  import opened Shifts
  import opened Registration
  import opened Dialog
  import History

  // ---------------------------------------------------------------------
  // Scan acceptance

  /** The remembered scan: the last accepted code and when it was accepted. */
  datatype LastScan = LastScan(value: Option<string>, timestamp: int)

  const DebounceMs: int := 3000

  /** Nothing scanned yet. */
  const NoScan: LastScan := LastScan(None, 0)

  /** A worker code: exactly eight decimal digits. */
  predicate IsScanCode(s: string) {
    |s| == 8 && AllDigits(s)
  }

  /**
   * The code a scan is read as, or `None` when it is ignored: the trimmed
   * text must be eight digits, and must not repeat the remembered code less
   * than `DebounceMs` after it.
   */
  function ScanVerdict(last: LastScan, data: string, now: int): (r: Option<string>)
    ensures r.Some? ==> IsScanCode(r.value) && r.value == Trim(data)
  {
    var cleaned := Trim(data);
    if !IsScanCode(cleaned) then None
    else if last.value == Some(cleaned) && now - last.timestamp < DebounceMs then None
    else Some(cleaned)
  }

  /** The remembered scan after a scan: replaced on acceptance, untouched otherwise. */
  function AfterScan(last: LastScan, data: string, now: int): (r: LastScan)
    ensures r == last || (r.value == Some(Trim(data)) && IsScanCode(Trim(data)) && r.timestamp == now)
  {
    match ScanVerdict(last, data, now)
    case Some(c) => LastScan(Some(c), now)
    case None => last
  }

  /** A scan whose trimmed text is not eight digits is ignored and leaves the remembered scan alone. */
  lemma MalformedScanIgnored(last: LastScan, data: string, now: int)
    requires !IsScanCode(Trim(data))
    ensures ScanVerdict(last, data, now).None? && AfterScan(last, data, now) == last
  {
  }

  /** Surrounding blanks are trimmed away before the code is checked. */
  lemma PaddedScanAccepted(code: string, pad: string, now: int)
    requires IsScanCode(code)
    requires forall i :: 0 <= i < |pad| ==> IsJsWhitespace(pad[i])
    ensures ScanVerdict(NoScan, pad + code + pad, now) == Some(code)
  {
    PaddedTrim(pad, code, pad);
    TrimOfTrimmed(code);
  }

  /** A repeat of the remembered code is ignored for 2999 ms and accepted from 3000 ms on. */
  lemma DebounceBoundary(code: string, t: int)
    requires IsScanCode(code)
    ensures ScanVerdict(LastScan(Some(code), t), code, t + DebounceMs - 1) == None
    ensures ScanVerdict(LastScan(Some(code), t), code, t + DebounceMs) == Some(code)
  {
    TrimOfTrimmed(code);
  }

  /** A different code is accepted at once. */
  lemma OtherCodeAcceptedAtOnce(last: LastScan, code: string, now: int)
    requires IsScanCode(code) && last.value != Some(code)
    ensures ScanVerdict(last, code, now) == Some(code)
  {
    TrimOfTrimmed(code);
  }

  /** One scan event: the raw text and the time it arrived. */
  datatype Scan = Scan(data: string, now: int)

  /** The codes a run of scans accepts, with their times, and the remembered scan afterwards. */
  function Accepted(last: LastScan, scans: seq<Scan>): seq<Scan>
    decreases |scans|
  {
    if scans == [] then []
    else match ScanVerdict(last, scans[0].data, scans[0].now)
      case Some(c) => [Scan(c, scans[0].now)] + Accepted(LastScan(Some(c), scans[0].now), scans[1..])
      case None => Accepted(last, scans[1..])
  }

  /**
   * In any run of scans, an accepted code that repeats the previously
   * accepted one comes at least `DebounceMs` after it (and after the
   * remembered scan the run starts from).
   */
  lemma {:induction false} AcceptedRepeatsSpaced(last: LastScan, scans: seq<Scan>)
    ensures var acc := Accepted(last, scans);
      && (acc != [] && last.value == Some(acc[0].data) ==> acc[0].now - last.timestamp >= DebounceMs)
      && forall i :: 0 <= i < |acc| - 1 && acc[i].data == acc[i + 1].data ==> acc[i + 1].now - acc[i].now >= DebounceMs
    decreases |scans|
  {
    if scans != [] {
      var v := ScanVerdict(last, scans[0].data, scans[0].now);
      if v.Some? {
        var next := LastScan(Some(v.value), scans[0].now);
        AcceptedRepeatsSpaced(next, scans[1..]);
        var acc := Accepted(last, scans);
        var rest := Accepted(next, scans[1..]);
        assert acc == [Scan(v.value, scans[0].now)] + rest;
        forall i | 0 <= i < |acc| - 1 && acc[i].data == acc[i + 1].data
          ensures acc[i + 1].now - acc[i].now >= DebounceMs
        {
          if i > 0 { assert acc[i] == rest[i - 1] && acc[i + 1] == rest[i]; }
        }
      } else {
        AcceptedRepeatsSpaced(last, scans[1..]);
      }
    }
  }

  // ---------------------------------------------------------------------
  // The worker card

  /** What the confirmation shows for a found worker. */
  datatype WorkerCard = WorkerCard(nombres: string, apellidos: string, empresa: string)

  /** The lookup after a scan: a failed or empty lookup gives no card. */
  function ScanLookup(workers: seq<Worker>, companies: seq<Company>, dni: string, lookupError: bool): (card: Option<WorkerCard>)
    ensures card.Some? ==> !lookupError && card.value.empresa != []
  {
    if lookupError then None
    else match FindWorkerByDni(workers, dni)
      case Found(w) => Some(WorkerCard(w.nombres, w.apellidos, CompanyName(companies, w.empresaId)))
      case _ => None
  }

  /**
   * With unique DNIs, a card is shown exactly when the lookup succeeds and a
   * worker holds the DNI; it carries that worker's names and the name of
   * their company, which is never empty ('Empresa desconocida' when the
   * company is missing or unnamed).
   */
  lemma ScanLookupSpec(workers: seq<Worker>, companies: seq<Company>, dni: string, lookupError: bool)
    requires DniUnique(workers)
    ensures ScanLookup(workers, companies, dni, lookupError).Some? <==>
      !lookupError && exists i :: 0 <= i < |workers| && workers[i].dni == dni
    ensures ScanLookup(workers, companies, dni, lookupError).Some? ==>
      exists i :: 0 <= i < |workers| && workers[i].dni == dni
        && ScanLookup(workers, companies, dni, lookupError).value.nombres == workers[i].nombres
        && ScanLookup(workers, companies, dni, lookupError).value.apellidos == workers[i].apellidos
        && ScanLookup(workers, companies, dni, lookupError).value.empresa == CompanyName(companies, workers[i].empresaId)
    ensures ScanLookup(workers, companies, dni, lookupError).Some? ==>
      ScanLookup(workers, companies, dni, lookupError).value.empresa != []
  {
    FindWorkerUnique(workers, dni);
    if !lookupError && FindWorkerByDni(workers, dni).Found? {
      var w := FindWorkerByDni(workers, dni).row;
      assert w in WorkersWithDni(workers, dni);
    }
  }

  /** Number(x) of a picker value: null reads as 0. */
  function PickNumber(v: Option<int>): int {
    if v.Some? then v.value else 0
  }

  // ---------------------------------------------------------------------
  // The screen

  class ScannerScreen {
    const store: Store
    const dialog: RegisterDialog
    /** The timestamp written as `hora_registro`, fixed once when the screen's code is loaded. */
    const horaLocal: int

    var lastScan: LastScan
    var scannedData: Option<string>
    var showCamera: bool
    var confirmVisible: bool
    var workerInfo: Option<WorkerCard>
    var workerMissing: bool
    var selectedShift: Option<Shift>
    var turnoActual: string
    var showSuccess: bool
    var showLimit: bool
    var showDenied: bool
    var showRegisterModal: bool
    var recentHistory: seq<History.Row>

    ghost predicate Valid()
      reads this, store, dialog
    {
      && store.Valid() && dialog.Valid()
      && showRegisterModal == dialog.visible
      && (scannedData.Some? ==> IsScanCode(scannedData.value))
      && (confirmVisible ==> scannedData.Some?)
      && (workerInfo.Some? ==> !workerMissing)
    }

    constructor (store: Store, dialog: RegisterDialog, horaLocal: int)
      requires store.Valid() && dialog.Valid() && !dialog.visible
      ensures Valid()
      ensures this.store == store && this.dialog == dialog && this.horaLocal == horaLocal
      ensures lastScan == NoScan && scannedData == None && selectedShift == None
      ensures !showCamera && !confirmVisible && !showRegisterModal
      ensures !showSuccess && !showLimit && !showDenied && recentHistory == []
    {
      this.store, this.dialog, this.horaLocal := store, dialog, horaLocal;
      lastScan, scannedData := NoScan, None;
      showCamera, confirmVisible := false, false;
      workerInfo, workerMissing := None, false;
      selectedShift, turnoActual := None, "";
      showSuccess, showLimit, showDenied, showRegisterModal := false, false, false, false;
      recentHistory := [];
    }

    /** The mount effect resolves the clock shift at `hours:minutes`: it is shown and preselected. */
    method MountShiftResolved(hours: int, minutes: int)
      requires Valid()
      requires 0 <= hours < 24 && 0 <= minutes < 60
      modifies this`selectedShift, this`turnoActual
      ensures Valid()
      ensures selectedShift == Some(ResolveShift(MinuteOfDay(hours, minutes)))
      ensures turnoActual == ResolveShift(MinuteOfDay(hours, minutes)).nombre
      ensures 1 <= selectedShift.value.id <= 4 && turnoActual == PickerName(selectedShift.value.id)
    {
      var shift := ResolveShift(MinuteOfDay(hours, minutes));
      selectedShift := Some(shift);
      turnoActual := shift.nombre;
    }

    /** The scan card opens the camera with a cleared scan, which attaches the scan handler again. */
    method OpenCamera()
      requires Valid() && !confirmVisible
      modifies this`showCamera, this`scannedData
      ensures Valid() && showCamera && scannedData == None
    {
      showCamera := true;
      scannedData := None;
    }

    /** The camera's cancel button only hides it; the scan stays, and with it the handler stays detached. */
    method CloseCamera()
      requires Valid()
      modifies this`showCamera
      ensures Valid() && !showCamera
    {
      showCamera := false;
    }

    /**
     * A barcode event from the visible camera. While a scan is held the
     * handler is detached and nothing happens; otherwise an accepted code
     * becomes the remembered scan and the held scan, the worker is looked up
     * and the confirmation opens whether or not the worker was found.
     */
    method OnBarcodeScanned(data: string, now: int, lookupError: bool)
      requires Valid() && showCamera
      modifies this`lastScan, this`scannedData, this`workerInfo, this`workerMissing, this`confirmVisible
      ensures Valid()
      ensures old(scannedData).Some? ==> unchanged(this)
      ensures old(scannedData).None? ==>
        && lastScan == AfterScan(old(lastScan), data, now)
        && scannedData == ScanVerdict(old(lastScan), data, now)
        && (scannedData.Some? ==>
              && workerInfo == ScanLookup(store.workers, store.companies, scannedData.value, lookupError)
              && workerMissing == workerInfo.None?
              && confirmVisible)
        && (scannedData.None? ==>
              workerInfo == old(workerInfo) && workerMissing == old(workerMissing) && confirmVisible == old(confirmVisible))
    {
      if scannedData.Some? {
        return;
      }
      var verdict := ScanVerdict(lastScan, data, now);
      if verdict.None? {
        return;
      }
      var code := verdict.value;
      lastScan := LastScan(Some(code), now);
      scannedData := Some(code);
      var card := ScanLookup(store.workers, store.companies, code, lookupError);
      workerInfo := card;
      workerMissing := card.None?;
      confirmVisible := true;
    }

    /** Cancel or retry in the confirmation: it closes and the held scan is dropped. */
    method CancelScan()
      requires Valid()
      modifies this`confirmVisible, this`scannedData
      ensures Valid() && !confirmVisible && scannedData == None
    {
      confirmVisible := false;
      scannedData := None;
    }

    /** Leaving for the worker form from the confirmation closes it; the scan stays held. */
    method LeaveForWorkerForm()
      requires Valid() && confirmVisible && workerMissing
      modifies this`confirmVisible
      ensures Valid() && !confirmVisible
    {
      confirmVisible := false;
    }

    /** The shift picker offers the ids 1 to 4. */
    method PickShift(id: int)
      requires Valid() && confirmVisible && workerInfo.Some?
      requires 1 <= id <= 4
      modifies this`selectedShift, this`turnoActual
      ensures Valid()
      ensures selectedShift == Some(Shift(id, PickerName(id))) && turnoActual == PickerName(id)
    {
      selectedShift := Some(Shift(id, PickerName(id)));
      turnoActual := PickerName(id);
    }

    /**
     * The confirm button of the confirmation (shown only with a worker card):
     * runs the individual protocol for the held scan, records a meal and its
     * audit row on success, and raises the matching dialog. The camera closes
     * on success and on a caught exception, and stays open on a refusal or a
     * reached limit.
     */
    method ConfirmAndRegister(session: Option<string>, today: int, f: IndividualFaults) returns (result: IndividualResult)
      requires Valid() && confirmVisible && workerInfo.Some?
      modifies this`confirmVisible, this`showCamera, this`showSuccess, this`showLimit, this`showDenied, store
      ensures Valid()
      ensures result == IndividualDecision(old(store.workers), old(store.meals), old(scannedData).value, selectedShift, session, today, f)
      ensures store.meals == MealsAfterIndividual(old(store.workers), old(store.meals), old(scannedData).value, selectedShift, session, today, horaLocal, f)
      ensures store.audits == AuditsAfterIndividual(old(store.workers), old(store.meals), old(store.audits), old(scannedData).value, selectedShift, session, today, f)
      ensures store.workers == old(store.workers) && store.bulks == old(store.bulks) && store.companies == old(store.companies)
      ensures !confirmVisible
      ensures showCamera == (old(showCamera) && result != Registered && result != Failed)
      ensures showSuccess == (old(showSuccess) || IndividualAlert(result) == SuccessAlert)
      ensures showLimit == (old(showLimit) || IndividualAlert(result) == LimitAlert)
      ensures showDenied == (old(showDenied) || IndividualAlert(result) == DeniedAlert)
    {
      ghost var workers0, meals0, audits0 := store.workers, store.meals, store.audits;
      var dni := scannedData.value;
      IndividualKeepsTablesValid(workers0, meals0, store.bulks, audits0, dni, selectedShift, session, today, horaLocal, f);
      confirmVisible := false;
      if selectedShift.None? || !SignedIn(session) {
        showCamera, showLimit := false, true;
        return Failed;
      }
      if f.lookupError {
        showDenied := true;
        return NotAuthorized;
      }
      var found := FindWorkerByDni(store.workers, dni);
      if !found.Found? || found.row.estado != "activo" {
        showDenied := true;
        return NotAuthorized;
      }
      var w := found.row;
      if f.countError {
        showCamera, showLimit := false, true;
        return Failed;
      }
      var count := MealCount(store.meals, w.id, today);
      if count >= w.limiteComidasDiario {
        showLimit := true;
        return OverLimit;
      }
      if f.insertError {
        showCamera, showLimit := false, true;
        return Failed;
      }
      var operator := OperatorId(session.value);
      var mealId := store.InsertMeal(Meal(0, w.id, selectedShift.value.id, today, "registrado", operator, horaLocal, true));
      if !f.auditError {
        store.InsertAudit(Audit(0, operator, Individual, mealId));
      }
      showCamera, showSuccess := false, true;
      return Registered;
    }

    /** The bulk button shows the dialog. */
    method OpenBulkDialog()
      requires Valid() && !showRegisterModal
      modifies this`showRegisterModal, dialog
      ensures Valid() && showRegisterModal
      ensures dialog.cantidad == "" && dialog.empresa == None && dialog.turno == None
      ensures dialog.empresaSeen == old(dialog.empresa) && dialog.turnoSeen == old(dialog.turno)
    {
      showRegisterModal := true;
      dialog.Open();
    }

    /** The dialog's cancel button hides it. */
    method CloseBulkDialog()
      requires Valid() && showRegisterModal && !dialog.confirmVisible
      modifies this`showRegisterModal, dialog`visible
      ensures Valid() && !showRegisterModal
    {
      showRegisterModal := false;
      dialog.Close();
    }

    /**
     * The dialog's confirm button: the dialog hands over its values and is
     * hidden, then the bulk protocol runs for (company, shift, today). On
     * success a bulk record and its audit row are written, the success dialog
     * is raised and the camera closes; every other ending raises the denied
     * dialog.
     */
    method ConfirmBulk(session: Option<string>, today: int, f: BulkFaults) returns (result: BulkResult)
      requires Valid() && dialog.confirmVisible
      modifies this`showRegisterModal, this`showSuccess, this`showDenied, this`showCamera, dialog`confirmVisible, dialog`visible, store
      ensures Valid() && !showRegisterModal && !dialog.visible
      ensures var e, t := PickNumber(old(dialog.empresa)), PickNumber(old(dialog.turno));
        && result == BulkDecision(old(store.bulks), e, t, session, today, f)
        && store.bulks == BulksAfter(old(store.bulks), ParseInt(old(dialog.cantidad)), e, t, session, today, horaLocal, f)
        && store.audits == AuditsAfterBulk(old(store.bulks), old(store.audits), e, t, session, today, f)
      ensures store.workers == old(store.workers) && store.meals == old(store.meals) && store.companies == old(store.companies)
      ensures showSuccess == (old(showSuccess) || result == BulkRegistered)
      ensures showDenied == (old(showDenied) || BulkAlert(result) == DeniedAlert)
      ensures showCamera == (old(showCamera) && result != BulkRegistered)
    {
      var quantity, empresa, turno := dialog.Confirm();
      showRegisterModal := false;
      dialog.Close();
      var e, t := PickNumber(empresa), PickNumber(turno);
      BulkKeepsTablesValid(store.workers, store.meals, store.bulks, store.audits, quantity, e, t, session, today, horaLocal, f);
      if !SignedIn(session) || f.checkError {
        showDenied := true;
        return BulkFailed;
      }
      var existing := MaybeSingle(BulksFor(store.bulks, e, t, today));
      if existing.Several? {
        showDenied := true;
        return BulkFailed;
      }
      if existing.Found? {
        showDenied := true;
        return Duplicate;
      }
      if f.insertError {
        showDenied := true;
        return BulkFailed;
      }
      var operator := OperatorId(session.value);
      var bulkId := store.InsertBulk(BulkMeal(0, e, StoredQuantity(quantity), t, today, operator, horaLocal));
      if !f.auditError {
        store.InsertAudit(Audit(0, operator, Masivo, bulkId));
      }
      showSuccess, showCamera := true, false;
      return BulkRegistered;
    }

    /**
     * The recent panel reloads from the two queries' rows (`None` for a
     * failed query). Any failure keeps the panel as it was.
     */
    method RefreshRecentHistory(ind: Option<seq<History.IndividualView>>, bulk: Option<seq<History.BulkView>>)
      requires Valid()
      modifies this`recentHistory
      ensures Valid()
      ensures recentHistory == if ind.Some? && bulk.Some? then History.RecentRows(ind.value, bulk.value) else old(recentHistory)
    {
      if ind.None? || bulk.None? {
        return;
      }
      recentHistory := History.RecentRows(ind.value, bulk.value);
    }

    /** The success dialog closes on either of its buttons; the other dialogs stay as they are. */
    method DismissSuccess()
      requires Valid()
      modifies this`showSuccess
      ensures Valid() && !showSuccess
    {
      showSuccess := false;
    }

    /** The limit dialog closes on either of its buttons. */
    method DismissLimit()
      requires Valid()
      modifies this`showLimit
      ensures Valid() && !showLimit
    {
      showLimit := false;
    }

    /** The denied dialog closes on either of its buttons. */
    method DismissDenied()
      requires Valid()
      modifies this`showDenied
      ensures Valid() && !showDenied
    {
      showDenied := false;
    }
  }

  /**
   * After an accepted scan the handler stays detached: until the scan is
   * cancelled or the camera is reopened, every further barcode event leaves
   * the screen unchanged, even for another worker's code.
   */
  method HeldScanIgnoresEvents(screen: ScannerScreen, data: string, now: int, lookupError: bool)
    requires screen.Valid() && screen.showCamera && screen.scannedData.Some?
    modifies screen
    ensures screen.lastScan == old(screen.lastScan) && screen.scannedData == old(screen.scannedData)
    ensures screen.workerInfo == old(screen.workerInfo) && screen.confirmVisible == old(screen.confirmVisible)
  {
    screen.OnBarcodeScanned(data, now, lookupError);
  }
}
