/**
 * The new-worker form: a company picker defaulted to the first listed
 * company, text fields for the DNI, names, surnames, role and daily meal
 * limit, an Activo/Inactivo picker, and a submit handler that runs a fixed
 * chain of checks (the first failure stops it before any store access), then
 * looks the DNI up and inserts the worker only when nobody holds it.
 */
module WorkerForm {
  import opened JsText
  import opened Tables
  import opened Registration
  import Shifts
  import Dialog
  import Scanner

  /** The input checks of the submit handler, in the order it runs them. */
  datatype FormError = NoCompany | BadDni | NoNames | NoSurnames | NoRole | BadLimit | BadEstado

  /** The position of a check in the chain. */
  function Rank(e: FormError): nat {
    match e
    case NoCompany => 0
    case BadDni => 1
    case NoNames => 2
    case NoSurnames => 3
    case NoRole => 4
    case BadLimit => 5
    case BadEstado => 6
  }

  /** The form's values as the submit handler reads them. */
  datatype Fields = Fields(
    empresaId: Option<int>, dni: string, nombres: string, apellidos: string,
    rol: string, limite: string, estado: string)

  /** A DNI is exactly eight decimal digits, taken as typed (no trimming). */
  predicate ValidDni(dni: string) {
    |dni| == 8 && AllDigits(dni)
  }

  /** The limit text must `parseInt` to a number above 0. */
  predicate ValidLimit(limite: string) {
    ParseInt(limite).Num? && ParseInt(limite).n > 0
  }

  /** Whether `x` passes check `e`. */
  predicate Passes(x: Fields, e: FormError) {
    match e
    case NoCompany => Dialog.Truthy(x.empresaId)
    case BadDni => ValidDni(x.dni)
    case NoNames => Trim(x.nombres) != []
    case NoSurnames => Trim(x.apellidos) != []
    case NoRole => Trim(x.rol) != []
    case BadLimit => ValidLimit(x.limite)
    case BadEstado => x.estado == "Activo" || x.estado == "Inactivo"
  }

  /** The validation chain of the submit handler: the first failing check, if any. */
  function Validate(x: Fields): (r: Option<FormError>)
    ensures r.Some? ==> !Passes(x, r.value)
  {
    if !Dialog.Truthy(x.empresaId) then Some(NoCompany)
    else if !ValidDni(x.dni) then Some(BadDni)
    else if Trim(x.nombres) == [] then Some(NoNames)
    else if Trim(x.apellidos) == [] then Some(NoSurnames)
    else if Trim(x.rol) == [] then Some(NoRole)
    else if ParseInt(x.limite).NaN? || ParseInt(x.limite).n <= 0 then Some(BadLimit)
    else if x.estado != "Activo" && x.estado != "Inactivo" then Some(BadEstado)
    else None
  }

  /**
   * The chain accepts exactly the fields that pass every check, and otherwise
   * reports a failing check all of whose predecessors pass.
   */
  lemma ValidateSpec(x: Fields)
    ensures Validate(x).None? <==> forall e :: Passes(x, e)
    ensures Validate(x).Some? ==>
      && !Passes(x, Validate(x).value)
      && forall e :: Rank(e) < Rank(Validate(x).value) ==> Passes(x, e)
  {
    match Validate(x)
    case None =>
      forall e ensures Passes(x, e) {
        match e
        case NoCompany =>
        case BadDni =>
        case NoNames =>
        case NoSurnames =>
        case NoRole =>
        case BadLimit =>
        case BadEstado =>
      }
    case Some(v) =>
      assert !Passes(x, v);
      forall e | Rank(e) < Rank(v) ensures Passes(x, e) {
        match e
        case NoCompany =>
        case BadDni =>
        case NoNames =>
        case NoSurnames =>
        case NoRole =>
        case BadLimit =>
        case BadEstado =>
      }
  }

  /** What an accepted form guarantees about the worker it will insert. */
  lemma AcceptedFields(x: Fields)
    requires Validate(x).None?
    ensures x.empresaId.Some? && x.empresaId.value != 0
    ensures |x.dni| == 8 && AllDigits(x.dni)
    ensures ParseInt(x.limite).Num? && ParseInt(x.limite).n >= 1
    ensures LowerAscii(x.estado) == "activo" || LowerAscii(x.estado) == "inactivo"
    ensures LowerAscii(x.estado) == "activo" <==> x.estado == "Activo"
  {
    LowerEstado();
  }

  /** The estado picker's values, lower-cased as the insert stores them. */
  lemma LowerEstado()
    ensures LowerAscii("Activo") == "activo" && LowerAscii("Inactivo") == "inactivo"
  {
  }

  /**
   * The limit text only has to start with a positive number: `parseInt`
   * skips leading blanks and ignores what follows the digits, so `3abc` is
   * accepted as 3.
   */
  lemma LimitIgnoresSuffix(digits: string, rest: string)
    requires digits != [] && AllDigits(digits) && DigitsValue(digits) > 0
    requires rest != [] ==> !IsDigit(rest[0]) && rest[0] != 'x' && rest[0] != 'X'
    ensures ValidLimit(digits + rest) && ParseInt(digits + rest).n == DigitsValue(digits)
  {
    ParseIntIgnoresSuffix(digits, rest);
  }

  /** Zero and negative limits are refused, whatever follows them. */
  lemma NonPositiveLimitRefused(n: int, rest: string)
    requires n <= 0
    requires rest != [] ==> !IsDigit(rest[0]) && rest[0] != 'x' && rest[0] != 'X'
    ensures !ValidLimit(IntToString(n) + rest)
  {
    ParseIntOfIntToString(n, rest);
  }

  /** Every DNI the form accepts is a code the scanner accepts. */
  lemma ValidDniScans(dni: string, now: int)
    requires ValidDni(dni)
    ensures Scanner.IsScanCode(dni) && Scanner.ScanVerdict(Scanner.NoScan, dni, now) == Some(dni)
  {
    TrimOfTrimmed(dni);
  }

  // ---------------------------------------------------------------------
  // Submitting

  /** Errors the store may return to the duplicate lookup and to the insert. */
  datatype WorkerFaults = WorkerFaults(lookupError: bool, insertError: bool)

  /**
   * How a submit ends: a check failed, the DNI is taken, the store failed
   * (including a lookup that matched several rows), or the worker was saved.
   */
  datatype SubmitResult = Invalid(error: FormError) | DuplicateDni | SubmitFailed | Saved

  /** The submit handler's decision over the worker table. */
  function SubmitDecision(workers: seq<Worker>, x: Fields, f: WorkerFaults): (r: SubmitResult)
    ensures r.Invalid? <==> Validate(x).Some?
    ensures r.Invalid? ==> Validate(x) == Some(r.error)
    ensures r == Saved ==> !f.lookupError && !f.insertError
  {
    match Validate(x)
    case Some(e) => Invalid(e)
    case None =>
      if f.lookupError then SubmitFailed
      else match FindWorkerByDni(workers, x.dni)
        case Found(_) => DuplicateDni
        case Several => SubmitFailed
        case Absent => if f.insertError then SubmitFailed else Saved
  }

  /** The row a successful submit inserts: the parsed limit and the lower-cased estado. */
  function NewWorker(workers: seq<Worker>, x: Fields): (w: Worker)
    requires Validate(x).None?
    ensures w.id == |workers| + 1 && w.dni == x.dni && w.limiteComidasDiario >= 1
    ensures w.estado == "activo" || w.estado == "inactivo"
  {
    AcceptedFields(x);
    Worker(|workers| + 1, x.dni, x.nombres, x.apellidos, x.empresaId.value, x.rol,
      ParseInt(x.limite).n, LowerAscii(x.estado))
  }

  /** The worker table after a submit. */
  function WorkersAfterSubmit(workers: seq<Worker>, x: Fields, f: WorkerFaults): (r: seq<Worker>)
    ensures workers <= r
    ensures |r| == |workers| + 1 <==> SubmitDecision(workers, x, f) == Saved
    ensures |r| != |workers| + 1 ==> r == workers
  {
    if SubmitDecision(workers, x, f) == Saved then workers + [NewWorker(workers, x)] else workers
  }

  /**
   * With unique DNIs, a submit saves exactly when the form is accepted, the
   * store does not fail and no worker holds the DNI; when the DNI is taken it
   * is refused as a duplicate.
   */
  lemma SubmitSavedIff(workers: seq<Worker>, x: Fields, f: WorkerFaults)
    requires DniUnique(workers)
    ensures SubmitDecision(workers, x, f) == Saved <==>
      && Validate(x).None? && !f.lookupError && !f.insertError
      && forall i :: 0 <= i < |workers| ==> workers[i].dni != x.dni
    ensures Validate(x).None? && !f.lookupError && (exists i :: 0 <= i < |workers| && workers[i].dni == x.dni) ==>
      SubmitDecision(workers, x, f) == DuplicateDni
  {
    FindWorkerUnique(workers, x.dni);
  }

  /** A submit keeps the store's invariants; in particular it never creates a second worker with a DNI. */
  lemma SubmitKeepsTablesValid(
    workers: seq<Worker>, meals: seq<Meal>, bulks: seq<BulkMeal>, audits: seq<Audit>, x: Fields, f: WorkerFaults)
    requires ValidTables(workers, meals, bulks, audits)
    ensures ValidTables(WorkersAfterSubmit(workers, x, f), meals, bulks, audits)
  {
    if SubmitDecision(workers, x, f) == Saved {
      var nw := NewWorker(workers, x);
      var workers' := workers + [nw];
      SubmitSavedIff(workers, x, f);
      AcceptedFields(x);
      assert SerialWorkers(workers');
      assert DniUnique(workers') by {
        forall i, j | 0 <= i < j < |workers'| ensures workers'[i].dni != workers'[j].dni {
          assert workers'[i] == workers[i];
          if j < |workers| { assert workers'[j] == workers[j]; }
        }
      }
      assert MealsReferenceWorkers(meals, workers');
      assert WithinDailyLimits(workers', meals) by {
        forall j, day | 0 <= j < |workers'|
          ensures MealCount(meals, workers'[j].id, day) <= workers'[j].limiteComidasDiario
        {
          if j < |workers| {
            assert workers'[j] == workers[j];
          } else {
            MealCountAbsent(meals, nw.id, day);
          }
        }
      }
    }
  }

  /**
   * A worker saved as Activo can eat at once: the DNI now finds them, they
   * are `activo`, they have no meal yet, and their limit is at least 1, so an
   * individual registration without store errors succeeds.
   */
  lemma SavedActiveWorkerIsServed(
    workers: seq<Worker>, meals: seq<Meal>, bulks: seq<BulkMeal>, audits: seq<Audit>, x: Fields, f: WorkerFaults,
    shift: Shifts.Shift, session: Option<string>, today: int, auditError: bool)
    requires ValidTables(workers, meals, bulks, audits)
    requires SubmitDecision(workers, x, f) == Saved && x.estado == "Activo"
    requires SignedIn(session)
    ensures IndividualDecision(WorkersAfterSubmit(workers, x, f), meals, x.dni, Some(shift), session, today,
      IndividualFaults(false, false, false, auditError)) == Registered
  {
    var found := SavedWorkerFound(workers, meals, bulks, audits, x, f);
    AcceptedFields(x);
    MealCountAbsent(meals, found.id, today);
  }

  /** A worker saved as Inactivo is refused at the scanner. */
  lemma SavedInactiveWorkerIsRefused(
    workers: seq<Worker>, meals: seq<Meal>, bulks: seq<BulkMeal>, audits: seq<Audit>, x: Fields, f: WorkerFaults,
    shift: Shifts.Shift, session: Option<string>, today: int, g: IndividualFaults)
    requires ValidTables(workers, meals, bulks, audits)
    requires SubmitDecision(workers, x, f) == Saved && x.estado == "Inactivo"
    requires SignedIn(session) && !g.lookupError
    ensures IndividualDecision(WorkersAfterSubmit(workers, x, f), meals, x.dni, Some(shift), session, today, g) == NotAuthorized
  {
    var found := SavedWorkerFound(workers, meals, bulks, audits, x, f);
    AcceptedFields(x);
  }

  /** After a save, the DNI lookup finds exactly the new row. */
  lemma SavedWorkerFound(
    workers: seq<Worker>, meals: seq<Meal>, bulks: seq<BulkMeal>, audits: seq<Audit>, x: Fields, f: WorkerFaults)
    returns (w: Worker)
    requires ValidTables(workers, meals, bulks, audits)
    requires SubmitDecision(workers, x, f) == Saved
    ensures w == NewWorker(workers, x) && w.id == |workers| + 1
    ensures FindWorkerByDni(WorkersAfterSubmit(workers, x, f), x.dni) == Found(w)
  {
    var workers' := WorkersAfterSubmit(workers, x, f);
    w := NewWorker(workers, x);
    SubmitKeepsTablesValid(workers, meals, bulks, audits, x, f);
    SubmitSavedIff(workers, x, f);
    FindWorkerUnique(workers', x.dni);
    assert workers'[|workers|] == w;
    var row := FindWorkerByDni(workers', x.dni).row;
    assert row in WorkersWithDni(workers', x.dni);
    var j :| 0 <= j < |workers'| && workers'[j] == row;
    if j < |workers| {
      assert workers'[j] == workers[j];
    }
  }

  /**
   * The form screen. Its store is the one the scanner screen uses; `Values`
   * is what the submit handler reads.
   */
  class WorkerFormScreen {
    const store: Store
    var empresas: seq<Company>
    var empresaId: Option<int>
    var dni: string
    var nombres: string
    var apellidos: string
    var rol: string
    var limiteComidas: string
    var estado: string
    /** Whether the mount effect's company query has returned; it runs once. */
    var loaded: bool

    /** Before the company list arrives the picker is empty, so no company can be selected. */
    ghost predicate Valid()
      reads this, store
    {
      && store.Valid()
      && (!loaded ==> empresas == [] && empresaId == None)
    }

    function Values(): Fields
      reads this
    {
      Fields(empresaId, dni, nombres, apellidos, rol, limiteComidas, estado)
    }

    /** The form opens with role `trabajador`, limit `3`, estado `Activo` and no company. */
    constructor (store: Store)
      requires store.Valid()
      ensures Valid() && this.store == store
      ensures empresas == [] && empresaId == None && !loaded
      ensures dni == "" && nombres == "" && apellidos == ""
      ensures rol == "trabajador" && limiteComidas == "3" && estado == "Activo"
    {
      this.store := store;
      empresas, empresaId, loaded := [], None, false;
      dni, nombres, apellidos := "", "", "";
      rol, limiteComidas, estado := "trabajador", "3", "Activo";
    }

    /**
     * The company list arrives, once, from the mount effect (`None` when the
     * query failed, which leaves the list empty): it is listed, and a
     * non-empty list selects its first company unconditionally.
     */
    method CompaniesLoaded(result: Option<seq<Company>>)
      requires Valid() && !loaded
      modifies this`empresas, this`empresaId, this`loaded
      ensures Valid() && loaded
      ensures empresas == if result.Some? then result.value else []
      ensures empresaId == if result.Some? && result.value != [] then Some(result.value[0].id) else None
    {
      loaded := true;
      if result.None? {
        return;
      }
      empresas := result.value;
      if |result.value| > 0 {
        empresaId := Some(result.value[0].id);
      }
    }

    /** The company picker lists only the loaded companies (it has no placeholder). */
    method PickCompany(id: int)
      requires Valid()
      requires exists i :: 0 <= i < |empresas| && empresas[i].id == id
      modifies this`empresaId
      ensures Valid() && empresaId == Some(id)
    {
      empresaId := Some(id);
    }

    /** The DNI field keeps at most eight characters. */
    method SetDni(text: string)
      requires Valid()
      modifies this`dni
      ensures Valid() && |dni| <= 8
      ensures dni == if |text| <= 8 then text else text[..8]
    {
      dni := if |text| <= 8 then text else text[..8];
    }

    method SetNombres(text: string)
      requires Valid()
      modifies this`nombres
      ensures Valid() && nombres == text
    {
      nombres := text;
    }

    method SetApellidos(text: string)
      requires Valid()
      modifies this`apellidos
      ensures Valid() && apellidos == text
    {
      apellidos := text;
    }

    method SetRol(text: string)
      requires Valid()
      modifies this`rol
      ensures Valid() && rol == text
    {
      rol := text;
    }

    method SetLimite(text: string)
      requires Valid()
      modifies this`limiteComidas
      ensures Valid() && limiteComidas == text
    {
      limiteComidas := text;
    }

    /** The estado picker offers Activo and Inactivo. */
    method PickEstado(v: string)
      requires Valid() && (v == "Activo" || v == "Inactivo")
      modifies this`estado
      ensures Valid() && estado == v
    {
      estado := v;
    }

    /**
     * The submit button: the checks in order, then the DNI lookup, then the
     * insert of the new worker with the parsed limit and the lower-cased
     * estado. Names, surnames and role are stored as typed.
     */
    method Submit(f: WorkerFaults) returns (r: SubmitResult)
      requires Valid()
      modifies store
      ensures Valid()
      ensures r == SubmitDecision(old(store.workers), Values(), f)
      ensures store.workers == WorkersAfterSubmit(old(store.workers), Values(), f)
      ensures store.companies == old(store.companies) && store.meals == old(store.meals)
      ensures store.bulks == old(store.bulks) && store.audits == old(store.audits)
    {
      if !Dialog.Truthy(empresaId) {
        return Invalid(NoCompany);
      }
      if !ValidDni(dni) {
        return Invalid(BadDni);
      }
      if Trim(nombres) == [] {
        return Invalid(NoNames);
      }
      if Trim(apellidos) == [] {
        return Invalid(NoSurnames);
      }
      if Trim(rol) == [] {
        return Invalid(NoRole);
      }
      var limite := ParseInt(limiteComidas);
      if limite.NaN? || limite.n <= 0 {
        return Invalid(BadLimit);
      }
      if estado != "Activo" && estado != "Inactivo" {
        return Invalid(BadEstado);
      }
      if f.lookupError {
        return SubmitFailed;
      }
      var existe := FindWorkerByDni(store.workers, dni);
      if existe.Several? {
        return SubmitFailed;
      }
      if existe.Found? {
        return DuplicateDni;
      }
      if f.insertError {
        return SubmitFailed;
      }
      SubmitKeepsTablesValid(store.workers, store.meals, store.bulks, store.audits, Values(), f);
      var id := store.InsertWorker(Worker(0, dni, nombres, apellidos, empresaId.value, rol, limite.n, LowerAscii(estado)));
      return Saved;
    }
  }
}
