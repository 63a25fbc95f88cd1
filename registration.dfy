/**
 * The two meal registration protocols of the scanner screen, as decisions
 * over a snapshot of the store: the individual one (a scanned worker, the
 * selected shift, today's count against the worker's daily limit) and the
 * bulk one (one record per company, shift and day). Store errors are
 * parameters; each protocol's effect on the tables is a function of the
 * snapshot, and the lemmas show that the effects keep the store's invariants.
 */
module Registration {
  import opened JsText
  import opened Tables
  import Shifts

  // ---------------------------------------------------------------------
  // The signed-in operator

  /** `AsyncStorage.getItem('usuario_id')` gave a non-empty string. */
  predicate SignedIn(session: Option<string>) {
    session.Some? && session.value != []
  }

  /** `Number(usuarioId)` as written to the store: a value that is not a number is null. */
  function OperatorId(usuarioId: string): (r: Option<int>)
    ensures r.Some? <==> NumberOf(usuarioId).Num?
    ensures r.Some? ==> r.value == NumberOf(usuarioId).n
  {
    match NumberOf(usuarioId)
    case Num(n) => Some(n)
    case NaN => None
  }

  /** The dialog the screen shows at the end of an attempt. */
  datatype Alert = SuccessAlert | LimitAlert | DeniedAlert

  // ---------------------------------------------------------------------
  // Individual registration

  /**
   * How an individual attempt ends: a meal recorded, the worker refused
   * (unknown, ambiguous lookup or not active), the daily limit reached, or an
   * exception caught by the handler.
   */
  datatype IndividualResult = Registered | NotAuthorized | OverLimit | Failed

  /** Errors the store may return to each step of an individual attempt. */
  datatype IndividualFaults = IndividualFaults(lookupError: bool, countError: bool, insertError: bool, auditError: bool)

  /** Success only for a recorded meal; the limit dialog for a reached limit and for every exception. */
  function IndividualAlert(r: IndividualResult): (a: Alert)
    ensures a == SuccessAlert <==> r == Registered
    ensures a == LimitAlert <==> r == OverLimit || r == Failed
  {
    match r
    case Registered => SuccessAlert
    case NotAuthorized => DeniedAlert
    case OverLimit => LimitAlert
    case Failed => LimitAlert
  }

  /**
   * The individual protocol's decision, step by step: a shift must be selected
   * and an operator signed in (otherwise an exception), the DNI must find one
   * active worker, today's count must be below the worker's daily limit, and
   * the insert must succeed. The audit insert is not checked.
   */
  function IndividualDecision(
    workers: seq<Worker>, meals: seq<Meal>, dni: string, shift: Option<Shifts.Shift>,
    session: Option<string>, today: int, f: IndividualFaults): (r: IndividualResult)
    ensures r == Registered ==> shift.Some? && SignedIn(session) && !f.lookupError && !f.countError && !f.insertError
    ensures r == OverLimit ==> shift.Some? && SignedIn(session) && !f.lookupError && !f.countError
  {
    if shift.None? then Failed
    else if !SignedIn(session) then Failed
    else if f.lookupError then NotAuthorized
    else match FindWorkerByDni(workers, dni)
      case Found(w) =>
        if w.estado != "activo" then NotAuthorized
        else if f.countError then Failed
        else if MealCount(meals, w.id, today) >= w.limiteComidasDiario then OverLimit
        else if f.insertError then Failed
        else Registered
      case _ => NotAuthorized
  }

  /** The meal record an individual registration inserts. */
  function NewMeal(meals: seq<Meal>, w: Worker, shift: Shifts.Shift, usuarioId: string, today: int, hora: int): (m: Meal)
    ensures m.id == |meals| + 1
    ensures MealCount(meals + [m], w.id, today) == MealCount(meals, w.id, today) + 1
    ensures forall id, day :: id != w.id || day != today ==> MealCount(meals + [m], id, day) == MealCount(meals, id, day)
  {
    var m := Meal(|meals| + 1, w.id, shift.id, today, "registrado", OperatorId(usuarioId), hora, true);
    assert (meals + [m])[..|meals|] == meals;
    m
  }

  /** The meal table after an individual attempt. */
  function MealsAfterIndividual(
    workers: seq<Worker>, meals: seq<Meal>, dni: string, shift: Option<Shifts.Shift>,
    session: Option<string>, today: int, hora: int, f: IndividualFaults): (r: seq<Meal>)
    ensures meals <= r && |r| <= |meals| + 1
  {
    if IndividualDecision(workers, meals, dni, shift, session, today, f) == Registered then
      meals + [NewMeal(meals, FindWorkerByDni(workers, dni).row, shift.value, session.value, today, hora)]
    else meals
  }

  /** The audit table after an individual attempt: a row for the new meal unless its insert failed. */
  function AuditsAfterIndividual(
    workers: seq<Worker>, meals: seq<Meal>, audits: seq<Audit>, dni: string, shift: Option<Shifts.Shift>,
    session: Option<string>, today: int, f: IndividualFaults): (r: seq<Audit>)
    ensures audits <= r && |r| <= |audits| + 1
  {
    if IndividualDecision(workers, meals, dni, shift, session, today, f) == Registered && !f.auditError then
      audits + [Audit(|audits| + 1, OperatorId(session.value), Individual, |meals| + 1)]
    else audits
  }

  /** With serial ids and unique DNIs, the worker a DNI finds sits at index `id - 1`. */
  lemma FoundWorkerIndex(workers: seq<Worker>, dni: string) returns (i: int)
    requires SerialWorkers(workers) && DniUnique(workers)
    requires FindWorkerByDni(workers, dni).Found?
    ensures 0 <= i < |workers| && workers[i] == FindWorkerByDni(workers, dni).row
    ensures workers[i].id == i + 1 && workers[i].dni == dni
  {
    FindWorkerUnique(workers, dni);
    var w := FindWorkerByDni(workers, dni).row;
    assert w in WorkersWithDni(workers, dni);
    i :| 0 <= i < |workers| && workers[i] == w;
  }

  /**
   * An individual attempt registers exactly when a shift is selected, an
   * operator is signed in, no store step fails (the audit aside), and the DNI
   * belongs to an active worker with fewer meals today than their limit.
   */
  lemma IndividualRegisteredIff(
    workers: seq<Worker>, meals: seq<Meal>, dni: string, shift: Option<Shifts.Shift>,
    session: Option<string>, today: int, f: IndividualFaults)
    requires SerialWorkers(workers) && DniUnique(workers)
    ensures IndividualDecision(workers, meals, dni, shift, session, today, f) == Registered <==>
      && shift.Some? && SignedIn(session)
      && !f.lookupError && !f.countError && !f.insertError
      && exists i :: 0 <= i < |workers| && workers[i].dni == dni && workers[i].estado == "activo"
           && MealCount(meals, workers[i].id, today) < workers[i].limiteComidasDiario
  {
    FindWorkerUnique(workers, dni);
    if FindWorkerByDni(workers, dni).Found? {
      var i := FoundWorkerIndex(workers, dni);
    }
  }

  /** An unknown or inactive worker is refused whatever the count, and nothing is written. */
  lemma InactiveOrUnknownDenied(
    workers: seq<Worker>, meals: seq<Meal>, audits: seq<Audit>, dni: string, shift: Option<Shifts.Shift>,
    session: Option<string>, today: int, hora: int, f: IndividualFaults)
    requires SerialWorkers(workers) && DniUnique(workers)
    requires shift.Some? && SignedIn(session)
    requires forall i :: 0 <= i < |workers| && workers[i].dni == dni ==> workers[i].estado != "activo"
    ensures IndividualDecision(workers, meals, dni, shift, session, today, f) == NotAuthorized
    ensures IndividualAlert(IndividualDecision(workers, meals, dni, shift, session, today, f)) == DeniedAlert
    ensures MealsAfterIndividual(workers, meals, dni, shift, session, today, hora, f) == meals
    ensures AuditsAfterIndividual(workers, meals, audits, dni, shift, session, today, f) == audits
  {
    FindWorkerUnique(workers, dni);
    if FindWorkerByDni(workers, dni).Found? {
      var i := FoundWorkerIndex(workers, dni);
    }
  }

  /** A worker who has reached the daily limit is never registered again that day, whatever the shift. */
  lemma AtLimitNeverRegisters(
    workers: seq<Worker>, meals: seq<Meal>, i: int, shift: Option<Shifts.Shift>,
    session: Option<string>, today: int, f: IndividualFaults)
    requires SerialWorkers(workers) && DniUnique(workers)
    requires 0 <= i < |workers|
    requires MealCount(meals, workers[i].id, today) >= workers[i].limiteComidasDiario
    ensures IndividualDecision(workers, meals, workers[i].dni, shift, session, today, f) != Registered
  {
    FindWorkerUnique(workers, workers[i].dni);
    var k := FoundWorkerIndex(workers, workers[i].dni);
    assert k == i;
  }

  /**
   * With no shift selected or nobody signed in the handler throws, and the
   * catch shows the limit dialog, like a reached limit does.
   */
  lemma ExceptionsReadAsLimit(
    workers: seq<Worker>, meals: seq<Meal>, dni: string, shift: Option<Shifts.Shift>,
    session: Option<string>, today: int, f: IndividualFaults)
    requires shift.None? || !SignedIn(session)
    ensures IndividualDecision(workers, meals, dni, shift, session, today, f) == Failed
    ensures IndividualAlert(Failed) == LimitAlert && IndividualAlert(OverLimit) == LimitAlert
  {
  }

  /**
   * With serial ids and unique DNIs, an attempt ends in the caught exception
   * exactly when a shift or the operator is missing, or when an active worker
   * was found and then the count fails, or the count is below the limit and
   * the insert fails; each of these shows the limit dialog.
   */
  lemma IndividualFailedIff(
    workers: seq<Worker>, meals: seq<Meal>, dni: string, shift: Option<Shifts.Shift>,
    session: Option<string>, today: int, f: IndividualFaults)
    requires SerialWorkers(workers) && DniUnique(workers)
    ensures IndividualDecision(workers, meals, dni, shift, session, today, f) == Failed <==>
      || shift.None? || !SignedIn(session)
      || (&& !f.lookupError
          && exists i :: 0 <= i < |workers| && workers[i].dni == dni && workers[i].estado == "activo"
               && (f.countError || (MealCount(meals, workers[i].id, today) < workers[i].limiteComidasDiario && f.insertError)))
    ensures IndividualDecision(workers, meals, dni, shift, session, today, f) == Failed ==>
      IndividualAlert(IndividualDecision(workers, meals, dni, shift, session, today, f)) == LimitAlert
  {
    FindWorkerUnique(workers, dni);
    if FindWorkerByDni(workers, dni).Found? {
      var i := FoundWorkerIndex(workers, dni);
      forall j | 0 <= j < |workers| && workers[j].dni == dni ensures j == i {
        assert workers[j].dni == workers[i].dni;
      }
    }
  }

  /** The audit insert's failure changes neither the outcome nor the meal table. */
  lemma AuditFailureIgnored(
    workers: seq<Worker>, meals: seq<Meal>, dni: string, shift: Option<Shifts.Shift>,
    session: Option<string>, today: int, hora: int, f: IndividualFaults)
    ensures IndividualDecision(workers, meals, dni, shift, session, today, f) ==
      IndividualDecision(workers, meals, dni, shift, session, today, f.(auditError := !f.auditError))
    ensures MealsAfterIndividual(workers, meals, dni, shift, session, today, hora, f) ==
      MealsAfterIndividual(workers, meals, dni, shift, session, today, hora, f.(auditError := !f.auditError))
  {
  }

  /**
   * A registration adds exactly one meal, for the scanned worker and today,
   * carrying the selected shift, state `registrado` and `validado`; that
   * worker's count for today goes up by one and stays within the limit, and
   * no other (worker, day) count moves.
   */
  lemma RegisteredAddsOneMeal(
    workers: seq<Worker>, meals: seq<Meal>, dni: string, shift: Option<Shifts.Shift>,
    session: Option<string>, today: int, hora: int, f: IndividualFaults,
    workerId: int, day: int)
    requires SerialWorkers(workers) && DniUnique(workers)
    requires IndividualDecision(workers, meals, dni, shift, session, today, f) == Registered
    ensures var after := MealsAfterIndividual(workers, meals, dni, shift, session, today, hora, f);
      var w := FindWorkerByDni(workers, dni).row;
      && |after| == |meals| + 1 && after[..|meals|] == meals
      && w in workers && w.dni == dni && w.estado == "activo"
      && after[|meals|].trabajadorId == w.id && after[|meals|].turnoId == shift.value.id
      && after[|meals|].fecha == today && after[|meals|].estado == "registrado" && after[|meals|].validado
      && MealCount(after, workerId, day) ==
           MealCount(meals, workerId, day) + (if workerId == w.id && day == today then 1 else 0)
      && MealCount(after, w.id, today) <= w.limiteComidasDiario
  {
    var w := FindWorkerByDni(workers, dni).row;
    var i := FoundWorkerIndex(workers, dni);
    var m := NewMeal(meals, w, shift.value, session.value, today, hora);
    assert (meals + [m])[..|meals|] == meals;
    MealCountAppend(meals, m, workerId, day);
    MealCountAppend(meals, m, w.id, today);
  }

  /** An individual attempt keeps every invariant of the store. */
  lemma IndividualKeepsTablesValid(
    workers: seq<Worker>, meals: seq<Meal>, bulks: seq<BulkMeal>, audits: seq<Audit>, dni: string,
    shift: Option<Shifts.Shift>, session: Option<string>, today: int, hora: int, f: IndividualFaults)
    requires ValidTables(workers, meals, bulks, audits)
    ensures ValidTables(workers,
      MealsAfterIndividual(workers, meals, dni, shift, session, today, hora, f), bulks,
      AuditsAfterIndividual(workers, meals, audits, dni, shift, session, today, f))
  {
    if IndividualDecision(workers, meals, dni, shift, session, today, f) == Registered {
      var w := FindWorkerByDni(workers, dni).row;
      var i := FoundWorkerIndex(workers, dni);
      var m := NewMeal(meals, w, shift.value, session.value, today, hora);
      var meals' := meals + [m];
      var audits' := AuditsAfterIndividual(workers, meals, audits, dni, shift, session, today, f);
      assert SerialMeals(meals');
      assert MealsReferenceWorkers(meals', workers) by {
        forall k | 0 <= k < |meals'| ensures 1 <= meals'[k].trabajadorId <= |workers| {
          if k < |meals| { assert meals'[k] == meals[k]; }
        }
      }
      assert WithinDailyLimits(workers, meals') by {
        forall j, day | 0 <= j < |workers|
          ensures MealCount(meals', workers[j].id, day) <= workers[j].limiteComidasDiario
        {
          MealCountAppend(meals, m, workers[j].id, day);
          if workers[j].id == w.id { assert j == i; }
        }
      }
      assert SerialAudits(audits') && AuditsResolve(audits', meals', bulks) by {
        if !f.auditError {
          forall k | 0 <= k < |audits'|
            ensures audits'[k].id == k + 1
            ensures audits'[k].tipoPedido == Individual ==> 1 <= audits'[k].ref <= |meals'|
            ensures audits'[k].tipoPedido == Masivo ==> 1 <= audits'[k].ref <= |bulks|
          {
            if k < |audits| { assert audits'[k] == audits[k]; }
          }
        }
      }
    }
  }

  // ---------------------------------------------------------------------
  // Bulk registration

  /**
   * How a bulk attempt ends: a record inserted, a record already present for
   * the key, or an exception (nobody signed in, a failed check or insert).
   */
  datatype BulkResult = BulkRegistered | Duplicate | BulkFailed

  /** Errors the store may return to each step of a bulk attempt. */
  datatype BulkFaults = BulkFaults(checkError: bool, insertError: bool, auditError: bool)

  /** Every unsuccessful bulk attempt is reported with the denied dialog. */
  function BulkAlert(r: BulkResult): (a: Alert)
    ensures a == SuccessAlert <==> r == BulkRegistered
    ensures a != LimitAlert
  {
    if r == BulkRegistered then SuccessAlert else DeniedAlert
  }

  /**
   * The bulk protocol's decision: an operator must be signed in; the
   * duplicate check (`maybeSingle`, which fails on several rows) must succeed
   * and find nothing for (company, shift, today); then the insert must succeed.
   * The quantity is not examined.
   */
  function BulkDecision(bulks: seq<BulkMeal>, empresaId: int, turnoId: int, session: Option<string>, today: int, f: BulkFaults): (r: BulkResult)
    ensures r == BulkRegistered ==> SignedIn(session) && !f.checkError && !f.insertError
    ensures r == Duplicate ==> BulksFor(bulks, empresaId, turnoId, today) != []
  {
    if !SignedIn(session) then BulkFailed
    else if f.checkError then BulkFailed
    else match MaybeSingle(BulksFor(bulks, empresaId, turnoId, today))
      case Several => BulkFailed
      case Found(_) => Duplicate
      case Absent => if f.insertError then BulkFailed else BulkRegistered
  }

  /** `Number(cantidad)` as written to the store: NaN is serialised as null. */
  function StoredQuantity(cantidad: JsNum): (r: Option<int>)
    ensures r.Some? <==> cantidad.Num?
    ensures r.Some? ==> r.value == cantidad.n
  {
    if cantidad.Num? then Some(cantidad.n) else None
  }

  /** The bulk table after a bulk attempt. */
  function BulksAfter(
    bulks: seq<BulkMeal>, cantidad: JsNum, empresaId: int, turnoId: int,
    session: Option<string>, today: int, hora: int, f: BulkFaults): (r: seq<BulkMeal>)
    ensures bulks <= r && |r| <= |bulks| + 1
  {
    if BulkDecision(bulks, empresaId, turnoId, session, today, f) == BulkRegistered then
      bulks + [BulkMeal(|bulks| + 1, empresaId, StoredQuantity(cantidad), turnoId, today, OperatorId(session.value), hora)]
    else bulks
  }

  /** The audit table after a bulk attempt: a `masivo` row for the new record unless its insert failed. */
  function AuditsAfterBulk(
    bulks: seq<BulkMeal>, audits: seq<Audit>, empresaId: int, turnoId: int,
    session: Option<string>, today: int, f: BulkFaults): (r: seq<Audit>)
    ensures audits <= r && |r| <= |audits| + 1
  {
    if BulkDecision(bulks, empresaId, turnoId, session, today, f) == BulkRegistered && !f.auditError then
      audits + [Audit(|audits| + 1, OperatorId(session.value), Masivo, |bulks| + 1)]
    else audits
  }

  /**
   * A bulk attempt registers exactly when an operator is signed in, the check
   * and the insert succeed, and no record exists for (company, shift, today);
   * when one exists it is reported as a duplicate (or as a failure if the
   * check itself failed).
   */
  lemma BulkRegisteredIff(bulks: seq<BulkMeal>, empresaId: int, turnoId: int, session: Option<string>, today: int, f: BulkFaults)
    ensures BulkDecision(bulks, empresaId, turnoId, session, today, f) == BulkRegistered <==>
      && SignedIn(session) && !f.checkError && !f.insertError
      && forall i :: 0 <= i < |bulks| ==> !SameBulkKey(bulks[i], empresaId, turnoId, today)
    ensures BulkDecision(bulks, empresaId, turnoId, session, today, f) == Duplicate ==>
      exists i :: 0 <= i < |bulks| && SameBulkKey(bulks[i], empresaId, turnoId, today)
  {
    var found := BulksFor(bulks, empresaId, turnoId, today);
    if found != [] {
      assert found[0] in found;
    } else {
      forall i | 0 <= i < |bulks| ensures !SameBulkKey(bulks[i], empresaId, turnoId, today) {
        assert bulks[i] in bulks;
      }
    }
  }

  /** The quantity plays no part in the decision: zero, negative and NaN quantities are recorded too. */
  lemma BulkIgnoresQuantity(
    bulks: seq<BulkMeal>, q1: JsNum, q2: JsNum, empresaId: int, turnoId: int,
    session: Option<string>, today: int, hora: int, f: BulkFaults)
    ensures |BulksAfter(bulks, q1, empresaId, turnoId, session, today, hora, f)| ==
      |BulksAfter(bulks, q2, empresaId, turnoId, session, today, hora, f)|
    ensures BulkDecision(bulks, empresaId, turnoId, session, today, f) == BulkRegistered ==>
      BulksAfter(bulks, q1, empresaId, turnoId, session, today, hora, f)[|bulks|].cantidad == StoredQuantity(q1)
  {
  }

  /** A second bulk attempt for the same key, after one that registered, is refused and writes nothing. */
  lemma {:induction false} SecondBulkRefused(
    bulks: seq<BulkMeal>, q1: JsNum, q2: JsNum, empresaId: int, turnoId: int,
    session1: Option<string>, session2: Option<string>, today: int, hora: int, f1: BulkFaults, f2: BulkFaults)
    requires BulkDecision(bulks, empresaId, turnoId, session1, today, f1) == BulkRegistered
    ensures var after := BulksAfter(bulks, q1, empresaId, turnoId, session1, today, hora, f1);
      && BulkDecision(after, empresaId, turnoId, session2, today, f2) != BulkRegistered
      && BulkAlert(BulkDecision(after, empresaId, turnoId, session2, today, f2)) == DeniedAlert
      && BulksAfter(after, q2, empresaId, turnoId, session2, today, hora, f2) == after
  {
    var after := BulksAfter(bulks, q1, empresaId, turnoId, session1, today, hora, f1);
    assert SameBulkKey(after[|bulks|], empresaId, turnoId, today);
    BulkRegisteredIff(after, empresaId, turnoId, session2, today, f2);
  }

  /** A bulk attempt keeps every invariant of the store, in particular one record per key. */
  lemma BulkKeepsTablesValid(
    workers: seq<Worker>, meals: seq<Meal>, bulks: seq<BulkMeal>, audits: seq<Audit>,
    cantidad: JsNum, empresaId: int, turnoId: int, session: Option<string>, today: int, hora: int, f: BulkFaults)
    requires ValidTables(workers, meals, bulks, audits)
    ensures ValidTables(workers, meals,
      BulksAfter(bulks, cantidad, empresaId, turnoId, session, today, hora, f),
      AuditsAfterBulk(bulks, audits, empresaId, turnoId, session, today, f))
  {
    if BulkDecision(bulks, empresaId, turnoId, session, today, f) == BulkRegistered {
      BulkRegisteredIff(bulks, empresaId, turnoId, session, today, f);
      var bulks' := BulksAfter(bulks, cantidad, empresaId, turnoId, session, today, hora, f);
      var audits' := AuditsAfterBulk(bulks, audits, empresaId, turnoId, session, today, f);
      assert OneBulkPerKey(bulks') by {
        forall i, j | 0 <= i < j < |bulks'|
          ensures !SameBulkKey(bulks'[j], bulks'[i].empresaId, bulks'[i].turnoId, bulks'[i].fecha)
        {
          if j < |bulks| { assert bulks'[i] == bulks[i] && bulks'[j] == bulks[j]; }
          else { assert bulks'[i] == bulks[i]; }
        }
      }
      assert SerialBulks(bulks');
      assert SerialAudits(audits') && AuditsResolve(audits', meals, bulks') by {
        if !f.auditError {
          forall k | 0 <= k < |audits'|
            ensures audits'[k].id == k + 1
            ensures audits'[k].tipoPedido == Individual ==> 1 <= audits'[k].ref <= |meals|
            ensures audits'[k].tipoPedido == Masivo ==> 1 <= audits'[k].ref <= |bulks'|
          {
            if k < |audits| { assert audits'[k] == audits[k]; }
          }
        }
      }
    }
  }
}
