/**
 * The backing store as the screens see it: the workers, companies, meal
 * records (`comidas`), bulk meal records (`comidas_terceros`) and audit rows
 * (`historial_pedidos`) tables, the queries the screens run on them, and
 * the invariants the registration protocol keeps.
 *
 * Ids are serial: the row at index `i` of a table has id `i + 1`.
 */
module Tables {
  import opened JsText

  datatype Company = Company(id: int, nombre: string)

  datatype Worker = Worker(
    id: int, dni: string, nombres: string, apellidos: string, empresaId: int,
    rol: string, limiteComidasDiario: int, estado: string)

  /** An individual meal record. */
  datatype Meal = Meal(
    id: int, trabajadorId: int, turnoId: int, fecha: int, estado: string,
    registradoPor: Option<int>, horaRegistro: int, validado: bool)

  /** A bulk meal record; a quantity that is NaN reaches the store as null. */
  datatype BulkMeal = BulkMeal(
    id: int, empresaId: int, cantidad: Option<int>, turnoId: int, fecha: int,
    registradoPor: Option<int>, horaRegistro: int)

  /** `tipo_pedido` of an audit row: `'individual'` or `'masivo'`. */
  datatype OrderKind = Individual | Masivo

  /** An audit row; `ref` is the id of the meal or bulk record it stands for. */
  datatype Audit = Audit(id: int, usuarioId: Option<int>, tipoPedido: OrderKind, ref: int)

  /** The result of a `.maybeSingle()` query: one row, none, or an error for several. */
  datatype Single<T> = Found(row: T) | Absent | Several

  function MaybeSingle<T>(rows: seq<T>): (r: Single<T>)
    ensures r.Found? <==> |rows| == 1
    ensures r.Absent? <==> rows == []
    ensures r.Found? ==> r.row == rows[0]
  {
    if rows == [] then Absent else if |rows| == 1 then Found(rows[0]) else Several
  }

  // ---------------------------------------------------------------------
  // Queries

  /** The workers whose DNI is `dni`, in table order. */
  function WorkersWithDni(workers: seq<Worker>, dni: string): (r: seq<Worker>)
    ensures forall w :: w in r <==> w in workers && w.dni == dni
  {
    if workers == [] then []
    else
      var rest := WorkersWithDni(workers[1..], dni);
      if workers[0].dni == dni then [workers[0]] + rest else rest
  }

  /** `trabajadores.select(...).eq('dni', dni).maybeSingle()`. */
  function FindWorkerByDni(workers: seq<Worker>, dni: string): (r: Single<Worker>)
    ensures r.Absent? <==> forall i :: 0 <= i < |workers| ==> workers[i].dni != dni
    ensures r.Found? ==> r.row in workers && r.row.dni == dni
  {
    var rows := WorkersWithDni(workers, dni);
    assert rows != [] ==> rows[0] in rows;
    assert forall i :: 0 <= i < |workers| && workers[i].dni == dni ==> workers[i] in rows;
    MaybeSingle(rows)
  }

  /** The number of meal records of one worker on one day (`count: 'exact'`). */
  function MealCount(meals: seq<Meal>, workerId: int, day: int): (n: nat)
    ensures n <= |meals|
  {
    if meals == [] then 0
    else
      var last := meals[|meals| - 1];
      MealCount(meals[..|meals| - 1], workerId, day)
        + (if last.trabajadorId == workerId && last.fecha == day then 1 else 0)
  }

  /** The (company, shift, day) key a bulk record is unique on. */
  predicate SameBulkKey(b: BulkMeal, empresaId: int, turnoId: int, day: int) {
    b.empresaId == empresaId && b.turnoId == turnoId && b.fecha == day
  }

  /** The bulk records for one (company, shift, day), in table order. */
  function BulksFor(bulks: seq<BulkMeal>, empresaId: int, turnoId: int, day: int): (r: seq<BulkMeal>)
    ensures forall b :: b in r <==> b in bulks && SameBulkKey(b, empresaId, turnoId, day)
  {
    if bulks == [] then []
    else
      var rest := BulksFor(bulks[1..], empresaId, turnoId, day);
      if SameBulkKey(bulks[0], empresaId, turnoId, day) then [bulks[0]] + rest else rest
  }

  /** The company display name of a joined row: `empresas?.nombre || 'Empresa desconocida'`. */
  function CompanyName(companies: seq<Company>, id: int): (name: string)
    ensures name != []
    ensures (forall i :: 0 <= i < |companies| ==> companies[i].id != id) ==> name == "Empresa desconocida"
    ensures forall i ::
      (0 <= i < |companies| && companies[i].id == id && forall j :: 0 <= j < i ==> companies[j].id != id) ==>
        name == if companies[i].nombre != [] then companies[i].nombre else "Empresa desconocida"
  {
    if companies == [] then "Empresa desconocida"
    else if companies[0].id == id then
      (if companies[0].nombre != [] then companies[0].nombre else "Empresa desconocida")
    else CompanyName(companies[1..], id)
  }

  // ---------------------------------------------------------------------
  // Counting lemmas

  /** A new meal record counts for exactly its own worker and day. */
  lemma MealCountAppend(meals: seq<Meal>, m: Meal, workerId: int, day: int)
    ensures MealCount(meals + [m], workerId, day) ==
      MealCount(meals, workerId, day) + (if m.trabajadorId == workerId && m.fecha == day then 1 else 0)
  {
    assert (meals + [m])[..|meals|] == meals;
  }

  /** A worker no record refers to has no meals on any day. */
  lemma {:induction false} MealCountAbsent(meals: seq<Meal>, workerId: int, day: int)
    requires forall k :: 0 <= k < |meals| ==> meals[k].trabajadorId != workerId
    ensures MealCount(meals, workerId, day) == 0
  {
    if meals != [] {
      MealCountAbsent(meals[..|meals| - 1], workerId, day);
    }
  }

  // ---------------------------------------------------------------------
  // Invariants

  predicate SerialWorkers(workers: seq<Worker>) {
    forall i :: 0 <= i < |workers| ==> workers[i].id == i + 1
  }

  predicate SerialMeals(meals: seq<Meal>) {
    forall i :: 0 <= i < |meals| ==> meals[i].id == i + 1
  }

  predicate SerialBulks(bulks: seq<BulkMeal>) {
    forall i :: 0 <= i < |bulks| ==> bulks[i].id == i + 1
  }

  predicate SerialAudits(audits: seq<Audit>) {
    forall i :: 0 <= i < |audits| ==> audits[i].id == i + 1
  }

  /** No two workers share a DNI. */
  predicate DniUnique(workers: seq<Worker>) {
    forall i, j :: 0 <= i < j < |workers| ==> workers[i].dni != workers[j].dni
  }

  /** Every meal record belongs to an existing worker. */
  predicate MealsReferenceWorkers(meals: seq<Meal>, workers: seq<Worker>) {
    forall k :: 0 <= k < |meals| ==> 1 <= meals[k].trabajadorId <= |workers|
  }

  /** No worker has more meal records on any day than their daily limit. */
  ghost predicate WithinDailyLimits(workers: seq<Worker>, meals: seq<Meal>) {
    forall i, day :: 0 <= i < |workers| ==>
      MealCount(meals, workers[i].id, day) <= workers[i].limiteComidasDiario
  }

  /** At most one bulk record per (company, shift, day). */
  predicate OneBulkPerKey(bulks: seq<BulkMeal>) {
    forall i, j :: 0 <= i < j < |bulks| ==>
      !SameBulkKey(bulks[j], bulks[i].empresaId, bulks[i].turnoId, bulks[i].fecha)
  }

  /** Every audit row refers to an existing record of its kind. */
  predicate AuditsResolve(audits: seq<Audit>, meals: seq<Meal>, bulks: seq<BulkMeal>) {
    forall k :: 0 <= k < |audits| ==>
      && (audits[k].tipoPedido == Individual ==> 1 <= audits[k].ref <= |meals|)
      && (audits[k].tipoPedido == Masivo ==> 1 <= audits[k].ref <= |bulks|)
  }

  /** The invariants the screens keep, taken together. */
  ghost predicate ValidTables(workers: seq<Worker>, meals: seq<Meal>, bulks: seq<BulkMeal>, audits: seq<Audit>) {
    && SerialWorkers(workers) && SerialMeals(meals) && SerialBulks(bulks) && SerialAudits(audits)
    && DniUnique(workers)
    && MealsReferenceWorkers(meals, workers)
    && WithinDailyLimits(workers, meals)
    && OneBulkPerKey(bulks)
    && AuditsResolve(audits, meals, bulks)
  }

  /** With unique DNIs the DNI lookup never reports several rows, and finds the worker holding it. */
  lemma {:induction false} FindWorkerUnique(workers: seq<Worker>, dni: string)
    requires DniUnique(workers)
    ensures !FindWorkerByDni(workers, dni).Several?
    ensures FindWorkerByDni(workers, dni).Absent? <==> forall i :: 0 <= i < |workers| ==> workers[i].dni != dni
    ensures FindWorkerByDni(workers, dni).Found? ==> FindWorkerByDni(workers, dni).row in workers
  {
    if workers != [] {
      var tail := workers[1..];
      assert DniUnique(tail) by {
        forall i, j | 0 <= i < j < |tail| ensures tail[i].dni != tail[j].dni {
          assert tail[i] == workers[i + 1] && tail[j] == workers[j + 1];
        }
      }
      FindWorkerUnique(tail, dni);
      if workers[0].dni == dni {
        forall i | 0 <= i < |tail| ensures tail[i].dni != dni {
          assert tail[i] == workers[i + 1];
        }
        assert WorkersWithDni(tail, dni) == [];
      } else {
        forall i | 0 <= i < |workers| && workers[i].dni == dni ensures i > 0 && tail[i - 1].dni == dni {
          assert i != 0;
          assert tail[i - 1] == workers[i];
        }
      }
    }
  }

  /**
   * The store behind the screens. Each insert appends one row with the next
   * serial id and leaves the other tables alone.
   */
  class Store {
    var companies: seq<Company>
    var workers: seq<Worker>
    var meals: seq<Meal>
    var bulks: seq<BulkMeal>
    var audits: seq<Audit>

    ghost predicate Valid()
      reads this
    {
      ValidTables(workers, meals, bulks, audits)
    }

    constructor (companies: seq<Company>)
      ensures Valid()
      ensures this.companies == companies
      ensures workers == [] && meals == [] && bulks == [] && audits == []
    {
      this.companies := companies;
      workers, meals, bulks, audits := [], [], [], [];
    }

    method InsertWorker(w: Worker) returns (id: int)
      modifies this
      ensures id == |old(workers)| + 1
      ensures workers == old(workers) + [w.(id := id)]
      ensures companies == old(companies) && meals == old(meals)
      ensures bulks == old(bulks) && audits == old(audits)
    {
      id := |workers| + 1;
      workers := workers + [w.(id := id)];
    }

    method InsertMeal(m: Meal) returns (id: int)
      modifies this
      ensures id == |old(meals)| + 1
      ensures meals == old(meals) + [m.(id := id)]
      ensures companies == old(companies) && workers == old(workers)
      ensures bulks == old(bulks) && audits == old(audits)
    {
      id := |meals| + 1;
      meals := meals + [m.(id := id)];
    }

    method InsertBulk(b: BulkMeal) returns (id: int)
      modifies this
      ensures id == |old(bulks)| + 1
      ensures bulks == old(bulks) + [b.(id := id)]
      ensures companies == old(companies) && workers == old(workers)
      ensures meals == old(meals) && audits == old(audits)
    {
      id := |bulks| + 1;
      bulks := bulks + [b.(id := id)];
    }

    method InsertAudit(a: Audit)
      modifies this
      ensures audits == old(audits) + [a.(id := |old(audits)| + 1)]
      ensures companies == old(companies) && workers == old(workers)
      ensures meals == old(meals) && bulks == old(bulks)
    {
      audits := audits + [a.(id := |audits| + 1)];
    }
  }
}
