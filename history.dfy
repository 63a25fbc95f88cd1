/**
 * The order history: individual and bulk records, as the two joined queries
 * return them, are formatted into display rows with fallback texts, merged,
 * sorted newest first and either filtered by a date range (the history
 * screen) or cut to the ten most recent (the scanner screen's panel).
 *
 * Times are local milliseconds; a calendar day is a block of `DayMs`.
 */
module History {
  import opened JsText

  const DayMs: int := 86400000

  /** The worker joined to an individual record, with their company's name. */
  datatype WorkerJoin = WorkerJoin(nombres: Option<string>, apellidos: Option<string>, empresa: Option<string>)

  /** A row of the individual query: the record, its worker (null if gone) and its shift's meal type. */
  datatype IndividualView = IndividualView(id: nat, horaRegistro: int, trabajador: Option<WorkerJoin>, tipoComida: Option<string>)

  /** A row of the bulk query. */
  datatype BulkView = BulkView(id: nat, horaRegistro: int, cantidad: Option<int>, empresa: Option<string>, tipoComida: Option<string>)

  /** A display row; `key` is the list key. */
  datatype Row = Row(key: string, nombre: string, empresa: string, tipoComida: string, horaRegistro: int)

  // ---------------------------------------------------------------------
  // Row formatting

  /** `x || fallback` for a text that may be null: the empty text falls back too. */
  function OrElse(x: Option<string>, fallback: string): string {
    if x.Some? && x.value != [] then x.value else fallback
  }

  function IndividualKey(id: nat): string {
    "ind-" + NatToString(id)
  }

  function BulkKey(id: nat): string {
    "mas-" + NatToString(id)
  }

  function NombresOf(t: Option<WorkerJoin>): Option<string> {
    if t.Some? then t.value.nombres else None
  }

  function ApellidosOf(t: Option<WorkerJoin>): Option<string> {
    if t.Some? then t.value.apellidos else None
  }

  function EmpresaOf(t: Option<WorkerJoin>): Option<string> {
    if t.Some? then t.value.empresa else None
  }

  /** The history screen's individual row: a missing first name reads `¿?`. */
  function HistoryIndividualRow(v: IndividualView): (r: Row)
    ensures r.key == IndividualKey(v.id) && r.horaRegistro == v.horaRegistro
    ensures v.trabajador.None? ==> r.empresa == "Empresa desconocida"
    ensures v.tipoComida.Some? && v.tipoComida.value != [] ==> r.tipoComida == v.tipoComida.value
  {
    Row(IndividualKey(v.id),
      Trim(OrElse(NombresOf(v.trabajador), "¿?") + " " + OrElse(ApellidosOf(v.trabajador), "")),
      OrElse(EmpresaOf(v.trabajador), "Empresa desconocida"),
      OrElse(v.tipoComida, "Tipo desconocido"),
      v.horaRegistro)
  }

  /** The scanner panel's individual row: a missing worker reads `Trabajador desconocido`. */
  function RecentIndividualRow(v: IndividualView): (r: Row)
    ensures r.key == IndividualKey(v.id) && r.horaRegistro == v.horaRegistro
    ensures v.trabajador.None? ==> r.empresa == "Empresa desconocida"
    ensures v.tipoComida.Some? && v.tipoComida.value != [] ==> r.tipoComida == v.tipoComida.value
  {
    Row(IndividualKey(v.id),
      if v.trabajador.Some? then
        Trim(OrElse(NombresOf(v.trabajador), "") + " " + OrElse(ApellidosOf(v.trabajador), ""))
      else "Trabajador desconocido",
      OrElse(EmpresaOf(v.trabajador), "Empresa desconocida"),
      OrElse(v.tipoComida, "Tipo desconocido"),
      v.horaRegistro)
  }

  /** `` `${cantidad}` ``: a null quantity prints as `null`. */
  function QuantityText(q: Option<int>): string {
    if q.Some? then IntToString(q.value) else "null"
  }

  /** A bulk row, the same on both screens: the name is `<cantidad> comidas`. */
  function BulkRow(v: BulkView): (r: Row)
    ensures r.key == BulkKey(v.id) && r.horaRegistro == v.horaRegistro
    ensures v.empresa.Some? && v.empresa.value != [] ==> r.empresa == v.empresa.value
    ensures v.empresa.None? ==> r.empresa == "Empresa desconocida"
    ensures v.cantidad.None? ==> r.nombre == "null comidas"
    ensures v.cantidad.Some? ==> r.nombre == IntToString(v.cantidad.value) + " comidas"
  {
    Row(BulkKey(v.id), QuantityText(v.cantidad) + " comidas",
      OrElse(v.empresa, "Empresa desconocida"), OrElse(v.tipoComida, "Tipo desconocido"), v.horaRegistro)
  }

  function HistoryIndividualRows(vs: seq<IndividualView>): (rows: seq<Row>)
    ensures |rows| == |vs| && forall i :: 0 <= i < |vs| ==> rows[i] == HistoryIndividualRow(vs[i])
  {
    seq(|vs|, i requires 0 <= i < |vs| => HistoryIndividualRow(vs[i]))
  }

  function RecentIndividualRows(vs: seq<IndividualView>): (rows: seq<Row>)
    ensures |rows| == |vs| && forall i :: 0 <= i < |vs| ==> rows[i] == RecentIndividualRow(vs[i])
  {
    seq(|vs|, i requires 0 <= i < |vs| => RecentIndividualRow(vs[i]))
  }

  function BulkRows(vs: seq<BulkView>): (rows: seq<Row>)
    ensures |rows| == |vs| && forall i :: 0 <= i < |vs| ==> rows[i] == BulkRow(vs[i])
  {
    seq(|vs|, i requires 0 <= i < |vs| => BulkRow(vs[i]))
  }

  /** An individual row whose worker is gone reads `¿?` on the history screen. */
  lemma MissingWorkerName(v: IndividualView)
    requires v.trabajador.None?
    ensures HistoryIndividualRow(v).nombre == "¿?"
    ensures RecentIndividualRow(v).nombre == "Trabajador desconocido"
    ensures HistoryIndividualRow(v).empresa == "Empresa desconocida"
  {
    var s := "¿?" + " " + "";
    TrimSpec(s);
    TrimOfTrimmed("¿?");
    assert s == "¿?" + [' '];
    var r := Trim(s);
    assert r == "¿?" by {
      TrimStartSpec(s);
      TrimEndSpec(TrimStart(s));
    }
  }

  /** A worker whose names carry no surrounding blanks is shown as `nombres apellidos`. */
  lemma KnownWorkerName(v: IndividualView)
    requires v.trabajador.Some?
    requires var n := v.trabajador.value.nombres; n.Some? && n.value != [] && !IsJsWhitespace(n.value[0])
    requires var a := v.trabajador.value.apellidos; a.Some? && a.value != [] && !IsJsWhitespace(a.value[|a.value| - 1])
    ensures HistoryIndividualRow(v).nombre == v.trabajador.value.nombres.value + " " + v.trabajador.value.apellidos.value
    ensures RecentIndividualRow(v).nombre == HistoryIndividualRow(v).nombre
  {
    var n, a := v.trabajador.value.nombres.value, v.trabajador.value.apellidos.value;
    var s := n + " " + a;
    assert s[0] == n[0] && s[|s| - 1] == a[|a| - 1];
    TrimOfTrimmed(s);
  }

  /** The quantity in a bulk row's name reads back with `parseInt`. */
  lemma BulkNameRoundTrip(v: BulkView)
    requires v.cantidad.Some?
    ensures ParseInt(BulkRow(v).nombre) == Num(v.cantidad.value)
  {
    ParseIntOfIntToString(v.cantidad.value, " comidas");
  }

  // ---------------------------------------------------------------------
  // Newest-first stable sort

  predicate SortedDesc(rows: seq<Row>) {
    forall i, j :: 0 <= i < j < |rows| ==> rows[j].horaRegistro <= rows[i].horaRegistro
  }

  /** Insert `x` before the first row that is not newer than it. */
  function InsertDesc(x: Row, s: seq<Row>): (r: seq<Row>)
    ensures |r| == |s| + 1
  {
    if s == [] || s[0].horaRegistro <= x.horaRegistro then [x] + s
    else [s[0]] + InsertDesc(x, s[1..])
  }

  /** `sort((a, b) => b.hora_registro - a.hora_registro)`: newest first, ties in input order. */
  function SortDesc(rows: seq<Row>): (r: seq<Row>)
    ensures |r| == |rows|
  {
    if rows == [] then [] else InsertDesc(rows[0], SortDesc(rows[1..]))
  }

  lemma InsertDescSpec(x: Row, s: seq<Row>)
    requires SortedDesc(s)
    ensures SortedDesc(InsertDesc(x, s))
    ensures multiset(InsertDesc(x, s)) == multiset(s) + multiset{x}
  {
    InsertDescSorted(x, s);
    InsertDescMultiset(x, s);
  }

  lemma {:induction false} InsertDescMultiset(x: Row, s: seq<Row>)
    ensures multiset(InsertDesc(x, s)) == multiset(s) + multiset{x}
  {
    if s != [] && s[0].horaRegistro > x.horaRegistro {
      InsertDescMultiset(x, s[1..]);
      assert s == [s[0]] + s[1..];
    }
  }

  /** Inserting keeps the order; the new head is `x` or the old head. */
  lemma {:induction false} InsertDescSorted(x: Row, s: seq<Row>)
    requires SortedDesc(s)
    ensures SortedDesc(InsertDesc(x, s))
    ensures InsertDesc(x, s)[0] == x || InsertDesc(x, s)[0] == s[0]
  {
    if s == [] || s[0].horaRegistro <= x.horaRegistro {
      var r := [x] + s;
      forall i, j | 0 <= i < j < |r| ensures r[j].horaRegistro <= r[i].horaRegistro {
        assert r[j] == s[j - 1];
        if i > 0 { assert r[i] == s[i - 1]; }
        else if j > 1 { assert s[j - 1].horaRegistro <= s[0].horaRegistro; }
      }
    } else {
      var tail := s[1..];
      assert SortedDesc(tail) by {
        forall i, j | 0 <= i < j < |tail| ensures tail[j].horaRegistro <= tail[i].horaRegistro {
          assert tail[i] == s[i + 1] && tail[j] == s[j + 1];
        }
      }
      InsertDescSorted(x, tail);
      var t := InsertDesc(x, tail);
      assert t[0].horaRegistro <= s[0].horaRegistro by {
        if tail != [] { assert tail[0] == s[1]; }
      }
      var r := [s[0]] + t;
      forall i, j | 0 <= i < j < |r| ensures r[j].horaRegistro <= r[i].horaRegistro {
        assert r[j] == t[j - 1];
        if i > 0 { assert r[i] == t[i - 1]; }
        else if j > 1 { assert t[j - 1].horaRegistro <= t[0].horaRegistro; }
      }
    }
  }

  /** The sort yields a newest-first permutation of its input. */
  lemma {:induction false} SortDescSpec(rows: seq<Row>)
    ensures SortedDesc(SortDesc(rows))
    ensures multiset(SortDesc(rows)) == multiset(rows)
    ensures |SortDesc(rows)| == |rows|
  {
    if rows != [] {
      SortDescSpec(rows[1..]);
      InsertDescSpec(rows[0], SortDesc(rows[1..]));
      assert rows == [rows[0]] + rows[1..];
      assert |SortDesc(rows)| == |multiset(SortDesc(rows))|;
    }
  }

  /** The rows of `s` registered at time `t`, in order. */
  function At(s: seq<Row>, t: int): (r: seq<Row>)
    ensures forall x :: x in r <==> x in s && x.horaRegistro == t
  {
    if s == [] then []
    else if s[0].horaRegistro == t then [s[0]] + At(s[1..], t)
    else At(s[1..], t)
  }

  lemma {:induction false} InsertDescAt(x: Row, s: seq<Row>, t: int)
    ensures At(InsertDesc(x, s), t) == if x.horaRegistro == t then [x] + At(s, t) else At(s, t)
  {
    if s != [] && s[0].horaRegistro > x.horaRegistro {
      InsertDescAt(x, s[1..], t);
      assert InsertDesc(x, s)[1..] == InsertDesc(x, s[1..]);
    } else {
      assert ([x] + s)[1..] == s;
    }
  }

  /** The sort is stable: rows with the same time keep their input order. */
  lemma {:induction false} SortDescStable(rows: seq<Row>, t: int)
    ensures At(SortDesc(rows), t) == At(rows, t)
  {
    if rows != [] {
      SortDescStable(rows[1..], t);
      InsertDescAt(rows[0], SortDesc(rows[1..]), t);
    }
  }

  /** Sorting rows that are already newest first changes nothing. */
  lemma {:induction false} SortSortedIdentity(rows: seq<Row>)
    requires SortedDesc(rows)
    ensures SortDesc(rows) == rows
  {
    if rows != [] {
      assert SortedDesc(rows[1..]);
      SortSortedIdentity(rows[1..]);
    }
  }

  // ---------------------------------------------------------------------
  // Distinct list keys

  predicate KeysDistinct(rows: seq<Row>) {
    forall i, j :: 0 <= i < j < |rows| ==> rows[i].key != rows[j].key
  }

  lemma {:induction false} InsertDescKeys(x: Row, s: seq<Row>)
    requires KeysDistinct(s)
    requires forall k :: 0 <= k < |s| ==> s[k].key != x.key
    ensures KeysDistinct(InsertDesc(x, s))
    ensures forall y :: y in InsertDesc(x, s) <==> y in s || y == x
  {
    if s != [] && s[0].horaRegistro > x.horaRegistro {
      InsertDescKeys(x, s[1..]);
      var t := InsertDesc(x, s[1..]);
      forall k | 0 <= k < |t| ensures t[k].key != s[0].key {
        assert t[k] in s[1..] || t[k] == x;
      }
    }
  }

  /** Sorting keeps the list keys distinct. */
  lemma {:induction false} SortDescKeys(rows: seq<Row>)
    requires KeysDistinct(rows)
    ensures KeysDistinct(SortDesc(rows))
  {
    if rows != [] {
      assert KeysDistinct(rows[1..]);
      SortDescKeys(rows[1..]);
      SortDescSpec(rows[1..]);
      forall k | 0 <= k < |SortDesc(rows[1..])| ensures SortDesc(rows[1..])[k].key != rows[0].key {
        var y := SortDesc(rows[1..])[k];
        assert y in multiset(rows[1..]);
        var p :| 0 <= p < |rows[1..]| && rows[1..][p] == y;
        assert rows[p + 1] == y;
      }
      InsertDescKeys(rows[0], SortDesc(rows[1..]));
    }
  }

  predicate DistinctIndividualIds(vs: seq<IndividualView>) {
    forall i, j :: 0 <= i < j < |vs| ==> vs[i].id != vs[j].id
  }

  predicate DistinctBulkIds(vs: seq<BulkView>) {
    forall i, j :: 0 <= i < j < |vs| ==> vs[i].id != vs[j].id
  }

  /** Keys of the two kinds never clash, and within a kind they follow the record id. */
  lemma KeyFacts(a: nat, b: nat)
    ensures IndividualKey(a) != BulkKey(b)
    ensures IndividualKey(a) == IndividualKey(b) ==> a == b
    ensures BulkKey(a) == BulkKey(b) ==> a == b
  {
    assert IndividualKey(a)[0] == 'i' && BulkKey(b)[0] == 'm';
    if IndividualKey(a) == IndividualKey(b) {
      assert IndividualKey(a)[4..] == NatToString(a) && IndividualKey(b)[4..] == NatToString(b);
      NatToStringInjective(a, b);
    }
    if BulkKey(a) == BulkKey(b) {
      assert BulkKey(a)[4..] == NatToString(a) && BulkKey(b)[4..] == NatToString(b);
      NatToStringInjective(a, b);
    }
  }

  /** Merging rows of records with distinct ids gives distinct list keys. */
  lemma MergedKeysDistinct(ind: seq<Row>, ids: seq<nat>, bulk: seq<Row>, bids: seq<nat>)
    requires |ind| == |ids| && |bulk| == |bids|
    requires forall i :: 0 <= i < |ind| ==> ind[i].key == IndividualKey(ids[i])
    requires forall i :: 0 <= i < |bulk| ==> bulk[i].key == BulkKey(bids[i])
    requires forall i, j :: 0 <= i < j < |ids| ==> ids[i] != ids[j]
    requires forall i, j :: 0 <= i < j < |bids| ==> bids[i] != bids[j]
    ensures KeysDistinct(ind + bulk)
  {
    var m := ind + bulk;
    forall i, j | 0 <= i < j < |m| ensures m[i].key != m[j].key {
      if j < |ind| {
        KeyFacts(ids[i], ids[j]);
      } else if i < |ind| {
        KeyFacts(ids[i], bids[j - |ind|]);
      } else {
        KeyFacts(bids[i - |ind|], bids[j - |ind|]);
      }
    }
  }

  // ---------------------------------------------------------------------
  // The history screen

  /**
   * The history screen's rows after loading: a query that fails contributes
   * no rows, and the merge is sorted newest first.
   */
  function HistoryRows(ind: Option<seq<IndividualView>>, bulk: Option<seq<BulkView>>): (r: seq<Row>)
    ensures |r| == (if ind.Some? then |ind.value| else 0) + (if bulk.Some? then |bulk.value| else 0)
  {
    SortDesc(HistoryIndividualRows(if ind.Some? then ind.value else [])
      + BulkRows(if bulk.Some? then bulk.value else []))
  }

  /** The record ids of a query's rows, in order. */
  function IdsOf<T>(vs: seq<T>, id: T -> nat): (ids: seq<nat>)
    ensures |ids| == |vs| && forall i :: 0 <= i < |vs| ==> ids[i] == id(vs[i])
  {
    seq(|vs|, i requires 0 <= i < |vs| => id(vs[i]))
  }

  /**
   * The loaded history is a newest-first permutation of the formatted rows
   * of both queries, and its list keys are distinct when the record ids are.
   */
  lemma HistoryRowsSpec(ind: seq<IndividualView>, bulk: seq<BulkView>)
    requires DistinctIndividualIds(ind) && DistinctBulkIds(bulk)
    ensures var rows := HistoryRows(Some(ind), Some(bulk));
      && SortedDesc(rows)
      && multiset(rows) == multiset(HistoryIndividualRows(ind)) + multiset(BulkRows(bulk))
      && KeysDistinct(rows)
  {
    var merged := HistoryIndividualRows(ind) + BulkRows(bulk);
    SortDescSpec(merged);
    MergedKeysDistinct(HistoryIndividualRows(ind), IdsOf(ind, (v: IndividualView) => v.id),
      BulkRows(bulk), IdsOf(bulk, (v: BulkView) => v.id));
    SortDescKeys(merged);
  }

  /** A failed query is read as an empty one: the other query's rows are still shown. */
  lemma FailedQueryShowsTheOther(bulk: seq<BulkView>)
    ensures HistoryRows(None, Some(bulk)) == SortDesc(BulkRows(bulk))
  {
    assert HistoryIndividualRows([]) + BulkRows(bulk) == BulkRows(bulk);
  }

  /** The local calendar day of a time, as `toDateString` compares it. */
  function DayOf(t: int): (d: int)
    ensures d * DayMs <= t < (d + 1) * DayMs
  {
    t / DayMs
  }

  /** Whether the selected range keeps a row registered at `t`, at time `now`. */
  predicate Keeps(selected: string, now: int, t: int) {
    if selected == "Hoy" then DayOf(t) == DayOf(now)
    else if selected == "Ayer" then DayOf(t) == DayOf(now) - 1
    else if selected == "Semana" then t >= now - 7 * DayMs
    else if selected == "Mes" then t >= now - 30 * DayMs
    else true
  }

  function FilterRows(rows: seq<Row>, selected: string, now: int): (r: seq<Row>)
    ensures |r| <= |rows|
    ensures forall x :: x in r <==> x in rows && Keeps(selected, now, x.horaRegistro)
  {
    if rows == [] then []
    else if Keeps(selected, now, rows[0].horaRegistro) then [rows[0]] + FilterRows(rows[1..], selected, now)
    else FilterRows(rows[1..], selected, now)
  }

  /** `aplicarFiltro`: keep the rows of the selected range, then sort newest first. */
  function Filtered(all: seq<Row>, selected: string, now: int): (r: seq<Row>)
    ensures |r| <= |all|
  {
    SortDesc(FilterRows(all, selected, now))
  }

  lemma {:induction false} FilterRowsMultiset(rows: seq<Row>, selected: string, now: int)
    ensures multiset(FilterRows(rows, selected, now)) <= multiset(rows)
    ensures forall x :: x in rows && Keeps(selected, now, x.horaRegistro) ==>
      multiset(FilterRows(rows, selected, now))[x] == multiset(rows)[x]
  {
    if rows != [] {
      var tail := rows[1..];
      var kept := FilterRows(tail, selected, now);
      FilterRowsMultiset(tail, selected, now);
      assert rows == [rows[0]] + tail;
      assert multiset(rows) == multiset{rows[0]} + multiset(tail);
      if Keeps(selected, now, rows[0].horaRegistro) {
        assert multiset(FilterRows(rows, selected, now)) == multiset{rows[0]} + multiset(kept);
      } else {
        assert FilterRows(rows, selected, now) == kept;
      }
    }
  }

  /**
   * The filtered list is newest first and holds exactly the rows the range
   * keeps, each as often as it occurs in the loaded list.
   */
  lemma FilteredSpec(all: seq<Row>, selected: string, now: int)
    ensures SortedDesc(Filtered(all, selected, now))
    ensures forall x :: x in Filtered(all, selected, now) <==> x in all && Keeps(selected, now, x.horaRegistro)
    ensures multiset(Filtered(all, selected, now)) <= multiset(all)
    ensures forall x :: x in all && Keeps(selected, now, x.horaRegistro) ==>
      multiset(Filtered(all, selected, now))[x] == multiset(all)[x]
  {
    var kept := FilterRows(all, selected, now);
    SortDescSpec(kept);
    FilterRowsMultiset(all, selected, now);
    forall x ensures x in Filtered(all, selected, now) <==> x in kept {
      assert x in Filtered(all, selected, now) <==> x in multiset(kept);
    }
  }

  /** A selection other than the four ranges keeps everything; over sorted rows it is the identity. */
  lemma OtherSelectionKeepsAll(all: seq<Row>, selected: string, now: int)
    requires selected != "Hoy" && selected != "Ayer" && selected != "Semana" && selected != "Mes"
    requires SortedDesc(all)
    ensures Filtered(all, selected, now) == all
  {
    assert FilterRows(all, selected, now) == all by {
      FilterAll(all, selected, now);
    }
    SortSortedIdentity(all);
  }

  lemma {:induction false} FilterAll(rows: seq<Row>, selected: string, now: int)
    requires forall k :: 0 <= k < |rows| ==> Keeps(selected, now, rows[k].horaRegistro)
    ensures FilterRows(rows, selected, now) == rows
  {
    if rows != [] {
      FilterAll(rows[1..], selected, now);
    }
  }

  /** Midnight at the start of the local day of `now`. */
  function Midnight(now: int): (m: int)
    ensures m <= now < m + DayMs && m % DayMs == 0
  {
    now - now % DayMs
  }

  /** 'Hoy' keeps exactly the times from today's midnight to the next; 'Ayer' the day before. */
  lemma DayRanges(now: int, t: int)
    ensures Keeps("Hoy", now, t) <==> Midnight(now) <= t < Midnight(now) + DayMs
    ensures Keeps("Ayer", now, t) <==> Midnight(now) - DayMs <= t < Midnight(now)
  {
  }

  /**
   * 'Semana' and 'Mes' are measured from the current time, not from midnight:
   * the first moment of the day seven days ago is outside the week whenever it
   * is not midnight now, and each range holds the shorter ones.
   */
  lemma WeekAndMonthRanges(now: int, t: int)
    ensures now % DayMs != 0 ==> !Keeps("Semana", now, Midnight(now) - 7 * DayMs)
    ensures Keeps("Semana", now, now - 7 * DayMs) && !Keeps("Semana", now, now - 7 * DayMs - 1)
    ensures Keeps("Hoy", now, t) || Keeps("Ayer", now, t) ==> Keeps("Semana", now, t)
    ensures Keeps("Semana", now, t) ==> Keeps("Mes", now, t)
  {
    DayRanges(now, t);
  }

  // ---------------------------------------------------------------------
  // The scanner screen's recent panel

  const RecentBulkLimit: nat := 20
  const RecentLimit: nat := 10

  function Min(a: int, b: int): int {
    if a <= b then a else b
  }

  /** The panel's merge: every individual row and the first twenty bulk rows. */
  function RecentMerge(ind: seq<IndividualView>, bulk: seq<BulkView>): (r: seq<Row>)
    ensures |r| == |ind| + Min(RecentBulkLimit, |bulk|)
    ensures forall i :: 0 <= i < |ind| ==> r[i] == RecentIndividualRow(ind[i])
    ensures forall j :: 0 <= j < |r| - |ind| ==> r[|ind| + j] == BulkRow(bulk[j])
  {
    RecentIndividualRows(ind) + BulkRows(bulk[..Min(RecentBulkLimit, |bulk|)])
  }

  /** `fetchRecentHistory`: the merge sorted newest first, cut to ten rows. */
  function RecentRows(ind: seq<IndividualView>, bulk: seq<BulkView>): (r: seq<Row>)
    ensures |r| <= RecentLimit
  {
    var sorted := SortDesc(RecentMerge(ind, bulk));
    sorted[..Min(RecentLimit, |sorted|)]
  }

  /** A prefix of a newest-first permutation holds the newest rows. */
  lemma SortedPrefix(sorted: seq<Row>, merged: seq<Row>, k: nat)
    requires SortedDesc(sorted) && multiset(sorted) == multiset(merged) && k <= |sorted|
    ensures SortedDesc(sorted[..k]) && multiset(sorted[..k]) <= multiset(merged)
    ensures forall x: Row, y: Row :: x in sorted[..k] && y in multiset(merged) - multiset(sorted[..k]) ==>
      y.horaRegistro <= x.horaRegistro
  {
    var r := sorted[..k];
    assert sorted == r + sorted[k..];
    assert multiset(sorted) == multiset(r) + multiset(sorted[k..]);
    forall x: Row, y: Row | x in r && y in multiset(merged) - multiset(r) ensures y.horaRegistro <= x.horaRegistro {
      assert y in multiset(sorted[k..]);
      var j :| 0 <= j < |sorted[k..]| && sorted[k..][j] == y;
      var i :| 0 <= i < |r| && r[i] == x;
      assert sorted[k + j] == y && sorted[i] == x;
    }
  }

  /**
   * The panel shows the ten newest rows of the merge, newest first: as many
   * rows as the merge has, up to ten, each taken from the merge, and none of
   * the rows left out is newer than a row shown.
   */
  lemma RecentRowsSpec(ind: seq<IndividualView>, bulk: seq<BulkView>)
    ensures var r := RecentRows(ind, bulk);
      var merged := RecentMerge(ind, bulk);
      && |r| == Min(RecentLimit, |ind| + Min(RecentBulkLimit, |bulk|))
      && SortedDesc(r)
      && multiset(r) <= multiset(merged)
      && forall x: Row, y: Row :: x in r && y in multiset(merged) - multiset(r) ==> y.horaRegistro <= x.horaRegistro
  {
    var merged := RecentMerge(ind, bulk);
    SortDescSpec(merged);
    SortedPrefix(SortDesc(merged), merged, Min(RecentLimit, |merged|));
  }
}
