/**
 * The bulk registration dialog: a quantity text and two pickers (company and
 * shift) that are reset when the dialog opens and defaulted when the company
 * and shift lists arrive, an Accept button that is enabled only when all
 * three are filled in, and a confirmation step that hands
 * `parseInt(cantidad)`, the company and the shift to the screen.
 *
 * The list loads compare against the selections of the render in which the
 * dialog opened, which are the selections from before the reset; the dialog
 * keeps them as `empresaSeen` and `turnoSeen`.
 */
module Dialog {
  import opened JsText
  import opened Tables
  import opened ShiftTable

  /** A picker value is truthy when it is an id other than 0. */
  predicate Truthy(v: Option<int>) {
    v.Some? && v.value != 0
  }

  /** Accept is enabled when the quantity text is non-empty and both pickers hold a truthy id. */
  predicate CanAccept(cantidad: string, empresa: Option<int>, turno: Option<int>) {
    cantidad != [] && Truthy(empresa) && Truthy(turno)
  }

  /**
   * The company after the company list loads: the first listed company when
   * the opening render had no company selected, otherwise the current one.
   */
  function CompanyAfterLoad(seen: Option<int>, current: Option<int>, loaded: seq<Company>): (r: Option<int>)
    ensures r == current || (loaded != [] && r == Some(loaded[0].id))
  {
    if seen.None? && |loaded| > 0 then Some(loaded[0].id) else current
  }

  /**
   * The shift after the shift list loads: when the opening render had no
   * shift selected and the table resolver finds a truthy id for the current
   * minute, that id; otherwise the current one.
   */
  function ShiftAfterLoad(seen: Option<int>, current: Option<int>, rows: seq<ShiftRow>, now: int): (r: Option<int>)
    ensures r == current || (Truthy(r) && exists i :: 0 <= i < |rows| && Matches(rows[i], now) && rows[i].id == r.value)
  {
    if seen.None? && Truthy(FirstMatch(rows, now)) then FirstMatch(rows, now) else current
  }

  /**
   * On a first opening (nothing selected before) the company defaults to the
   * first listed one, and the shift to the first row whose window holds the
   * current minute, if any row does and its id is not 0: a first matching
   * row with a non-zero id becomes the default, and no match leaves it null.
   */
  lemma FirstOpenDefaults(loaded: seq<Company>, rows: seq<ShiftRow>, now: int)
    ensures CompanyAfterLoad(None, None, loaded) == if loaded == [] then None else Some(loaded[0].id)
    ensures ShiftAfterLoad(None, None, rows, now).Some? ==>
      exists i :: IsFirstMatch(rows, now, i) && rows[i].id == ShiftAfterLoad(None, None, rows, now).value
    ensures (forall i :: 0 <= i < |rows| ==> !Matches(rows[i], now)) ==> ShiftAfterLoad(None, None, rows, now) == None
    ensures forall i :: IsFirstMatch(rows, now, i) && rows[i].id != 0 ==> ShiftAfterLoad(None, None, rows, now) == Some(rows[i].id)
  {
    FirstMatchSpec(rows, now);
    forall i | IsFirstMatch(rows, now, i) && rows[i].id != 0
      ensures ShiftAfterLoad(None, None, rows, now) == Some(rows[i].id)
    {
      FirstMatchUnique(rows, now, i);
    }
  }

  /**
   * On a reopening after a selection was made, the loads see that old
   * selection and apply no default: the pickers stay empty after the reset,
   * and Accept stays disabled until the operator picks both again.
   */
  lemma ReopenAppliesNoDefault(
    oldEmpresa: int, oldTurno: int, loaded: seq<Company>, rows: seq<ShiftRow>, now: int, cantidad: string)
    ensures CompanyAfterLoad(Some(oldEmpresa), None, loaded) == None
    ensures ShiftAfterLoad(Some(oldTurno), None, rows, now) == None
    ensures !CanAccept(cantidad, CompanyAfterLoad(Some(oldEmpresa), None, loaded), ShiftAfterLoad(Some(oldTurno), None, rows, now))
  {
  }

  /** Accept does not look inside the quantity: a text `parseInt` cannot read is handed over as NaN. */
  lemma AcceptLetsNaNThrough(empresa: int, turno: int)
    requires empresa != 0 && turno != 0
    ensures CanAccept("-", Some(empresa), Some(turno)) && ParseInt("-") == NaN
  {
    assert TrimStart("-") == "-";
    assert DigitPrefix([]) == [];
  }

  class RegisterDialog {
    var visible: bool
    var cantidad: string
    var empresa: Option<int>
    var turno: Option<int>
    var empresas: seq<Company>
    var turnos: seq<ShiftRow>
    var confirmVisible: bool
    /** The selections of the render in which the dialog was last opened. */
    var empresaSeen: Option<int>
    var turnoSeen: Option<int>

    /** The confirmation sits on top of the dialog and is only shown with it. */
    ghost predicate Valid()
      reads this
    {
      confirmVisible ==> visible
    }

    constructor ()
      ensures Valid() && !visible && !confirmVisible
      ensures cantidad == "" && empresa == None && turno == None
      ensures empresas == [] && turnos == []
    {
      visible, confirmVisible := false, false;
      cantidad, empresa, turno := "", None, None;
      empresas, turnos := [], [];
      empresaSeen, turnoSeen := None, None;
    }

    /** The parent shows the dialog: the fields are reset and both lists are requested. */
    method Open()
      requires Valid() && !visible
      modifies this
      ensures Valid() && visible && !confirmVisible
      ensures cantidad == "" && empresa == None && turno == None
      ensures empresaSeen == old(empresa) && turnoSeen == old(turno)
      ensures empresas == old(empresas) && turnos == old(turnos)
    {
      empresaSeen, turnoSeen := empresa, turno;
      visible := true;
      cantidad, empresa, turno := "", None, None;
    }

    /** The parent hides the dialog; the selections stay as they are. */
    method Close()
      requires Valid() && !confirmVisible
      modifies this`visible
      ensures Valid() && !visible
    {
      visible := false;
    }

    /** The company list arrives (`None` when the query failed). */
    method CompaniesLoaded(result: Option<seq<Company>>)
      requires Valid()
      modifies this`empresas, this`empresa
      ensures Valid()
      ensures empresas == if result.Some? then result.value else []
      ensures empresa == if result.Some? then CompanyAfterLoad(empresaSeen, old(empresa), result.value) else old(empresa)
    {
      if result.None? {
        empresas := [];
      } else {
        empresas := result.value;
        if empresaSeen.None? && |result.value| > 0 {
          empresa := Some(result.value[0].id);
        }
      }
    }

    /** The shift list arrives (`None` when the query failed); `now` is the current minute of the day. */
    method ShiftsLoaded(result: Option<seq<ShiftRow>>, now: int)
      requires Valid()
      modifies this`turnos, this`turno
      ensures Valid()
      ensures turnos == if result.Some? then result.value else []
      ensures turno == if result.Some? then ShiftAfterLoad(turnoSeen, old(turno), result.value, now) else old(turno)
    {
      if result.None? {
        turnos := [];
      } else {
        turnos := result.value;
        if turnoSeen.None? {
          var byTime := ShiftByTime(result.value, now);
          if Truthy(byTime) {
            turno := byTime;
          }
        }
      }
    }

    method SetCantidad(text: string)
      requires Valid() && visible && !confirmVisible
      modifies this`cantidad
      ensures Valid() && cantidad == text
    {
      cantidad := text;
    }

    /** The company picker offers the placeholder (null) and the listed companies. */
    method PickCompany(v: Option<int>)
      requires Valid() && visible && !confirmVisible
      requires v.Some? ==> exists i :: 0 <= i < |empresas| && empresas[i].id == v.value
      modifies this`empresa
      ensures Valid() && empresa == v
    {
      empresa := v;
    }

    /** The shift picker offers the placeholder (null) and the listed shifts. */
    method PickShift(v: Option<int>)
      requires Valid() && visible && !confirmVisible
      requires v.Some? ==> exists i :: 0 <= i < |turnos| && turnos[i].id == v.value
      modifies this`turno
      ensures Valid() && turno == v
    {
      turno := v;
    }

    /** Accept can only be pressed while it is enabled; it shows the confirmation. */
    method Accept()
      requires Valid() && visible && !confirmVisible
      requires CanAccept(cantidad, empresa, turno)
      modifies this`confirmVisible
      ensures Valid() && confirmVisible
    {
      confirmVisible := true;
    }

    method CancelConfirm()
      requires Valid() && confirmVisible
      modifies this`confirmVisible
      ensures Valid() && !confirmVisible
    {
      confirmVisible := false;
    }

    /** Confirm hides the confirmation and hands over `parseInt(cantidad)`, the company and the shift. */
    method Confirm() returns (quantity: JsNum, empresaId: Option<int>, turnoId: Option<int>)
      requires Valid() && confirmVisible
      modifies this`confirmVisible
      ensures Valid() && !confirmVisible && visible
      ensures quantity == ParseInt(cantidad) && empresaId == empresa && turnoId == turno
    {
      confirmVisible := false;
      quantity, empresaId, turnoId := ParseInt(cantidad), empresa, turno;
    }
  }
}
