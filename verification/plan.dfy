/** Expansion of a staffing plan into one record per agent and weekday, and
    the normalisation of the working-window column that follows it. */
module Plan {
  import opened Text
  import opened Shifts

  /** The weekdays, Monday to Sunday: the order in which each agent's
      records are emitted. */
  const Dias: seq<string> := ["Lunes", "Martes", "Miércoles", "Jueves", "Viernes", "Sábado", "Domingo"]

  /** The working-window value of a rest-day record. */
  const RestDay := "DSO"

  /** The contract-type prefix that gives an agent a break and a meal window. */
  const FullTime := "Full Time"

  /** One row of the staffing plan: shift code, contract type, rest day,
      headcount, and the optional meal-window column. */
  datatype PlanRow = PlanRow(horario: string, contrato: string, descanso: string, personal: int, refrigerio: Option<string>)

  /** One row of the expanded plan. */
  datatype Record = Record(agente: string, turno: string, contrato: string, dia: string,
                           jornada: string, brk: string, refrigerio: string)

  /** `contrato.startswith('Full Time')`. */
  predicate IsFullTime(contrato: string) {
    |FullTime| <= |contrato| && contrato[..|FullTime|] == FullTime
  }

  /** The meal window of a row's working records: the row's label (default
      "-") for full-time contracts, "-" otherwise. */
  function MealOf(row: PlanRow): string {
    if IsFullTime(row.contrato) then row.refrigerio.GetOr("-") else "-"
  }

  /** The identifier of the `i`-th agent of a shift code: "{turno}-{i}". */
  function AgentId(turno: string, i: nat): string {
    turno + "-" + Decimal(i)
  }

  /** Agents of one shift code get pairwise different identifiers. */
  lemma AgentIdsDistinct(turno: string, i: nat, j: nat)
    requires AgentId(turno, i) == AgentId(turno, j)
    ensures i == j
  {
    var n := |turno| + 1;
    assert AgentId(turno, i)[n..] == Decimal(i);
    assert AgentId(turno, j)[n..] == Decimal(j);
    DecimalInjective(i, j);
  }

  /** The record of agent `i` of `row` on weekday `dia`, given the row's
      working window and break. */
  function DayRecord(row: PlanRow, i: nat, dia: string, jornada: string, brk: string): Record {
    if dia == row.descanso then
      Record(AgentId(row.horario, i), row.horario, row.contrato, dia, RestDay, "-", "-")
    else
      Record(AgentId(row.horario, i), row.horario, row.contrato, dia, jornada,
             if IsFullTime(row.contrato) then brk else "-", MealOf(row))
  }

  /** The records of agent `i` for the first `n` weekdays. */
  function DayRecords(row: PlanRow, i: nat, jornada: string, brk: string, n: nat): seq<Record>
    requires n <= |Dias|
  {
    if n == 0 then [] else DayRecords(row, i, jornada, brk, n - 1) + [DayRecord(row, i, Dias[n - 1], jornada, brk)]
  }

  /** The records of agents 1..m, each for the whole week. */
  function AgentRecords(row: PlanRow, jornada: string, brk: string, m: nat): seq<Record> {
    if m == 0 then [] else AgentRecords(row, jornada, brk, m - 1) + DayRecords(row, m, jornada, brk, |Dias|)
  }

  /** The number of agents a row expands to: `range(1, n + 1)` is empty for n <= 0. */
  function Headcount(row: PlanRow): nat {
    if row.personal > 0 then row.personal else 0
  }

  /** The table entry of a shift code, if any, is a coverage mask. */
  predicate MaskOk(coverage: map<string, seq<int>>, name: string) {
    name in coverage ==> IsMask(coverage[name])
  }

  /** Every entry of the coverage table is a coverage mask. */
  predicate TableOk(coverage: map<string, seq<int>>) {
    forall name :: name in coverage ==> IsMask(coverage[name])
  }

  /** The records one plan row expands to. */
  function RowRecords(coverage: map<string, seq<int>>, row: PlanRow): seq<Record>
    requires MaskOk(coverage, row.horario)
  {
    var cov := Lookup(coverage, row.horario);
    AgentRecords(row, WorkWindow(cov), MaskBreak(cov), Headcount(row))
  }

  /** The records a whole plan expands to, row after row. */
  function PlanRecords(coverage: map<string, seq<int>>, plan: seq<PlanRow>): seq<Record>
    requires TableOk(coverage)
  {
    if plan == [] then []
    else PlanRecords(coverage, plan[..|plan| - 1]) + RowRecords(coverage, plan[|plan| - 1])
  }

  /** The weekday loop of the expansion: appends agent `agente`'s seven
      records, a rest-day record on the row's rest day and a working record
      on every other day. */
  method AppendWeek(data0: seq<Record>, row: PlanRow, i: nat, agente: string, ref: string,
                    jornada: string, brk: string) returns (data: seq<Record>)
    requires agente == AgentId(row.horario, i) && ref == MealOf(row)
    ensures data == data0 + DayRecords(row, i, jornada, brk, |Dias|)
  {
    data := data0;
    for d := 0 to |Dias|
      invariant data == data0 + DayRecords(row, i, jornada, brk, d)
    {
      var dia := Dias[d];
      var rec;
      if dia == row.descanso {
        rec := Record(agente, row.horario, row.contrato, dia, RestDay, "-", "-");
      } else {
        rec := Record(agente, row.horario, row.contrato, dia, jornada,
                      if IsFullTime(row.contrato) then brk else "-", ref);
      }
      assert rec == DayRecord(row, i, dia, jornada, brk);
      data := data + [rec];
    }
  }

  /** The agent loop of the expansion for one plan row: for each agent
      1..n (none when n <= 0), appends that agent's week, using the row's
      working window and break resolved once beforehand. */
  method ExpandRow(data0: seq<Record>, row: PlanRow, jornada: string, brk: string) returns (data: seq<Record>)
    ensures data == data0 + AgentRecords(row, jornada, brk, Headcount(row))
  {
    data := data0;
    var ref := if IsFullTime(row.contrato) then row.refrigerio.GetOr("-") else "-";
    var i := 1;
    while i <= row.personal
      invariant 1 <= i <= Headcount(row) + 1
      invariant data == data0 + AgentRecords(row, jornada, brk, i - 1)
      decreases row.personal - i
    {
      var agente := row.horario + "-" + Decimal(i);
      NextAgent(data0, data, row, jornada, brk, i);
      data := AppendWeek(data, row, i, agente, ref, jornada, brk);
      i := i + 1;
    }
  }

  /** Appending agent `i`'s week to the records of agents 1..i-1 gives the
      records of agents 1..i. */
  lemma NextAgent(data0: seq<Record>, data: seq<Record>, row: PlanRow, jornada: string, brk: string, i: nat)
    requires i >= 1 && data == data0 + AgentRecords(row, jornada, brk, i - 1)
    ensures data + DayRecords(row, i, jornada, brk, |Dias|) == data0 + AgentRecords(row, jornada, brk, i)
  {
    assert AgentRecords(row, jornada, brk, i)
        == AgentRecords(row, jornada, brk, i - 1) + DayRecords(row, i, jornada, brk, |Dias|);
  }

  /** The expansion loop: for each plan row, resolve its shift once, then
      emit its agents' records. */
  method ExpandPlan(coverage: map<string, seq<int>>, plan: seq<PlanRow>) returns (data: seq<Record>)
    requires TableOk(coverage)
    ensures data == PlanRecords(coverage, plan)
  {
    data := [];
    for k := 0 to |plan|
      invariant data == PlanRecords(coverage, plan[..k])
    {
      var row := plan[k];
      var jornada, brk := GetShiftDetails(coverage, row.horario);
      data := ExpandRow(data, row, jornada, brk);
      assert plan[..k + 1][..k] == plan[..k];
    }
    assert plan[..|plan|] == plan;
  }

  /** The weekday names are pairwise different. */
  lemma DiasDistinct()
    ensures forall a, b :: 0 <= a < b < |Dias| ==> Dias[a] != Dias[b]
  {
  }

  /** Agent `i`'s first `n` records are those of weekdays 0..n-1, in order. */
  lemma {:induction false} DayRecordsAt(row: PlanRow, i: nat, jornada: string, brk: string, n: nat)
    requires n <= |Dias|
    ensures |DayRecords(row, i, jornada, brk, n)| == n
    ensures forall d :: 0 <= d < n ==> DayRecords(row, i, jornada, brk, n)[d] == DayRecord(row, i, Dias[d], jornada, brk)
  {
    if n > 0 {
      DayRecordsAt(row, i, jornada, brk, n - 1);
    }
  }

  /** Agents 1..m produce seven records each. */
  lemma {:induction false} AgentRecordsLength(row: PlanRow, jornada: string, brk: string, m: nat)
    ensures |AgentRecords(row, jornada, brk, m)| == 7 * m
  {
    if m > 0 {
      AgentRecordsLength(row, jornada, brk, m - 1);
      DayRecordsAt(row, m, jornada, brk, |Dias|);
    }
  }

  /** Records come agent by agent, and within an agent weekday by weekday:
      record `(a - 1) * 7 + d` is agent `a`'s record for weekday `d`. */
  lemma {:induction false} AgentRecordAt(row: PlanRow, jornada: string, brk: string, m: nat, a: nat, d: nat)
    requires 1 <= a <= m && d < |Dias|
    ensures |AgentRecords(row, jornada, brk, m)| == 7 * m
    ensures AgentRecords(row, jornada, brk, m)[(a - 1) * 7 + d] == DayRecord(row, a, Dias[d], jornada, brk)
  {
    AgentRecordsLength(row, jornada, brk, m);
    AgentRecordsLength(row, jornada, brk, m - 1);
    DayRecordsAt(row, m, jornada, brk, |Dias|);
    if a < m {
      AgentRecordAt(row, jornada, brk, m - 1, a, d);
    }
  }

  /** What one plan row expands to: seven records per agent (none for a
      headcount of 0 or less), ordered by agent then weekday; agent `a`'s
      record for weekday `d` carries the id "{turno}-{a}"; it is the rest-day
      record ("DSO", no break, no meal) exactly on the row's rest day;
      otherwise it carries the window and break resolved once for the row,
      the break and meal only for full-time contracts. */
  lemma RowRecordAt(coverage: map<string, seq<int>>, row: PlanRow, a: nat, d: nat)
    requires MaskOk(coverage, row.horario)
    requires 1 <= a <= Headcount(row) && d < |Dias|
    ensures |RowRecords(coverage, row)| == 7 * Headcount(row)
    ensures
      var cov := Lookup(coverage, row.horario);
      var r := RowRecords(coverage, row)[(a - 1) * 7 + d];
      && r.agente == AgentId(row.horario, a) && r.turno == row.horario
      && r.contrato == row.contrato && r.dia == Dias[d]
      && (r.jornada == RestDay <==> Dias[d] == row.descanso)
      && (Dias[d] == row.descanso ==> r.brk == "-" && r.refrigerio == "-")
      && (Dias[d] != row.descanso ==>
            && r.jornada == WorkWindow(cov)
            && r.brk == (if IsFullTime(row.contrato) then MaskBreak(cov) else "-")
            && r.refrigerio == (if IsFullTime(row.contrato) then row.refrigerio.GetOr("-") else "-"))
  {
    var cov := Lookup(coverage, row.horario);
    AgentRecordAt(row, WorkWindow(cov), MaskBreak(cov), Headcount(row), a, d);
    WindowIsNotRestDay(cov);
  }

  /** A working window, "-" or "HH:00-HH:00", is never the rest-day marker,
      so rest-day records are told apart from working records by their
      window alone. */
  lemma WindowIsNotRestDay(cov: seq<int>)
    requires IsMask(cov)
    ensures WorkWindow(cov) != RestDay
  {
    if Sum(cov) != 0 {
      assert |WorkWindow(cov)| == 11;
    }
  }

  /** Every agent of a plan row gets exactly one rest-day record when the
      row's rest day is a weekday name, and none otherwise. */
  lemma RowOneRestDay(coverage: map<string, seq<int>>, row: PlanRow, a: nat)
    requires MaskOk(coverage, row.horario)
    ensures var cov := Lookup(coverage, row.horario);
      CountRest(DayRecords(row, a, WorkWindow(cov), MaskBreak(cov), |Dias|)) == if row.descanso in Dias then 1 else 0
  {
    var cov := Lookup(coverage, row.horario);
    WindowIsNotRestDay(cov);
    OneRestDayPerAgent(row, a, WorkWindow(cov), MaskBreak(cov));
  }

  /** Agent numbers restart at 1 in every plan row, so two rows with the
      same shift code (differing, say, in contract or rest day) give their
      first agents the same identifier. */
  lemma SharedCodeSharesIds(coverage: map<string, seq<int>>, row1: PlanRow, row2: PlanRow)
    requires MaskOk(coverage, row1.horario) && row1.horario == row2.horario
    requires Headcount(row1) >= 1 && Headcount(row2) >= 1
    ensures RowRecords(coverage, row1)[0].agente == RowRecords(coverage, row2)[0].agente
              == AgentId(row1.horario, 1)
  {
    RowRecordAt(coverage, row1, 1, 0);
    RowRecordAt(coverage, row2, 1, 0);
  }

  /** The number of rest-day records. */
  function CountRest(recs: seq<Record>): nat {
    if recs == [] then 0
    else CountRest(recs[..|recs| - 1]) + (if recs[|recs| - 1].jornada == RestDay then 1 else 0)
  }

  lemma {:induction false} RestDaysSoFar(row: PlanRow, i: nat, jornada: string, brk: string, n: nat)
    requires n <= |Dias| && jornada != RestDay
    ensures CountRest(DayRecords(row, i, jornada, brk, n)) == if row.descanso in Dias[..n] then 1 else 0
  {
    if n > 0 {
      RestDaysSoFar(row, i, jornada, brk, n - 1);
      var recs := DayRecords(row, i, jornada, brk, n);
      assert recs[..|recs| - 1] == DayRecords(row, i, jornada, brk, n - 1);
      DiasDistinct();
      assert Dias[..n] == Dias[..n - 1] + [Dias[n - 1]];
    }
  }

  /** Every agent gets exactly one rest-day record when the row's rest day
      is a weekday name, and none otherwise. */
  lemma OneRestDayPerAgent(row: PlanRow, i: nat, jornada: string, brk: string)
    requires jornada != RestDay
    ensures CountRest(DayRecords(row, i, jornada, brk, |Dias|)) == if row.descanso in Dias then 1 else 0
  {
    RestDaysSoFar(row, i, jornada, brk, |Dias|);
    assert Dias[..|Dias|] == Dias;
  }

  /** The total headcount of a plan (rows with headcount <= 0 count 0). */
  function TotalHeadcount(plan: seq<PlanRow>): nat {
    if plan == [] then 0 else TotalHeadcount(plan[..|plan| - 1]) + Headcount(plan[|plan| - 1])
  }

  /** The expanded plan has seven records per agent over all rows. */
  lemma {:induction false} PlanLength(coverage: map<string, seq<int>>, plan: seq<PlanRow>)
    requires TableOk(coverage)
    ensures |PlanRecords(coverage, plan)| == 7 * TotalHeadcount(plan)
  {
    if plan != [] {
      var init := plan[..|plan| - 1];
      PlanLength(coverage, init);
      var row := plan[|plan| - 1];
      RowRecordsLength(coverage, row);
      assert PlanRecords(coverage, plan) == PlanRecords(coverage, init) + RowRecords(coverage, row);
      assert TotalHeadcount(plan) == TotalHeadcount(init) + Headcount(row);
      assert 7 * TotalHeadcount(plan) == 7 * TotalHeadcount(init) + 7 * Headcount(row);
    }
  }

  /** A plan row expands to seven records per agent. */
  lemma RowRecordsLength(coverage: map<string, seq<int>>, row: PlanRow)
    requires MaskOk(coverage, row.horario)
    ensures |RowRecords(coverage, row)| == 7 * Headcount(row)
  {
    var cov := Lookup(coverage, row.horario);
    AgentRecordsLength(row, WorkWindow(cov), MaskBreak(cov), Headcount(row));
  }

  /** `expanded_df['Jornada'].str.replace('24:00', '00:00')`. A DataFrame
      built from no records has no 'Jornada' column, so on an empty
      expansion the lookup of that column raises `KeyError`: `None`. */
  function NormaliseJornadas(recs: seq<Record>): Option<seq<Record>> {
    if recs == [] then None
    else Some(seq(|recs|, k requires 0 <= k < |recs| => recs[k].(jornada := ReplaceAll(recs[k].jornada, "24:00", "00:00"))))
  }

  /** No record's working window contains "24:00". */
  ghost predicate NoDayEnd(recs: seq<Record>) {
    forall k :: 0 <= k < |recs| ==> !Occurs("24:00", recs[k].jornada)
  }

  lemma NormaliseClean(recs: seq<Record>)
    requires NoDayEnd(recs)
    ensures NormaliseJornadas(recs) == if recs == [] then None else Some(recs)
  {
    forall k | 0 <= k < |recs|
      ensures ReplaceAll(recs[k].jornada, "24:00", "00:00") == recs[k].jornada
    {
      ReplaceAbsent(recs[k].jornada, "24:00", "00:00");
    }
    if recs != [] {
      assert NormaliseJornadas(recs).value == recs;
    }
  }

  lemma {:induction false} AgentRecordsNoDayEnd(row: PlanRow, jornada: string, brk: string, m: nat)
    requires !Occurs("24:00", jornada)
    ensures NoDayEnd(AgentRecords(row, jornada, brk, m))
  {
    AgentRecordsLength(row, jornada, brk, m);
    forall k | 0 <= k < |AgentRecords(row, jornada, brk, m)|
      ensures !Occurs("24:00", AgentRecords(row, jornada, brk, m)[k].jornada)
    {
      var a, d := k / 7 + 1, k % 7;
      assert k == (a - 1) * 7 + d;
      AgentRecordAt(row, jornada, brk, m, a, d);
      assert forall p :: !OccursAt("24:00", RestDay, p);
    }
  }

  lemma {:induction false} PlanRecordsNoDayEnd(coverage: map<string, seq<int>>, plan: seq<PlanRow>)
    requires TableOk(coverage)
    ensures NoDayEnd(PlanRecords(coverage, plan))
  {
    if plan != [] {
      var init := plan[..|plan| - 1];
      PlanRecordsNoDayEnd(coverage, init);
      var row := plan[|plan| - 1];
      var cov := Lookup(coverage, row.horario);
      WindowHasNoDayEnd(cov);
      AgentRecordsNoDayEnd(row, WorkWindow(cov), MaskBreak(cov), Headcount(row));
      var left, right := PlanRecords(coverage, init), RowRecords(coverage, row);
      assert forall k :: 0 <= k < |right| ==> (left + right)[|left| + k] == right[k];
    }
  }

  /** Replacing "24:00" by "00:00" in the working-window column leaves the
      expanded plan unchanged, except that a plan with no agents at all
      (total headcount 0) expands to no records and the column lookup fails. */
  lemma ExpansionIsNormalised(coverage: map<string, seq<int>>, plan: seq<PlanRow>)
    requires TableOk(coverage)
    ensures TotalHeadcount(plan) == 0 ==> NormaliseJornadas(PlanRecords(coverage, plan)) == None
    ensures TotalHeadcount(plan) > 0 ==> NormaliseJornadas(PlanRecords(coverage, plan)) == Some(PlanRecords(coverage, plan))
  {
    PlanLength(coverage, plan);
    PlanRecordsNoDayEnd(coverage, plan);
    NormaliseClean(PlanRecords(coverage, plan));
  }
}
