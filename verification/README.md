# Staffing-plan expansion: shift resolution and roster rows

This project models the core of `Soporte_Generador_Turnos.py`, a small tool
that expands a staffing plan into a weekly roster. Every shift code
("Horario") has a 24-slot coverage mask: index = hour of the day, 1 = staffed.
`get_shift_details` turns a code into two strings:

- its working window ("Jornada"), rendered "HH:00-HH:00";
- its one-hour break ("Break"), either "HH:00-HH:00" or "-".

The plan loop then emits seven records per agent, Monday to Sunday. On the
row's rest day the record is "DSO" with no break and no meal
("Refrigerio"). On every other day it carries the row's window. The break
and meal go only to contracts that start with "Full Time". Finally, "24:00"
is replaced by "00:00" in the window column.

The model has three modules:

- `Text` (`text.dfy`): zero-padded two-digit hours, the "HH:00-HH:00" form,
  decimal agent numbers, and left-to-right replacement like `str.replace`.
  It is pure, written as functions and lemmas.
- `Shifts` (`shifts.dfy`): `get_shift_details`. The code is made of loops, so
  it is modelled as three methods:
  - `WindowSearch`: the nested window search;
  - `BreakScan`: the break scan;
  - `GetShiftDetails`: the method that combines them.

  Each method is proved against closed-form functions of the mask:
  `WorkWindow`, `MaskBreak` and `FirstGap`. Lemmas then state what those
  functions mean.
- `Plan` (`plan.dfy`): the expansion loop, modelled as three nested-loop
  methods:
  - `ExpandPlan`: rows;
  - `ExpandRow`: agents;
  - `AppendWeek`: weekdays.

  Each is proved equal to a recursive definition: `PlanRecords`,
  `AgentRecords` or `DayRecords`. Lemmas about those definitions give the
  number, order and content of the records, and show that the "24:00"
  replacement never changes anything.

What the window search actually computes: the doubled mask is scanned from
start hour 0 first. Counting from hour 0 reaches the total number of staffed
hours at the last staffed hour, and that is always within 24 slots. So the
first start always succeeds, and no later start is ever tried. As written,
the window therefore always begins at 00:00 and ends at the hour after the
last staffed hour, taken mod 24.

- Hours 8..15 with 12 unstaffed give "00:00-16:00", not "08:00-16:00".
- Hours 22, 23, 0 and 1 give "00:00-00:00", not a window that starts at 22:00.

The comment "Duplicar para ventana circular" (duplicate for a circular
window) suggests a window that starts at the first staffed hour and may wrap
past midnight. The model follows the code as written:
`WindowSearch` proves `start == 0`, and `DayShiftWindow` and
`NightShiftWindow` state the two examples above. For the same reason, the
`(i+2)%24` alternative of the break scan's third read is never taken: every
index the scan reads is below 48.

## Model

| member | source | states |
|---|---|---|
| Shifts.GetShiftDetails | Soporte_Generador_Turnos.py:43-73 | The window and break of a code are `WorkWindow` and `MaskBreak` of its mask; an unknown code gives "-" and "-" |
| Shifts.Lookup | Soporte_Generador_Turnos.py:44 | A known code gets its table entry; an unknown code gets 24 unstaffed hours |
| Shifts.UnstaffedHasNoBreak | Soporte_Generador_Turnos.py:45-47 | A mask with no staffed hour has break "-" |
| Shifts.SumBinary | Soporte_Generador_Turnos.py:45 | A 0/1 mask sums to between 0 and its length, and to 0 exactly when no hour is staffed |
| Shifts.StaffedHasLast | Soporte_Generador_Turnos.py:45-46 | A positive total exists exactly when some hour is staffed |
| Shifts.LastStaffed | Soporte_Generador_Turnos.py:53-58 | The last staffed hour: staffed itself, with no staffed hour after it (-1 when none) |
| Shifts.PrefixSums | Soporte_Generador_Turnos.py:53-56 | Counting from hour 0, the running count stays below the total before the last staffed hour and equals it there |
| Shifts.WindowSearch | Soporte_Generador_Turnos.py:49-62 | The search picks start 0 and length = last staffed hour + 1; the window holds every staffed hour, ends on a staffed hour, and no shorter prefix reaches the total |
| Shifts.FirstGap | Soporte_Generador_Turnos.py:67-71 | The first slot in a range that reads staffed, unstaffed, staffed; none when no slot does |
| Shifts.FirstGapAt | Soporte_Generador_Turnos.py:67-71 | A slot that matches the pattern, with no match before it, is the first match |
| Shifts.ThirdSlot | Soporte_Generador_Turnos.py:68 | The third index the scan reads lies inside the doubled mask and is the next-but-one slot whenever that exists |
| Shifts.ThirdSlotNeverWraps | Soporte_Generador_Turnos.py:67-68 | For every slot the break scan visits, the third read is the next-but-one slot: the `(i+2)%24` alternative is never taken |
| Shifts.BreakScan | Soporte_Generador_Turnos.py:66-71 | The scan over the window's slots stops at the first staffed-unstaffed-staffed run and reports it; it reports none when there is no run |
| Shifts.ScanHit | Soporte_Generador_Turnos.py:67-71 | A scan whose first match is slot i renders the break that starts at hour (i+1) mod 24 |
| Shifts.BreakScanMatchesMask | Soporte_Generador_Turnos.py:66-71 | Scanning the window of the doubled mask finds the same first run as scanning hours 0..21 of the mask itself; no run wraps past midnight |
| Shifts.WindowEndsAtMidnight | Soporte_Generador_Turnos.py:62-64 | The window ends at 00:00 exactly when hour 23 is staffed |
| Shifts.WindowBounds | Soporte_Generador_Turnos.py:62-72 | Read back, the window starts at 00:00; the hour before its end is staffed, and no later hour of the day is |
| Shifts.NoBreakWithoutGap | Soporte_Generador_Turnos.py:66-71 | The break is "-" exactly when no unstaffed hour 1..22 lies between two staffed hours |
| Shifts.BreakIsFirstGap | Soporte_Generador_Turnos.py:66-71 | When break hours exist, the break is "g:00-(g+1):00" for the smallest of them |
| Shifts.WindowHasNoDayEnd | Soporte_Generador_Turnos.py:72 | No rendered window contains "24:00" |
| Shifts.NightShiftWindow | Soporte_Generador_Turnos.py:49-64 | Hours 22, 23, 0 and 1 staffed give the window "00:00-00:00" |
| Shifts.NightShiftBreak | Soporte_Generador_Turnos.py:66-71 | That night shift has break "-" |
| Shifts.DayShiftWindow | Soporte_Generador_Turnos.py:49-64 | Hours 8..15 except 12 staffed give the window "00:00-16:00" |
| Shifts.DayShiftBreak | Soporte_Generador_Turnos.py:66-71 | That day shift has break "12:00-13:00" |
| Text.Decimal | Soporte_Generador_Turnos.py:85 | The agent number renders as a non-empty string of digits |
| Text.DecimalRoundTrip | Soporte_Generador_Turnos.py:85 | Reading a rendered agent number back gives the number |
| Text.DecimalInjective | Soporte_Generador_Turnos.py:85 | Different numbers render differently |
| Text.TwoDigits | Soporte_Generador_Turnos.py:70-72 | An hour renders as exactly two digits |
| Text.TwoDigitsRoundTrip | Soporte_Generador_Turnos.py:70-72 | Reading a two-digit hour back gives the hour |
| Text.HourRange | Soporte_Generador_Turnos.py:70-72 | An interval renders as 11 characters, "HH:00-HH:00", with digits in both hour fields |
| Text.HourRangeRoundTrip | Soporte_Generador_Turnos.py:70-72 | Both hour fields of a rendered interval read back as the hours rendered |
| Text.HourRangeInjective | Soporte_Generador_Turnos.py:70-72 | Two rendered intervals are equal exactly when their hours are |
| Text.ReplaceAbsent | Soporte_Generador_Turnos.py:109 | Replacing a pattern that does not occur leaves the string unchanged |
| Text.HourRangeHasNoDayEnd | Soporte_Generador_Turnos.py:109 | An interval between hours of the day never contains "24:00", so the replacement leaves it unchanged |
| Plan.AgentIdsDistinct | Soporte_Generador_Turnos.py:85 | Agents of the same shift code get different identifiers |
| Plan.DiasDistinct | Soporte_Generador_Turnos.py:40 | The seven weekday names are pairwise different |
| Plan.AppendWeek | Soporte_Generador_Turnos.py:86-106 | The weekday loop appends the agent's seven day records, in weekday order |
| Plan.ExpandRow | Soporte_Generador_Turnos.py:82-106 | The agent loop appends the weeks of agents 1..n (none when n <= 0), with the row's meal value |
| Plan.ExpandPlan | Soporte_Generador_Turnos.py:76-106 | The plan loop produces `PlanRecords`: row after row, each row's shift resolved once |
| Plan.DayRecordsAt | Soporte_Generador_Turnos.py:86-106 | An agent's k-th record is its record for weekday k |
| Plan.AgentRecordsLength | Soporte_Generador_Turnos.py:84-86 | m agents produce 7m records |
| Plan.AgentRecordAt | Soporte_Generador_Turnos.py:84-106 | Record (a-1)*7+d is agent a's record for weekday d |
| Plan.RowRecordAt | Soporte_Generador_Turnos.py:77-106 | A row yields 7 records per agent, ordered by agent then weekday. Each has the agent's id, code, contract and day. It is "DSO" with no break or meal exactly on the rest day; otherwise it has the row's window, plus the break and meal only for full-time contracts |
| Plan.WindowIsNotRestDay | Soporte_Generador_Turnos.py:93-103 | A working window ("-" or "HH:00-HH:00") is never "DSO", so rest-day records are told apart by their window |
| Plan.SharedCodeSharesIds | Soporte_Generador_Turnos.py:77-85 | Agent numbers restart at 1 in each row: two rows with the same shift code give their first agents the same id |
| Plan.RowRecordsLength | Soporte_Generador_Turnos.py:84-106 | A plan row yields 7 records per agent |
| Plan.RestDaysSoFar | Soporte_Generador_Turnos.py:86-96 | Among an agent's first n records, the rest-day count is 1 if the rest day is among the first n weekdays, and 0 otherwise |
| Plan.OneRestDayPerAgent | Soporte_Generador_Turnos.py:86-96 | For any window other than "DSO", each agent's week has exactly one "DSO" record when the rest day is a weekday name, and none otherwise |
| Plan.RowOneRestDay | Soporte_Generador_Turnos.py:84-96 | Every agent of a plan row gets exactly one "DSO" record when the rest day is a weekday name, and none otherwise |
| Plan.PlanLength | Soporte_Generador_Turnos.py:76-106 | The expanded plan has 7 records per agent, summed over all rows |
| Plan.NormaliseClean | Soporte_Generador_Turnos.py:108-109 | On records without "24:00", the column replacement returns them unchanged; on no records at all it fails, since the empty DataFrame has no 'Jornada' column |
| Plan.AgentRecordsNoDayEnd | Soporte_Generador_Turnos.py:93-103 | When the window has no "24:00", no record of the row has one ("DSO" never does) |
| Plan.PlanRecordsNoDayEnd | Soporte_Generador_Turnos.py:76-106 | No record of the expanded plan has "24:00" in its window |
| Plan.ExpansionIsNormalised | Soporte_Generador_Turnos.py:108-109 | The "24:00" to "00:00" replacement changes nothing in the expanded plan when there is at least one agent; with total headcount 0 the expansion is empty and the column lookup raises `KeyError` |

## Left out

- The Streamlit page, file upload, the `st.info`/`st.stop` guard, and showing the table (lines 21-28, 111-112) are user interface. They are not modelled.
- Reading the spreadsheet with pandas (line 31), building the DataFrame (line 108; only its lack of a 'Jornada' column when there are no records is modelled, as `None` from `NormaliseJornadas`), Excel export and the download button (lines 115-126) are I/O. Plan rows are modelled as a sequence of `PlanRow` values, and the result as a sequence of `Record` values.
- The timestamped output file name (line 118) depends on the clock. It is not modelled.
- The stray expression `time` on line 19, which names an unimported module, is not modelled.
- The hard-coded `shifts_coverage` table (lines 35-38) is empty in the file. The model takes the table as a parameter.
- The `@st.cache_data` memoisation of `get_shift_details` (line 42) is not modelled. The function is deterministic, so caching does not change any result.
- Shifts.GetShiftDetails: requires a known code's mask to be 24 entries of 0 or 1. `Plan.ExpandPlan` requires this of the whole table (`TableOk`). With other entries the count may never reach the total (for example, a single entry 2), and then `length, start = best` fails on `None`. Such masks, and masks of other lengths, are not modelled.
- Plan.ExpandRow: the headcount is an `int`. The cell's `int(...)` conversion (line 81), empty cells (NaN) and non-numeric text are not modelled. An optional meal column is modelled as `Option<string>` with default "-", as `row.get` gives it.
- `Plan.IsFullTime` compares characters exactly, as `str.startswith` does. Unicode normalisation of names is not modelled.
- Shifts.BreakScan: returns the slot where the scan first finds the pattern, and `GetShiftDetails` renders the break string from that slot. The source builds the same string inside the loop before `break`.
