/** Resolution of a shift code to its working window ("jornada") and its
    one-hour break, as `get_shift_details` derives them from the shift's
    24-slot coverage mask. */
module Shifts {
  import opened Text

  datatype Option<T> = None | Some(value: T) {
    /** The value, or `default` when there is none (as `dict.get(key, default)`). */
    function GetOr(default: T): T {
      match this
      case Some(v) => v
      case None => default
    }
  }

  /** Slots of a coverage mask: one per hour of the day. */
  const HoursPerDay := 24

  /** Every entry is 0 (unstaffed) or 1 (staffed). */
  predicate Binary(s: seq<int>) {
    forall k :: 0 <= k < |s| ==> s[k] == 0 || s[k] == 1
  }

  /** A coverage mask: index = hour of the day, 1 = staffed during that hour. */
  predicate IsMask(cov: seq<int>) {
    |cov| == HoursPerDay && Binary(cov)
  }

  /** Python's `sum` over a list of integers. */
  function Sum(s: seq<int>): int {
    if s == [] then 0 else Sum(s[..|s| - 1]) + s[|s| - 1]
  }

  lemma {:induction false} SumConcat(a: seq<int>, b: seq<int>)
    ensures Sum(a + b) == Sum(a) + Sum(b)
    decreases |b|
  {
    if b == [] {
      assert a + b == a;
    } else {
      SumConcat(a, b[..|b| - 1]);
      assert (a + b)[..|a + b| - 1] == a + b[..|b| - 1];
    }
  }

  /** A 0/1 sequence sums to a value between 0 and its length, and to 0
      exactly when no entry is staffed. */
  lemma {:induction false} SumBinary(s: seq<int>)
    requires Binary(s)
    ensures 0 <= Sum(s) <= |s|
    ensures Sum(s) == 0 <==> forall k :: 0 <= k < |s| ==> s[k] == 0
  {
    if s != [] {
      var init := s[..|s| - 1];
      SumBinary(init);
      assert forall k :: 0 <= k < |init| ==> init[k] == s[k];
    }
  }

  /** The last staffed hour, or -1 when no hour is staffed. */
  function LastStaffed(cov: seq<int>): (h: int)
    ensures -1 <= h < |cov|
    ensures h >= 0 ==> cov[h] == 1
    ensures forall k :: h < k < |cov| ==> cov[k] != 1
  {
    if cov == [] then -1
    else if cov[|cov| - 1] == 1 then |cov| - 1
    else LastStaffed(cov[..|cov| - 1])
  }

  /** A 0/1 sequence has a staffed hour exactly when its sum is positive. */
  lemma StaffedHasLast(cov: seq<int>)
    requires Binary(cov)
    ensures Sum(cov) >= 0
    ensures Sum(cov) > 0 <==> LastStaffed(cov) >= 0
  {
    SumBinary(cov);
  }

  /** Counting staffed hours from hour 0: the count stays below the total
      until the last staffed hour, and reaches it there. */
  lemma PrefixSums(cov: seq<int>, e: nat)
    requires Binary(cov) && e <= LastStaffed(cov)
    ensures e < LastStaffed(cov) ==> Sum(cov[..e + 1]) < Sum(cov)
    ensures e == LastStaffed(cov) ==> Sum(cov[..e + 1]) == Sum(cov)
  {
    var last := LastStaffed(cov);
    var rest := cov[e + 1..];
    assert cov == cov[..e + 1] + rest;
    SumConcat(cov[..e + 1], rest);
    SumBinary(rest);
    if e < last {
      assert rest[last - e - 1] == 1;
    } else {
      assert forall k :: 0 <= k < |rest| ==> rest[k] == cov[e + 1 + k];
    }
  }

  /** The coverage mask of a shift code: the table's entry, or 24 unstaffed
      hours for a code the table does not know. */
  function Lookup(coverage: map<string, seq<int>>, name: string): (cov: seq<int>)
    ensures name in coverage ==> cov == coverage[name]
    ensures name !in coverage ==> IsMask(cov) && Sum(cov) == 0
  {
    if name in coverage then coverage[name]
    else
      var zeros := seq(HoursPerDay, _ => 0);
      SumBinary(zeros);
      zeros
  }

  /** The window search of `get_shift_details`: for each start hour, count
      staffed hours forward until the count reaches the total; the first
      start that reaches it gives `(length, start)`. On a doubled mask the
      first start, hour 0, always reaches it, so the window runs from hour 0
      up to and including the last staffed hour. */
  method WindowSearch(cov: seq<int>, ext: seq<int>, total: int) returns (length: int, start: int)
    requires IsMask(cov) && ext == cov + cov && total == Sum(cov) && total > 0
    ensures start == 0 && length == LastStaffed(cov) + 1 && 1 <= length <= HoursPerDay
    ensures Sum(ext[start..start + length]) == total && ext[start + length - 1] == 1
    ensures forall k :: start <= k < start + length ==> Sum(ext[start..k]) < total
  {
    var last := LastStaffed(cov);
    StaffedHasLast(cov);
    var best: Option<(int, int)> := None;
    for s := 0 to HoursPerDay
      invariant s == 0 && best == None
    {
      var ones := 0;
      for e := s to s + HoursPerDay
        invariant e <= last
        invariant best == None
        invariant ones == Sum(ext[s..e])
        invariant forall k :: s <= k <= e ==> Sum(ext[s..k]) < total
      {
        assert ext[s..e + 1] == cov[..e + 1];
        assert ext[s..e + 1][..e - s] == ext[s..e];
        PrefixSums(cov, e);
        if ext[e] == 1 {
          ones := ones + 1;
        }
        if ones == total {
          best := Some((e - s + 1, s));
          break;
        }
      }
      if best.Some? {
        break;
      }
      // The count always reaches the total from hour 0, so no later start is tried.
      assert false;
    }
    assert best == Some((last + 1, 0));
    length, start := best.value.0, best.value.1;
  }

  /** Slot `i`, `i + 1`, `i + 2` of `s` read staffed, unstaffed, staffed. */
  predicate Pattern(s: seq<int>, i: nat)
    requires i + 2 < |s|
  {
    s[i] == 1 && s[i + 1] == 0 && s[i + 2] == 1
  }

  /** The first `i` in `lo..hi-1` at which `Pattern` holds, if any. */
  function FirstGap(s: seq<int>, lo: nat, hi: int): (r: Option<nat>)
    requires hi + 2 <= |s|
    ensures r.Some? ==> lo <= r.value < hi && Pattern(s, r.value)
    ensures r.Some? ==> forall j :: lo <= j < r.value ==> !Pattern(s, j)
    ensures r.None? ==> forall j :: lo <= j < hi ==> !Pattern(s, j)
    decreases hi - lo
  {
    if lo >= hi then None
    else if Pattern(s, lo) then Some(lo)
    else FirstGap(s, lo + 1, hi)
  }

  /** `FirstGap` is determined by where the pattern first holds. */
  lemma FirstGapAt(s: seq<int>, lo: nat, hi: int, i: nat)
    requires hi + 2 <= |s| && lo <= i < hi && Pattern(s, i)
    requires forall j :: lo <= j < i ==> !Pattern(s, j)
    ensures FirstGap(s, lo, hi) == Some(i)
  {
    var r := FirstGap(s, lo, hi);
    assert r.Some?;
    assert !(r.value < i) && !(i < r.value);
  }

  /** The hour of the day of slot `n` of a run of days: `n % 24`. */
  function DayHour(n: nat): (h: nat)
    ensures h < HoursPerDay && h == n % HoursPerDay
  {
    if n < HoursPerDay then n else n % HoursPerDay
  }

  /** The hour after `h` on a 24-hour clock: `(h + 1) % 24`. */
  function NextHour(h: nat): (n: nat)
    requires h < HoursPerDay
    ensures n < HoursPerDay && n == (h + 1) % HoursPerDay
  {
    if h + 1 < HoursPerDay then h + 1 else 0
  }

  /** The one-hour break starting at hour `gap`, rendered "HH:00-HH:00". */
  function BreakLabel(gap: nat): string
    requires gap < HoursPerDay
  {
    HourRange(gap, NextHour(gap))
  }

  /** A break that starts before 23:00 ends at the next hour of the same day. */
  lemma BreakLabelWithinDay(gap: nat)
    requires gap < HoursPerDay - 1
    ensures BreakLabel(gap) == HourRange(gap, gap + 1)
  {
    assert NextHour(gap) == gap + 1;
  }

  /** The rendered break for the first pattern found at slot `i`: the
      unstaffed hour `i + 1` (of the day) to the hour after it; "-" when none. */
  function GapLabel(r: Option<nat>): string {
    match r
    case None => "-"
    case Some(i) => BreakLabel(DayHour(i + 1))
  }

  /** The index the break scan reads third: the next-but-one slot, or, past
      the end of the doubled mask, that slot's hour of the day. */
  function ThirdSlot(i: nat, n: nat): (k: nat)
    requires n >= HoursPerDay
    ensures k < n && (i + 2 < n ==> k == i + 2)
  {
    if i + 2 < n then i + 2 else (i + 2) % HoursPerDay
  }

  /** Over the slots the break scan visits, the third read is always the
      next-but-one slot of the doubled mask: its modulo alternative is dead. */
  lemma ThirdSlotNeverWraps(start: int, length: int)
    requires 0 <= start < HoursPerDay && 1 <= length <= HoursPerDay
    ensures forall i: nat :: start <= i < start + length - 1 ==> ThirdSlot(i, 2 * HoursPerDay) == i + 2
  {
    forall i: nat | start <= i < start + length - 1
      ensures ThirdSlot(i, 2 * HoursPerDay) == i + 2
    {
      assert i + 2 < 2 * HoursPerDay;
    }
  }

  /** The break scan of `get_shift_details` over the window's slots
      `start .. start + length - 2` of the doubled mask: it stops at the
      first staffed-unstaffed-staffed run and gives the run's first slot,
      from which the break is rendered (`GapLabel`); it gives `None` when
      there is no such run, and the break stays "-". Every slot it reads
      lies inside the doubled mask, so the modulo alternative of the third
      read is never taken. */
  method BreakScan(ext: seq<int>, start: int, length: int) returns (found: Option<nat>)
    requires |ext| == 2 * HoursPerDay && 0 <= start < HoursPerDay && 1 <= length <= HoursPerDay
    ensures found.Some? ==> start <= found.value < start + length - 1 && Pattern(ext, found.value)
    ensures found == FirstGap(ext, start, start + length - 1)
  {
    var hi := start + length - 1;
    found := None;
    for i := start to hi
      invariant found == None
      invariant forall j :: start <= j < i ==> !Pattern(ext, j)
    {
      var third := ThirdSlot(i, |ext|);
      assert third == i + 2;
      if ext[i] == 1 && ext[i + 1] == 0 && ext[third] == 1 {
        found := Some(i);
        FirstGapAt(ext, start, hi, i);
        return;
      }
    }
  }

  /** A scan that first meets the pattern at slot `i` reports the break
      starting at hour `i + 1` of the day. */
  lemma ScanHit(s: seq<int>, lo: nat, hi: int, i: nat)
    requires hi + 2 <= |s| && lo <= i < hi && Pattern(s, i)
    requires forall j :: lo <= j < i ==> !Pattern(s, j)
    ensures GapLabel(FirstGap(s, lo, hi)) == BreakLabel(DayHour(i + 1))
  {
    FirstGapAt(s, lo, hi, i);
  }

  /** The break hour `g` (1..22): hours g-1 and g+1 staffed, hour g not. */
  predicate IsGap(cov: seq<int>, g: int)
    requires IsMask(cov) && 1 <= g <= HoursPerDay - 2
  {
    cov[g - 1] == 1 && cov[g] == 0 && cov[g + 1] == 1
  }

  /** Scanning the window's slots of the doubled mask finds the same first
      pattern as scanning the mask itself over hours 0..21: the window ends
      at the last staffed hour, so every pattern inside the mask lies in the
      window, and no pattern runs past hour 23 into hour 0. */
  lemma BreakScanMatchesMask(cov: seq<int>)
    requires IsMask(cov) && Sum(cov) > 0
    ensures FirstGap(cov + cov, 0, LastStaffed(cov)) == FirstGap(cov, 0, HoursPerDay - 2)
  {
    var ext := cov + cov;
    var last := LastStaffed(cov);
    StaffedHasLast(cov);
    forall j | 0 <= j < last
      ensures Pattern(ext, j) <==> j < HoursPerDay - 2 && Pattern(cov, j)
    {
      if j == HoursPerDay - 2 {
        assert ext[j + 1] == cov[HoursPerDay - 1] == 1;
      }
    }
    forall j | 0 <= j < HoursPerDay - 2 && Pattern(cov, j)
      ensures j < last
    {
    }
    var a := FirstGap(ext, 0, last);
    var b := FirstGap(cov, 0, HoursPerDay - 2);
    if a.Some? {
      assert Pattern(cov, a.value);
    }
    if b.Some? {
      assert Pattern(ext, b.value);
    }
  }

  /** The working window of a mask, in closed form: "-" when no hour is
      staffed, otherwise from 00:00 to the hour after the last staffed one. */
  function WorkWindow(cov: seq<int>): string
    requires IsMask(cov)
  {
    if Sum(cov) == 0 then "-"
    else
      StaffedHasLast(cov);
      HourRange(0, NextHour(LastStaffed(cov)))
  }

  /** The break of a mask, in closed form: the first staffed-unstaffed-staffed
      run starting at hours 0..21 of the mask itself, "-" when there is none. */
  function MaskBreak(cov: seq<int>): string
    requires IsMask(cov)
  {
    GapLabel(FirstGap(cov, 0, HoursPerDay - 2))
  }

  /** A mask with no staffed hour has no break. */
  lemma UnstaffedHasNoBreak(cov: seq<int>)
    requires IsMask(cov) && Sum(cov) == 0
    ensures MaskBreak(cov) == "-"
  {
    SumBinary(cov);
  }

  /** `get_shift_details`: look the code up (unknown codes are unstaffed),
      give up with "-" twice when nothing is staffed, otherwise search the
      window and scan it for a break. */
  method GetShiftDetails(coverage: map<string, seq<int>>, name: string) returns (jornada: string, brk: string)
    requires name in coverage ==> IsMask(coverage[name])
    ensures name !in coverage ==> jornada == "-" && brk == "-"
    ensures jornada == WorkWindow(Lookup(coverage, name))
    ensures brk == MaskBreak(Lookup(coverage, name))
  {
    var cov := Lookup(coverage, name);
    var total := Sum(cov);
    SumBinary(cov);
    if total == 0 {
      UnstaffedHasNoBreak(cov);
      return "-", "-";
    }
    var ext := cov + cov;
    var length, start := WindowSearch(cov, ext, total);
    var sh := start % HoursPerDay;
    var eh := (start + length) % HoursPerDay;
    var found := BreakScan(ext, start, length);
    brk := GapLabel(found);
    jornada := HourRange(sh, eh);
    BreakScanMatchesMask(cov);
  }

  /** The window ends at 00:00 exactly when hour 23 is staffed. */
  lemma WindowEndsAtMidnight(cov: seq<int>)
    requires IsMask(cov) && Sum(cov) > 0
    ensures WorkWindow(cov) == HourRange(0, 0) <==> cov[HoursPerDay - 1] == 1
  {
    StaffedHasLast(cov);
    var e := NextHour(LastStaffed(cov));
    HourRangeInjective(0, e, 0, 0);
  }

  /** Read back, the window of a staffed mask starts at 00:00, and the hour
      before its end is the last staffed hour of the day. */
  lemma WindowBounds(cov: seq<int>)
    requires IsMask(cov) && Sum(cov) > 0
    ensures |WorkWindow(cov)| == 11 && ParseDecimal(WorkWindow(cov)[..2]) == 0
    ensures var e := ParseDecimal(WorkWindow(cov)[6..8]);
      e < HoursPerDay && cov[(e + 23) % HoursPerDay] == 1
      && forall h :: (e + 23) % HoursPerDay < h < HoursPerDay ==> cov[h] == 0
  {
    StaffedHasLast(cov);
    var last := LastStaffed(cov);
    HourRangeRoundTrip(0, NextHour(last));
    assert (NextHour(last) + 23) % HoursPerDay == last;
  }

  /** Break hour `g` of the mask is the pattern found at slot `g - 1`. */
  lemma GapIsPattern(cov: seq<int>)
    requires IsMask(cov)
    ensures forall g :: 1 <= g <= HoursPerDay - 2 ==> (IsGap(cov, g) <==> Pattern(cov, g - 1))
  {
  }

  /** The break is "-" exactly when the mask has no break hour in 1..22. */
  lemma NoBreakWithoutGap(cov: seq<int>)
    requires IsMask(cov)
    ensures MaskBreak(cov) == "-" <==> forall g :: 1 <= g <= HoursPerDay - 2 ==> !IsGap(cov, g)
  {
    var r := FirstGap(cov, 0, HoursPerDay - 2);
    GapIsPattern(cov);
    if r.Some? {
      assert |GapLabel(r)| == 11;
      assert IsGap(cov, r.value + 1);
    } else {
      forall g | 1 <= g <= HoursPerDay - 2 ensures !IsGap(cov, g) {
        assert !Pattern(cov, g - 1);
      }
    }
  }

  /** When the mask has break hours, the break runs from the smallest of
      them, `g`, to `g + 1`. */
  lemma BreakIsFirstGap(cov: seq<int>, g: int)
    requires IsMask(cov)
    requires 1 <= g <= HoursPerDay - 2 && IsGap(cov, g)
    requires forall h :: 1 <= h < g ==> !IsGap(cov, h)
    ensures MaskBreak(cov) == HourRange(g, g + 1)
  {
    GapIsPattern(cov);
    forall j | 0 <= j < g - 1 ensures !Pattern(cov, j) {
      assert !IsGap(cov, j + 1);
    }
    ScanHit(cov, 0, HoursPerDay - 2, g - 1);
    BreakLabelWithinDay(g);
  }

  /** No working window ever contains "24:00", so the replacement of
      "24:00" by "00:00" leaves every window unchanged. */
  lemma WindowHasNoDayEnd(cov: seq<int>)
    requires IsMask(cov)
    ensures !Occurs("24:00", WorkWindow(cov))
  {
    if Sum(cov) == 0 {
      assert forall p :: !OccursAt("24:00", "-", p);
    } else {
      StaffedHasLast(cov);
      HourRangeHasNoDayEnd(0, NextHour(LastStaffed(cov)));
    }
  }

  /** A night shift staffed at hours 22, 23, 0 and 1. */
  function NightMask(): (cov: seq<int>)
    ensures IsMask(cov)
  {
    seq(HoursPerDay, h => if h < 2 || h >= 22 then 1 else 0)
  }

  /** The window search starts at hour 0 and runs to the last staffed hour,
      23, so the night shift's window reads "00:00-00:00" rather than
      starting at 22:00. */
  lemma NightShiftWindow()
    ensures WorkWindow(NightMask()) == "00:00-00:00"
  {
    var cov := NightMask();
    assert cov[23] == 1;
    StaffedHasLast(cov);
    assert HourRange(0, 0) == "00:00-00:00";
  }

  /** The night shift has no break: no unstaffed hour lies between two
      staffed ones. */
  lemma NightShiftBreak()
    ensures MaskBreak(NightMask()) == "-"
  {
    var cov := NightMask();
    forall g | 1 <= g <= HoursPerDay - 2 ensures !IsGap(cov, g) {
      assert cov[g - 1] == 0 || cov[g] == 1 || cov[g + 1] == 0;
    }
    NoBreakWithoutGap(cov);
  }

  /** A day shift staffed at hours 8..15 except 12. */
  function DayMask(): (cov: seq<int>)
    ensures IsMask(cov)
  {
    seq(HoursPerDay, h => if 8 <= h < 16 && h != 12 then 1 else 0)
  }

  /** The day shift's window runs from 00:00 (not 08:00) to 16:00. */
  lemma DayShiftWindow()
    ensures WorkWindow(DayMask()) == "00:00-16:00"
  {
    var cov := DayMask();
    assert cov[15] == 1;
    StaffedHasLast(cov);
    assert LastStaffed(cov) == 15;
    assert HourRange(0, 16) == "00:00-16:00";
  }

  /** The day shift's break is the unstaffed hour 12: "12:00-13:00". */
  lemma DayShiftBreak()
    ensures MaskBreak(DayMask()) == "12:00-13:00"
  {
    var cov := DayMask();
    assert HourRange(12, 13) == "12:00-13:00";
    assert IsGap(cov, 12);
    forall h | 1 <= h < 12 ensures !IsGap(cov, h) {
      assert cov[h] == 0 || cov[h + 1] == 0 || cov[h - 1] == 0 || h == 9 || h == 10;
    }
    BreakIsFirstGap(cov, 12);
  }
}
