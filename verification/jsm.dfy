/** `computeJSM`: single-machine job sequencing under three heuristics —
    first come first served (input order), shortest processing time first,
    and earliest due date first — with the schedule metrics of each order,
    every job arriving at time 0. */
module Jsm {
  import opened Wrappers
  import Text
  import Numbers
  import Sorting

  /** The due-date field: absent or empty, a date (its time value), or text
      the host's `Date` cannot read (an invalid date object). */
  datatype Due = NoDue | DueAt(time: int) | InvalidDate

  datatype Job = Job(name: string, time: real, due: Due)

  /** One row of a schedule table; `lateness` is always `-`. */
  datatype ScheduleRow = ScheduleRow(
    position: nat, name: string, time: real,
    start: real, completion: real, waiting: real, turnaround: real,
    due: Due, lateness: string)

  datatype Schedules = Schedules(fcfs: seq<ScheduleRow>, spt: seq<ScheduleRow>, edd: seq<ScheduleRow>)

  /** `toISOString` on an invalid date throws a `RangeError`. */
  const InvalidDateMessage: string := "Invalid time value"

  /** One input line `name, time, due?`; lines without a comma are skipped.
      `parseDate` stands for the host's `new Date(text)`, `None` for an
      invalid date. */
  function ParseJob(line: string, parseDate: string -> Option<int>): (r: Option<Job>)
    ensures r.None? <==> ',' !in line
    ensures r.Some? ==> r.value.name == Text.Fields(line)[0]
    ensures r.Some? ==> (r.value.due == NoDue <==> |Text.Fields(line)| < 3 || Text.Fields(line)[2] == "")
  {
    var parts := Text.Fields(line);
    Text.SplitSingle(line, ',');
    if |parts| < 2 then None
    else
      var due :=
        if |parts| > 2 && parts[2] != "" then
          match parseDate(parts[2])
          case Some(t) => DueAt(t)
          case None => InvalidDate
        else NoDue;
      Some(Job(parts[0], Numbers.OrZero(Numbers.JsNumber(parts[1])), due))
  }

  /** The jobs of all lines that are not skipped, in input order. */
  function ParseJobs(lines: seq<string>, parseDate: string -> Option<int>): (jobs: seq<Job>)
    ensures |jobs| <= |lines|
  {
    if lines == [] then []
    else
      var init := ParseJobs(lines[..|lines| - 1], parseDate);
      match ParseJob(lines[|lines| - 1], parseDate)
      case None => init
      case Some(j) => init + [j]
  }

  /** Every line with a comma yields exactly one job. */
  lemma {:induction false} ParseJobsCount(lines: seq<string>, parseDate: string -> Option<int>)
    requires forall i :: 0 <= i < |lines| ==> ',' in lines[i]
    ensures |ParseJobs(lines, parseDate)| == |lines|
  {
    if lines != [] {
      ParseJobsCount(lines[..|lines| - 1], parseDate);
    }
  }

  /** Sum of the processing times. */
  function TotalTime(jobs: seq<Job>): real
  {
    if jobs == [] then 0.0 else TotalTime(jobs[..|jobs| - 1]) + jobs[|jobs| - 1].time
  }

  lemma {:induction false} TotalTimeAppend(a: seq<Job>, b: seq<Job>)
    ensures TotalTime(a + b) == TotalTime(a) + TotalTime(b)
    decreases |b|
  {
    if b == [] {
      assert a + b == a;
    } else {
      assert (a + b)[..|a + b| - 1] == a + b[..|b| - 1];
      TotalTimeAppend(a, b[..|b| - 1]);
    }
  }

  /** Reordering the jobs does not change the total processing time. */
  lemma {:induction false} TotalTimeReorder(a: seq<Job>, b: seq<Job>)
    requires multiset(a) == multiset(b)
    ensures TotalTime(a) == TotalTime(b)
    decreases |a|
  {
    if a == [] {
      assert |b| == |multiset(b)| == 0;
    } else {
      var x := a[|a| - 1];
      var init := a[..|a| - 1];
      assert a == init + [x];
      assert x in multiset(b);
      var k :| 0 <= k < |b| && b[k] == x;
      var rest := b[..k] + b[k + 1..];
      assert b == b[..k] + [x] + b[k + 1..];
      assert multiset(b) == multiset(b[..k]) + multiset{x} + multiset(b[k + 1..]);
      assert multiset(rest) == multiset(b[..k]) + multiset(b[k + 1..]);
      assert multiset(a) == multiset(init) + multiset{x};
      assert multiset(rest) == multiset(b) - multiset{x};
      assert multiset(init) == multiset(a) - multiset{x};
      TotalTimeReorder(init, rest);
      TotalTimeAppend(b[..k] + [x], b[k + 1..]);
      TotalTimeAppend(b[..k], [x]);
      TotalTimeAppend(b[..k], b[k + 1..]);
      assert [x][..0] == [];
    }
  }

  /** `row` is the schedule row of the job at index `i` of `order` with all
      arrivals at 0: jobs run back to back, each starting when the previous
      completes, so a job's start and waiting time are the processing time
      of the jobs before it and its completion and turnaround add its own. */
  ghost predicate RowOf(order: seq<Job>, i: nat, row: ScheduleRow)
    requires i < |order|
  {
    && row.position == i + 1
    && row.name == order[i].name && row.time == order[i].time && row.due == order[i].due
    && row.start == TotalTime(order[..i])
    && row.completion == row.start + order[i].time
    && row.waiting == row.start
    && row.turnaround == row.completion
    && row.lateness == "-"
  }

  ghost predicate ScheduleOf(order: seq<Job>, rows: seq<ScheduleRow>)
  {
    |rows| == |order| && forall i :: 0 <= i < |rows| ==> RowOf(order, i, rows[i])
  }

  /** `scheduleMetrics(order)`. */
  method ScheduleMetrics(order: seq<Job>) returns (rows: seq<ScheduleRow>)
    ensures ScheduleOf(order, rows)
  {
    rows := [];
    var current := 0.0;
    for i := 0 to |order|
      invariant |rows| == i
      invariant current == TotalTime(order[..i])
      invariant forall k :: 0 <= k < i ==> RowOf(order, k, rows[k])
    {
      var j := order[i];
      var start := current;
      var completion := start + j.time;
      rows := rows + [ScheduleRow(i + 1, j.name, j.time, start, completion, start, completion, j.due, "-")];
      current := completion;
      assert order[..i + 1][..i] == order[..i];
    }
  }

  /** Consecutive jobs run back to back. */
  lemma BackToBack(order: seq<Job>, rows: seq<ScheduleRow>, i: nat)
    requires ScheduleOf(order, rows)
    requires 0 < i < |rows|
    ensures rows[i].start == rows[i - 1].completion
  {
    assert RowOf(order, i, rows[i]) && RowOf(order, i - 1, rows[i - 1]);
    assert order[..i][..i - 1] == order[..i - 1];
  }

  /** The last job of any order completes at the total processing time. */
  lemma LastCompletion(order: seq<Job>, rows: seq<ScheduleRow>)
    requires ScheduleOf(order, rows)
    requires |rows| > 0
    ensures rows[|rows| - 1].completion == TotalTime(order)
  {
    assert RowOf(order, |rows| - 1, rows[|rows| - 1]);
  }

  /** The comparator `(a, b) => a.time - b.time`. */
  function TimeOf(j: Job): real { j.time }

  /** Shortest processing time first; equal times keep input order. */
  function Spt(jobs: seq<Job>): (r: seq<Job>)
    ensures multiset(r) == multiset(jobs)
    ensures Sorting.Stable(jobs, r, TimeOf)
    ensures forall i, k :: 0 <= i < k < |r| ==> r[i].time <= r[k].time
  {
    Sorting.AscendingIsTotal();
    var r := Sorting.SortBy(jobs, TimeOf, Sorting.Ascending);
    assert Sorting.Sorted(r, TimeOf, Sorting.Ascending);
    r
  }

  /** The date the EDD comparator sees; an invalid date never reaches it in
      a run that succeeds. */
  function DueKey(j: Job): Option<int>
  {
    match j.due
    case DueAt(t) => Some(t)
    case _ => None
  }

  /** The EDD comparator as an order: dated jobs by date, undated jobs after
      every dated one and equal to each other. */
  function DueLe(a: Option<int>, b: Option<int>): bool
  {
    match (a, b)
    case (None, None) => true
    case (None, Some(_)) => false
    case (Some(_), None) => true
    case (Some(x), Some(y)) => x <= y
  }

  lemma DueLeIsTotal()
    ensures Sorting.TotalOrder(DueLe)
  {
  }

  /** Earliest due date first; jobs without a due date go last, and jobs
      with equal keys keep their input order. */
  function Edd(jobs: seq<Job>): (r: seq<Job>)
    ensures multiset(r) == multiset(jobs)
    ensures Sorting.Stable(jobs, r, DueKey)
    ensures forall i, k :: 0 <= i < k < |r| ==> DueLe(DueKey(r[i]), DueKey(r[k]))
  {
    DueLeIsTotal();
    var r := Sorting.SortBy(jobs, DueKey, DueLe);
    assert Sorting.Sorted(r, DueKey, DueLe);
    r
  }

  /** In the EDD order every dated job precedes every undated one, and the
      dated ones are in date order. */
  lemma EddDatedFirst(jobs: seq<Job>, i: nat, k: nat)
    requires i < k < |Edd(jobs)|
    ensures Edd(jobs)[i].due.DueAt? && Edd(jobs)[k].due.DueAt? ==> Edd(jobs)[i].due.time <= Edd(jobs)[k].due.time
    ensures Edd(jobs)[k].due.DueAt? ==> Edd(jobs)[i].due.DueAt?
  {
    var r := Edd(jobs);
    assert DueLe(DueKey(r[i]), DueKey(r[k]));
  }

  predicate HasInvalidDate(jobs: seq<Job>)
  {
    exists i :: 0 <= i < |jobs| && jobs[i].due.InvalidDate?
  }

  /** `computeJSM(lines)`: the three schedules, or the error raised when a
      due date is not a valid date. */
  method ComputeJsm(lines: seq<string>, parseDate: string -> Option<int>) returns (r: Result<Schedules>)
    ensures r.Failure? <==> HasInvalidDate(ParseJobs(lines, parseDate))
    ensures r.Failure? ==> r.error == InvalidDateMessage
    ensures r.Success? ==>
      var jobs := ParseJobs(lines, parseDate);
      && ScheduleOf(jobs, r.value.fcfs)
      && ScheduleOf(Spt(jobs), r.value.spt)
      && ScheduleOf(Edd(jobs), r.value.edd)
  {
    var jobs := ParseJobs(lines, parseDate);
    if HasInvalidDate(jobs) {
      return Failure(InvalidDateMessage);
    }
    var fcfs := ScheduleMetrics(jobs);
    var spt := ScheduleMetrics(Spt(jobs));
    var edd := ScheduleMetrics(Edd(jobs));
    r := Success(Schedules(fcfs, spt, edd));
  }

  /** Whatever the heuristic, the last job completes at the total
      processing time of the jobs: every order is a reordering of them. */
  lemma SameMakespan(jobs: seq<Job>, order: seq<Job>, rows: seq<ScheduleRow>)
    requires multiset(order) == multiset(jobs)
    requires ScheduleOf(order, rows) && |rows| > 0
    ensures rows[|rows| - 1].completion == TotalTime(jobs)
  {
    LastCompletion(order, rows);
    TotalTimeReorder(order, jobs);
  }

  /** Jobs A (4), B (2) and C (6): SPT runs B, A, C, completing at 2, 6 and 12. */
  lemma ExampleSpt()
    ensures
      var a, b, c := Job("A", 4.0, NoDue), Job("B", 2.0, NoDue), Job("C", 6.0, NoDue);
      Spt([a, b, c]) == [b, a, c]
      && TotalTime([b]) == 2.0 && TotalTime([b, a]) == 6.0 && TotalTime([b, a, c]) == 12.0
  {
    var a, b, c := Job("A", 4.0, NoDue), Job("B", 2.0, NoDue), Job("C", 6.0, NoDue);
    Sorting.AscendingIsTotal();
    SptExample(a, b, c);
    RunningTotals(b, a, c);
  }

  /** The completion times of three jobs run in order. */
  lemma RunningTotals(x: Job, y: Job, z: Job)
    ensures TotalTime([x]) == x.time
    ensures TotalTime([x, y]) == x.time + y.time
    ensures TotalTime([x, y, z]) == x.time + y.time + z.time
  {
    assert [x][..0] == [];
    assert [x, y][..1] == [x];
    assert [x, y, z][..2] == [x, y];
  }

  /** Three jobs whose times order them as b, a, c. */
  lemma SptExample(a: Job, b: Job, c: Job)
    requires b.time < a.time <= c.time
    ensures Spt([a, b, c]) == [b, a, c]
  {
    Sorting.AscendingIsTotal();
    Sorting.SwapFirstTwo(a, b, c, TimeOf, Sorting.Ascending);
  }
}
