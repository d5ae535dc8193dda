/**
 * The in-memory attendance registry: teachers and students keyed by id, periods keyed by
 * name (kept in insertion order, as a Python dict iterates), and an append-only log of
 * attendance records. Calendar dates are day numbers: only their order matters here.
 */
module Attendance {
  import opened Wrappers

  type Date = int

  datatype PeriodType = Semestral | Bimestral | Anual

  datatype Period = Period(periodType: PeriodType, name: string, start: Date, end: Date) {
    /** `Period.contains`: the date lies between the two bounds, both included. */
    predicate Contains(d: Date) {
      start <= d <= end
    }
  }

  datatype Teacher = Teacher(
    id: string,
    firstName: string,
    lastName: string,
    email: string,
    phone: Option<string>,
    department: Option<string>,
    licenciatura: Option<string>,
    gradoAcademico: Option<string>,
    especialidad: Option<string>)

  datatype Student = Student(
    id: string,
    firstName: string,
    lastName: string,
    email: string,
    enrollmentYear: int,
    career: Option<string>)

  datatype AttendanceRecord = AttendanceRecord(
    personId: string,
    period: Period,
    sessionDate: Date,
    present: bool,
    justification: Option<string>,
    recordedBy: Option<string>)

  /** The `ValueError`s the registry raises, one per message. */
  datatype AttendanceError =
    | TeacherExists(teacherId: string)
    | StudentExists(studentId: string)
    | PeriodExists(periodName: string)
    | NoPeriodDefined
    | UnknownPerson
    | UnknownPeriod

  /** A period contains no date exactly when its end lies before its start. */
  lemma ContainsBounds(p: Period)
    ensures p.Contains(p.start) <==> p.start <= p.end
    ensures p.Contains(p.end) <==> p.start <= p.end
    ensures p.end < p.start <==> forall d :: !p.Contains(d)
  {
    if p.start <= p.end {
      assert p.Contains(p.start);
    }
  }

  /** The first period of `ps`, in order, that contains `d`. */
  function FirstCovering(ps: seq<Period>, d: Date): Option<Period> {
    if ps == [] then None
    else if ps[0].Contains(d) then Some(ps[0])
    else FirstCovering(ps[1..], d)
  }

  /**
   * `FirstCovering` finds nothing exactly when no period contains the date, and otherwise
   * the period at some index `k` that contains it, while none before `k` does.
   */
  lemma {:induction false} FirstCoveringSpec(ps: seq<Period>, d: Date)
    ensures FirstCovering(ps, d).None? <==> forall i | 0 <= i < |ps| :: !ps[i].Contains(d)
    ensures FirstCovering(ps, d).Some? ==>
      exists k | 0 <= k < |ps| :: ps[k] == FirstCovering(ps, d).value && ps[k].Contains(d)
        && forall i | 0 <= i < k :: !ps[i].Contains(d)
  {
    if ps != [] && !ps[0].Contains(d) {
      FirstCoveringSpec(ps[1..], d);
      assert forall i | 1 <= i < |ps| :: ps[i] == ps[1..][i - 1];
      if FirstCovering(ps[1..], d).Some? {
        var k :| 0 <= k < |ps[1..]| && ps[1..][k] == FirstCovering(ps, d).value && ps[1..][k].Contains(d)
          && forall i | 0 <= i < k :: !ps[1..][i].Contains(d);
        assert ps[k + 1] == ps[1..][k];
      }
    } else if ps != [] {
      assert ps[0] == FirstCovering(ps, d).value;
    }
  }

  /** The records of period `name`, in log order (the comprehension of `list_attendance_for_period`). */
  function RecordsFor(records: seq<AttendanceRecord>, name: string): seq<AttendanceRecord> {
    if records == [] then []
    else
      var last := records[|records| - 1];
      RecordsFor(records[..|records| - 1], name) + if last.period.name == name then [last] else []
  }

  /** A record is listed exactly when it is in the log under that period name. */
  lemma {:induction false} RecordsForMembers(records: seq<AttendanceRecord>, name: string)
    ensures forall x :: x in RecordsFor(records, name) <==> x in records && x.period.name == name
  {
    if records != [] {
      var init := records[..|records| - 1];
      RecordsForMembers(init, name);
      assert records == init + [records[|records| - 1]];
    }
  }

  /**
   * The listing is the subsequence of the log picked out by the strictly increasing indices
   * `f`, and `f` takes every index whose record is for that period: records keep the order
   * in which they were appended.
   */
  lemma {:induction false} RecordsForOrder(records: seq<AttendanceRecord>, name: string) returns (f: seq<nat>)
    ensures |f| == |RecordsFor(records, name)|
    ensures forall k | 0 <= k < |f| :: f[k] < |records| && RecordsFor(records, name)[k] == records[f[k]]
    ensures forall k, l | 0 <= k < l < |f| :: f[k] < f[l]
    ensures forall i | 0 <= i < |records| && records[i].period.name == name :: i in f
  {
    if records == [] {
      f := [];
    } else {
      var init := records[..|records| - 1];
      var last := records[|records| - 1];
      var f0 := RecordsForOrder(init, name);
      assert forall i | 0 <= i < |init| :: init[i] == records[i];
      if last.period.name == name {
        f := f0 + [|init|];
        assert forall k | 0 <= k < |f0| :: f[k] == f0[k];
      } else {
        f := f0;
      }
    }
  }

  /** Each record appears in its period's listing as many times as it was logged, and in no other. */
  lemma {:induction false} RecordsForCount(records: seq<AttendanceRecord>, name: string, x: AttendanceRecord)
    ensures multiset(RecordsFor(records, name))[x] == if x.period.name == name then multiset(records)[x] else 0
  {
    if records != [] {
      var init := records[..|records| - 1];
      var last := records[|records| - 1];
      RecordsForCount(init, name, x);
      assert records == init + [last];
    }
  }

  /** The values of `m` listed in the order of `keys`. */
  function InOrder<K, V>(keys: seq<K>, m: map<K, V>): (vs: seq<V>)
    requires forall i | 0 <= i < |keys| :: keys[i] in m
    ensures |vs| == |keys|
    ensures forall i | 0 <= i < |vs| :: vs[i] == m[keys[i]]
  {
    seq(|keys|, i requires 0 <= i < |keys| => m[keys[i]])
  }

  /** A record names a known person, a stored period, and a date inside that period. */
  ghost predicate SoundRecord(teachers: map<string, Teacher>, students: map<string, Student>,
                              periods: map<string, Period>, r: AttendanceRecord) {
    && (r.personId in students || r.personId in teachers)
    && r.period.name in periods && periods[r.period.name] == r.period
    && r.period.Contains(r.sessionDate)
  }

  /** Every record of the log is sound. */
  ghost predicate SoundLog(teachers: map<string, Teacher>, students: map<string, Student>,
                           periods: map<string, Period>, records: seq<AttendanceRecord>) {
    forall i | 0 <= i < |records| :: SoundRecord(teachers, students, periods, records[i])
  }

  /** Adding people or periods keeps the log sound. */
  lemma SoundLogGrows(teachers: map<string, Teacher>, students: map<string, Student>, periods: map<string, Period>,
                      teachers': map<string, Teacher>, students': map<string, Student>, periods': map<string, Period>,
                      records: seq<AttendanceRecord>)
    requires SoundLog(teachers, students, periods, records)
    requires teachers.Keys <= teachers'.Keys && students.Keys <= students'.Keys
    requires forall n | n in periods :: n in periods' && periods'[n] == periods[n]
    ensures SoundLog(teachers', students', periods', records)
  {
    forall i | 0 <= i < |records|
      ensures SoundRecord(teachers', students', periods', records[i])
    {
      assert SoundRecord(teachers, students, periods, records[i]);
    }
  }

  /** Appending a sound record keeps the log sound. */
  lemma SoundLogAppend(teachers: map<string, Teacher>, students: map<string, Student>, periods: map<string, Period>,
                       records: seq<AttendanceRecord>, r: AttendanceRecord)
    requires SoundLog(teachers, students, periods, records) && SoundRecord(teachers, students, periods, r)
    ensures SoundLog(teachers, students, periods, records + [r])
  {
    forall i | 0 <= i < |records| + 1
      ensures SoundRecord(teachers, students, periods, (records + [r])[i])
    {
      if i < |records| {
        assert (records + [r])[i] == records[i];
      }
    }
  }

  /** `order` lists every key of `periods` exactly once. */
  ghost predicate OrderMatches(periods: map<string, Period>, order: seq<string>) {
    && (forall i, j | 0 <= i < j < |order| :: order[i] != order[j])
    && (forall n :: n in periods <==> n in order)
  }

  /** A new name goes at the end of the order, and the listing gains the new period at its end. */
  lemma OrderAppend(periods: map<string, Period>, order: seq<string>, p: Period)
    requires OrderMatches(periods, order) && p.name !in periods
    ensures OrderMatches(periods[p.name := p], order + [p.name])
    ensures InOrder(order + [p.name], periods[p.name := p]) == InOrder(order, periods) + [p]
  {
    var order' := order + [p.name];
    forall i, j | 0 <= i < j < |order'| ensures order'[i] != order'[j] {
      if j == |order| {
        assert order'[i] == order[i] && order[i] in periods;
      }
    }
  }

  /**
   * Over the stored periods in insertion order, the first covering period is a stored one
   * that contains the date, and there is none exactly when no stored period contains it.
   */
  lemma FirstCoveringStored(periods: map<string, Period>, order: seq<string>, d: Date)
    requires OrderMatches(periods, order)
    requires forall n | n in periods :: periods[n].name == n
    ensures var p := FirstCovering(InOrder(order, periods), d);
      && (p.None? <==> forall n | n in periods :: !periods[n].Contains(d))
      && (p.Some? ==> p.value.name in periods && periods[p.value.name] == p.value && p.value.Contains(d))
  {
    var ps := InOrder(order, periods);
    FirstCoveringSpec(ps, d);
    if FirstCovering(ps, d).None? {
      forall n | n in periods ensures !periods[n].Contains(d) {
        var i :| 0 <= i < |order| && order[i] == n;
        assert ps[i] == periods[n];
      }
    } else {
      var k :| 0 <= k < |ps| && ps[k] == FirstCovering(ps, d).value && ps[k].Contains(d);
      assert ps[k] == periods[order[k]];
    }
  }

  /** The loop of `get_period_for_date` over the periods in iteration order, with its early return. */
  method FindCovering(ps: seq<Period>, d: Date) returns (p: Option<Period>)
    ensures p == FirstCovering(ps, d)
  {
    var k := 0;
    while k < |ps|
      invariant 0 <= k <= |ps|
      invariant FirstCovering(ps, d) == FirstCovering(ps[k..], d)
    {
      var period := ps[k];
      assert ps[k..][0] == period && ps[k..][1..] == ps[k + 1..];
      if period.Contains(d) {
        return Some(period);
      }
      k := k + 1;
    }
    p := None;
  }

  /** `AttendanceModel`: the registry. */
  class AttendanceModel {
    var teachers: map<string, Teacher>
    var students: map<string, Student>
    var periods: map<string, Period>
    /** The period names in the order they were added: the iteration order of `periods`. */
    var periodOrder: seq<string>
    var records: seq<AttendanceRecord>

    /**
     * Every entity is stored under its own key; `periodOrder` lists each period name once;
     * every record names a known person, a stored period and a date in it.
     */
    ghost predicate Valid()
      reads this
    {
      && (forall id | id in teachers :: teachers[id].id == id)
      && (forall id | id in students :: students[id].id == id)
      && (forall n | n in periods :: periods[n].name == n)
      && OrderMatches(periods, periodOrder)
      && SoundLog(teachers, students, periods, records)
    }

    /** The stored periods in insertion order. */
    function StoredPeriods(): (ps: seq<Period>)
      reads this
      requires Valid()
      ensures |ps| == |periodOrder|
      ensures forall i | 0 <= i < |ps| :: ps[i] == periods[periodOrder[i]]
    {
      InOrder(periodOrder, periods)
    }

    constructor ()
      ensures Valid()
      ensures teachers == map[] && students == map[] && periods == map[]
      ensures periodOrder == [] && records == []
    {
      teachers, students, periods := map[], map[], map[];
      periodOrder, records := [], [];
    }

    /** `add_teacher`: a new id is stored; an existing one is refused and nothing changes. */
    method AddTeacher(t: Teacher) returns (r: Outcome<AttendanceError>)
      requires Valid()
      modifies this
      ensures Valid()
      ensures old(t.id in teachers) ==> r == Fail(TeacherExists(t.id)) && teachers == old(teachers)
      ensures old(t.id !in teachers) ==> r == Pass && teachers == old(teachers)[t.id := t]
      ensures students == old(students) && periods == old(periods)
      ensures periodOrder == old(periodOrder) && records == old(records)
    {
      if t.id in teachers {
        return Fail(TeacherExists(t.id));
      }
      SoundLogGrows(teachers, students, periods, teachers[t.id := t], students, periods, records);
      teachers := teachers[t.id := t];
      r := Pass;
    }

    /** `add_student`: a new id is stored; an existing one is refused and nothing changes. */
    method AddStudent(s: Student) returns (r: Outcome<AttendanceError>)
      requires Valid()
      modifies this
      ensures Valid()
      ensures old(s.id in students) ==> r == Fail(StudentExists(s.id)) && students == old(students)
      ensures old(s.id !in students) ==> r == Pass && students == old(students)[s.id := s]
      ensures teachers == old(teachers) && periods == old(periods)
      ensures periodOrder == old(periodOrder) && records == old(records)
    {
      if s.id in students {
        return Fail(StudentExists(s.id));
      }
      SoundLogGrows(teachers, students, periods, teachers, students[s.id := s], periods, records);
      students := students[s.id := s];
      r := Pass;
    }

    /**
     * `add_period`: a new name is stored and becomes the last period in iteration order; an
     * existing name is refused and nothing changes. Its bounds are not checked.
     */
    method AddPeriod(p: Period) returns (r: Outcome<AttendanceError>)
      requires Valid()
      modifies this
      ensures Valid()
      ensures old(p.name in periods) ==>
        r == Fail(PeriodExists(p.name)) && periods == old(periods) && periodOrder == old(periodOrder)
      ensures old(p.name !in periods) ==>
        && r == Pass
        && periods == old(periods)[p.name := p] && periodOrder == old(periodOrder) + [p.name]
        && StoredPeriods() == old(StoredPeriods()) + [p]
      ensures teachers == old(teachers) && students == old(students) && records == old(records)
    {
      if p.name in periods {
        return Fail(PeriodExists(p.name));
      }
      SoundLogGrows(teachers, students, periods, teachers, students, periods[p.name := p], records);
      OrderAppend(periods, periodOrder, p);
      periods := periods[p.name := p];
      periodOrder := periodOrder + [p.name];
      r := Pass;
    }

    /**
     * `get_period_for_date`: the first stored period, in insertion order, that contains the
     * date, or nothing when none does.
     */
    method GetPeriodForDate(d: Date) returns (p: Option<Period>)
      requires Valid()
      ensures p == FirstCovering(StoredPeriods(), d)
      ensures p.None? <==> forall n | n in periods :: !periods[n].Contains(d)
      ensures p.Some? ==> p.value.name in periods && periods[p.value.name] == p.value && p.value.Contains(d)
    {
      FirstCoveringStored(periods, periodOrder, d);
      p := FindCovering(StoredPeriods(), d);
    }

    /**
     * `register_attendance`: the covering period is resolved first, so an uncovered date is
     * refused whoever the person is; then the person must be a known student or teacher
     * (`recordedBy` is not checked). On success exactly one record is appended; on failure
     * nothing changes.
     */
    method RegisterAttendance(personId: string, sessionDate: Date, present: bool,
                              justification: Option<string>, recordedBy: Option<string>)
      returns (r: Result<AttendanceRecord, AttendanceError>)
      requires Valid()
      modifies this
      ensures Valid()
      ensures teachers == old(teachers) && students == old(students)
      ensures periods == old(periods) && periodOrder == old(periodOrder)
      ensures var p := FirstCovering(StoredPeriods(), sessionDate);
        && (p.None? ==> r == Failure(NoPeriodDefined))
        && (p.Some? && personId !in students && personId !in teachers ==> r == Failure(UnknownPerson))
        && (p.Some? && (personId in students || personId in teachers) ==>
              r == Success(AttendanceRecord(personId, p.value, sessionDate, present, justification, recordedBy)))
      ensures r.Failure? ==> records == old(records)
      ensures r.Success? ==> records == old(records) + [r.value]
    {
      var period := GetPeriodForDate(sessionDate);
      if period.None? {
        return Failure(NoPeriodDefined);
      }
      if personId !in students && personId !in teachers {
        return Failure(UnknownPerson);
      }
      var record := AttendanceRecord(personId, period.value, sessionDate, present, justification, recordedBy);
      SoundLogAppend(teachers, students, periods, records, record);
      records := records + [record];
      r := Success(record);
    }

    /**
     * `list_attendance_for_period`: an unknown name is refused; otherwise exactly the records
     * of that period, in the order they were appended.
     */
    function ListAttendanceForPeriod(name: string): (r: Result<seq<AttendanceRecord>, AttendanceError>)
      reads this
      ensures name !in periods ==> r == Failure(UnknownPeriod)
      ensures name in periods ==> r == Success(RecordsFor(records, name))
      ensures name in periods ==>
        r.Success? && forall x :: x in r.value <==> x in records && x.period.name == name
    {
      if name !in periods then
        Failure(UnknownPeriod)
      else
        RecordsForMembers(records, name);
        Success(RecordsFor(records, name))
    }
  }

  /** Overlapping periods: the one added first wins, and a duplicate name is refused. */
  method ScenarioOverlappingPeriods()
  {
    var m := new AttendanceModel();
    var a := Period(Anual, "A", 20240101, 20241231);
    var b := Period(Bimestral, "B", 20240601, 20240630);
    var ok := m.AddPeriod(a);
    assert m.StoredPeriods() == [a];
    ok := m.AddPeriod(b);
    assert m.StoredPeriods() == [a, b];
    ok := m.AddPeriod(b);
    assert ok == Fail(PeriodExists("B"));
    var p := m.GetPeriodForDate(20240615);
    assert p == Some(a);
  }

  /** One registration in one period, then the checks in their order, then the listing. */
  method ScenarioRegisterAndList()
  {
    var m := new AttendanceModel();
    var a := Period(Semestral, "2024-A", 20240101, 20240630);
    var ok := m.AddPeriod(a);
    assert m.StoredPeriods() == [a];
    ok := m.AddStudent(Student("S1", "Ana", "Lopez", "ana@example.org", 2024, None));
    assert FirstCovering(m.StoredPeriods(), 20240315) == Some(a);
    var r := m.RegisterAttendance("S1", 20240315, true, None, None);
    assert r.Success? && r.value.period.name == "2024-A" && r.value.present;
    assert FirstCovering(m.StoredPeriods(), 20241201) == None;
    var outside := m.RegisterAttendance("S1", 20241201, true, None, None);
    assert outside == Failure(NoPeriodDefined);
    var stranger := m.RegisterAttendance("T9", 20240315, true, None, None);
    assert stranger == Failure(UnknownPerson);
    assert m.records == [r.value];
    assert RecordsFor([r.value], "2024-A") == [r.value];
    assert m.ListAttendanceForPeriod("2024-A") == Success([r.value]);
    assert m.ListAttendanceForPeriod("2024-B") == Failure(UnknownPeriod);
  }
}
