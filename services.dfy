/**
 * The second eligibility check, services.py: the qualification-subset
 * variant (`can_take_substitution`, a yes/no answer with a reason) and the
 * detailed `evaluate_substitution`. The lookups written there as
 * `substitutions__substitute` and `substitute` are read with the meaning
 * models.py gives the relation (`substitution__substitute_lecturer`).
 */
module Services {
  import opened Common
  import opened Time
  import opened Models
  import opened Queries

  /** `has_qualifications`: true when the subject requires nothing, else the subset test. */
  function HasQualifications(lec: Lecturer, subject: Subject): bool {
    if subject.requiredQualifications == {} then true
    else subject.requiredQualifications <= lec.qualifications
  }

  /** The lecturer holds every qualification the subject requires; vacuously so when it requires none. */
  lemma HasQualificationsMeaning(lec: Lecturer, subject: Subject)
    ensures HasQualifications(lec, subject) <==> subject.requiredQualifications <= lec.qualifications
    ensures subject.requiredQualifications == {} ==> HasQualifications(lec, subject)
  {
  }

  /** Own sessions (substituted away or not) overlapping [start, end). */
  function OwnOverlapping(l: int, start: int, end: int): Query {
    And(LecturerIs(l), OverlapsRange(start, end))
  }

  /** Sessions l substitutes that overlap [start, end). */
  function TakenOverlapping(l: int, start: int, end: int): Query {
    And(SubstituteIs(l), OverlapsRange(start, end))
  }

  /** `has_time_conflict`: `own.exists() or as_sub.exists()`. */
  function HasTimeConflict(ss: seq<Session>, subs: Substitutions, l: int, start: int, end: int): bool {
    |Filter(ss, subs, OwnOverlapping(l, start, end))| > 0 || |Filter(ss, subs, TakenOverlapping(l, start, end))| > 0
  }

  /** The two overlap queries, stated on a row. */
  lemma OverlappingMeaning(subs: Substitutions, l: int, start: int, end: int, x: Session)
    ensures Matches(OwnOverlapping(l, start, end), subs, x) <==> x.lecturer == l && x.start < end && x.end > start
    ensures Matches(TakenOverlapping(l, start, end), subs, x)
            <==> SubstituteOf(subs, x.id) == Some(l) && x.start < end && x.end > start
  {
    assert Matches(LecturerIs(l), subs, x) <==> x.lecturer == l;
    assert Matches(SubstituteIs(l), subs, x) <==> SubstituteOf(subs, x.id) == Some(l);
    assert Matches(OverlapsRange(start, end), subs, x) <==> x.start < end && x.end > start;
  }

  /**
   * l has a conflict iff some session of theirs overlaps [start, end): one
   * they teach (even if someone substitutes it) or one they substitute.
   */
  lemma HasTimeConflictMeaning(ss: seq<Session>, subs: Substitutions, l: int, start: int, end: int)
    ensures HasTimeConflict(ss, subs, l, start, end)
            <==> exists x :: (x in ss && (x.lecturer == l || SubstituteOf(subs, x.id) == Some(l))
                              && x.start < end && x.end > start)
  {
    var own, taken := OwnOverlapping(l, start, end), TakenOverlapping(l, start, end);
    FilterMembership(ss, subs, own);
    FilterMembership(ss, subs, taken);
    FilterEmpty(ss, subs, own);
    FilterEmpty(ss, subs, taken);
    forall x ensures Matches(own, subs, x) || Matches(taken, subs, x)
                     <==> (x.lecturer == l || SubstituteOf(subs, x.id) == Some(l)) && x.start < end && x.end > start {
      OverlappingMeaning(subs, l, start, end, x);
    }
  }

  /**
   * `weekly_counts`: the substitutions of l whose session starts in the week
   * of `when`, and the minutes of all own sessions (substituted away or not)
   * plus the sessions taken, starting in that week.
   */
  function WeeklyCounts(ss: seq<Session>, subs: Substitutions, l: int, when: int): (nat, int) {
    (SubstitutionsInWeek(ss, subs, l, when),
     SumMinutes(Filter(ss, subs, And(LecturerIs(l), InWeekOf(when)))
                + Filter(ss, subs, And(SubstituteIs(l), InWeekOf(when)))))
  }

  /**
   * `weekly_counts` counts every own session of the week, given away or not,
   * and counts a session l substitutes for themself twice; so its load is
   * never below the load of l's own and taken sessions counted once each.
   */
  lemma WeeklyLoadCoversDistinctLoad(ss: seq<Session>, subs: Substitutions, l: int, when: int)
    requires ProperSessions(ss)
    ensures SumMinutes(Filter(ss, subs, And(Or(LecturerIs(l), SubstituteIs(l)), InWeekOf(when))))
            <= WeeklyCounts(ss, subs, l, when).1
  {
    var own, taken := And(LecturerIs(l), InWeekOf(when)), And(SubstituteIs(l), InWeekOf(when));
    var week := And(Or(LecturerIs(l), SubstituteIs(l)), InWeekOf(when));
    forall x | x in ss && Matches(week, subs, x) ensures Matches(own, subs, x) || Matches(taken, subs, x) {
      assert Matches(Or(LecturerIs(l), SubstituteIs(l)), subs, x) && Matches(InWeekOf(when), subs, x);
    }
    SumFilterCover(ss, subs, week, own, taken);
    SumConcat(Filter(ss, subs, own), Filter(ss, subs, taken));
  }

  /** The answer of `can_take_substitution`: (True, "OK") or (False, reason). */
  datatype Refusal = NoQualifications | ScheduleConflict | SubstitutionLimitExceeded | HoursLimitExceeded
  datatype Decision = Accept | Refuse(reason: Refusal)

  /**
   * `can_take_substitution`: the first failing check wins; the limits are
   * compared as they are, 0 included. `subject` is the row `s.subject` names.
   */
  function CanTakeSubstitution(ss: seq<Session>, subs: Substitutions, lec: Lecturer, l: int,
                               subject: Subject, s: Session): Decision
  {
    if !HasQualifications(lec, subject) then Refuse(NoQualifications)
    else if HasTimeConflict(ss, subs, l, s.start, s.end) then Refuse(ScheduleConflict)
    else
      var (count, minutes) := WeeklyCounts(ss, subs, l, s.start);
      if count + 1 > lec.maxSubstitutionsPerWeek then Refuse(SubstitutionLimitExceeded)
      else if Hours(minutes + Duration(s)) > lec.maxHoursPerWeek then Refuse(HoursLimitExceeded)
      else Accept
  }

  /**
   * The checks of `can_take_substitution` stated on the tables, in order,
   * each failing only when the earlier ones pass.
   */
  lemma CanTakeChecksInOrder(ss: seq<Session>, subs: Substitutions, lec: Lecturer, l: int,
                             subject: Subject, s: Session)
    ensures var r := CanTakeSubstitution(ss, subs, lec, l, subject, s);
      var qualified := subject.requiredQualifications <= lec.qualifications;
      var busy := exists x :: (x in ss && (x.lecturer == l || SubstituteOf(subs, x.id) == Some(l))
                               && x.start < s.end && x.end > s.start);
      var countOver := SubstitutionsInWeek(ss, subs, l, s.start) + 1 > lec.maxSubstitutionsPerWeek;
      var hoursOver := Hours(WeeklyCounts(ss, subs, l, s.start).1 + Duration(s)) > lec.maxHoursPerWeek;
      && (r == Refuse(NoQualifications) <==> !qualified)
      && (r == Refuse(ScheduleConflict) <==> qualified && busy)
      && (r == Refuse(SubstitutionLimitExceeded) <==> qualified && !busy && countOver)
      && (r == Refuse(HoursLimitExceeded) <==> qualified && !busy && !countOver && hoursOver)
      && (r == Accept <==> qualified && !busy && !countOver && !hoursOver)
  {
    HasTimeConflictMeaning(ss, subs, l, s.start, s.end);
  }

  /** A limit of 0 substitutions refuses every candidate who gets past the first two checks. */
  lemma CanTakeZeroLimitRejects(ss: seq<Session>, subs: Substitutions, lec: Lecturer, l: int,
                                subject: Subject, s: Session)
    requires lec.maxSubstitutionsPerWeek == 0
    ensures CanTakeSubstitution(ss, subs, lec, l, subject, s) != Accept
  {
  }

  /** A lecturer's own session, even one given away, conflicts with itself in `can_take_substitution`. */
  lemma OwnSessionConflictsInCanTake(ss: seq<Session>, subs: Substitutions, lec: Lecturer, l: int,
                                     subject: Subject, s: Session)
    requires s in ss && s.lecturer == l && s.start < s.end
    requires subject.requiredQualifications <= lec.qualifications
    ensures CanTakeSubstitution(ss, subs, lec, l, subject, s) == Refuse(ScheduleConflict)
  {
    HasTimeConflictMeaning(ss, subs, l, s.start, s.end);
    assert s.start < s.end && s.end > s.start;
  }

  /** The dictionary `evaluate_substitution` returns; hours are kept in minutes, code lists as sets. */
  datatype Evaluation = Evaluation(
    ok: bool,
    qualifications: set<string>,
    required: set<string>,
    hasRequired: bool,
    isFree: bool,
    subsWeekNow: nat,
    subsWeekAfter: int,
    subsLimit: int,
    subsOk: bool,
    minutesWeekNow: int,
    minutesWeekAfter: int,
    hoursLimit: real,
    hoursOk: bool,
    thisMinutes: int)

  /** The conflict query of `evaluate_substitution`: own or taken, overlapping s, other than s. */
  function ConflictQuery(l: int, s: Session): Query {
    And(And(Or(LecturerIs(l), SubstituteIs(l)), OverlapsRange(s.start, s.end)), Not(IdIs(s.id)))
  }

  /** The week sessions of `evaluate_substitution`: own or taken, starting in the week of s, each once. */
  function WeekSessionsQuery(l: int, s: Session): Query {
    And(Or(LecturerIs(l), SubstituteIs(l)), InWeekOf(s.start))
  }

  /** The codes of the qualifications among ids. */
  function Codes(quals: map<int, Qualification>, ids: set<int>): set<string> {
    set k | k in ids && k in quals :: quals[k].code
  }

  /** `evaluate_substitution` of lecturer l (row lec) for session s; `subject` is the row `s.subject` names. */
  function Evaluate(quals: map<int, Qualification>, ss: seq<Session>, subs: Substitutions,
                    lec: Lecturer, l: int, subject: Subject, s: Session): Evaluation
  {
    var hasRequired := subject.requiredQualifications <= lec.qualifications;
    var isFree := |Filter(ss, subs, ConflictQuery(l, s))| == 0;
    var subsNow := SubstitutionsInWeek(ss, subs, l, s.start);
    var subsOk := WithinSubstitutionLimit(subsNow + 1, lec.maxSubstitutionsPerWeek);
    var minutesNow := SumMinutes(Filter(ss, subs, WeekSessionsQuery(l, s)));
    var hoursOk := WithinHoursLimit(minutesNow + Duration(s), lec.maxHoursPerWeek);
    Evaluation(hasRequired && isFree && subsOk && hoursOk,
               Codes(quals, lec.qualifications), Codes(quals, subject.requiredQualifications),
               hasRequired, isFree,
               subsNow, subsNow + 1, lec.maxSubstitutionsPerWeek, subsOk,
               minutesNow, minutesNow + Duration(s), lec.maxHoursPerWeek, hoursOk,
               Duration(s))
  }

  /** The evaluation as the code computes it: the week's minutes by the `hours_sum` loop; `subject` is the row `s.subject` names. */
  method EvaluateSubstitution(quals: map<int, Qualification>, ss: seq<Session>, subs: Substitutions,
                              lec: Lecturer, l: int, subject: Subject, s: Session) returns (r: Evaluation)
    ensures r == Evaluate(quals, ss, subs, lec, l, subject, s)
  {
    var hasRequired := subject.requiredQualifications <= lec.qualifications;
    var conflict := |Filter(ss, subs, ConflictQuery(l, s))| > 0;
    var isFree := !conflict;
    var subsWeek := SubstitutionsInWeek(ss, subs, l, s.start);
    var subsWeekAfter := subsWeek + 1;
    var subsLimit := lec.maxSubstitutionsPerWeek;
    var subsOk := subsLimit == 0 || subsWeekAfter <= subsLimit;
    var minutesNow := TotalMinutes(Filter(ss, subs, WeekSessionsQuery(l, s)));
    var thisMinutes := s.end - s.start;
    var minutesAfter := minutesNow + thisMinutes;
    var hoursLimit := lec.maxHoursPerWeek;
    var hoursOk := hoursLimit == 0.0 || Hours(minutesAfter) <= hoursLimit;
    r := Evaluation(hasRequired && isFree && subsOk && hoursOk,
                    Codes(quals, lec.qualifications), Codes(quals, subject.requiredQualifications),
                    hasRequired, isFree, subsWeek, subsWeekAfter, subsLimit, subsOk,
                    minutesNow, minutesAfter, hoursLimit, hoursOk, thisMinutes);
  }

  /**
   * What the evaluation means on the tables: l is free iff no other session
   * of theirs, own or taken, overlaps s; the week's count and load grow by
   * this session; a limit of 0 never fails; ok is the conjunction.
   */
  lemma EvaluateVerdict(quals: map<int, Qualification>, ss: seq<Session>, subs: Substitutions,
                        lec: Lecturer, l: int, subject: Subject, s: Session)
    ensures var r := Evaluate(quals, ss, subs, lec, l, subject, s);
      && (r.hasRequired <==> subject.requiredQualifications <= lec.qualifications)
      && (r.isFree <==> !exists x :: (x in ss && x.id != s.id
            && (x.lecturer == l || SubstituteOf(subs, x.id) == Some(l))
            && x.start < s.end && x.end > s.start))
      && r.subsWeekNow == SubstitutionsInWeek(ss, subs, l, s.start)
      && r.subsWeekAfter == r.subsWeekNow + 1
      && r.minutesWeekNow == SumMinutes(Filter(ss, subs, WeekSessionsQuery(l, s)))
      && (forall x :: x in Filter(ss, subs, WeekSessionsQuery(l, s)) <==> (x in ss
            && (x.lecturer == l || SubstituteOf(subs, x.id) == Some(l))
            && WeekStart(x.start) == WeekStart(s.start)))
      && r.thisMinutes == s.end - s.start
      && r.minutesWeekAfter == r.minutesWeekNow + r.thisMinutes
      && (r.subsOk <==> lec.maxSubstitutionsPerWeek == 0 || r.subsWeekAfter <= lec.maxSubstitutionsPerWeek)
      && (r.hoursOk <==> lec.maxHoursPerWeek == 0.0 || Hours(r.minutesWeekAfter) <= lec.maxHoursPerWeek)
      && (r.ok <==> r.hasRequired && r.isFree && r.subsOk && r.hoursOk)
  {
    var week := WeekSessionsQuery(l, s);
    FilterMembership(ss, subs, week);
    forall x ensures Matches(week, subs, x) <==> ((x.lecturer == l || SubstituteOf(subs, x.id) == Some(l))
                                                 && WeekStart(x.start) == WeekStart(s.start))
    {
      WeekSessionsMeaning(subs, l, s, x);
    }
    var q := ConflictQuery(l, s);
    FilterMembership(ss, subs, q);
    FilterEmpty(ss, subs, q);
    forall x ensures Matches(q, subs, x) <==> (x.id != s.id
                     && (x.lecturer == l || SubstituteOf(subs, x.id) == Some(l))
                     && x.start < s.end && x.end > s.start)
    {
      ConflictQueryMeaning(subs, l, s, x);
    }
  }

  /** The week query of `evaluate_substitution`, stated on a row: own or taken, starting in the week of s. */
  lemma WeekSessionsMeaning(subs: Substitutions, l: int, s: Session, x: Session)
    ensures Matches(WeekSessionsQuery(l, s), subs, x) <==> ((x.lecturer == l || SubstituteOf(subs, x.id) == Some(l))
              && WeekStart(x.start) == WeekStart(s.start))
  {
    assert Matches(Or(LecturerIs(l), SubstituteIs(l)), subs, x)
      <==> x.lecturer == l || SubstituteOf(subs, x.id) == Some(l);
    var ws := WeekStart(s.start);
    if ws <= x.start < ws + MinutesPerWeek {
      WeekStartUnique(x.start, ws);
    }
  }

  /** The conflict query of `evaluate_substitution`, stated on a row. */
  lemma ConflictQueryMeaning(subs: Substitutions, l: int, s: Session, x: Session)
    ensures Matches(ConflictQuery(l, s), subs, x) <==> (x.id != s.id
              && (x.lecturer == l || SubstituteOf(subs, x.id) == Some(l))
              && x.start < s.end && x.end > s.start)
  {
    OverlappingMeaning(subs, l, s.start, s.end, x);
    assert Matches(Or(LecturerIs(l), SubstituteIs(l)), subs, x)
      <==> Matches(LecturerIs(l), subs, x) || Matches(SubstituteIs(l), subs, x);
    assert Matches(Not(IdIs(s.id)), subs, x) <==> x.id != s.id;
  }

  /**
   * The session being evaluated never counts against itself: when nothing
   * else of l's overlaps it, l is free, even if s is l's own session or one
   * l already substitutes.
   */
  lemma EvaluateIgnoresItself(quals: map<int, Qualification>, ss: seq<Session>, subs: Substitutions,
                              lec: Lecturer, l: int, subject: Subject, s: Session)
    requires DistinctIds(ss) && s in ss
    requires forall x :: x in ss && x != s ==> !Overlaps(x.start, x.end, s.start, s.end)
    ensures Evaluate(quals, ss, subs, lec, l, subject, s).isFree
  {
    EvaluateVerdict(quals, ss, subs, lec, l, subject, s);
    forall x | x in ss && x.id == s.id ensures x == s {
      var i :| 0 <= i < |ss| && ss[i] == x;
      var j :| 0 <= j < |ss| && ss[j] == s;
      assert i == j;
    }
  }

  /**
   * The two checks of services.py agree in one direction: whatever
   * `can_take_substitution` accepts, `evaluate_substitution` reports ok
   * (its conflict test is narrower, its week load no larger, and its limits
   * no stricter).
   */
  lemma CanTakeAcceptImpliesEvaluateOk(quals: map<int, Qualification>, ss: seq<Session>, subs: Substitutions,
                                       lec: Lecturer, l: int, subject: Subject, s: Session)
    requires ProperSessions(ss)
    requires CanTakeSubstitution(ss, subs, lec, l, subject, s) == Accept
    ensures Evaluate(quals, ss, subs, lec, l, subject, s).ok
  {
    CanTakeChecksInOrder(ss, subs, lec, l, subject, s);
    EvaluateVerdict(quals, ss, subs, lec, l, subject, s);
    var week := WeekSessionsQuery(l, s);
    WeeklyLoadCoversDistinctLoad(ss, subs, l, s.start);
    HoursMonotone(SumMinutes(Filter(ss, subs, week)) + Duration(s), WeeklyCounts(ss, subs, l, s.start).1 + Duration(s));
  }

  /** Subject 7 allowed, at most two substitutions and half an hour a week. */
  const TwoSubsHalfHourLecturer := Lecturer("A", "B", "a@b", {}, {7}, 2, 0.5)

  /**
   * Without proper sessions the two lemmas above fail. Lecturer 1 substitutes
   * their own backwards session x (-50 minutes): `weekly_counts` counts it
   * twice (-100) and the distinct load once (-50). So `can_take_substitution`
   * accepts the two-hour session (20 minutes) that `evaluate_substitution`
   * refuses (70 minutes against half an hour).
   */
  lemma BackwardsSessionCanTakeBeatsEvaluate()
    ensures !ProperSessions(BackwardsTable)
    ensures SumMinutes(Filter(BackwardsTable, BackwardsSubs, WeekSessionsQuery(1, TwoHourSession)))
            > WeeklyCounts(BackwardsTable, BackwardsSubs, 1, TwoHourSession.start).1
    ensures CanTakeSubstitution(BackwardsTable, BackwardsSubs, TwoSubsHalfHourLecturer, 1,
                                Subject("C", "D", {}), TwoHourSession) == Accept
    ensures !Evaluate(map[], BackwardsTable, BackwardsSubs, TwoSubsHalfHourLecturer, 1,
                      Subject("C", "D", {}), TwoHourSession).ok
  {
    assert BackwardsSession in BackwardsTable;
    BackwardsWeekLoads();
    BackwardsNoConflict();
  }

  /** On the backwards table each of lecturer 1's week queries selects the backwards session alone. */
  lemma BackwardsWeekSelections()
    ensures Filter(BackwardsTable, BackwardsSubs, WeekSessionsQuery(1, TwoHourSession)) == [BackwardsSession]
    ensures Filter(BackwardsTable, BackwardsSubs, And(LecturerIs(1), InWeekOf(TwoHourSession.start))) == [BackwardsSession]
    ensures Filter(BackwardsTable, BackwardsSubs, And(SubstituteIs(1), InWeekOf(TwoHourSession.start))) == [BackwardsSession]
  {
    var x, s, subs := BackwardsSession, TwoHourSession, BackwardsSubs;
    var week := InWeekOf(s.start);
    assert week == StartIn(0, MinutesPerWeek);
    FilterPair(x, s, subs, And(Or(LecturerIs(1), SubstituteIs(1)), week));
    FilterPair(x, s, subs, And(LecturerIs(1), week));
    FilterPair(x, s, subs, And(SubstituteIs(1), week));
  }

  /** The week loads of lecturer 1 with the backwards table: -50 counted once, -100 by `weekly_counts`. */
  lemma BackwardsWeekLoads()
    ensures SumMinutes(Filter(BackwardsTable, BackwardsSubs, WeekSessionsQuery(1, TwoHourSession))) == -50
    ensures WeeklyCounts(BackwardsTable, BackwardsSubs, 1, TwoHourSession.start) == (1, -100)
    ensures SubstitutionsInWeek(BackwardsTable, BackwardsSubs, 1, TwoHourSession.start) == 1
  {
    var x := BackwardsSession;
    BackwardsWeekSelections();
    assert [x] + [x] == [x, x] && [x, x][..1] == [x] && [x][..0] == [];
    assert SumMinutes([x]) == -50;
    assert SumMinutes([x, x]) == SumMinutes([x]) + Duration(x) == -100;
  }

  /** Lecturer 1 has nothing overlapping the two-hour session. */
  lemma BackwardsNoConflict()
    ensures !HasTimeConflict(BackwardsTable, BackwardsSubs, 1, TwoHourSession.start, TwoHourSession.end)
  {
    var x, s, subs := BackwardsSession, TwoHourSession, BackwardsSubs;
    FilterPair(x, s, subs, OwnOverlapping(1, s.start, s.end));
    FilterPair(x, s, subs, TakenOverlapping(1, s.start, s.end));
  }
}
