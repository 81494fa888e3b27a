/**
 * The eligibility rules of views.py as functions of the tables: the preview
 * (`api_substitution_preview`, the second and effective definition), the
 * checks of the commit (`api_substitutions`), and the calendar filter of
 * `api_events`. The store in module Store runs them with loops.
 */
module Views {
  import opened Common
  import opened Time
  import opened Models
  import opened Queries

  /** `_slots_of` in the preview: own sessions with no Substitution row, then sessions taken as substitute. */
  function PreviewSlots(ss: seq<Session>, subs: Substitutions, l: int): seq<Session> {
    Filter(ss, subs, And(LecturerIs(l), NoSubstitution)) + Filter(ss, subs, SubstituteIs(l))
  }

  /**
   * `_active_slots`: own sessions that have no Substitution row or whose
   * substitute is l themself, then every session taken as substitute. A
   * session l substitutes for themself is in both parts.
   */
  function ActiveSlots(ss: seq<Session>, subs: Substitutions, l: int): seq<Session> {
    Filter(ss, subs, And(LecturerIs(l), Or(NoSubstitution, SubstituteIs(l)))) + Filter(ss, subs, SubstituteIs(l))
  }

  /** The preview's slots are l's own sessions without a Substitution row and the sessions l substitutes. */
  lemma PreviewSlotsMembership(ss: seq<Session>, subs: Substitutions, l: int)
    ensures forall x :: x in PreviewSlots(ss, subs, l) <==>
      x in ss && ((x.lecturer == l && x.id !in subs) || SubstituteOf(subs, x.id) == Some(l))
  {
    FilterMembership(ss, subs, And(LecturerIs(l), NoSubstitution));
    FilterMembership(ss, subs, SubstituteIs(l));
    forall x ensures Matches(And(LecturerIs(l), NoSubstitution), subs, x) <==> x.lecturer == l && x.id !in subs {
      assert Matches(LecturerIs(l), subs, x) <==> x.lecturer == l;
      assert Matches(NoSubstitution, subs, x) <==> x.id !in subs;
    }
  }

  /** A session that is one of l's active slots. */
  predicate ActiveFor(ss: seq<Session>, subs: Substitutions, l: int, x: Session) {
    x in ss && ((x.lecturer == l && (x.id !in subs || subs[x.id] == Some(l))) || SubstituteOf(subs, x.id) == Some(l))
  }

  lemma ActiveSlotsMembership(ss: seq<Session>, subs: Substitutions, l: int)
    ensures forall x :: x in ActiveSlots(ss, subs, l) <==> ActiveFor(ss, subs, l, x)
  {
    var own := And(LecturerIs(l), Or(NoSubstitution, SubstituteIs(l)));
    FilterMembership(ss, subs, own);
    FilterMembership(ss, subs, SubstituteIs(l));
    forall x ensures Matches(own, subs, x) <==> x.lecturer == l && (x.id !in subs || subs[x.id] == Some(l)) {
      assert Matches(LecturerIs(l), subs, x) <==> x.lecturer == l;
      assert Matches(NoSubstitution, subs, x) <==> x.id !in subs;
      assert Matches(SubstituteIs(l), subs, x) <==> x.id in subs && subs[x.id] == Some(l);
      assert Matches(Or(NoSubstitution, SubstituteIs(l)), subs, x) <==> x.id !in subs || subs[x.id] == Some(l);
    }
  }

  /** Some slot overlaps the session. */
  predicate Collides(slots: seq<Session>, s: Session) {
    exists x :: x in slots && Overlaps(x.start, x.end, s.start, s.end)
  }

  /** Minutes of l's real load (preview slots) in the week of t, counted by session start. */
  function PreviewWeekMinutes(ss: seq<Session>, subs: Substitutions, l: int, t: int): int {
    SumMinutes(Filter(ss, subs, And(And(LecturerIs(l), NoSubstitution), InWeekOf(t)))
               + Filter(ss, subs, And(SubstituteIs(l), InWeekOf(t))))
  }

  /** The JSON body of the preview; hours are kept in minutes. */
  datatype PreviewReport = PreviewReport(
    subjects: set<string>,
    canTeach: bool,
    isFree: bool,
    subsWeekAfter: int,
    subsLimit: int,
    subsOk: bool,
    minutesWeekAfter: int,
    hoursLimit: real,
    hoursOk: bool,
    ok: bool)

  /** What the preview reports for lecturer l (row lec) as substitute on session s. */
  function PreviewOf(subjects: map<int, Subject>, ss: seq<Session>, subs: Substitutions,
                     lec: Lecturer, l: int, s: Session): PreviewReport
  {
    var canTeach := s.subject in lec.subjects;
    var isFree := !Collides(PreviewSlots(ss, subs, l), s);
    var subsAfter := SubstitutionsInWeek(ss, subs, l, s.start) + 1;
    var minutesAfter := PreviewWeekMinutes(ss, subs, l, s.start) + Duration(s);
    var subsOk := WithinSubstitutionLimit(subsAfter, lec.maxSubstitutionsPerWeek);
    var hoursOk := WithinHoursLimit(minutesAfter, lec.maxHoursPerWeek);
    PreviewReport(
      set k | k in lec.subjects && k in subjects :: SubjectItem(subjects[k]),
      canTeach, isFree,
      subsAfter, lec.maxSubstitutionsPerWeek, subsOk,
      minutesAfter, lec.maxHoursPerWeek, hoursOk,
      canTeach && isFree && subsOk && hoursOk)
  }

  /**
   * The preview's verdict, stated on the tables: l is free iff none of
   * their own sessions without a Substitution row and none of the sessions
   * they substitute overlaps s (s itself included); the projected count and
   * load add this session; a limit of 0 never fails; ok is the conjunction.
   */
  lemma PreviewVerdict(subjects: map<int, Subject>, ss: seq<Session>, subs: Substitutions,
                       lec: Lecturer, l: int, s: Session)
    ensures var r := PreviewOf(subjects, ss, subs, lec, l, s);
      && (r.canTeach <==> s.subject in lec.subjects)
      && (r.isFree <==> !exists x :: (x in ss
            && ((x.lecturer == l && x.id !in subs) || SubstituteOf(subs, x.id) == Some(l))
            && x.start < s.end && s.start < x.end))
      && r.subsWeekAfter == SubstitutionsInWeek(ss, subs, l, s.start) + 1
      && r.minutesWeekAfter == PreviewWeekMinutes(ss, subs, l, s.start) + (s.end - s.start)
      && (r.subsOk <==> lec.maxSubstitutionsPerWeek == 0 || r.subsWeekAfter <= lec.maxSubstitutionsPerWeek)
      && (r.hoursOk <==> lec.maxHoursPerWeek == 0.0 || Hours(r.minutesWeekAfter) <= lec.maxHoursPerWeek)
      && (r.ok <==> r.canTeach && r.isFree && r.subsOk && r.hoursOk)
  {
    PreviewSlotsMembership(ss, subs, l);
  }

  /** The preview does not leave s out: a session already in l's real load makes l busy for it. */
  lemma PreviewCountsSessionItself(subjects: map<int, Subject>, ss: seq<Session>, subs: Substitutions,
                                   lec: Lecturer, l: int, s: Session)
    requires s in ss && s.start < s.end
    requires (s.lecturer == l && s.id !in subs) || SubstituteOf(subs, s.id) == Some(l)
    ensures !PreviewOf(subjects, ss, subs, lec, l, s).isFree
  {
    PreviewSlotsMembership(ss, subs, l);
    assert s in PreviewSlots(ss, subs, l);
  }

  /** Why a commit is refused. */
  datatype Rejection = NotAuthorized | CalendarCollision | SubstitutionLimit | HoursLimit

  /**
   * The commit's load in minutes: every active slot that overlaps the week
   * of s (an active slot listed twice counts twice), plus s itself.
   */
  function CommitWeekMinutes(ss: seq<Session>, subs: Substitutions, l: int, s: Session): int {
    var (ws, we) := WeekBounds(s.start);
    SumMinutes(Filter(ActiveSlots(ss, subs, l), map[], OverlapsRange(ws, we))) + Duration(s)
  }

  /** The four checks of the commit, in order; the first that fails is the answer. */
  function CommitCheck(ss: seq<Session>, subs: Substitutions, lec: Lecturer, l: int, s: Session): Option<Rejection> {
    if s.subject !in lec.subjects then Some(NotAuthorized)
    else if Collides(ActiveSlots(ss, subs, l), s) then Some(CalendarCollision)
    else if !WithinSubstitutionLimit(SubstitutionsInWeek(ss, subs, l, s.start) + 1, lec.maxSubstitutionsPerWeek) then Some(SubstitutionLimit)
    else if !WithinHoursLimit(CommitWeekMinutes(ss, subs, l, s), lec.maxHoursPerWeek) then Some(HoursLimit)
    else None
  }

  /**
   * The commit's checks stated on the tables, each failing only when all
   * earlier ones pass: not authorized; then a collision with an own session
   * not given away or a session taken as substitute; then a nonzero count
   * limit below count + 1; then a nonzero hours limit below the load.
   */
  lemma CommitChecksInOrder(ss: seq<Session>, subs: Substitutions, lec: Lecturer, l: int, s: Session)
    ensures var r := CommitCheck(ss, subs, lec, l, s);
      var authorized := s.subject in lec.subjects;
      var collides := exists x :: ActiveFor(ss, subs, l, x) && x.start < s.end && s.start < x.end;
      var countOver := lec.maxSubstitutionsPerWeek != 0
                       && SubstitutionsInWeek(ss, subs, l, s.start) + 1 > lec.maxSubstitutionsPerWeek;
      var hoursOver := lec.maxHoursPerWeek != 0.0
                       && Hours(CommitWeekMinutes(ss, subs, l, s)) > lec.maxHoursPerWeek;
      && (r == Some(NotAuthorized) <==> !authorized)
      && (r == Some(CalendarCollision) <==> authorized && collides)
      && (r == Some(SubstitutionLimit) <==> authorized && !collides && countOver)
      && (r == Some(HoursLimit) <==> authorized && !collides && !countOver && hoursOver)
      && (r == None <==> authorized && !collides && !countOver && !hoursOver)
  {
    ActiveSlotsMembership(ss, subs, l);
  }

  /**
   * Re-assigning the current substitute is refused as a collision: the
   * session is one of the substitute's active slots and overlaps itself.
   */
  lemma ReassignSameSubstituteCollides(ss: seq<Session>, subs: Substitutions, lec: Lecturer, l: int, s: Session)
    requires s in ss && s.start < s.end
    requires SubstituteOf(subs, s.id) == Some(l)
    requires s.subject in lec.subjects
    ensures CommitCheck(ss, subs, lec, l, s) == Some(CalendarCollision)
  {
    ActiveSlotsMembership(ss, subs, l);
    assert s in ActiveSlots(ss, subs, l);
  }

  /** An own session that l substitutes for themself appears twice among l's active slots. */
  lemma SelfSubstitutedSessionListedTwice(ss: seq<Session>, subs: Substitutions, l: int, s: Session)
    requires s in ss && s.lecturer == l && SubstituteOf(subs, s.id) == Some(l)
    ensures multiset(ActiveSlots(ss, subs, l))[s] >= 2
  {
    FilterKeepsMatching(ss, subs, And(LecturerIs(l), Or(NoSubstitution, SubstituteIs(l))), s);
    FilterKeepsMatching(ss, subs, SubstituteIs(l), s);
  }

  /** The commit's load as two filters of the session table: own active slots and taken slots overlapping the week. */
  lemma CommitLoadAsTableFilters(ss: seq<Session>, subs: Substitutions, l: int, s: Session)
    ensures var (ws, we) := WeekBounds(s.start);
      CommitWeekMinutes(ss, subs, l, s)
        == SumMinutes(Filter(ss, subs, And(And(LecturerIs(l), Or(NoSubstitution, SubstituteIs(l))), OverlapsRange(ws, we))))
           + SumMinutes(Filter(ss, subs, And(SubstituteIs(l), OverlapsRange(ws, we))))
           + Duration(s)
  {
    var (ws, we) := WeekBounds(s.start);
    var window := OverlapsRange(ws, we);
    var ownActive := And(LecturerIs(l), Or(NoSubstitution, SubstituteIs(l)));
    var a, b := Filter(ss, subs, ownActive), Filter(ss, subs, SubstituteIs(l));
    FilterConcat(a, b, map[], window);
    FilterSameView(a, map[], subs, window);
    FilterSameView(b, map[], subs, window);
    FilterFilter(ss, subs, ownActive, window);
    FilterFilter(ss, subs, SubstituteIs(l), window);
    SumConcat(Filter(ss, subs, And(ownActive, window)), Filter(ss, subs, And(SubstituteIs(l), window)));
  }

  /** A preview slot of the week of t is an active slot overlapping that week, for each of the two parts. */
  lemma PreviewWeekSlotsAreActive(subs: Substitutions, l: int, t: int, x: Session)
    requires x.start < x.end
    ensures Matches(And(And(LecturerIs(l), NoSubstitution), InWeekOf(t)), subs, x)
            ==> Matches(And(And(LecturerIs(l), Or(NoSubstitution, SubstituteIs(l))),
                            OverlapsRange(WeekStart(t), WeekStart(t) + MinutesPerWeek)), subs, x)
    ensures Matches(And(SubstituteIs(l), InWeekOf(t)), subs, x)
            ==> Matches(And(SubstituteIs(l), OverlapsRange(WeekStart(t), WeekStart(t) + MinutesPerWeek)), subs, x)
  {
    var window := OverlapsRange(WeekStart(t), WeekStart(t) + MinutesPerWeek);
    if Matches(InWeekOf(t), subs, x) {
      assert Matches(window, subs, x);
    }
    if Matches(And(LecturerIs(l), NoSubstitution), subs, x) {
      assert Matches(LecturerIs(l), subs, x) && Matches(NoSubstitution, subs, x);
      assert Matches(Or(NoSubstitution, SubstituteIs(l)), subs, x);
      assert Matches(And(LecturerIs(l), Or(NoSubstitution, SubstituteIs(l))), subs, x);
    }
  }

  /** The preview's load is covered by the commit's: every preview slot is active, and starts-in-week implies overlaps-week. */
  lemma PreviewLoadWithinCommitLoad(ss: seq<Session>, subs: Substitutions, l: int, s: Session)
    requires ProperSessions(ss)
    ensures PreviewWeekMinutes(ss, subs, l, s.start) + Duration(s) <= CommitWeekMinutes(ss, subs, l, s)
  {
    var (ws, we) := WeekBounds(s.start);
    assert ws == WeekStart(s.start) && we == WeekStart(s.start) + MinutesPerWeek;
    var ownFreeWeek := And(And(LecturerIs(l), NoSubstitution), InWeekOf(s.start));
    var takenWeek := And(SubstituteIs(l), InWeekOf(s.start));
    var ownActiveWindow := And(And(LecturerIs(l), Or(NoSubstitution, SubstituteIs(l))), OverlapsRange(ws, we));
    var takenWindow := And(SubstituteIs(l), OverlapsRange(ws, we));
    CommitLoadAsTableFilters(ss, subs, l, s);
    SumConcat(Filter(ss, subs, ownFreeWeek), Filter(ss, subs, takenWeek));
    forall x | x in ss
      ensures (Matches(ownFreeWeek, subs, x) ==> Matches(ownActiveWindow, subs, x))
           && (Matches(takenWeek, subs, x) ==> Matches(takenWindow, subs, x))
    {
      PreviewWeekSlotsAreActive(subs, l, s.start, x);
    }
    SumFilterMono(ss, subs, ownFreeWeek, ownActiveWindow);
    SumFilterMono(ss, subs, takenWeek, takenWindow);
  }

  /** Whatever the commit accepts, the preview shown for the same choice reports ok. */
  lemma CommitAcceptedPreviewOk(subjects: map<int, Subject>, ss: seq<Session>, subs: Substitutions,
                                lec: Lecturer, l: int, s: Session)
    requires ProperSessions(ss)
    requires CommitCheck(ss, subs, lec, l, s) == None
    ensures PreviewOf(subjects, ss, subs, lec, l, s).ok
  {
    PreviewSlotsMembership(ss, subs, l);
    ActiveSlotsMembership(ss, subs, l);
    assert !Collides(PreviewSlots(ss, subs, l), s) by {
      forall x | x in PreviewSlots(ss, subs, l) ensures x in ActiveSlots(ss, subs, l) { }
    }
    PreviewLoadWithinCommitLoad(ss, subs, l, s);
    HoursMonotone(PreviewWeekMinutes(ss, subs, l, s.start) + Duration(s), CommitWeekMinutes(ss, subs, l, s));
  }

  /** Subject 7 allowed, no count limit, half an hour a week. */
  const HalfHourLecturer := Lecturer("A", "B", "a@b", {}, {7}, 0, 0.5)

  /** The commit lists the backwards session twice among lecturer 1's active slots. */
  lemma BackwardsActiveSlots()
    ensures ActiveSlots(BackwardsTable, BackwardsSubs, 1) == [BackwardsSession, BackwardsSession]
  {
    var x, s, subs := BackwardsSession, TwoHourSession, BackwardsSubs;
    FilterPair(x, s, subs, And(LecturerIs(1), Or(NoSubstitution, SubstituteIs(1))));
    FilterPair(x, s, subs, SubstituteIs(1));
  }

  /** Both copies of the backwards session overlap its week, and together they count -100 minutes. */
  lemma BackwardsWindow()
    ensures Filter([BackwardsSession, BackwardsSession], map[], OverlapsRange(0, MinutesPerWeek))
            == [BackwardsSession, BackwardsSession]
    ensures SumMinutes([BackwardsSession, BackwardsSession]) == -100
  {
    var x := BackwardsSession;
    FilterPair(x, x, map[], OverlapsRange(0, MinutesPerWeek));
    assert [x, x][..1] == [x] && [x][..0] == [];
    assert SumMinutes([x, x]) == SumMinutes([x]) + Duration(x);
  }

  /** So the commit counts -100 + 120 minutes. */
  lemma BackwardsCommitLoad()
    ensures CommitWeekMinutes(BackwardsTable, BackwardsSubs, 1, TwoHourSession) == 20
  {
    BackwardsActiveSlots();
    BackwardsWindow();
    assert WeekBounds(TwoHourSession.start) == (0, MinutesPerWeek);
  }

  /** The preview lists it once and counts -50 + 120 minutes. */
  lemma BackwardsPreviewLoad()
    ensures PreviewWeekMinutes(BackwardsTable, BackwardsSubs, 1, TwoHourSession.start) == -50
    ensures SubstitutionsInWeek(BackwardsTable, BackwardsSubs, 1, TwoHourSession.start) == 1
  {
    var x, s, subs := BackwardsSession, TwoHourSession, BackwardsSubs;
    FilterPair(x, s, subs, And(And(LecturerIs(1), NoSubstitution), InWeekOf(s.start)));
    FilterPair(x, s, subs, And(SubstituteIs(1), InWeekOf(s.start)));
    assert Filter(BackwardsTable, subs, And(And(LecturerIs(1), NoSubstitution), InWeekOf(s.start))) == [];
    assert Filter(BackwardsTable, subs, And(SubstituteIs(1), InWeekOf(s.start))) == [x];
    assert [] + [x] == [x] && [x][..0] == [];
    assert SumMinutes([x]) == -50;
  }

  /**
   * Without proper sessions the two lemmas above fail: with the backwards
   * session in the table, the commit's load is below the preview's, so the
   * commit accepts the two-hour session that the preview refuses.
   */
  lemma BackwardsSessionCommitBeatsPreview()
    ensures !ProperSessions(BackwardsTable)
    ensures PreviewWeekMinutes(BackwardsTable, BackwardsSubs, 1, TwoHourSession.start) + Duration(TwoHourSession)
            > CommitWeekMinutes(BackwardsTable, BackwardsSubs, 1, TwoHourSession)
    ensures CommitCheck(BackwardsTable, BackwardsSubs, HalfHourLecturer, 1, TwoHourSession) == None
    ensures !PreviewOf(map[], BackwardsTable, BackwardsSubs, HalfHourLecturer, 1, TwoHourSession).ok
  {
    BackwardsActiveSlots();
    BackwardsCommitLoad();
    BackwardsPreviewLoad();
    assert !Collides([BackwardsSession, BackwardsSession], TwoHourSession);
  }

  /** What `api_substitutions` answers. */
  datatype CommitResult = SessionNotFound | LecturerNotFound | Cleared | Saved | Rejected(reason: Rejection)

  /** `get_object_or_404(ClassSession, id=sid)` */
  function FindSession(ss: seq<Session>, sid: int): (r: Option<Session>)
    ensures r.Some? ==> r.value in ss && r.value.id == sid
    ensures r.None? ==> forall s :: s in ss ==> s.id != sid
  {
    if ss == [] then None
    else if ss[0].id == sid then Some(ss[0])
    else FindSession(ss[1..], sid)
  }

  /** The answer to a commit for session sid; target None is the "" / null lecturer id that clears. */
  function CommitOutcome(ss: seq<Session>, subs: Substitutions, lecturers: map<int, Lecturer>,
                         sid: int, target: Option<int>): CommitResult
  {
    match FindSession(ss, sid)
    case None => SessionNotFound
    case Some(s) =>
      match target
      case None => Cleared
      case Some(l) =>
        if l !in lecturers then LecturerNotFound
        else match CommitCheck(ss, subs, lecturers[l], l, s)
          case Some(why) => Rejected(why)
          case None => Saved
  }

  /** The Substitution table after the commit: delete on clear, upsert on save, untouched otherwise. */
  function SubsAfterCommit(subs: Substitutions, sid: int, target: Option<int>, r: CommitResult): Substitutions {
    match r
    case Cleared => subs - {sid}
    case Saved => subs[sid := target]
    case _ => subs
  }

  /**
   * What a commit writes: clearing leaves the session without a row, saving
   * records the target, any other answer writes nothing, and no other
   * session's row changes.
   */
  lemma CommitWrites(subs: Substitutions, sid: int, target: Option<int>, r: CommitResult)
    ensures var after := SubsAfterCommit(subs, sid, target, r);
      && (r == Cleared ==> sid !in after)
      && (r == Saved ==> sid in after && after[sid] == target)
      && (r != Cleared && r != Saved ==> after == subs)
      && (forall k | k != sid :: (k in after <==> k in subs) && (k in after ==> after[k] == subs[k]))
  {
  }

  /**
   * Assign, then preview again: for any session in the same week, the
   * preview now counts one more substitution for the new substitute.
   */
  lemma AssignThenPreviewCounts(subjects: map<int, Subject>, ss: seq<Session>, subs: Substitutions,
                                lecturers: map<int, Lecturer>, sid: int, l: int, t: Session)
    requires DistinctIds(ss) && ProperSessions(ss)
    requires CommitOutcome(ss, subs, lecturers, sid, Some(l)) == Saved
    requires WeekStart(t.start) == WeekStart(FindSession(ss, sid).value.start)
    ensures var subs' := SubsAfterCommit(subs, sid, Some(l), Saved);
      PreviewOf(subjects, ss, subs', lecturers[l], l, t).subsWeekAfter
        == PreviewOf(subjects, ss, subs, lecturers[l], l, t).subsWeekAfter + 1
  {
    var s := FindSession(ss, sid).value;
    if SubstituteOf(subs, sid) == Some(l) {
      ReassignSameSubstituteCollides(ss, subs, lecturers[l], l, s);
    }
    SubstitutionsInWeekAfterAssign(ss, subs, s, l, t.start);
  }

  /** The `api_events` query: sessions overlapping the range, of or substituted by the lecturer. */
  function EventsQuery(range: Option<(int, int)>, lid: Option<int>): Query {
    var inRange := match range case Some(r) => OverlapsRange(r.0, r.1) case None => All;
    var whose := match lid case Some(l) => Or(LecturerIs(l), SubstituteIs(l)) case None => All;
    And(inRange, whose)
  }

  function Events(ss: seq<Session>, subs: Substitutions, range: Option<(int, int)>, lid: Option<int>): seq<Session> {
    Filter(ss, subs, EventsQuery(range, lid))
  }

  /** A session is on the calendar iff it overlaps the range (when given) and the lecturer teaches or substitutes it (when given). */
  lemma EventsSelection(ss: seq<Session>, subs: Substitutions, range: Option<(int, int)>, lid: Option<int>, x: Session)
    ensures x in Events(ss, subs, range, lid) <==>
      && x in ss
      && (range.Some? ==> Overlaps(x.start, x.end, range.value.0, range.value.1))
      && (lid.Some? ==> x.lecturer == lid.value || SubstituteOf(subs, x.id) == lid)
  {
    FilterMembership(ss, subs, EventsQuery(range, lid));
    var q := EventsQuery(range, lid);
    assert Matches(q, subs, x) <==> Matches(q.left, subs, x) && Matches(q.right, subs, x);
    if lid.Some? {
      assert Matches(q.right, subs, x) <==> Matches(LecturerIs(lid.value), subs, x) || Matches(SubstituteIs(lid.value), subs, x);
    }
  }

  /** After a saved commit the session shows on the substitute's calendar wherever it is in range. */
  lemma CommitShowsOnSubstituteCalendar(ss: seq<Session>, subs: Substitutions, lecturers: map<int, Lecturer>,
                                        sid: int, l: int, from: int, to: int)
    requires CommitOutcome(ss, subs, lecturers, sid, Some(l)) == Saved
    requires Overlaps(FindSession(ss, sid).value.start, FindSession(ss, sid).value.end, from, to)
    ensures FindSession(ss, sid).value in Events(ss, SubsAfterCommit(subs, sid, Some(l), Saved), Some((from, to)), Some(l))
  {
    EventsSelection(ss, SubsAfterCommit(subs, sid, Some(l), Saved), Some((from, to)), Some(l), FindSession(ss, sid).value);
  }
}
