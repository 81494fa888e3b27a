/**
 * The session table as the queries of the substitution code see it: a
 * sequence of ClassSession rows with distinct ids, and the Substitution
 * table keyed by session id. A key whose value is None is a Substitution
 * row whose substitute lecturer was deleted (SET_NULL).
 *
 * `Query` is a first-order picture of the Django filters the code builds
 * (`lecturer=`, `substitution__isnull=True`, `start__gte`/`start__lt`,
 * `Q(...) | Q(...)`, `.exclude(id=...)`), and `Filter` runs one over the
 * table in table order.
 */
module Queries {
  import opened Common
  import opened Time
  import opened Models

  type Substitutions = map<int, Option<int>>

  /** The substitute recorded for a session, None when there is no record or it is empty. */
  function SubstituteOf(subs: Substitutions, id: int): Option<int> {
    if id in subs then subs[id] else None
  }

  predicate DistinctIds(ss: seq<Session>) {
    forall i, j :: 0 <= i < j < |ss| ==> ss[i].id != ss[j].id
  }

  /**
   * Every session ends after it starts. Neither the table nor the session
   * form of views.py checks this; only `ClassSessionForm.clean`, which no
   * view uses, does. Lemmas that need it say so with a requires.
   */
  predicate ProperSessions(ss: seq<Session>) {
    forall s :: s in ss ==> s.start < s.end
  }

  /** A session of lecturer 1 that "ends" 50 minutes before it starts, substituted by 1 themself. */
  const BackwardsSession := Session(10, 7, 1, 100, 50, false)
  /** A two-hour session of lecturer 2 in the same week. */
  const TwoHourSession := Session(20, 7, 2, 1000, 1120, false)
  /** A table that is not proper, as the session form lets it be. */
  const BackwardsTable := [BackwardsSession, TwoHourSession]
  const BackwardsSubs: Substitutions := map[10 := Some(1)]

  datatype Query =
    | All
    | IdIs(id: int)                     // id=
    | LecturerIs(lecturer: int)         // lecturer=
    | SubjectIs(subject: int)           // subject=
    | NoSubstitution                    // substitution__isnull=True
    | SubstituteIs(substitute: int)     // substitution__substitute_lecturer=
    | StartIn(lo: int, hi: int)         // start__gte=lo, start__lt=hi
    | OverlapsRange(from: int, to: int) // start__lt=to, end__gt=from
    | Not(q: Query)
    | And(left: Query, right: Query)
    | Or(left: Query, right: Query)

  predicate Matches(q: Query, subs: Substitutions, s: Session) {
    match q
    case All => true
    case IdIs(id) => s.id == id
    case LecturerIs(l) => s.lecturer == l
    case SubjectIs(k) => s.subject == k
    case NoSubstitution => s.id !in subs
    case SubstituteIs(l) => s.id in subs && subs[s.id] == Some(l)
    case StartIn(lo, hi) => lo <= s.start < hi
    case OverlapsRange(from, to) => s.start < to && s.end > from
    case Not(q') => !Matches(q', subs, s)
    case And(a, b) => Matches(a, subs, s) && Matches(b, subs, s)
    case Or(a, b) => Matches(a, subs, s) || Matches(b, subs, s)
  }

  /** The rows of ss that q selects, in table order. */
  function Filter(ss: seq<Session>, subs: Substitutions, q: Query): (r: seq<Session>)
    ensures |r| <= |ss|
  {
    if ss == [] then []
    else
      var last := ss[|ss| - 1];
      Filter(ss[..|ss| - 1], subs, q) + (if Matches(q, subs, last) then [last] else [])
  }

  /** A row is selected iff it is in the table and the query matches it. */
  lemma {:induction false} FilterMembership(ss: seq<Session>, subs: Substitutions, q: Query)
    ensures forall s :: s in Filter(ss, subs, q) <==> s in ss && Matches(q, subs, s)
    decreases |ss|
  {
    if ss != [] {
      var init, last := ss[..|ss| - 1], ss[|ss| - 1];
      assert ss == init + [last];
      FilterMembership(init, subs, q);
    }
  }

  /** `.exists()`: some row is selected iff some row of the table matches. */
  lemma FilterEmpty(ss: seq<Session>, subs: Substitutions, q: Query)
    ensures |Filter(ss, subs, q)| == 0 <==> forall s :: s in ss ==> !Matches(q, subs, s)
  {
    var r := Filter(ss, subs, q);
    FilterMembership(ss, subs, q);
    if |r| > 0 {
      assert r[0] in r;
    }
  }

  /** Total length, in minutes, of a list of sessions (`Sum(F('end') - F('start'))`). */
  function SumMinutes(ss: seq<Session>): int {
    if ss == [] then 0 else SumMinutes(ss[..|ss| - 1]) + Duration(ss[|ss| - 1])
  }

  lemma {:induction false} FilterConcat(a: seq<Session>, b: seq<Session>, subs: Substitutions, q: Query)
    ensures Filter(a + b, subs, q) == Filter(a, subs, q) + Filter(b, subs, q)
    decreases |b|
  {
    if b != [] {
      var b' := b[..|b| - 1];
      assert (a + b)[..|a + b| - 1] == a + b';
      FilterConcat(a, b', subs, q);
    } else {
      assert a + b == a;
    }
  }

  lemma {:induction false} SumConcat(a: seq<Session>, b: seq<Session>)
    ensures SumMinutes(a + b) == SumMinutes(a) + SumMinutes(b)
    decreases |b|
  {
    if b != [] {
      var b' := b[..|b| - 1];
      assert (a + b)[..|a + b| - 1] == a + b';
      SumConcat(a, b');
    } else {
      assert a + b == a;
    }
  }

  /** One more row at the end of the table adds itself to the selection, its count and its minutes, iff q matches it. */
  lemma FilterSnoc(ss: seq<Session>, s: Session, subs: Substitutions, q: Query)
    ensures Filter(ss + [s], subs, q) == Filter(ss, subs, q) + (if Matches(q, subs, s) then [s] else [])
    ensures SumMinutes(Filter(ss + [s], subs, q))
            == SumMinutes(Filter(ss, subs, q)) + (if Matches(q, subs, s) then Duration(s) else 0)
  {
    var t := ss + [s];
    assert t[..|t| - 1] == ss && t[|t| - 1] == s;
    var e: seq<Session> := if Matches(q, subs, s) then [s] else [];
    assert [s][..0] == [];
    assert SumMinutes(e) == if Matches(q, subs, s) then Duration(s) else 0;
    SumConcat(Filter(ss, subs, q), e);
  }

  /** A two-row table: each row is selected iff q matches it, in table order. */
  lemma FilterPair(x: Session, y: Session, subs: Substitutions, q: Query)
    ensures Filter([x, y], subs, q)
            == (if Matches(q, subs, x) then [x] else []) + (if Matches(q, subs, y) then [y] else [])
  {
    FilterSnoc([], x, subs, q);
    assert [] + [x] == [x] && [x] + [y] == [x, y];
    FilterSnoc([x], y, subs, q);
  }

  /** Filtering twice is filtering by the conjunction (chained `.filter(...)`). */
  lemma {:induction false} FilterFilter(ss: seq<Session>, subs: Substitutions, p: Query, q: Query)
    ensures Filter(Filter(ss, subs, p), subs, q) == Filter(ss, subs, And(p, q))
    decreases |ss|
  {
    if ss != [] {
      var init, last := ss[..|ss| - 1], ss[|ss| - 1];
      FilterFilter(init, subs, p, q);
      FilterConcat(Filter(init, subs, p), if Matches(p, subs, last) then [last] else [], subs, q);
    }
  }

  /** A query sees every copy of a row it matches. */
  lemma {:induction false} FilterKeepsMatching(ss: seq<Session>, subs: Substitutions, q: Query, s: Session)
    requires Matches(q, subs, s)
    ensures multiset(Filter(ss, subs, q))[s] == multiset(ss)[s]
    decreases |ss|
  {
    if ss != [] {
      var init := ss[..|ss| - 1];
      assert ss == init + [ss[|ss| - 1]];
      FilterKeepsMatching(init, subs, q, s);
    }
  }

  /** Two substitution tables that agree on what q sees give the same rows. */
  lemma {:induction false} FilterSameView(ss: seq<Session>, subs: Substitutions, subs': Substitutions, q: Query)
    requires forall s :: s in ss ==> Matches(q, subs, s) == Matches(q, subs', s)
    ensures Filter(ss, subs, q) == Filter(ss, subs', q)
    decreases |ss|
  {
    if ss != [] {
      FilterSameView(ss[..|ss| - 1], subs, subs', q);
    }
  }

  /** With no negative durations, a query that selects more rows sums to at least as much. */
  lemma {:induction false} SumFilterMono(ss: seq<Session>, subs: Substitutions, p: Query, q: Query)
    requires forall s :: s in ss ==> s.start <= s.end
    requires forall s :: s in ss && Matches(p, subs, s) ==> Matches(q, subs, s)
    ensures SumMinutes(Filter(ss, subs, p)) <= SumMinutes(Filter(ss, subs, q))
    decreases |ss|
  {
    if ss != [] {
      var init, last := ss[..|ss| - 1], ss[|ss| - 1];
      SumFilterMono(init, subs, p, q);
      SumConcat(Filter(init, subs, p), if Matches(p, subs, last) then [last] else []);
      SumConcat(Filter(init, subs, q), if Matches(q, subs, last) then [last] else []);
    }
  }

  /** Rows selected by r are selected by p or by q: r sums to at most the two sums together. */
  lemma {:induction false} SumFilterCover(ss: seq<Session>, subs: Substitutions, r: Query, p: Query, q: Query)
    requires forall s :: s in ss ==> s.start <= s.end
    requires forall s :: s in ss && Matches(r, subs, s) ==> Matches(p, subs, s) || Matches(q, subs, s)
    ensures SumMinutes(Filter(ss, subs, r)) <= SumMinutes(Filter(ss, subs, p)) + SumMinutes(Filter(ss, subs, q))
    decreases |ss|
  {
    if ss != [] {
      var init, last := ss[..|ss| - 1], ss[|ss| - 1];
      SumFilterCover(init, subs, r, p, q);
      SumConcat(Filter(init, subs, r), if Matches(r, subs, last) then [last] else []);
      SumConcat(Filter(init, subs, p), if Matches(p, subs, last) then [last] else []);
      SumConcat(Filter(init, subs, q), if Matches(q, subs, last) then [last] else []);
    }
  }

  /** The ids of the rows of a table. */
  function Ids(ss: seq<Session>): set<int> {
    set s | s in ss :: s.id
  }

  /** A filtered table keeps distinct ids. */
  lemma {:induction false} FilterDistinct(ss: seq<Session>, subs: Substitutions, q: Query)
    requires DistinctIds(ss)
    ensures DistinctIds(Filter(ss, subs, q))
    decreases |ss|
  {
    if ss != [] {
      var init, last := ss[..|ss| - 1], ss[|ss| - 1];
      assert DistinctIds(init);
      FilterDistinct(init, subs, q);
      var fi := Filter(init, subs, q);
      FilterMembership(init, subs, q);
      forall x | x in fi ensures x.id != last.id {
        var k :| 0 <= k < |init| && init[k] == x;
        assert ss[k] == x;
      }
      if Matches(q, subs, last) {
        var r := fi + [last];
        forall i, j | 0 <= i < j < |r| ensures r[i].id != r[j].id {
          if j == |fi| {
            assert r[i] in fi;
          } else {
            assert r[i] == fi[i] && r[j] == fi[j];
          }
        }
      }
    }
  }

  /** The week window of t as a query on session start. */
  function InWeekOf(t: int): Query {
    StartIn(WeekStart(t), WeekStart(t) + MinutesPerWeek)
  }

  /**
   * Substitution rows whose substitute is l and whose session starts in the
   * week of t (`Substitution.objects.filter(substitute_lecturer=l,
   * session__start__gte=ws, session__start__lt=we).count()`).
   */
  function SubstitutionsInWeek(ss: seq<Session>, subs: Substitutions, l: int, t: int): nat {
    |Filter(ss, subs, And(SubstituteIs(l), InWeekOf(t)))|
  }

  /**
   * Recording l as the substitute of one more session of the week raises
   * l's count for that week by exactly one.
   */
  lemma {:induction false} SubstitutionsInWeekAfterAssign(ss: seq<Session>, subs: Substitutions, s: Session, l: int, t: int)
    requires DistinctIds(ss) && s in ss
    requires SubstituteOf(subs, s.id) != Some(l)
    requires WeekStart(s.start) == WeekStart(t)
    ensures SubstitutionsInWeek(ss, subs[s.id := Some(l)], l, t) == SubstitutionsInWeek(ss, subs, l, t) + 1
    decreases |ss|
  {
    var init, last := ss[..|ss| - 1], ss[|ss| - 1];
    var q := And(SubstituteIs(l), InWeekOf(t));
    var subs' := subs[s.id := Some(l)];
    assert ss == init + [last];
    assert DistinctIds(init);
    if last == s {
      forall k | 0 <= k < |init| ensures init[k].id != s.id {
        assert ss[k] == init[k];
      }
      FilterSameView(init, subs, subs', q);
      assert WeekStart(s.start) <= s.start < WeekStart(s.start) + MinutesPerWeek;
      assert Matches(InWeekOf(t), subs', s);
      assert Matches(SubstituteIs(l), subs', s) && !Matches(SubstituteIs(l), subs, s);
      assert Filter(ss, subs', q) == Filter(init, subs', q) + [s];
      assert Filter(ss, subs, q) == Filter(init, subs, q);
    } else {
      assert s in init;
      assert last.id != s.id by {
        var k :| 0 <= k < |init| && init[k] == s;
        assert ss[k].id != ss[|ss| - 1].id;
      }
      SubstitutionsInWeekAfterAssign(init, subs, s, l, t);
      assert Matches(q, subs', last) == Matches(q, subs, last);
      assert Filter(ss, subs', q) == Filter(init, subs', q) + (if Matches(q, subs', last) then [last] else []);
      assert Filter(ss, subs, q) == Filter(init, subs, q) + (if Matches(q, subs, last) then [last] else []);
    }
  }

  /** The is_free loop: true iff no slot overlaps [start, end); stops at the first overlap. */
  method IsFreeOf(slots: seq<Session>, start: int, end: int) returns (isFree: bool)
    ensures isFree <==> forall s :: s in slots ==> !Overlaps(s.start, s.end, start, end)
  {
    isFree := true;
    var i := 0;
    while i < |slots|
      invariant 0 <= i <= |slots|
      invariant forall k :: 0 <= k < i ==> !Overlaps(slots[k].start, slots[k].end, start, end)
    {
      if Overlaps(slots[i].start, slots[i].end, start, end) {
        isFree := false;
        break;
      }
      i := i + 1;
    }
  }

  /** `hours += _hours_between(s.start, s.end)` over every slot, kept in minutes. */
  method TotalMinutes(slots: seq<Session>) returns (total: int)
    ensures total == SumMinutes(slots)
  {
    total := 0;
    for i := 0 to |slots|
      invariant total == SumMinutes(slots[..i])
    {
      assert slots[..i + 1][..i] == slots[..i];
      total := total + Duration(slots[i]);
    }
    assert slots[..|slots|] == slots;
  }

  /** The same sum restricted to the slots that overlap [from, to). */
  method TotalMinutesOverlapping(slots: seq<Session>, from: int, to: int) returns (total: int)
    ensures total == SumMinutes(Filter(slots, map[], OverlapsRange(from, to)))
  {
    total := 0;
    for i := 0 to |slots|
      invariant total == SumMinutes(Filter(slots[..i], map[], OverlapsRange(from, to)))
    {
      assert slots[..i + 1][..i] == slots[..i];
      var s := slots[i];
      ghost var before := Filter(slots[..i], map[], OverlapsRange(from, to));
      ghost var step := if Matches(OverlapsRange(from, to), map[], s) then [s] else [];
      assert Filter(slots[..i + 1], map[], OverlapsRange(from, to)) == before + step;
      SumConcat(before, step);
      if !(s.end <= from || s.start >= to) {
        total := total + Duration(s);
      }
    }
    assert slots[..|slots|] == slots;
  }
}
