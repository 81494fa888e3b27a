/**
 * The ranking of `stats_view`: one row per lecturer with the number of
 * substitutions taken and the hours taught in the period [from, to), then
 * the rows sorted by the chosen metric. The period bounds are parameters.
 */
module Ranking {
  import opened Common
  import opened Models
  import opened Queries

  /** One entry of `data`; hours are kept in minutes. */
  datatype Row = Row(lecturer: int, name: string, subs: nat, minutes: int)

  /** `scope=subs` counts only sessions taken as substitute; any other value counts all real teaching. */
  datatype Scope = SubsOnly | AllTeaching

  /** `request.GET.get(p) or default`, an absent parameter read as "". */
  function OrDefault(p: string, default: string): string {
    if p == "" then default else p
  }

  function ScopeOf(scope: string): Scope {
    if OrDefault(scope, "subs") == "subs" then SubsOnly else AllTeaching
  }

  /** `key = "hours" if metric == "hours" else "subs"` */
  function ByHours(metric: string): bool {
    OrDefault(metric, "hours") == "hours"
  }

  /** `reverse=(direction != "asc")` */
  function Ascending(direction: string): bool {
    OrDefault(direction, "desc") == "asc"
  }

  /** Sessions of the period that l substitutes. */
  function TakenIn(l: int, from: int, to: int): Query {
    And(SubstituteIs(l), StartIn(from, to))
  }

  /** l's own sessions of the period that have no Substitution row. */
  function OwnFreeIn(l: int, from: int, to: int): Query {
    And(And(LecturerIs(l), NoSubstitution), StartIn(from, to))
  }

  /** The row of lecturer l after all of the aggregation. */
  function RowFor(ss: seq<Session>, subs: Substitutions, l: int, name: string, from: int, to: int, scope: Scope): Row {
    var taken := Filter(ss, subs, TakenIn(l, from, to));
    var own := if scope == AllTeaching then SumMinutes(Filter(ss, subs, OwnFreeIn(l, from, to))) else 0;
    Row(l, name, |taken|, SumMinutes(taken) + own)
  }

  /** What one more session of the table adds to a row. */
  function AddSession(row: Row, s: Session, subs: Substitutions, from: int, to: int, scope: Scope): Row {
    if !(from <= s.start < to) then row
    else if SubstituteOf(subs, s.id) == Some(row.lecturer) then
      row.(subs := row.subs + 1, minutes := row.minutes + Duration(s))
    else if scope == AllTeaching && s.id !in subs && s.lecturer == row.lecturer then
      row.(minutes := row.minutes + Duration(s))
    else row
  }

  /** The two queries of the ranking, stated on a row. */
  lemma RankingQueriesMeaning(subs: Substitutions, l: int, from: int, to: int, x: Session)
    ensures Matches(TakenIn(l, from, to), subs, x) <==> SubstituteOf(subs, x.id) == Some(l) && from <= x.start < to
    ensures Matches(OwnFreeIn(l, from, to), subs, x) <==> x.lecturer == l && x.id !in subs && from <= x.start < to
  {
    assert Matches(SubstituteIs(l), subs, x) <==> SubstituteOf(subs, x.id) == Some(l);
    assert Matches(LecturerIs(l), subs, x) <==> x.lecturer == l;
    assert Matches(NoSubstitution, subs, x) <==> x.id !in subs;
  }

  /** One more session adds itself to l's taken sessions of the period iff l substitutes it and it starts in the period. */
  lemma TakenInSnoc(ss: seq<Session>, s: Session, subs: Substitutions, l: int, from: int, to: int)
    ensures var hit := SubstituteOf(subs, s.id) == Some(l) && from <= s.start < to;
      && |Filter(ss + [s], subs, TakenIn(l, from, to))| == |Filter(ss, subs, TakenIn(l, from, to))| + (if hit then 1 else 0)
      && SumMinutes(Filter(ss + [s], subs, TakenIn(l, from, to)))
         == SumMinutes(Filter(ss, subs, TakenIn(l, from, to))) + (if hit then Duration(s) else 0)
  {
    RankingQueriesMeaning(subs, l, from, to, s);
    FilterSnoc(ss, s, subs, TakenIn(l, from, to));
  }

  /** One more session adds its minutes to l's own free sessions of the period iff it is one of them. */
  lemma OwnFreeInSnoc(ss: seq<Session>, s: Session, subs: Substitutions, l: int, from: int, to: int)
    ensures var hit := s.lecturer == l && s.id !in subs && from <= s.start < to;
      SumMinutes(Filter(ss + [s], subs, OwnFreeIn(l, from, to)))
      == SumMinutes(Filter(ss, subs, OwnFreeIn(l, from, to))) + (if hit then Duration(s) else 0)
  {
    RankingQueriesMeaning(subs, l, from, to, s);
    FilterSnoc(ss, s, subs, OwnFreeIn(l, from, to));
  }

  /** Aggregating one more session updates each row as AddSession says. */
  lemma RowForSnoc(ss: seq<Session>, s: Session, subs: Substitutions, l: int, name: string,
                   from: int, to: int, scope: Scope)
    ensures RowFor(ss + [s], subs, l, name, from, to, scope)
            == AddSession(RowFor(ss, subs, l, name, from, to, scope), s, subs, from, to, scope)
  {
    TakenInSnoc(ss, s, subs, l, from, to);
    OwnFreeInSnoc(ss, s, subs, l, from, to);
  }

  /** One session's update of the whole `data` dictionary. */
  function Tally(data: map<int, Row>, s: Session, subs: Substitutions, from: int, to: int, scope: Scope): map<int, Row> {
    if !(from <= s.start < to) then data
    else if s.id in subs then
      if subs[s.id].Some? && subs[s.id].value in data then
        var l := subs[s.id].value;
        data[l := data[l].(subs := data[l].subs + 1, minutes := data[l].minutes + Duration(s))]
      else data
    else if scope == AllTeaching && s.lecturer in data then
      data[s.lecturer := data[s.lecturer].(minutes := data[s.lecturer].minutes + Duration(s))]
    else data
  }

  /** The body of the aggregation loop: the dictionary entries one session changes, updated in place. */
  method TallySession(data: map<int, Row>, s: Session, subs: Substitutions, from: int, to: int, scope: Scope)
    returns (data': map<int, Row>)
    ensures data' == Tally(data, s, subs, from, to, scope)
  {
    data' := data;
    if from <= s.start && s.start < to {
      if s.id in subs {
        // a taken session counts for its substitute, if it has one
        if subs[s.id].Some? && subs[s.id].value in data' {
          var l := subs[s.id].value;
          data' := data'[l := data'[l].(subs := data'[l].subs + 1, minutes := data'[l].minutes + Duration(s))];
        }
      } else if scope == AllTeaching && s.lecturer in data' {
        data' := data'[s.lecturer := data'[s.lecturer].(minutes := data'[s.lecturer].minutes + Duration(s))];
      }
    }
  }

  /** Tallying a session updates every row of a well-keyed dictionary as AddSession says. */
  lemma TallyRows(data: map<int, Row>, s: Session, subs: Substitutions, from: int, to: int, scope: Scope)
    requires forall l | l in data :: data[l].lecturer == l
    ensures Tally(data, s, subs, from, to, scope).Keys == data.Keys
    ensures forall l | l in data :: Tally(data, s, subs, from, to, scope)[l] == AddSession(data[l], s, subs, from, to, scope)
  {
  }

  /**
   * The aggregation loop of `stats_view`: every lecturer starts with 0 and
   * 0; each session of the period adds to its substitute and, when the scope
   * is not "subs" and the session has no Substitution row, to its lecturer.
   */
  method Aggregate(ss: seq<Session>, subs: Substitutions, lecturers: map<int, Lecturer>,
                   from: int, to: int, scope: Scope) returns (data: map<int, Row>)
    ensures data.Keys == lecturers.Keys
    ensures forall l | l in data :: data[l] == RowFor(ss, subs, l, LecturerStr(lecturers[l]), from, to, scope)
  {
    data := map l | l in lecturers :: Row(l, LecturerStr(lecturers[l]), 0, 0);
    for i := 0 to |ss|
      invariant data.Keys == lecturers.Keys
      invariant forall l | l in data :: data[l] == RowFor(ss[..i], subs, l, LecturerStr(lecturers[l]), from, to, scope)
      invariant forall l | l in data :: data[l].lecturer == l
    {
      var s := ss[i];
      ghost var before := data;
      data := TallySession(data, s, subs, from, to, scope);
      TallyRows(before, s, subs, from, to, scope);
      assert ss[..i + 1] == ss[..i] + [s];
      forall l | l in data
        ensures data[l] == RowFor(ss[..i + 1], subs, l, LecturerStr(lecturers[l]), from, to, scope)
      {
        RowForSnoc(ss[..i], s, subs, l, LecturerStr(lecturers[l]), from, to, scope);
      }
    }
    assert ss[..|ss|] == ss;
  }

  /** The sort key of a row. */
  function Key(r: Row, byHours: bool): int {
    if byHours then r.minutes else r.subs
  }

  /** a must come before b: a strictly better key in the chosen direction. */
  predicate StrictlyBefore(a: Row, b: Row, byHours: bool, asc: bool) {
    if asc then Key(a, byHours) < Key(b, byHours) else Key(a, byHours) > Key(b, byHours)
  }

  /** Ordered by the key, ascending or descending. */
  predicate SortedRows(rs: seq<Row>, byHours: bool, asc: bool) {
    forall i, j :: 0 <= i < j < |rs| ==> !StrictlyBefore(rs[j], rs[i], byHours, asc)
  }

  /** Inserts x after every row it does not strictly precede. */
  function InsertRow(x: Row, rs: seq<Row>, byHours: bool, asc: bool): (r: seq<Row>)
    requires SortedRows(rs, byHours, asc)
    ensures SortedRows(r, byHours, asc)
    ensures multiset(r) == multiset(rs) + multiset{x}
  {
    if rs == [] then [x]
    else if StrictlyBefore(x, rs[0], byHours, asc) then
      InsertRowFront(x, rs, byHours, asc);
      [x] + rs
    else
      var rest := InsertRow(x, rs[1..], byHours, asc);
      assert rs == [rs[0]] + rs[1..];
      InsertRowBehind(x, rs, rest, byHours, asc);
      [rs[0]] + rest
  }

  lemma InsertRowFront(x: Row, rs: seq<Row>, byHours: bool, asc: bool)
    requires SortedRows(rs, byHours, asc) && rs != [] && StrictlyBefore(x, rs[0], byHours, asc)
    ensures SortedRows([x] + rs, byHours, asc)
  {
    var r := [x] + rs;
    forall i, j | 0 <= i < j < |r| ensures !StrictlyBefore(r[j], r[i], byHours, asc) {
      if i > 0 {
        assert r[i] == rs[i - 1] && r[j] == rs[j - 1];
      } else if j > 1 {
        assert r[j] == rs[j - 1];
        assert !StrictlyBefore(rs[j - 1], rs[0], byHours, asc);
      }
    }
  }

  lemma InsertRowBehind(x: Row, rs: seq<Row>, rest: seq<Row>, byHours: bool, asc: bool)
    requires SortedRows(rs, byHours, asc) && rs != [] && !StrictlyBefore(x, rs[0], byHours, asc)
    requires SortedRows(rest, byHours, asc) && multiset(rest) == multiset(rs[1..]) + multiset{x}
    ensures SortedRows([rs[0]] + rest, byHours, asc)
  {
    var r := [rs[0]] + rest;
    forall i, j | 0 <= i < j < |r| ensures !StrictlyBefore(r[j], r[i], byHours, asc) {
      if i > 0 {
        assert r[i] == rest[i - 1] && r[j] == rest[j - 1];
      } else {
        var y := rest[j - 1];
        assert r[j] == y;
        assert y in multiset(rest);
        if y != x {
          assert y in multiset(rs[1..]);
          var k :| 0 <= k < |rs[1..]| && rs[1..][k] == y;
          assert rs[k + 1] == y;
        }
      }
    }
  }

  /** `ranking.sort(key=..., reverse=...)`: an ordered permutation of the rows. */
  method SortRanking(rows: seq<Row>, byHours: bool, asc: bool) returns (sorted: seq<Row>)
    ensures SortedRows(sorted, byHours, asc)
    ensures multiset(sorted) == multiset(rows)
  {
    sorted := [];
    for i := 0 to |rows|
      invariant SortedRows(sorted, byHours, asc)
      invariant multiset(sorted) == multiset(rows[..i])
    {
      assert rows[..i + 1] == rows[..i] + [rows[i]];
      sorted := InsertRow(rows[i], sorted, byHours, asc);
    }
    assert rows[..|rows|] == rows;
  }

  /** The rows in lecturer order (`order_by("last_name", "first_name")`), before sorting. */
  function ExpectedRows(ss: seq<Session>, subs: Substitutions, lecturers: map<int, Lecturer>, order: seq<int>,
                        from: int, to: int, scope: Scope): seq<Row>
    requires forall k :: 0 <= k < |order| ==> order[k] in lecturers
  {
    seq(|order|, k requires 0 <= k < |order| => RowFor(ss, subs, order[k], LecturerStr(lecturers[order[k]]), from, to, scope))
  }

  /**
   * `stats_view`'s ranking: `order` is the lecturer table in name order.
   * The result holds each lecturer's row once and is sorted by the metric.
   */
  method StatsRanking(ss: seq<Session>, subs: Substitutions, lecturers: map<int, Lecturer>, order: seq<int>,
                      from: int, to: int, scope: string, metric: string, direction: string)
    returns (ranking: seq<Row>)
    requires forall k :: 0 <= k < |order| ==> order[k] in lecturers
    requires forall l | l in lecturers :: l in order
    requires forall i, j :: 0 <= i < j < |order| ==> order[i] != order[j]
    ensures multiset(ranking) == multiset(ExpectedRows(ss, subs, lecturers, order, from, to, ScopeOf(scope)))
    ensures SortedRows(ranking, ByHours(metric), Ascending(direction))
    ensures |ranking| == |lecturers|
    ensures forall r | r in ranking :: r.lecturer in lecturers
              && r == RowFor(ss, subs, r.lecturer, LecturerStr(lecturers[r.lecturer]), from, to, ScopeOf(scope))
    ensures forall l | l in lecturers ::
              multiset(ranking)[RowFor(ss, subs, l, LecturerStr(lecturers[l]), from, to, ScopeOf(scope))] == 1
  {
    var data := Aggregate(ss, subs, lecturers, from, to, ScopeOf(scope));
    forall k | 0 <= k < |order| ensures order[k] in data {
      assert order[k] in order;
      assert order[k] in lecturers;
      assert order[k] in data.Keys;
    }
    var rows := seq(|order|, k requires 0 <= k < |order| => data[order[k]]);
    assert rows == ExpectedRows(ss, subs, lecturers, order, from, to, ScopeOf(scope));
    ranking := SortRanking(rows, ByHours(metric), Ascending(direction));
    RankingRowsPerLecturer(ss, subs, lecturers, order, from, to, ScopeOf(scope), ranking);
  }

  /** A list without repeats that holds exactly the keys is as long as there are keys. */
  lemma {:induction false} ListingLength(order: seq<int>, keys: set<int>)
    requires forall k :: 0 <= k < |order| ==> order[k] in keys
    requires forall l | l in keys :: l in order
    requires forall i, j :: 0 <= i < j < |order| ==> order[i] != order[j]
    ensures |keys| == |order|
    decreases |order|
  {
    if order == [] {
      forall l ensures l !in keys {
        if l in keys {
          assert false;
        }
      }
      assert keys == {};
    } else {
      var last, init := order[|order| - 1], order[..|order| - 1];
      var rest := keys - {last};
      forall k | 0 <= k < |init| ensures init[k] in rest {
        assert init[k] == order[k];
      }
      forall l | l in rest ensures l in init {
        assert l in order;
        var k :| 0 <= k < |order| && order[k] == l;
        assert k != |order| - 1 && init[k] == l;
      }
      ListingLength(init, rest);
      assert keys == rest + {last};
    }
  }

  /**
   * What the ranking holds: when `order` lists every lecturer once, each
   * lecturer has exactly one row, and it is that lecturer's aggregate.
   */
  lemma RankingRowsPerLecturer(ss: seq<Session>, subs: Substitutions, lecturers: map<int, Lecturer>, order: seq<int>,
                               from: int, to: int, scope: Scope, ranking: seq<Row>)
    requires forall k :: 0 <= k < |order| ==> order[k] in lecturers
    requires forall l | l in lecturers :: l in order
    requires forall i, j :: 0 <= i < j < |order| ==> order[i] != order[j]
    requires multiset(ranking) == multiset(ExpectedRows(ss, subs, lecturers, order, from, to, scope))
    ensures |ranking| == |lecturers|
    ensures forall r | r in ranking :: r.lecturer in lecturers
              && r == RowFor(ss, subs, r.lecturer, LecturerStr(lecturers[r.lecturer]), from, to, scope)
    ensures forall l | l in lecturers :: multiset(ranking)[RowFor(ss, subs, l, LecturerStr(lecturers[l]), from, to, scope)] == 1
  {
    var e := ExpectedRows(ss, subs, lecturers, order, from, to, scope);
    assert |ranking| == |multiset(ranking)| == |multiset(e)| == |e|;
    ListingLength(order, lecturers.Keys);
    forall r | r in ranking
      ensures r.lecturer in lecturers && r == RowFor(ss, subs, r.lecturer, LecturerStr(lecturers[r.lecturer]), from, to, scope)
    {
      assert r in multiset(e);
      var k :| 0 <= k < |e| && e[k] == r;
    }
    forall l | l in lecturers
      ensures multiset(ranking)[RowFor(ss, subs, l, LecturerStr(lecturers[l]), from, to, scope)] == 1
    {
      var k :| 0 <= k < |order| && order[k] == l;
      RowOnceInExpected(e, order, k, ss, subs, lecturers, from, to, scope);
    }
  }

  /** The row of order[k] stands at position k of the expected rows and nowhere else. */
  lemma {:induction false} RowOnceInExpected(e: seq<Row>, order: seq<int>, k: int, ss: seq<Session>, subs: Substitutions,
                                              lecturers: map<int, Lecturer>, from: int, to: int, scope: Scope)
    requires forall k :: 0 <= k < |order| ==> order[k] in lecturers
    requires forall i, j :: 0 <= i < j < |order| ==> order[i] != order[j]
    requires 0 <= k < |order|
    requires e == ExpectedRows(ss, subs, lecturers, order, from, to, scope)
    ensures multiset(e)[e[k]] == 1
  {
    var x := e[k];
    assert e == e[..k] + [x] + e[k + 1..];
    forall i | 0 <= i < |e| && i != k ensures e[i] != x {
      assert e[i].lecturer == order[i];
      if i < k { assert order[i] != order[k]; } else { assert order[k] != order[i]; }
    }
    forall i | 0 <= i < k ensures e[..k][i] != x {
      assert e[..k][i] == e[i];
    }
    var tail := e[k + 1..];
    forall j | 0 <= j < |tail| ensures tail[j] != x {
      assert tail[j] == e[k + 1 + j];
    }
    assert x !in e[..k] && x !in e[k + 1..];
    assert multiset(e) == multiset(e[..k]) + multiset{x} + multiset(e[k + 1..]);
  }

  /** Counting all teaching never gives fewer minutes than counting substitutions alone. */
  lemma AllTeachingAtLeastSubs(ss: seq<Session>, subs: Substitutions, l: int, name: string, from: int, to: int)
    requires ProperSessions(ss)
    ensures RowFor(ss, subs, l, name, from, to, SubsOnly).minutes <= RowFor(ss, subs, l, name, from, to, AllTeaching).minutes
    ensures RowFor(ss, subs, l, name, from, to, SubsOnly).subs == RowFor(ss, subs, l, name, from, to, AllTeaching).subs
  {
    SumFilterMono(ss, subs, Not(All), OwnFreeIn(l, from, to));
    assert Filter(ss, subs, Not(All)) == [] by {
      FilterEmpty(ss, subs, Not(All));
    }
  }

  /**
   * Without proper sessions the minutes part of the lemma above fails: with
   * no substitution rows, lecturer 1's backwards session makes "all teaching"
   * show -50 minutes where "substitutions only" shows 0.
   */
  lemma BackwardsSessionAllTeachingBelowSubs()
    ensures !ProperSessions(BackwardsTable)
    ensures RowFor(BackwardsTable, map[], 1, "B A", 0, 10080, SubsOnly).minutes
            > RowFor(BackwardsTable, map[], 1, "B A", 0, 10080, AllTeaching).minutes
  {
    var x, s := BackwardsSession, TwoHourSession;
    assert x in BackwardsTable;
    FilterPair(x, s, map[], TakenIn(1, 0, 10080));
    FilterPair(x, s, map[], OwnFreeIn(1, 0, 10080));
    assert Filter(BackwardsTable, map[], OwnFreeIn(1, 0, 10080)) == [x];
    assert [x][..0] == [];
    assert SumMinutes([x]) == -50;
  }
}
