/**
 The migration that strips leading zeros from voter registration numbers, and the function
 that normalises them elsewhere.
 `alembic/versions/030_normalize_voter_registration_numbers.py` and `src/voter_api/lib/normalize.py`.
 */
module RegistrationMigration {
  import opened Prelude

  type Id = nat

  datatype Election = NoElection | Election(date: int, kind: string)

  /** A row of voter_history, or of voters when there is no election. */
  datatype Row = Row(number: string, election: Election, rest: string)

  type Table = map<Id, Row>

  /** LTRIM(s, '0'), and Python's lstrip("0"). */
  function LTrim(s: string): string {
    if s != "" && s[0] == '0' then LTrim(s[1..]) else s
  }

  /** `normalize_registration_number`. */
  function Normalize(s: string): string {
    if LTrim(s) == "" then "0" else LTrim(s)
  }

  /** What the UPDATE does to a number: only those starting with a zero are touched. */
  function Rewrite(s: string): string {
    if s != "" && s[0] == '0' then (if LTrim(s) == "" then "0" else LTrim(s)) else s
  }

  predicate SameClass(r: Row, s: Row) {
    LTrim(r.number) == LTrim(s.number) && r.election == s.election
  }

  /** The unique constraint (number, date, type); for voters, number alone. */
  ghost predicate Unique(t: Table) {
    forall i, j :: i in t && j in t && i != j ==> (t[i].number, t[i].election) != (t[j].number, t[j].election)
  }

  ghost predicate OnePerClass(t: Table) {
    forall i, j :: i in t && j in t && i != j ==> !SameClass(t[i], t[j])
  }

  /** The row joins another of its class with a shorter number. */
  predicate Superseded(t: Table, i: Id)
    requires i in t
  {
    exists j :: j in t && t[i].number != t[j].number && SameClass(t[i], t[j]) && |t[i].number| > |t[j].number|
  }

  function AfterDelete(t: Table): Table {
    map i | i in t && !Superseded(t, i) :: t[i]
  }

  function Rewritten(r: Row): Row {
    r.(number := Rewrite(r.number))
  }

  /** The table with the rows in `done` rewritten and the others not yet. */
  function PartlyRewritten(t: Table, done: set<Id>): Table {
    map i | i in t :: if i in done then Rewritten(t[i]) else t[i]
  }

  function AfterUpdate(t: Table): Table {
    PartlyRewritten(t, t.Keys)
  }

  // ---------------------------------------------------------------- numbers

  /** The rewrite is the library's normalisation exactly on non-empty numbers. */
  lemma {:induction false} RewriteIsNormalize(s: string)
    ensures Rewrite(s) == Normalize(s) <==> s != ""
  {
  }

  lemma {:induction false} LTrimShorter(s: string)
    ensures |LTrim(s)| <= |s| && (LTrim(s) != "" ==> LTrim(s)[0] != '0')
  {
    if s != "" && s[0] == '0' {
      LTrimShorter(s[1..]);
    }
  }

  /** Trimming takes the leading zeros off and nothing else. */
  lemma {:induction false} LTrimTakesZeros(s: string) returns (n: nat)
    ensures n <= |s| && LTrim(s) == s[n..] && (forall i :: 0 <= i < n ==> s[i] == '0') && (n < |s| ==> s[n] != '0')
  {
    n := 0;
    if s != "" && s[0] == '0' {
      n := LTrimTakesZeros(s[1..]);
      assert s[1..][n..] == s[n + 1..];
      assert forall i :: 0 < i < n + 1 ==> s[i] == s[1..][i - 1];
      n := n + 1;
    } else {
      assert s[0..] == s;
    }
  }

  /** A normalised number is never empty: zeros and the empty number become "0", others lose their leading zeros. */
  lemma {:induction false} NormalizeMeaning(s: string)
    ensures (forall i :: 0 <= i < |s| ==> s[i] == '0') ==> Normalize(s) == "0"
    ensures !(forall i :: 0 <= i < |s| ==> s[i] == '0') ==> Normalize(s) == LTrim(s) && Normalize(s) != "" && Normalize(s)[0] != '0'
  {
    var n := LTrimTakesZeros(s);
    hide LTrim;
    assert n == |s| <==> LTrim(s) == "";
  }

  lemma {:induction false} LTrimTwice(s: string)
    ensures LTrim(LTrim(s)) == LTrim(s)
  {
    LTrimShorter(s);
  }

  /** Within a class the length tells numbers apart. */
  lemma {:induction false} SameLengthSameNumber(a: string, b: string)
    requires LTrim(a) == LTrim(b) && |a| == |b|
    ensures a == b
  {
    if a != "" && a[0] == '0' && b[0] == '0' {
      SameLengthSameNumber(a[1..], b[1..]);
      assert a == [a[0]] + a[1..] && b == [b[0]] + b[1..];
    } else if a != "" && a[0] == '0' {
      LTrimShorter(a[1..]);
    } else if b != "" && b[0] == '0' {
      LTrimShorter(b[1..]);
    }
  }

  /** Rewriting keeps a number in its class, and normalisation tells classes apart. */
  lemma {:induction false} RewriteKeepsClass(s: string)
    ensures LTrim(Rewrite(s)) == LTrim(s) && Rewrite(Rewrite(s)) == Rewrite(s)
  {
    LTrimTwice(s);
    LTrimShorter(s);
    assert "0"[1..] == "";
  }

  lemma {:induction false} NormalizeIsClass(a: string, b: string)
    ensures Normalize(a) == Normalize(b) <==> LTrim(a) == LTrim(b)
  {
    LTrimShorter(a);
    LTrimShorter(b);
  }

  // ---------------------------------------------------------------- the history table

  /** After the DELETE no two rows of one election differ only in leading zeros. */
  lemma {:induction false} DeleteLeavesOnePerClass(t: Table)
    requires Unique(t)
    ensures OnePerClass(AfterDelete(t))
  {
    var d := AfterDelete(t);
    forall i, j | i in d && j in d && i != j ensures !SameClass(d[i], d[j]) {
      if SameClass(t[i], t[j]) {
        assert !Superseded(t, i) && !Superseded(t, j);
        assert t[i].number != t[j].number;
        SameLengthSameNumber(t[i].number, t[j].number);
      }
    }
  }

  /** Every class keeps a row, and it is one with the shortest number. */
  lemma {:induction false} ClassSurvives(t: Table, i: Id) returns (k: Id)
    requires i in t
    ensures k in AfterDelete(t) && SameClass(t[i], t[k])
    ensures forall j :: j in t && SameClass(t[i], t[j]) ==> |t[k].number| <= |t[j].number|
    decreases |t[i].number|
  {
    if Superseded(t, i) {
      var j :| j in t && t[i].number != t[j].number && SameClass(t[i], t[j]) && |t[i].number| > |t[j].number|;
      k := ClassSurvives(t, j);
    } else {
      k := i;
    }
  }

  /** In whatever order the UPDATE visits the rows, the unique key holds after each one. */
  lemma {:induction false} UpdateKeepsUnique(t: Table, done: set<Id>)
    requires OnePerClass(t)
    ensures Unique(PartlyRewritten(t, done)) && OnePerClass(PartlyRewritten(t, done))
  {
    var p := PartlyRewritten(t, done);
    forall i | i in t ensures LTrim(p[i].number) == LTrim(t[i].number) {
      RewriteKeepsClass(t[i].number);
    }
    assert forall i, j :: i in p && j in p && i != j ==> !SameClass(t[i], t[j]);
  }

  lemma {:induction false} NothingRewritten(t: Table)
    ensures PartlyRewritten(t, {}) == t && forall done :: PartlyRewritten(t, done).Keys == t.Keys
  {
  }

  /** One more row rewritten: its new key is free. */
  lemma {:induction false} RewriteStep(t: Table, done: set<Id>, i: Id)
    requires OnePerClass(t) && i in t && i !in done
    ensures var now := PartlyRewritten(t, done); var row := Rewritten(now[i]);
      && now[i := row] == PartlyRewritten(t, done + {i})
      && forall j :: j in now && j != i ==> (now[j].number, now[j].election) != (row.number, row.election)
  {
    UpdateKeepsUnique(t, done + {i});
    hide Rewritten, OnePerClass;
    var now, next := PartlyRewritten(t, done), PartlyRewritten(t, done + {i});
    assert now[i] == t[i] && next == now[i := Rewritten(t[i])];
    forall j | j in now && j != i ensures (now[j].number, now[j].election) != (next[i].number, next[i].election) {
      assert next[j] == now[j];
    }
  }

  /**
   The history migration as a whole: every normalised key there was is there exactly once,
   and every non-empty number left is normalised.
   */
  lemma {:induction false} EachKeySurvivesOnce(t: Table, i: Id)
    requires Unique(t) && i in t
    ensures var final := AfterUpdate(AfterDelete(t));
      && Unique(final)
      && (exists k :: k in final && SameClass(t[i], final[k]))
      && (forall k, l :: k in final && l in final && SameClass(t[i], final[k]) && SameClass(t[i], final[l]) ==> k == l)
      && (forall k :: k in final ==> (k in t && SameClass(t[k], final[k]) && final[k].rest == t[k].rest))
      && (forall k :: k in final ==> (t[k].number != "" ==> final[k].number == Normalize(t[k].number)))
  {
    var d := AfterDelete(t);
    var final := AfterUpdate(d);
    DeleteLeavesOnePerClass(t);
    UpdateKeepsUnique(d, d.Keys);
    forall k | k in final
      ensures k in t && SameClass(t[k], final[k]) && (t[k].number != "" ==> final[k].number == Normalize(t[k].number))
    {
      RewriteKeepsClass(t[k].number);
      RewriteIsNormalize(t[k].number);
    }
    var k := ClassSurvives(t, i);
    assert k in final && SameClass(t[i], final[k]);
  }

  /** Migrating again changes nothing. */
  lemma {:induction false} MigrationIdempotent(t: Table)
    requires Unique(t)
    ensures var once := AfterUpdate(AfterDelete(t)); AfterUpdate(AfterDelete(once)) == once
  {
    var d := AfterDelete(t);
    var once := AfterUpdate(d);
    DeleteLeavesOnePerClass(t);
    UpdateKeepsUnique(d, d.Keys);
    assert AfterDelete(once) == once;
    forall i | i in once ensures Rewritten(once[i]) == once[i] {
      RewriteKeepsClass(d[i].number);
    }
  }

  /** What the migration is for: non-empty numbers of the two tables join exactly when they differ in zeros only. */
  lemma {:induction false} JoinsAfterwards(history: Table, voters: Table, h: Id, v: Id)
    requires v in AfterUpdate(voters) && h in AfterUpdate(AfterDelete(history))
    requires history[h].number != "" && voters[v].number != ""
    ensures AfterUpdate(AfterDelete(history))[h].number == AfterUpdate(voters)[v].number
        <==> LTrim(history[h].number) == LTrim(voters[v].number)
  {
    RewriteIsNormalize(history[h].number);
    RewriteIsNormalize(voters[v].number);
    NormalizeIsClass(history[h].number, voters[v].number);
  }

  /** An empty number stays empty, and a row "0" of the same election gives way to it. */
  lemma {:induction false} EmptyNumberWins(e: Election, x: string, y: string)
    ensures AfterUpdate(AfterDelete(map[0 := Row("", e, x), 1 := Row("0", e, y)])) == map[0 := Row("", e, x)]
    ensures Normalize("") == "0"
  {
    var t := map[0 := Row("", e, x), 1 := Row("0", e, y)];
    assert "0"[1..] == "";
    assert t[1].number != t[0].number && SameClass(t[1], t[0]) && |t[1].number| > |t[0].number|;
    assert Superseded(t, 1) && !Superseded(t, 0);
    assert AfterDelete(t) == map[0 := t[0]];
  }

  // ---------------------------------------------------------------- the migration

  predicate Collide(t: Table) {
    exists i, j :: i in t && j in t && i != j && SameClass(t[i], t[j])
  }

  /** Voters collide when two of them have numbers that differ in leading zeros only, or not at all. */
  lemma {:induction false} CollideMeaning(t: Table)
    requires forall i :: i in t ==> t[i].election == NoElection
    ensures Collide(t) <==> exists i, j :: i in t && j in t && i != j && LTrim(t[i].number) == LTrim(t[j].number)
  {
    if i, j :| i in t && j in t && i != j && LTrim(t[i].number) == LTrim(t[j].number) {
      assert SameClass(t[i], t[j]);
    }
  }

  datatype Result = Upgraded | Raised | UniqueViolation

  class Migration {
    var history: Table
    var voters: Table

    constructor (history: Table, voters: Table)
      ensures this.history == history && this.voters == voters
    {
      this.history, this.voters := history, voters;
    }

    /** DELETE ... USING, on the table as it was when the statement started. */
    method DeleteColliding()
      modifies `history
      ensures history == AfterDelete(old(history))
    {
      history := map i | i in history && !Superseded(history, i) :: history[i];
    }

    /** One UPDATE: rows in any order, the unique key checked after each. */
    method UpdateTable(t: Table) returns (now: Table, ok: bool)
      requires OnePerClass(t)
      ensures ok && now == AfterUpdate(t)
    {
      hide Rewritten, OnePerClass, PartlyRewritten;
      var todo := t.Keys;
      now, ok := t, true;
      NothingRewritten(t);
      assert t.Keys - todo == {};
      while todo != {}
        invariant ok && todo <= t.Keys && now == PartlyRewritten(t, t.Keys - todo)
      {
        var i :| i in todo;
        RewriteStep(t, t.Keys - todo, i);
        var row := Rewritten(now[i]);
        var clash := exists j :: j in now && j != i && (now[j].number, now[j].election) == (row.number, row.election);
        if clash {
          ok := false;
        } else {
          now := now[i := row];
        }
        assert t.Keys - (todo - {i}) == t.Keys - todo + {i};
        todo := todo - {i};
      }
      assert t.Keys - todo == t.Keys;
    }

    /** `upgrade`: one transaction, raising exactly when voter numbers collide. */
    method Upgrade() returns (result: Result)
      requires Unique(history)
      requires forall i :: i in voters ==> voters[i].election == NoElection
      modifies this
      ensures result == Raised || result == Upgraded
      ensures result == Raised <==>
                exists i, j :: i in old(voters) && j in old(voters) && i != j && LTrim(old(voters)[i].number) == LTrim(old(voters)[j].number)
      ensures result.Upgraded? ==> history == AfterUpdate(AfterDelete(old(history))) && voters == AfterUpdate(old(voters))
      ensures result.Raised? ==> history == old(history) && voters == old(voters)
    {
      var savedHistory, savedVoters := history, voters;
      DeleteLeavesOnePerClass(history);
      DeleteColliding();
      var now, ok := UpdateTable(history);
      history := now;
      CollideMeaning(voters);
      if Collide(voters) {
        history, voters := savedHistory, savedVoters;
        return Raised;
      }
      now, ok := UpdateTable(voters);
      voters := now;
      result := Upgraded;
    }
  }
}
