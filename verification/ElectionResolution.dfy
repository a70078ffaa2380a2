/**
 Find-or-create of elections during a candidate import, with backfill of the eligible
 county and municipality, behind a memo cache whose key is finer than the lookup.
 `_resolve_election` in `src/voter_api/services/candidate_import_service.py`.
 */
module ElectionResolution {
  import opened Prelude
  import opened ElectionNames

  type Id = nat    // UUIDs, drawn from a supply that never repeats
  type Date = nat  // ordinal day

  datatype Election = Election(
    name: string,
    date: Date,
    deleted: bool,
    electionType: string,
    sourceName: Option<string>,
    county: Option<string>,
    municipality: Option<string>)

  type Elections = map<Id, Election>

  datatype Request = Request(
    name: string,
    date: Date,
    electionType: Option<string>,
    county: Option<string>,
    municipality: Option<string>)

  /** (normalised name, date, upper-cased county, municipality), with "" for an absent value. */
  type CacheKey = (string, Date, string, string)

  /** The elections table and the next unused id. */
  datatype Db = Db(elections: Elections, nextId: Id) {
    ghost predicate Valid() {
      forall id :: id in elections ==> id < nextId
    }
  }

  predicate Truthy(s: Option<string>) {
    s.Some? && s.value != ""
  }

  function UpperChar(c: char): char {
    if 'a' <= c <= 'z' then (c as int - 32) as char else c
  }

  function Upper(s: string): (r: string)
    ensures |r| == |s|
  {
    seq(|s|, i requires 0 <= i < |s| => UpperChar(s[i]))
  }

  function LookupName(r: Request): string {
    LookupKey(CollapseStrip(r.name))
  }

  function CacheKeyOf(r: Request): CacheKey {
    (LookupName(r), r.date, Upper(r.county.GetOr("")), r.municipality.GetOr(""))
  }

  predicate IsMatch(e: Election, name: string, date: Date) {
    Lower(e.name) == name && e.date == date && !e.deleted
  }

  /** WHERE lower(name) = :name AND election_date = :date AND deleted_at IS NULL. */
  function Matches(t: Elections, name: string, date: Date): set<Id> {
    set id | id in t && IsMatch(t[id], name, date)
  }

  function Backfilled(e: Election, r: Request): Election {
    e.(county := if Truthy(r.county) && !Truthy(e.county) then Some(Upper(r.county.value)) else e.county,
       municipality := if Truthy(r.municipality) && !Truthy(e.municipality) then r.municipality else e.municipality)
  }

  function NewElection(r: Request): Election {
    Election(
      StoredName(CollapseStrip(r.name)),
      r.date,
      false,
      if Truthy(r.electionType) then r.electionType.value else "general",
      Some(CollapseStrip(r.name)),
      if Truthy(r.county) then Some(Upper(r.county.value)) else None,
      r.municipality)
  }

  /**
   One resolution without a cache: None when the query finds several live rows, which
   makes `scalar_one_or_none` raise.
   */
  function Resolve(db: Db, r: Request): (res: (Option<Id>, Db)) {
    var matches := Matches(db.elections, LookupName(r), r.date);
    if |matches| > 1 then (None, db)
    else if |matches| == 1 then
      var id := Only(matches);
      (Some(id), db.(elections := db.elections[id := Backfilled(db.elections[id], r)]))
    else
      (Some(db.nextId), Db(db.elections[db.nextId := NewElection(r)], db.nextId + 1))
  }

  function ResolveAll(db: Db, rs: seq<Request>): (seq<Option<Id>>, Db) {
    if rs == [] then ([], db)
    else
      var (ids, before) := ResolveAll(db, rs[..|rs| - 1]);
      var (id, after) := Resolve(before, rs[|rs| - 1]);
      (ids + [id], after)
  }

  // ---------------------------------------------------------------- one resolution

  /** A created election is found by the key it was created for. */
  lemma {:induction false} NewElectionMatches(r: Request)
    ensures IsMatch(NewElection(r), LookupName(r), r.date)
  {
    StoredNameMatchesLookup(r.name);
  }

  /** The row `Resolve` leaves behind answers the request's key, alone; other keys keep their matches. */
  lemma {:induction false} ResolveMatches(db: Db, r: Request, name: string, date: Date)
    requires db.Valid()
    ensures var (id, after) := Resolve(db, r);
      && after.Valid()
      && (name == LookupName(r) && date == r.date && id.Some? ==> Matches(after.elections, name, date) == {id.value})
      && (name != LookupName(r) || date != r.date || id.None? ==>
            Matches(after.elections, name, date) == Matches(db.elections, name, date))
  {
    NewElectionMatches(r);
    var (id, after) := Resolve(db, r);
    hide LookupKey, StoredName, CollapseStrip, Lower;
    if |Matches(db.elections, LookupName(r), r.date)| == 0 {
      assert Matches(db.elections, LookupName(r), r.date) == {};
      assert forall x :: x in db.elections ==> x != db.nextId;
      if name == LookupName(r) && date == r.date {
        assert Matches(after.elections, name, date) == {db.nextId};
      } else {
        assert !IsMatch(NewElection(r), name, date);
        assert Matches(after.elections, name, date) == Matches(db.elections, name, date);
      }
    } else {
      assert Matches(after.elections, name, date) == Matches(db.elections, name, date);
    }
  }

  /** Creating an election never violates the unique index on (name, date) of live rows. */
  lemma {:induction false} InsertKeepsUniqueIndex(db: Db, r: Request, other: Id)
    requires db.Valid() && Matches(db.elections, LookupName(r), r.date) == {} && other in db.elections
    ensures db.elections[other].deleted || db.elections[other].date != r.date || db.elections[other].name != NewElection(r).name
  {
    NewElectionMatches(r);
    assert other !in Matches(db.elections, LookupName(r), r.date);
  }

  ghost predicate AtMostOneLive(t: Elections) {
    forall name, date :: |Matches(t, name, date)| <= 1
  }

  /** With at most one live row per lower-cased name and date, resolution never fails and keeps it so. */
  lemma {:induction false} ResolveTotal(db: Db, r: Request)
    requires db.Valid() && AtMostOneLive(db.elections)
    ensures Resolve(db, r).0.Some? && AtMostOneLive(Resolve(db, r).1.elections)
  {
    forall name, date ensures |Matches(Resolve(db, r).1.elections, name, date)| <= 1 {
      ResolveMatches(db, r, name, date);
    }
  }

  // ---------------------------------------------------------------- what a resolution finds and writes

  /** The value, unless it is absent or empty. */
  function Given(s: Option<string>): Option<string> {
    match s case None => None case Some(v) => if v == "" then None else Some(v)
  }

  ghost predicate LiveMatch(db: Db, r: Request, id: Id) {
    && id in db.elections && !db.elections[id].deleted && db.elections[id].date == r.date
    && Lower(db.elections[id].name) == LookupName(r)
  }

  /**
   The resolution answers the one live row of the name and date; with several it fails, and
   without one it creates a row under the next id.
   */
  lemma {:induction false} ResolveFinds(db: Db, r: Request)
    ensures var (id, after) := Resolve(db, r);
      && (id.None? <==> exists x, y :: x != y && LiveMatch(db, r, x) && LiveMatch(db, r, y))
      && (id.Some? && LiveMatch(db, r, id.value) ==> after.nextId == db.nextId && after.elections.Keys == db.elections.Keys)
      && ((forall x :: !LiveMatch(db, r, x)) ==> id == Some(db.nextId) && after.nextId == db.nextId + 1)
      && (forall x :: LiveMatch(db, r, x) && id.Some? ==> id.value == x)
      && (forall x :: x in db.elections && id != Some(x) ==> x in after.elections && after.elections[x] == db.elections[x])
  {
    var m := Matches(db.elections, LookupName(r), r.date);
    hide LookupKey, CollapseStrip, Lower, StoredName;
    assert forall x :: x in m <==> LiveMatch(db, r, x);
    if |m| > 1 {
      TwoOfSet(m);
    }
    if |m| == 0 {
      assert m == {};
    }
    assert |m| == 1 ==> m == {Only(m)};
  }

  lemma {:induction false} TwoOfSet(m: set<Id>)
    requires |m| > 1
    ensures exists x, y :: x != y && x in m && y in m
  {
    var x :| x in m;
    assert m - {x} != {} by { assert |m - {x}| > 0; }
    var y :| y in m - {x};
    assert y in m;
  }

  /** A found row gains the county, upper-cased, and municipality of the request where it had none, and changes in nothing else. */
  lemma {:induction false} ResolveBackfills(db: Db, r: Request, id: Id)
    requires Resolve(db, r).0 == Some(id) && LiveMatch(db, r, id)
    ensures var was, now := db.elections[id], Resolve(db, r).1.elections[id];
      && now == was.(county := now.county, municipality := now.municipality)
      && now.county == (if Given(was.county).Some? || Given(r.county).None? then was.county else Some(Upper(r.county.value)))
      && now.municipality == (if Given(was.municipality).Some? || Given(r.municipality).None? then was.municipality else r.municipality)
  {
    var m := Matches(db.elections, LookupName(r), r.date);
    hide LookupKey, CollapseStrip, Lower, StoredName;
    assert id in m;
    assert |m| == 1 ==> m == {Only(m)};
    assert |m| != 0;
  }

  /** A created row is live, of the request's date and normalised name, and keeps the name as it was given. */
  lemma {:induction false} ResolveCreates(db: Db, r: Request)
    requires forall x :: !LiveMatch(db, r, x)
    ensures var id, after := Resolve(db, r).0, Resolve(db, r).1; id == Some(db.nextId) && db.nextId in after.elections
    ensures var e := Resolve(db, r).1.elections[db.nextId];
      && Lower(e.name) == LookupName(r) && e.date == r.date && !e.deleted
      && e.electionType == (if Given(r.electionType).Some? then r.electionType.value else "general")
      && e.sourceName == Some(CollapseStrip(r.name))
      && e.county == (if Given(r.county).Some? then Some(Upper(r.county.value)) else None)
      && e.municipality == r.municipality
  {
    NewElectionMatches(r);
    var m := Matches(db.elections, LookupName(r), r.date);
    hide LookupKey, CollapseStrip, Lower, StoredName;
    assert forall x :: x in m ==> LiveMatch(db, r, x);
    assert m == {};
  }

  /** Upper-casing changes the small letters, each to its capital. */
  lemma {:induction false} UpperLetters(s: string, i: nat)
    requires i < |s|
    ensures if 'a' <= s[i] <= 'z' then 'A' <= Upper(s)[i] <= 'Z' && Upper(s)[i] - 'A' == s[i] - 'a' else Upper(s)[i] == s[i]
  {
  }

  // ---------------------------------------------------------------- the cache

  predicate Filled(e: Election, k: CacheKey) {
    (k.2 != "" ==> Truthy(e.county)) && (k.3 != "" ==> Truthy(e.municipality))
  }

  /** Every cached key has exactly one live row, already backfilled for that key. */
  ghost predicate CacheCoherent(t: Elections, cache: map<CacheKey, Id>) {
    forall k :: k in cache ==>
      Matches(t, k.0, k.1) == {cache[k]} && cache[k] in t && Filled(t[cache[k]], k)
  }

  /** A cache hit returns what the uncached resolution returns, which would change nothing. */
  lemma {:induction false} CacheHit(db: Db, cache: map<CacheKey, Id>, r: Request)
    requires CacheCoherent(db.elections, cache) && CacheKeyOf(r) in cache
    ensures Resolve(db, r) == (Some(cache[CacheKeyOf(r)]), db)
  {
    var id := cache[CacheKeyOf(r)];
    assert Only({id}) == id;
    assert Backfilled(db.elections[id], r) == db.elections[id];
    assert db.elections[id := db.elections[id]] == db.elections;
  }

  lemma {:induction false} ResolveKeepsFilled(db: Db, r: Request, id: Id, k: CacheKey)
    requires db.Valid() && id in db.elections && Filled(db.elections[id], k)
    ensures id in Resolve(db, r).1.elections && Filled(Resolve(db, r).1.elections[id], k)
  {
  }

  /** Resolution keeps a coherent cache coherent, also with the new entry added. */
  lemma {:induction false} CacheStaysCoherent(db: Db, cache: map<CacheKey, Id>, r: Request)
    requires db.Valid() && CacheCoherent(db.elections, cache)
    ensures var (id, after) := Resolve(db, r);
      CacheCoherent(after.elections, cache) &&
      (id.Some? ==> CacheCoherent(after.elections, cache[CacheKeyOf(r) := id.value]))
  {
    var (id, after) := Resolve(db, r);
    hide LookupKey, StoredName, CollapseStrip, Lower;
    forall k | k in cache
      ensures Matches(after.elections, k.0, k.1) == {cache[k]} && cache[k] in after.elections
      ensures Filled(after.elections[cache[k]], k)
    {
      ResolveMatches(db, r, k.0, k.1);
      ResolveKeepsFilled(db, r, cache[k], k);
      assert cache[k] in Matches(db.elections, k.0, k.1);
      assert cache[k] in Matches(after.elections, k.0, k.1);
    }
    if id.Some? {
      ResolveMatches(db, r, LookupName(r), r.date);
      assert id.value in Matches(after.elections, LookupName(r), r.date);
      assert Filled(after.elections[id.value], CacheKeyOf(r));
    }
  }

  // ---------------------------------------------------------------- sequences of resolutions

  /** Two successful calls return the same id exactly when normalised name and date agree. */
  lemma {:induction false} SameIdIffSameKey(db: Db, rs: seq<Request>, i: nat, j: nat)
    requires db.Valid() && i < |rs| && j < |rs|
    ensures |ResolveAll(db, rs).0| == |rs|
    ensures ResolveAll(db, rs).0[i].Some? && ResolveAll(db, rs).0[j].Some? ==>
              (ResolveAll(db, rs).0[i] == ResolveAll(db, rs).0[j]
               <==> LookupName(rs[i]) == LookupName(rs[j]) && rs[i].date == rs[j].date)
  {
    ResolvedStays(db, rs, i);
    ResolvedStays(db, rs, j);
    var (ids, after) := ResolveAll(db, rs);
    hide LookupKey, CollapseStrip;
    if ids[i].Some? && ids[j].Some? {
      assert ids[i].value in Matches(after.elections, LookupName(rs[i]), rs[i].date);
      assert ids[j].value in Matches(after.elections, LookupName(rs[j]), rs[j].date);
    }
  }

  /** Once resolved, a key keeps its single live row. */
  lemma {:induction false} ResolvedStays(db: Db, rs: seq<Request>, i: nat)
    requires db.Valid() && i < |rs|
    ensures |ResolveAll(db, rs).0| == |rs| && ResolveAll(db, rs).1.Valid()
    ensures ResolveAll(db, rs).0[i].Some? ==>
              Matches(ResolveAll(db, rs).1.elections, LookupName(rs[i]), rs[i].date) == {ResolveAll(db, rs).0[i].value}
    decreases |rs|
  {
    var init, last := rs[..|rs| - 1], rs[|rs| - 1];
    ResolveAllValid(db, init);
    var (ids, before) := ResolveAll(db, init);
    ResolveMatches(before, last, LookupName(rs[i]), rs[i].date);
    if i < |rs| - 1 {
      ResolvedStays(db, init, i);
      hide LookupKey, CollapseStrip;
      assert init[i] == rs[i];
      if ids[i].Some? && LookupName(rs[i]) == LookupName(last) && rs[i].date == last.date {
        var m := Matches(before.elections, LookupName(last), last.date);
        assert m == {ids[i].value};
        assert Resolve(before, last).0 == Some(Only(m));
      }
    }
  }

  lemma {:induction false} ResolveAllValid(db: Db, rs: seq<Request>)
    requires db.Valid()
    ensures |ResolveAll(db, rs).0| == |rs| && ResolveAll(db, rs).1.Valid()
  {
    if rs != [] {
      ResolveAllValid(db, rs[..|rs| - 1]);
      ResolveMatches(ResolveAll(db, rs[..|rs| - 1]).1, rs[|rs| - 1], "", 0);
    }
  }

  // ---------------------------------------------------------------- the service

  class ElectionResolver {
    var elections: Elections
    var nextId: Id
    var cache: map<CacheKey, Id>

    ghost function Value(): Db
      reads this
    {
      Db(elections, nextId)
    }

    ghost predicate Valid()
      reads this
    {
      Value().Valid() && CacheCoherent(elections, cache)
    }

    constructor (db: Db)
      requires db.Valid()
      ensures Valid() && Value() == db && cache == map[]
    {
      elections, nextId, cache := db.elections, db.nextId, map[];
    }

    /** `_resolve_election`, cache included, does exactly what the uncached resolution does. */
    method ResolveElection(r: Request) returns (id: Option<Id>)
      requires Valid()
      modifies this
      ensures Valid()
      ensures (id, Value()) == Resolve(old(Value()), r)
    {
      hide LookupKey, StoredName, CollapseStrip, Lower;
      var key := CacheKeyOf(r);
      if key in cache {
        CacheHit(Value(), cache, r);
        return Some(cache[key]);
      }
      CacheStaysCoherent(Value(), cache, r);
      ResolveMatches(Value(), r, "", 0);
      var matches := Matches(elections, key.0, r.date);
      if |matches| > 1 {
        return None;
      }
      if |matches| == 1 {
        var existing := Only(matches);
        var e := elections[existing];
        if Truthy(r.county) && !Truthy(e.county) {
          e := e.(county := Some(Upper(r.county.value)));
        }
        if Truthy(r.municipality) && !Truthy(e.municipality) {
          e := e.(municipality := r.municipality);
        }
        elections := elections[existing := e];
        cache := cache[key := existing];
        return Some(existing);
      }
      var newId := nextId;
      elections, nextId := elections[newId := NewElection(r)], nextId + 1;
      cache := cache[key := newId];
      return Some(newId);
    }

    /** `uuid.uuid4()`. */
    method DrawId() returns (id: Id)
      requires Valid()
      modifies `nextId
      ensures Valid() && id == old(nextId) && nextId == id + 1
    {
      id := nextId;
      nextId := nextId + 1;
    }

    /** Any sequence of lookups: same ids and same table as without a cache. */
    method ResolveEach(rs: seq<Request>) returns (ids: seq<Option<Id>>)
      requires Valid()
      modifies this
      ensures Valid()
      ensures (ids, Value()) == ResolveAll(old(Value()), rs)
    {
      hide Resolve;
      ids := [];
      for i := 0 to |rs|
        invariant Valid()
        invariant (ids, Value()) == ResolveAll(old(Value()), rs[..i])
      {
        var id := ResolveElection(rs[i]);
        ids := ids + [id];
        assert rs[..i + 1][..i] == rs[..i];
      }
      assert rs[..|rs|] == rs;
    }
  }
}
