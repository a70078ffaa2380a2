/** Value types and sequence facts shared by the component models. */
module Prelude {

  datatype Option<+T> = None | Some(value: T) {
    function GetOr(default: T): T {
      if Some? then value else default
    }
  }

  /** The elements of `s` that satisfy `p`, in order. */
  function Filter<T(!new)>(p: T -> bool, s: seq<T>): seq<T>
  {
    if s == [] then []
    else if p(s[0]) then [s[0]] + Filter(p, s[1..])
    else Filter(p, s[1..])
  }

  lemma {:induction false} FilterMembers<T(!new)>(p: T -> bool, s: seq<T>)
    ensures forall x :: x in Filter(p, s) <==> x in s && p(x)
  {
    if s != [] {
      FilterMembers(p, s[1..]);
      assert forall x :: x in s <==> x == s[0] || x in s[1..];
    }
  }

  lemma {:induction false} FilterConcat<T(!new)>(p: T -> bool, a: seq<T>, b: seq<T>)
    ensures Filter(p, a + b) == Filter(p, a) + Filter(p, b)
  {
    if a == [] {
      assert a + b == b;
    } else {
      FilterConcat(p, a[1..], b);
      assert (a + b)[0] == a[0] && (a + b)[1..] == a[1..] + b;
      ConcatAssoc([a[0]], Filter(p, a[1..]), Filter(p, b));
    }
  }

  lemma {:induction false} FilterAll<T(!new)>(p: T -> bool, s: seq<T>)
    requires forall i :: 0 <= i < |s| ==> p(s[i])
    ensures Filter(p, s) == s
  {
    if s != [] {
      FilterAll(p, s[1..]);
      assert s == [s[0]] + s[1..];
    }
  }

  lemma {:induction false} FilterNone<T(!new)>(p: T -> bool, s: seq<T>)
    requires forall i :: 0 <= i < |s| ==> !p(s[i])
    ensures Filter(p, s) == []
  {
    if s != [] {
      FilterNone(p, s[1..]);
    }
  }

  lemma {:induction false} FilterSuffix<T(!new)>(p: T -> bool, a: seq<T>, b: seq<T>)
    requires forall i :: 0 <= i < |a| ==> !p(a[i])
    requires forall i :: 0 <= i < |b| ==> p(b[i])
    ensures Filter(p, a + b) == b
  {
    hide Filter;
    FilterNone(p, a);
    FilterAll(p, b);
    FilterConcat(p, a, b);
  }

  function Take<T>(s: seq<T>, n: nat): seq<T> {
    if n <= |s| then s[..n] else s
  }

  lemma {:induction false} ConcatAssoc<T>(a: seq<T>, b: seq<T>, c: seq<T>)
    ensures (a + b) + c == a + (b + c)
  {
  }

  ghost predicate Distinct<T>(s: seq<T>) {
    forall i, j :: 0 <= i < j < |s| ==> s[i] != s[j]
  }

  lemma {:induction false} SingletonElements<T>(s: set<T>)
    requires |s| == 1
    ensures exists x :: s == {x}
  {
    var x :| x in s;
    assert |s - {x}| == 0;
    assert s == {x};
  }

  function Only<T>(s: set<T>): (x: T)
    requires |s| == 1
    ensures s == {x}
  {
    SingletonElements(s);
    var x :| s == {x};
    x
  }

  /** The single match, if there is exactly one. */
  function OneOrNone<T(==, !new)>(s: set<T>): (r: Option<T>)
    ensures r.Some? ==> s == {r.value}
    ensures r.None? ==> forall x :: s != {x}
  {
    if |s| == 1 then Some(Only(s)) else None
  }

  function Elements<T>(s: seq<T>): (r: set<T>)
    ensures (forall x :: x in s ==> x in r) && forall x :: x in r ==> x in s
  {
    set x | x in s
  }

  /** PostgreSQL rejects an INSERT ... ON CONFLICT DO UPDATE that would touch a row twice. */
  predicate StatementAccepted<T(==)>(keys: seq<T>) {
    |Elements(keys)| == |keys|
  }

  lemma {:induction false} AcceptedIffDistinct<T>(keys: seq<T>)
    ensures StatementAccepted(keys) <==> Distinct(keys)
    ensures |Elements(keys)| <= |keys|
  {
    if keys != [] {
      var rest := keys[1..];
      AcceptedIffDistinct(rest);
      var A, B := Elements(rest), Elements(keys);
      assert B == A + {keys[0]};
      if j :| 0 <= j < |rest| && rest[j] == keys[0] {
        assert keys[j + 1] == keys[0] && B == A;
      } else {
        assert keys[0] !in rest;
        assert |B| == |A| + 1;
        assert forall i :: 0 < i < |keys| ==> keys[i] == rest[i - 1];
        if !Distinct(rest) {
          var i, j :| 0 <= i < j < |rest| && rest[i] == rest[j];
          assert keys[i + 1] == keys[j + 1];
        }
      }
    }
  }

  // ---------------------------------------------------------------- failures at awaited calls

  /** What the environment does at one awaited call; `applied` tells whether a failing COMMIT took effect. */
  datatype Fault = Proceed | Raise(applied: bool) | Kill(applied: bool)

  type Schedule = nat -> Fault

  ghost predicate NoFault(schedule: Schedule) {
    forall n :: schedule(n).Proceed?
  }

  datatype Exit = Done | Threw | Died

  function ExitOf(f: Fault): Exit
    requires !f.Proceed?
  {
    if f.Raise? then Threw else Died
  }
}
