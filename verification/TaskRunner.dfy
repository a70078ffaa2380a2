/**
 The in-process task runner as interleaved steps on one event loop: each step runs a
 coroutine from one suspension point to the next. `src/voter_api/core/background.py`, 53-121.

 The semaphore is asyncio's: waiters queue up, a released permit is handed to the first
 waiter that has none yet, and that waiter leaves the queue only when it resumes. Tasks are
 not cancelled.
 */
module TaskRunner {
  import opened Prelude

  type Id = nat

  const PERMITS := 2

  datatype Status = Pending | Running | Completed | Failed

  /** Where a task stands: not begun, queued, handed a permit, inside the semaphore, finished. */
  datatype Phase = Created | Waiting | Granted | Active | Finished

  datatype State = State(jobs: map<Id, Status>, phases: map<Id, Phase>, free: nat, waiters: seq<Id>) {
    predicate In(id: Id, p: Phase) {
      id in phases && phases[id] == p
    }

    function Move(id: Id, p: Phase): State {
      this.(phases := phases[id := p])
    }

    function Note(id: Id, status: Status): State {
      this.(jobs := jobs[id := status])
    }
  }

  const IDLE := State(map[], map[], PERMITS, [])

  datatype Event = Submit | Begin | Resume | Finish(ok: bool)

  datatype Step = Step(id: Id, event: Event)

  function FirstWaiting(waiters: seq<Id>, phases: map<Id, Phase>): (r: Option<Id>)
    ensures r.Some? ==> r.value in waiters && r.value in phases && phases[r.value] == Waiting
    ensures r.None? ==> forall w :: w in waiters && w in phases ==> phases[w] != Waiting
  {
    if waiters == [] then None
    else if waiters[0] in phases && phases[waiters[0]] == Waiting then Some(waiters[0])
    else FirstWaiting(waiters[1..], phases)
  }

  /** `_wake_up_next`: the first waiter without a permit gets one. */
  function Wake(s: State): State
    requires s.free > 0
  {
    match FirstWaiting(s.waiters, s.phases)
    case None => s
    case Some(w) => s.Move(w, Granted).(free := s.free - 1)
  }

  /** A resumed waiter hands on every permit that is still free. */
  function WakeAll(s: State): State
    decreases s.free
  {
    if s.free == 0 || FirstWaiting(s.waiters, s.phases).None? then s else WakeAll(Wake(s))
  }

  function Without(ids: seq<Id>, id: Id): seq<Id> {
    if ids == [] then [] else if ids[0] == id then ids[1..] else [ids[0]] + Without(ids[1..], id)
  }

  predicate Enabled(s: State, step: Step) {
    match step.event
    case Submit => step.id !in s.jobs && step.id !in s.phases
    case Begin => s.In(step.id, Created)
    case Resume => s.In(step.id, Granted)
    case Finish(_) => s.In(step.id, Active)
  }

  /** The step, and the job whose coroutine it starts, if any. */
  function Perform(s: State, step: Step): (State, Option<Id>)
    requires Enabled(s, step)
  {
    var id := step.id;
    match step.event
    case Submit => (s.Note(id, Pending).Move(id, Created), None)
    case Begin =>
      if s.free == 0 || s.waiters != [] then (s.Move(id, Waiting).(waiters := s.waiters + [id]), None)
      else (s.Move(id, Active).Note(id, Running).(free := s.free - 1), Some(id))
    case Resume =>
      (WakeAll(s.Move(id, Active).(waiters := Without(s.waiters, id))).Note(id, Running), Some(id))
    case Finish(ok) =>
      (Wake(s.Move(id, Finished).Note(id, if ok then Completed else Failed).(free := s.free + 1)), None)
  }

  /** Any interleaving: steps that are not enabled do not happen. */
  function Run(s: State, steps: seq<Step>): (r: (State, seq<Option<Id>>))
    ensures |r.1| == |steps|
    decreases |steps|
  {
    if steps == [] then (s, [])
    else
      var (next, started) := if Enabled(s, steps[0]) then Perform(s, steps[0]) else (s, None);
      var (last, more) := Run(next, steps[1..]);
      (last, [started] + more)
  }

  // ---------------------------------------------------------------- what every interleaving keeps

  function Ids(s: State, p: Phase): set<Id> {
    set id | id in s.phases && s.phases[id] == p
  }

  predicate Matches(p: Phase, status: Status) {
    match p
    case Created => status == Pending
    case Waiting => status == Pending
    case Granted => status == Pending
    case Active => status == Running
    case Finished => status == Completed || status == Failed
  }

  ghost predicate QueueSound(s: State) {
    && Distinct(s.waiters)
    && (forall w :: w in s.waiters ==> s.In(w, Waiting) || s.In(w, Granted))
    && (forall id :: s.In(id, Waiting) || s.In(id, Granted) ==> id in s.waiters)
  }

  ghost predicate Balanced(s: State) {
    s.free + |Ids(s, Active)| + |Ids(s, Granted)| == PERMITS
  }

  ghost predicate Recorded(s: State) {
    s.jobs.Keys == s.phases.Keys && forall id :: id in s.jobs ==> Matches(s.phases[id], s.jobs[id])
  }

  /** A free permit is not forgotten: while a task waits for one, some task holds a grant it will pass on. */
  ghost predicate NoLostWakeup(s: State) {
    s.free > 0 && Ids(s, Waiting) != {} ==> Ids(s, Granted) != {}
  }

  ghost predicate Sound(s: State) {
    Recorded(s) && QueueSound(s) && Balanced(s) && NoLostWakeup(s)
  }

  lemma {:induction false} MovedIds(s: State, id: Id, p: Phase, q: Phase)
    requires s.In(id, p) && p != q
    ensures var t := s.Move(id, q);
      && Ids(t, q) == Ids(s, q) + {id} && |Ids(t, q)| == |Ids(s, q)| + 1
      && Ids(t, p) == Ids(s, p) - {id} && |Ids(t, p)| == |Ids(s, p)| - 1
      && forall r :: r != p && r != q ==> Ids(t, r) == Ids(s, r)
  {
    var t := s.Move(id, q);
    assert Ids(t, q) == Ids(s, q) + {id} && id !in Ids(s, q);
    assert Ids(t, p) == Ids(s, p) - {id} && id in Ids(s, p);
    forall r | r != p && r != q ensures Ids(t, r) == Ids(s, r) { }
  }

  /** Handing a free permit to a waiter keeps the balance and the queue. */
  lemma {:induction false} WakeSound(s: State)
    requires Recorded(s) && QueueSound(s) && s.free > 0 && Balanced(s)
    ensures var t := Wake(s); Recorded(t) && QueueSound(t) && Balanced(t) && t.jobs == s.jobs
    ensures Ids(Wake(s), Waiting) != {} ==> Ids(Wake(s), Granted) != {}
  {
    var first := FirstWaiting(s.waiters, s.phases);
    if first.Some? {
      MovedIds(s, first.value, Waiting, Granted);
      assert first.value in Ids(Wake(s), Granted);
    } else {
      forall id | id in Ids(s, Waiting) ensures false {
        assert s.In(id, Waiting);
      }
    }
  }

  lemma {:induction false} WakeAllSound(s: State)
    requires Recorded(s) && QueueSound(s) && Balanced(s)
    ensures var t := WakeAll(s); Recorded(t) && QueueSound(t) && Balanced(t) && t.jobs == s.jobs
    ensures WakeAll(s).free > 0 ==> Ids(WakeAll(s), Waiting) == {}
    decreases s.free
  {
    if s.free == 0 {
    } else if FirstWaiting(s.waiters, s.phases).None? {
      forall id | id in Ids(s, Waiting) ensures false {
        assert s.In(id, Waiting);
      }
    } else {
      WakeSound(s);
      WakeAllSound(Wake(s));
    }
  }

  lemma {:induction false} NewIds(s: State, id: Id, p: Phase)
    requires id !in s.phases
    ensures var t := s.Move(id, p);
      && Ids(t, p) == Ids(s, p) + {id} && |Ids(t, p)| == |Ids(s, p)| + 1
      && forall r :: r != p ==> Ids(t, r) == Ids(s, r)
  {
    var t := s.Move(id, p);
    assert Ids(t, p) == Ids(s, p) + {id} && id !in Ids(s, p);
    forall r | r != p ensures Ids(t, r) == Ids(s, r) { }
  }

  lemma {:induction false} WithoutKeeps(ids: seq<Id>, id: Id)
    requires Distinct(ids) && id in ids
    ensures Distinct(Without(ids, id)) && forall x :: x in Without(ids, id) <==> x in ids && x != id
  {
    if ids[0] == id {
      assert forall x :: x in ids <==> x == ids[0] || x in ids[1..];
    } else {
      assert forall x :: x in ids <==> x == ids[0] || x in ids[1..];
      WithoutKeeps(ids[1..], id);
      var r := Without(ids[1..], id);
      forall i, j | 0 <= i < j < |r| + 1 ensures ([ids[0]] + r)[i] != ([ids[0]] + r)[j] {
        if i == 0 {
          assert r[j - 1] in r;
        }
      }
    }
  }

  lemma {:induction false} SubmitSound(s: State, id: Id)
    requires Sound(s) && id !in s.jobs && id !in s.phases
    ensures Sound(s.Note(id, Pending).Move(id, Created))
  {
    NewIds(s, id, Created);
    var t := s.Note(id, Pending).Move(id, Created);
    forall p ensures Ids(t, p) == Ids(s.Move(id, Created), p) { }
  }

  lemma {:induction false} QueueUpSound(s: State, id: Id)
    requires Sound(s) && s.In(id, Created) && (s.free == 0 || s.waiters != [])
    ensures Sound(s.Move(id, Waiting).(waiters := s.waiters + [id]))
  {
    MovedIds(s, id, Created, Waiting);
    var t := s.Move(id, Waiting).(waiters := s.waiters + [id]);
    QueuedUp(s, id);
    hide QueueSound, State.In;
    forall p ensures Ids(t, p) == Ids(s.Move(id, Waiting), p) { }
  }

  lemma {:induction false} QueuedUp(s: State, id: Id)
    requires Sound(s) && s.In(id, Created) && (s.free == 0 || s.waiters != [])
    ensures QueueSound(s.Move(id, Waiting).(waiters := s.waiters + [id]))
    ensures s.free > 0 ==> Ids(s, Granted) != {}
  {
    assert id !in s.waiters;
    if s.waiters != [] {
      var w := s.waiters[0];
      assert w in s.waiters;
      assert w in Ids(s, Waiting) || w in Ids(s, Granted);
    }
  }

  lemma {:induction false} EnterSound(s: State, id: Id)
    requires Sound(s) && s.In(id, Created) && s.free > 0 && s.waiters == []
    ensures Sound(s.Move(id, Active).Note(id, Running).(free := s.free - 1))
  {
    MovedIds(s, id, Created, Active);
    var t := s.Move(id, Active).Note(id, Running).(free := s.free - 1);
    forall p ensures Ids(t, p) == Ids(s.Move(id, Active), p) { }
    forall w | w in Ids(s, Waiting) ensures w in s.waiters {
      assert s.In(w, Waiting);
    }
  }

  /** `WakeAll` does not look at the statuses. */
  lemma {:induction false} WakeAllNotes(s: State, id: Id, status: Status)
    ensures WakeAll(s.Note(id, status)) == WakeAll(s).Note(id, status)
    decreases s.free
  {
    if s.free != 0 && FirstWaiting(s.waiters, s.phases).Some? {
      WakeAllNotes(Wake(s), id, status);
    }
  }

  lemma {:induction false} ResumeSound(s: State, id: Id)
    requires Sound(s) && s.In(id, Granted)
    ensures Sound(WakeAll(s.Move(id, Active).(waiters := Without(s.waiters, id))).Note(id, Running))
  {
    var t := s.Move(id, Active).(waiters := Without(s.waiters, id));
    ResumedParts(s, id);
    WakeAllNotes(t, id, Running);
    WakeAllSound(t.Note(id, Running));
  }

  lemma {:induction false} ResumedParts(s: State, id: Id)
    requires Sound(s) && s.In(id, Granted)
    ensures var u := s.Move(id, Active).(waiters := Without(s.waiters, id)).Note(id, Running);
      Recorded(u) && QueueSound(u) && Balanced(u)
  {
    MovedIds(s, id, Granted, Active);
    WithoutKeeps(s.waiters, id);
    var u := s.Move(id, Active).(waiters := Without(s.waiters, id)).Note(id, Running);
    forall p ensures Ids(u, p) == Ids(s.Move(id, Active), p) { }
  }

  /** At most two coroutines run, or are about to, at any time. */
  lemma {:induction false} TwoAtATime(s: State)
    requires Sound(s)
    ensures |set id | id in s.phases && s.phases[id] == Active| + |set id | id in s.phases && s.phases[id] == Granted| + s.free == 2
    ensures forall id :: id in s.jobs && s.jobs[id] == Running ==> id in s.phases && s.phases[id] == Active
  {
    assert (set id | id in s.phases && s.phases[id] == Active) == Ids(s, Active);
    assert (set id | id in s.phases && s.phases[id] == Granted) == Ids(s, Granted);
  }

  /** The order of arrival does not look at statuses. */
  lemma {:induction false} SameQueue(s: State, t: State)
    requires t.phases == s.phases && t.waiters == s.waiters
    ensures (InOrder(t) <==> InOrder(s)) && (QueueSound(t) <==> QueueSound(s))
  {
  }

  lemma {:induction false} FinishSound(s: State, id: Id, status: Status)
    requires Sound(s) && s.In(id, Active) && (status == Completed || status == Failed)
    ensures Sound(Wake(s.Move(id, Finished).Note(id, status).(free := s.free + 1)))
  {
    MovedIds(s, id, Active, Finished);
    var t := s.Move(id, Finished).Note(id, status).(free := s.free + 1);
    forall p ensures Ids(t, p) == Ids(s.Move(id, Finished), p) { }
    WakeSound(t);
  }

  lemma {:induction false} PerformSound(s: State, step: Step)
    requires Sound(s) && Enabled(s, step)
    ensures Sound(Perform(s, step).0)
  {
    hide Sound, WakeAll, Wake;
    match step.event
    case Submit => SubmitSound(s, step.id);
    case Begin => if s.free == 0 || s.waiters != [] { QueueUpSound(s, step.id); } else { EnterSound(s, step.id); }
    case Resume => ResumeSound(s, step.id);
    case Finish(ok) => FinishSound(s, step.id, if ok then Completed else Failed);
  }

  /**
   In every interleaving: held and free permits add up to two, so at most two coroutines run
   at once; statuses match; nobody waits while a permit lies free unclaimed.
   */
  lemma {:induction false} RunSound(s: State, steps: seq<Step>)
    requires Sound(s)
    ensures Sound(Run(s, steps).0) && |Ids(Run(s, steps).0, Active)| <= PERMITS
    decreases |steps|
  {
    if steps != [] {
      var next := if Enabled(s, steps[0]) then Perform(s, steps[0]).0 else s;
      if Enabled(s, steps[0]) { PerformSound(s, steps[0]); }
      hide Perform, Sound, Enabled;
      RunSound(next, steps[1..]);
    }
  }

  lemma {:induction false} IdleSound()
    ensures Sound(IDLE)
  {
    forall p ensures Ids(IDLE, p) == {} { }
  }

  /** No deadlock: as long as a job is unfinished some step is enabled. */
  lemma {:induction false} NeverStuck(s: State, id: Id) returns (step: Step)
    requires Sound(s) && id in s.jobs && s.jobs[id] in {Pending, Running}
    ensures step.id in s.jobs && Enabled(s, step) && !step.event.Submit?
  {
    if Ids(s, Granted) != {} {
      var w :| w in Ids(s, Granted);
      step := Step(w, Resume);
    } else if Ids(s, Active) != {} {
      var w :| w in Ids(s, Active);
      step := Step(w, Finish(true));
    } else {
      assert s.free == PERMITS;
      assert id !in Ids(s, Waiting);
      step := Step(id, Begin);
    }
  }

  // ---------------------------------------------------------------- first come, first served

  /** Permits are handed out in the order of arrival: nobody is granted one before an earlier waiter. */
  ghost predicate InOrder(s: State) {
    forall i, j :: 0 <= i < j < |s.waiters| && s.In(s.waiters[j], Granted) ==> s.In(s.waiters[i], Granted)
  }

  lemma {:induction false} FirstWaitingIsFirst(waiters: seq<Id>, phases: map<Id, Phase>) returns (i: nat)
    requires FirstWaiting(waiters, phases).Some?
    ensures i < |waiters| && waiters[i] == FirstWaiting(waiters, phases).value
    ensures forall j :: 0 <= j < i ==> !(waiters[j] in phases && phases[waiters[j]] == Waiting)
  {
    if waiters[0] in phases && phases[waiters[0]] == Waiting {
      i := 0;
    } else {
      i := FirstWaitingIsFirst(waiters[1..], phases);
      i := i + 1;
    }
  }

  lemma {:induction false} WakeInOrder(s: State)
    requires QueueSound(s) && InOrder(s) && s.free > 0
    ensures InOrder(Wake(s))
  {
    if FirstWaiting(s.waiters, s.phases).Some? {
      var i := FirstWaitingIsFirst(s.waiters, s.phases);
      hide FirstWaiting;
      var t := s.Move(s.waiters[i], Granted);
      forall k, l | 0 <= k < l < |t.waiters| && t.In(t.waiters[l], Granted) ensures t.In(t.waiters[k], Granted) {
        assert t.waiters[k] in s.waiters && t.waiters[l] in s.waiters;
        assert k < i ==> s.In(s.waiters[k], Granted);
        assert l != i ==> s.waiters[l] != s.waiters[i];
      }
    }
  }

  lemma {:induction false} WakeAllInOrder(s: State)
    requires Recorded(s) && QueueSound(s) && Balanced(s) && InOrder(s)
    ensures InOrder(WakeAll(s))
    decreases s.free
  {
    if s.free != 0 && FirstWaiting(s.waiters, s.phases).Some? {
      WakeInOrder(s);
      WakeSound(s);
      hide InOrder, QueueSound, Balanced, Recorded;
      WakeAllInOrder(Wake(s));
    }
  }

  lemma {:induction false} WithoutIsSlices(ids: seq<Id>, id: Id) returns (k: nat)
    requires id in ids
    ensures k < |ids| && ids[k] == id && Without(ids, id) == ids[..k] + ids[k + 1..]
  {
    if ids[0] == id {
      k := 0;
    } else {
      k := WithoutIsSlices(ids[1..], id);
      k := k + 1;
      assert ids[..k] == [ids[0]] + ids[1..][..k - 1];
    }
  }

  lemma {:induction false} LeaveInOrder(s: State, id: Id)
    requires QueueSound(s) && InOrder(s) && s.In(id, Granted)
    ensures InOrder(s.Move(id, Active).(waiters := Without(s.waiters, id)))
  {
    var k := WithoutIsSlices(s.waiters, id);
    var t := s.Move(id, Active).(waiters := Without(s.waiters, id));
    forall i, j | 0 <= i < j < |t.waiters| && t.In(t.waiters[j], Granted) ensures t.In(t.waiters[i], Granted) {
      var p, q := if i < k then i else i + 1, if j < k then j else j + 1;
      assert t.waiters[i] == s.waiters[p] && t.waiters[j] == s.waiters[q] && p < q;
      assert s.waiters[p] != s.waiters[k];
    }
  }

  lemma {:induction false} ArriveInOrder(s: State, id: Id)
    requires QueueSound(s) && InOrder(s) && s.In(id, Created)
    ensures InOrder(s.Move(id, Waiting).(waiters := s.waiters + [id])) && InOrder(s.Move(id, Active))
  {
    assert forall w :: w in s.waiters ==> w != id;
  }

  lemma {:induction false} FinishInOrder(s: State, id: Id)
    requires QueueSound(s) && InOrder(s) && s.In(id, Active)
    ensures QueueSound(s.Move(id, Finished)) && InOrder(s.Move(id, Finished))
  {
    assert forall w :: w in s.waiters ==> w != id;
  }

  lemma {:induction false} SubmitInOrder(s: State, id: Id)
    requires QueueSound(s) && InOrder(s) && id !in s.phases
    ensures InOrder(s.Move(id, Created))
  {
  }

  /** Every step keeps the order of arrival. */
  lemma {:induction false} PerformInOrder(s: State, step: Step)
    requires Sound(s) && InOrder(s) && Enabled(s, step)
    ensures InOrder(Perform(s, step).0)
  {
    var id := step.id;
    assert QueueSound(s);
    hide InOrder, Sound, QueueSound, Wake, WakeAll, Recorded, Balanced;
    match step.event
    case Submit =>
      SubmitInOrder(s, id);
      SameQueue(s.Move(id, Created), Perform(s, step).0);
    case Begin =>
      ArriveInOrder(s, id);
      if s.free > 0 && s.waiters == [] {
        SameQueue(s.Move(id, Active), Perform(s, step).0);
      }
    case Resume =>
      var t := s.Move(id, Active).(waiters := Without(s.waiters, id));
      LeaveInOrder(s, id);
      ResumedParts(s, id);
      SameQueue(t, t.Note(id, Running));
      WakeAllInOrder(t.Note(id, Running));
      WakeAllNotes(t, id, Running);
    case Finish(ok) =>
      var t := s.Move(id, Finished).Note(id, if ok then Completed else Failed).(free := s.free + 1);
      FinishInOrder(s, id);
      SameQueue(s.Move(id, Finished), t);
      WakeInOrder(t);
  }

  /** In every interleaving permits go to the waiters in the order in which they arrived. */
  lemma {:induction false} RunInOrder(s: State, steps: seq<Step>)
    requires Sound(s) && InOrder(s)
    ensures InOrder(Run(s, steps).0)
    decreases |steps|
  {
    hide Perform, Sound, Enabled, InOrder;
    if steps != [] {
      var next := if Enabled(s, steps[0]) then Perform(s, steps[0]).0 else s;
      if Enabled(s, steps[0]) {
        PerformSound(s, steps[0]);
        PerformInOrder(s, steps[0]);
      }
      RunInOrder(next, steps[1..]);
    }
  }

  // ---------------------------------------------------------------- statuses and starts

  /** How far along its life a status is. */
  function Rank(status: Status): nat {
    match status case Pending => 0 case Running => 1 case Completed => 2 case Failed => 2
  }

  /** Statuses only move PENDING, RUNNING, then COMPLETED or FAILED, one stage a step; final ones stay. */
  ghost predicate Onward(was: State, now: State) {
    forall id :: id in was.jobs ==>
      id in now.jobs && (now.jobs[id] == was.jobs[id] || Rank(was.jobs[id]) < Rank(now.jobs[id]))
  }

  lemma {:induction false} WakeAllJobs(s: State)
    ensures WakeAll(s).jobs == s.jobs && WakeAll(s).phases.Keys == s.phases.Keys
    ensures forall id, p :: s.In(id, p) && p != Waiting ==> WakeAll(s).In(id, p)
    ensures forall id, p :: WakeAll(s).In(id, p) && p != Granted ==> s.In(id, p)
    decreases s.free
  {
    if s.free != 0 && FirstWaiting(s.waiters, s.phases).Some? {
      WakeAllJobs(Wake(s));
    }
  }

  lemma {:induction false} PerformOnward(s: State, step: Step)
    requires Recorded(s) && Enabled(s, step)
    ensures Onward(s, Perform(s, step).0)
    ensures forall id :: id in s.jobs && id != step.id ==> Perform(s, step).0.jobs[id] == s.jobs[id]
    ensures step.id in s.jobs ==> Rank(Perform(s, step).0.jobs[step.id]) <= Rank(s.jobs[step.id]) + 1
  {
    if step.event.Resume? {
      WakeAllJobs(s.Move(step.id, Active).(waiters := Without(s.waiters, step.id)));
      hide WakeAll;
    }
  }

  lemma {:induction false} OnwardTrans(x: State, y: State, z: State)
    requires Onward(x, y) && Onward(y, z)
    ensures Onward(x, z)
  {
  }

  lemma {:induction false} RunOnward(s: State, steps: seq<Step>)
    requires Sound(s)
    ensures Onward(s, Run(s, steps).0)
    decreases |steps|
  {
    if steps != [] {
      var next := if Enabled(s, steps[0]) then Perform(s, steps[0]).0 else s;
      assert Onward(s, s);
      if Enabled(s, steps[0]) {
        PerformSound(s, steps[0]);
        PerformOnward(s, steps[0]);
      }
      hide Perform, Sound, Enabled, Onward;
      RunOnward(next, steps[1..]);
      OnwardTrans(s, next, Run(s, steps).0);
    }
  }

  /** The coroutine's own end decides the final status of its job, and nothing else does. */
  lemma {:induction false} PerformOutcome(s: State, step: Step, id: Id)
    requires Recorded(s) && Enabled(s, step) && id in s.jobs
    ensures var now := Perform(s, step).0;
      && id in now.jobs
      && (now.jobs[id] == Completed <==> s.jobs[id] == Completed || (step.id == id && step.event == Finish(true)))
      && (now.jobs[id] == Failed <==> s.jobs[id] == Failed || (step.id == id && step.event == Finish(false)))
  {
    if step.event.Resume? {
      WakeAllJobs(s.Move(step.id, Active).(waiters := Without(s.waiters, step.id)));
      hide WakeAll;
    }
  }

  /** The run performs `Finish(ok)` for the job: the step is in it, and enabled when its turn comes. */
  ghost predicate Finishes(s: State, steps: seq<Step>, id: Id, ok: bool)
    decreases |steps|
  {
    steps != [] &&
    ((steps[0] == Step(id, Finish(ok)) && Enabled(s, steps[0]))
     || Finishes(if Enabled(s, steps[0]) then Perform(s, steps[0]).0 else s, steps[1..], id, ok))
  }

  /** Over any run a job becomes COMPLETED exactly by returning normally and FAILED exactly by raising. */
  lemma {:induction false} RunOutcome(s: State, steps: seq<Step>, id: Id)
    requires Sound(s) && id in s.jobs
    ensures var now := Run(s, steps).0;
      && id in now.jobs
      && (now.jobs[id] == Completed <==> s.jobs[id] == Completed || Finishes(s, steps, id, true))
      && (now.jobs[id] == Failed <==> s.jobs[id] == Failed || Finishes(s, steps, id, false))
    decreases |steps|
  {
    if steps != [] {
      var next := if Enabled(s, steps[0]) then Perform(s, steps[0]).0 else s;
      if Enabled(s, steps[0]) {
        PerformSound(s, steps[0]);
        PerformOutcome(s, steps[0], id);
      }
      hide Perform, Sound, Enabled;
      RunOutcome(next, steps[1..], id);
    }
  }

  /** The coroutine of this job has been started. */
  predicate HasStarted(s: State, id: Id) {
    s.In(id, Active) || s.In(id, Finished)
  }

  lemma {:induction false} PerformStarts(s: State, step: Step, id: Id)
    requires Enabled(s, step)
    ensures HasStarted(s, id) ==> HasStarted(Perform(s, step).0, id) && Perform(s, step).1 != Some(id)
    ensures !HasStarted(s, id) ==> (HasStarted(Perform(s, step).0, id) <==> Perform(s, step).1 == Some(id))
  {
    if step.event.Resume? {
      var t := s.Move(step.id, Active).(waiters := Without(s.waiters, step.id));
      WakeAllJobs(t);
      var u := WakeAll(t);
      hide WakeAll;
      assert Perform(s, step).0 == u.Note(step.id, Running);
      assert u.In(id, Active) <==> t.In(id, Active);
      assert u.In(id, Finished) <==> t.In(id, Finished);
    } else if step.event.Finish? {
      var t := s.Move(step.id, Finished).(free := s.free + 1);
      assert HasStarted(s, id) <==> HasStarted(t, id);
    }
  }

  /** How often the run starts the job's coroutine. */
  function Starts(started: seq<Option<Id>>, id: Id): nat {
    if started == [] then 0 else (if started[0] == Some(id) then 1 else 0) + Starts(started[1..], id)
  }

  /** Each coroutine starts at most once, and exactly the started ones run or have run. */
  lemma {:induction false} StartsOnce(s: State, steps: seq<Step>, id: Id)
    ensures var (after, started) := Run(s, steps);
      Starts(started, id) + (if HasStarted(s, id) then 1 else 0) == if HasStarted(after, id) then 1 else 0
    decreases |steps|
  {
    if steps != [] {
      var (next, first) := if Enabled(s, steps[0]) then Perform(s, steps[0]) else (s, None);
      if Enabled(s, steps[0]) {
        PerformStarts(s, steps[0], id);
      }
      var more := Run(next, steps[1..]).1;
      assert ([first] + more)[1..] == more;
      hide Perform, Enabled, HasStarted;
      StartsOnce(next, steps[1..], id);
    }
  }

  // ---------------------------------------------------------------- the runner

  class InProcessTaskRunner {
    var jobs: map<Id, Status>
    var phases: map<Id, Phase>
    var free: nat
    var waiters: seq<Id>

    ghost function Value(): State
      reads this
    {
      State(jobs, phases, free, waiters)
    }

    constructor ()
      ensures Value() == IDLE && Sound(Value())
    {
      jobs, phases, free, waiters := map[], map[], PERMITS, [];
      new;
      IdleSound();
    }

    /** `submit_task`: the status is PENDING and its asyncio task is scheduled. */
    method SubmitTask(id: Id)
      requires Sound(Value()) && Enabled(Value(), Step(id, Submit))
      modifies this
      ensures Sound(Value()) && Value() == Perform(old(Value()), Step(id, Submit)).0
    {
      PerformSound(Value(), Step(id, Submit));
      hide Sound;
      jobs, phases := jobs[id := Pending], phases[id := Created];
    }

    /** `_wake_up_next`. */
    method WakeUpNext()
      requires free > 0
      modifies this
      ensures Value() == Wake(old(Value()))
    {
      for i := 0 to |waiters|
        invariant Value() == old(Value())
        invariant FirstWaiting(waiters, phases) == FirstWaiting(waiters[i..], phases)
      {
        if waiters[i] in phases && phases[waiters[i]] == Waiting {
          phases, free := phases[waiters[i] := Granted], free - 1;
          return;
        }
        assert waiters[i..][1..] == waiters[i + 1..];
      }
      assert waiters[|waiters|..] == [];
    }

    /** A scheduled asyncio task begins, up to the semaphore; `started` if it gets in. */
    method BeginTask(id: Id) returns (started: bool)
      requires Sound(Value()) && Enabled(Value(), Step(id, Begin))
      modifies this
      ensures Sound(Value()) && (Value(), if started then Some(id) else None) == Perform(old(Value()), Step(id, Begin))
    {
      PerformSound(Value(), Step(id, Begin));
      hide Sound;
      if free == 0 || waiters != [] {
        phases, waiters := phases[id := Waiting], waiters + [id];
        return false;
      }
      free, phases, jobs := free - 1, phases[id := Active], jobs[id := Running];
      started := true;
    }

    /** A waiter that was handed a permit resumes, passes on what is free and starts its coroutine. */
    method ResumeTask(id: Id)
      requires Sound(Value()) && Enabled(Value(), Step(id, Resume))
      modifies this
      ensures Sound(Value()) && (Value(), Some(id)) == Perform(old(Value()), Step(id, Resume))
    {
      PerformSound(Value(), Step(id, Resume));
      hide Sound;
      phases, waiters := phases[id := Active], Without(waiters, id);
      ghost var t := Value();
      while free > 0 && FirstWaiting(waiters, phases).Some?
        invariant WakeAll(Value()) == WakeAll(t)
        invariant jobs == old(jobs)
        decreases free
      {
        WakeUpNext();
      }
      jobs := jobs[id := Running];
    }

    /** The coroutine returns or raises; the permit is released. */
    method FinishTask(id: Id, ok: bool)
      requires Sound(Value()) && Enabled(Value(), Step(id, Finish(ok)))
      modifies this
      ensures Sound(Value()) && Value() == Perform(old(Value()), Step(id, Finish(ok))).0
    {
      PerformSound(Value(), Step(id, Finish(ok)));
      hide Sound;
      jobs, phases, free := jobs[id := if ok then Completed else Failed], phases[id := Finished], free + 1;
      WakeUpNext();
    }

    /** `get_status`; None stands for the KeyError. */
    method GetStatus(id: Id) returns (status: Option<Status>)
      ensures status == if id in jobs then Some(jobs[id]) else None
    {
      status := if id in jobs then Some(jobs[id]) else None;
    }
  }
}
