/**
 The permits that meter proof requests. A request holds a permit from its admission until its
 response is produced or its handler is dropped; the proving task that it starts on the
 blocking pool is not stopped by dropping the handler.
 */
module Permits {

  datatype Phase = Admitted | Proving | Responded | Refused | Dropped

  /** `running` are the requests whose proving task has started and not ended. */
  datatype State = State(free: nat, requests: map<nat, Phase>, running: set<nat>)

  datatype Event = Arrive(id: nat) | Spawn(id: nat) | TaskEnd(id: nat) | Respond(id: nat) | Drop(id: nat)

  function Initial(capacity: nat): State {
    State(capacity, map[], {})
  }

  predicate In(s: State, id: nat, phase: Phase) {
    id in s.requests && s.requests[id] == phase
  }

  predicate Holding(s: State, id: nat) {
    In(s, id, Admitted) || In(s, id, Proving)
  }

  /**
   Arrive takes a permit if there is one and refuses otherwise. Respond waits for the proving
   task, if one was started. Respond and Drop both give the permit back.
   */
  function Apply(s: State, e: Event): State {
    match e
    case Arrive(id) =>
      if id in s.requests then s
      else if s.free > 0 then s.(free := s.free - 1, requests := s.requests[id := Admitted])
      else s.(requests := s.requests[id := Refused])
    case Spawn(id) =>
      if In(s, id, Admitted) then s.(requests := s.requests[id := Proving], running := s.running + {id}) else s
    case TaskEnd(id) => s.(running := s.running - {id})
    case Respond(id) =>
      if Holding(s, id) && id !in s.running then s.(free := s.free + 1, requests := s.requests[id := Responded]) else s
    case Drop(id) =>
      if Holding(s, id) then s.(free := s.free + 1, requests := s.requests[id := Dropped]) else s
  }

  function Run(capacity: nat, events: seq<Event>): State {
    if events == [] then Initial(capacity)
    else Apply(Run(capacity, events[..|events| - 1]), events[|events| - 1])
  }

  function Holders(s: State): set<nat> {
    set id | id in s.requests && Holding(s, id)
  }

  /** Tasks that still run although their handler has been dropped. */
  function Orphans(s: State): set<nat> {
    set id | id in s.running && In(s, id, Dropped)
  }

  ghost predicate Inv(s: State, capacity: nat) {
    && s.free + |Holders(s)| == capacity
    && forall id :: id in s.running ==> In(s, id, Proving) || In(s, id, Dropped)
  }

  /** The semaphore and the middleware around it, updated in place; `log` is the run so far. */
  class Gate {
    const capacity: nat
    var free: nat
    var requests: map<nat, Phase>
    var running: set<nat>
    ghost var log: seq<Event>

    function Contents(): State
      reads this
    {
      State(free, requests, running)
    }

    /** The gate is in the state of its run, so that what holds of every run holds of it. */
    ghost predicate Valid()
      reads this
    {
      Contents() == Run(capacity, log) && Inv(Contents(), capacity)
    }

    constructor (capacity: nat)
      ensures this.capacity == capacity && Contents() == Initial(capacity) == State(capacity, map[], {})
      ensures Valid() && log == []
    {
      this.capacity, free, requests, running, log := capacity, capacity, map[], {}, [];
      new;
      RunKeepsInv(capacity, []);
    }

    /** try_acquire_owned: never waits. */
    method TryAcquire() returns (ok: bool)
      modifies `free
      ensures ok == (old(free) > 0)
      ensures free == if ok then old(free) - 1 else 0
    {
      ok := free > 0;
      if ok {
        free := free - 1;
      }
    }

    method Release()
      modifies `free
      ensures free == old(free) + 1
    {
      free := free + 1;
    }

    /** Refuses exactly when all permits are held. */
    method Admit(id: nat) returns (ok: bool)
      requires Valid() && id !in requests
      modifies this
      ensures Valid() && log == old(log) + [Arrive(id)]
      ensures Contents() == Apply(old(Contents()), Arrive(id))
      ensures ok <==> In(Contents(), id, Admitted)
      ensures !ok <==> old(free) == 0
      ensures !ok <==> |old(Holders(Contents()))| == capacity
    {
      ok := TryAcquire();
      requests := requests[id := if ok then Admitted else Refused];
      Record(old(Contents()), Arrive(id));
    }

    /** The event that has just been carried out is logged. */
    ghost method Record(before: State, e: Event)
      requires before == Run(capacity, log) && Inv(before, capacity) && Contents() == Apply(before, e)
      modifies `log
      ensures Valid() && log == old(log) + [e]
    {
      hide Apply, Run, Inv, Holders;
      RunOne(capacity, log, e);
      StepKeepsInv(before, capacity, e);
      log := log + [e];
    }

    method Start(id: nat)
      requires Valid() && In(Contents(), id, Admitted)
      modifies this
      ensures Valid() && log == old(log) + [Spawn(id)]
      ensures Contents() == Apply(old(Contents()), Spawn(id)) && In(Contents(), id, Proving) && id in running
      ensures free == old(free)
    {
      requests, running := requests[id := Proving], running + {id};
      Record(old(Contents()), Spawn(id));
    }

    /** The blocking task ends on its own, whether or not anyone still waits for it. */
    method EndTask(id: nat)
      requires Valid()
      modifies `running, `log
      ensures Valid() && log == old(log) + [TaskEnd(id)]
      ensures Contents() == Apply(old(Contents()), TaskEnd(id)) && id !in running
    {
      running := running - {id};
      Record(old(Contents()), TaskEnd(id));
    }

    method Finish(id: nat)
      requires Valid() && Holding(Contents(), id) && id !in running
      modifies this
      ensures Valid() && log == old(log) + [Respond(id)]
      ensures Contents() == Apply(old(Contents()), Respond(id)) && In(Contents(), id, Responded)
      ensures free == old(free) + 1 && running == old(running)
    {
      requests := requests[id := Responded];
      Release();
      Record(old(Contents()), Respond(id));
    }

    method Abandon(id: nat)
      requires Valid() && Holding(Contents(), id)
      modifies this
      ensures Valid() && log == old(log) + [Drop(id)]
      ensures Contents() == Apply(old(Contents()), Drop(id)) && In(Contents(), id, Dropped)
      ensures free == old(free) + 1 && running == old(running)
    {
      requests := requests[id := Dropped];
      Release();
      Record(old(Contents()), Drop(id));
    }
  }

  // ---------- every run ----------

  lemma HoldersStep(s: State, e: Event)
    ensures var s' := Apply(s, e);
      Holders(s') == if Holding(s', e.id) then Holders(s) + {e.id} else Holders(s) - {e.id}
  {
    var s' := Apply(s, e);
    assert forall id: nat :: id != e.id ==> (Holding(s', id) <==> Holding(s, id));
  }

  lemma StepKeepsInv(s: State, capacity: nat, e: Event)
    requires Inv(s, capacity)
    ensures Inv(Apply(s, e), capacity)
  {
    hide Holders;
    HoldersStep(s, e);
    HoldersAre(s, e.id);
    assert e.id in Holders(s) ==> |Holders(s) - {e.id}| == |Holders(s)| - 1;
    assert e.id in Holders(s) ==> Holders(s) + {e.id} == Holders(s);
    assert e.id !in Holders(s) ==> Holders(s) - {e.id} == Holders(s);
  }

  lemma HoldersAre(s: State, id: nat)
    ensures id in Holders(s) <==> Holding(s, id)
  {
  }

  lemma {:induction false} RunKeepsInv(capacity: nat, events: seq<Event>)
    ensures Inv(Run(capacity, events), capacity)
  {
    if events == [] {
      assert Holders(Initial(capacity)) == {};
    } else {
      RunKeepsInv(capacity, events[..|events| - 1]);
      StepKeepsInv(Run(capacity, events[..|events| - 1]), capacity, events[|events| - 1]);
    }
  }

  /** In every run, dropped requests included, free permits and holders make up the capacity. */
  lemma PermitsConserved(capacity: nat, events: seq<Event>)
    ensures var s := Run(capacity, events); s.free + |Holders(s)| == capacity
  {
    RunKeepsInv(capacity, events);
  }

  /** A new request is refused exactly when all permits are held. */
  lemma RefusedIffSpent(capacity: nat, events: seq<Event>, id: nat)
    requires id !in Run(capacity, events).requests
    ensures In(Run(capacity, events + [Arrive(id)]), id, Refused) <==> |Holders(Run(capacity, events))| == capacity
  {
    RunKeepsInv(capacity, events);
    assert (events + [Arrive(id)])[..|events|] == events;
  }

  // ---------- what the phase of a request says about the run ----------

  /** Event k is the arrival of the request. */
  ghost predicate ArrivesAt(capacity: nat, events: seq<Event>, k: nat, id: nat) {
    k < |events| && events[k] == Arrive(id) && id !in Run(capacity, events[..k]).requests
  }

  /** Event k is the response to the request, which holds a permit and waits for no task. */
  ghost predicate RespondsAt(capacity: nat, events: seq<Event>, k: nat, id: nat) {
    && k < |events| && events[k] == Respond(id)
    && Holding(Run(capacity, events[..k]), id) && id !in Run(capacity, events[..k]).running
  }

  /** At event k the client of the request goes away while it holds a permit. */
  ghost predicate DropsAt(capacity: nat, events: seq<Event>, k: nat, id: nat) {
    k < |events| && events[k] == Drop(id) && Holding(Run(capacity, events[..k]), id)
  }

  lemma RunPrefix(capacity: nat, events: seq<Event>)
    requires events != []
    ensures var n := |events| - 1;
      && Run(capacity, events) == Apply(Run(capacity, events[..n]), events[n])
      && forall k: nat :: k <= n ==> events[..n][..k] == events[..k]
  {
    hide Apply;
  }

  /**
   Every known request has arrived at some event of the run, and it is refused if and only if all
   permits were held at that moment: whoever is refused was refused on arrival, and whoever was
   admitted is never turned into a refused request.
   */
  lemma {:induction false} RefusedOnArrival(capacity: nat, events: seq<Event>, id: nat) returns (k: nat)
    requires id in Run(capacity, events).requests
    ensures ArrivesAt(capacity, events, k, id)
    ensures In(Run(capacity, events), id, Refused) <==> |Holders(Run(capacity, events[..k]))| == capacity
  {
    hide Holders;
    if events == [] {
      assert false;
    } else {
      var n := |events| - 1;
      RunPrefix(capacity, events);
      if id in Run(capacity, events[..n]).requests {
        k := RefusedOnArrival(capacity, events[..n], id);
      } else {
        k := n;
        RunKeepsInv(capacity, events[..n]);
        assert Run(capacity, events[..n]).free + |Holders(Run(capacity, events[..n]))| == capacity;
      }
    }
  }

  /** A request has been answered by its handler if and only if the run contains that response. */
  lemma {:induction false} RespondedIff(capacity: nat, events: seq<Event>, id: nat)
    ensures In(Run(capacity, events), id, Responded) <==> exists k: nat :: RespondsAt(capacity, events, k, id)
  {
    if events != [] {
      var n := |events| - 1;
      RunPrefix(capacity, events);
      RespondedIff(capacity, events[..n], id);
      if k: nat :| RespondsAt(capacity, events[..n], k, id) {
        assert RespondsAt(capacity, events, k, id);
      }
      if k: nat :| RespondsAt(capacity, events, k, id) {
        assert k < n ==> RespondsAt(capacity, events[..n], k, id);
      }
      if In(Run(capacity, events), id, Responded) && !In(Run(capacity, events[..n]), id, Responded) {
        assert RespondsAt(capacity, events, n, id);
      }
    }
  }

  /** A request has been dropped if and only if its client went away while it held a permit. */
  lemma {:induction false} DroppedIff(capacity: nat, events: seq<Event>, id: nat)
    ensures In(Run(capacity, events), id, Dropped) <==> exists k: nat :: DropsAt(capacity, events, k, id)
  {
    if events != [] {
      var n := |events| - 1;
      RunPrefix(capacity, events);
      DroppedIff(capacity, events[..n], id);
      if k: nat :| DropsAt(capacity, events[..n], k, id) {
        assert DropsAt(capacity, events, k, id);
      }
      if k: nat :| DropsAt(capacity, events, k, id) {
        assert k < n ==> DropsAt(capacity, events[..n], k, id);
      }
      if In(Run(capacity, events), id, Dropped) && !In(Run(capacity, events[..n]), id, Dropped) {
        assert DropsAt(capacity, events, n, id);
      }
    }
  }

  // ---------- when running proofs stay within the capacity ----------

  /** Requests that hold a permit while no task of theirs runs. */
  function Idle(s: State): set<nat> {
    Holders(s) - s.running
  }

  lemma DisjointSum<T>(a: set<T>, b: set<T>, c: set<T>)
    requires a !! b && a + b == c
    ensures |c| == |a| + |b|
  {
  }

  /** In every run: running proofs, free permits and idle holders together are capacity and orphans. */
  lemma RunningCount(capacity: nat, events: seq<Event>)
    ensures var s := Run(capacity, events);
      |s.running| + s.free + |Idle(s)| == capacity + |Orphans(s)|
  {
    RunKeepsInv(capacity, events);
    var s := Run(capacity, events);
    var active := Holders(s) * s.running;
    DisjointSum(Orphans(s), active, s.running);
    DisjointSum(Idle(s), active, Holders(s));
  }

  /** Running proofs never outnumber the capacity by more than the orphaned tasks. */
  lemma RunningBounded(capacity: nat, events: seq<Event>)
    ensures var s := Run(capacity, events); |s.running| <= capacity + |Orphans(s)|
  {
    RunningCount(capacity, events);
  }

  /** They stay within it exactly as long as free permits and idle holders outweigh the orphaned tasks. */
  lemma WithinCapacity(capacity: nat, events: seq<Event>)
    ensures var s := Run(capacity, events);
      |s.running| <= capacity <==> |Orphans(s)| <= s.free + |Idle(s)|
  {
    RunningCount(capacity, events);
  }

  predicate DropFree(events: seq<Event>) {
    forall k :: 0 <= k < |events| ==> !events[k].Drop?
  }

  lemma RunOne(capacity: nat, events: seq<Event>, e: Event)
    ensures Run(capacity, events + [e]) == Apply(Run(capacity, events), e)
  {
    hide Apply;
    assert (events + [e])[..|events|] == events;
  }

  /** Only a dropped handler makes an orphan. */
  lemma {:induction false} NoNewOrphans(capacity: nat, events: seq<Event>, more: seq<Event>)
    requires DropFree(more)
    ensures Orphans(Run(capacity, events + more)) <= Orphans(Run(capacity, events))
  {
    if more == [] {
      assert events + more == events;
    } else {
      var n := |more| - 1;
      NoNewOrphans(capacity, events, more[..n]);
      assert events + more == events + more[..n] + [more[n]];
      RunOne(capacity, events + more[..n], more[n]);
      OrphansStep(Run(capacity, events + more[..n]), more[n]);
    }
  }

  lemma OrphansStep(s: State, e: Event)
    requires !e.Drop?
    ensures Orphans(Apply(s, e)) <= Orphans(s)
  {
  }

  lemma {:induction false} Above(ids: set<nat>) returns (n: nat)
    ensures forall id :: id in ids ==> id < n
  {
    if ids == {} {
      n := 0;
    } else {
      var id :| id in ids;
      var m := Above(ids - {id});
      n := if m > id then m else id + 1;
      assert forall other :: other in ids ==> other == id || other in ids - {id};
    }
  }

  lemma AdmitAndSpawn(s: State, id: nat)
    requires s.free > 0 && id !in s.requests && id !in s.running
    ensures var s' := Apply(Apply(s, Arrive(id)), Spawn(id));
      s'.free == s.free - 1 && Idle(s') == Idle(s) && Orphans(s') == Orphans(s)
  {
  }

  lemma SpawnAdmitted(s: State, id: nat)
    requires In(s, id, Admitted) && id !in s.running
    ensures var s' := Apply(s, Spawn(id));
      s'.free == s.free && Idle(s') == Idle(s) - {id} && Orphans(s') == Orphans(s)
  {
  }

  lemma RespondIdle(s: State, id: nat)
    requires id in Idle(s)
    ensures var s' := Apply(s, Respond(id));
      && s'.free == s.free + 1 && Idle(s') == Idle(s) - {id} && Orphans(s') == Orphans(s)
      && s'.requests.Keys == s.requests.Keys && s'.running == s.running
  {
  }

  /** Idle permits can always be put to use: a drop-free continuation keeps all of them busy. */
  lemma {:induction false} Saturate(capacity: nat, events: seq<Event>) returns (more: seq<Event>)
    ensures DropFree(more)
    ensures |Run(capacity, events + more).running| == capacity + |Orphans(Run(capacity, events))|
    decreases Run(capacity, events).free + |Idle(Run(capacity, events))|, 0
  {
    hide Apply, Run, Orphans;
    var s := Run(capacity, events);
    RunKeepsInv(capacity, events);
    RunningCount(capacity, events);
    var next := Above(s.requests.Keys + s.running);
    if s.free > 0 {
      AdmitAndSpawn(s, next);
      RunTwo(capacity, events, Arrive(next), Spawn(next));
      more := SaturateAfter(capacity, events, [Arrive(next), Spawn(next)]);
    } else if Idle(s) != {} {
      var id :| id in Idle(s);
      assert |Idle(s) - {id}| == |Idle(s)| - 1;
      if In(s, id, Admitted) {
        SpawnAdmitted(s, id);
        RunOne(capacity, events, Spawn(id));
        more := SaturateAfter(capacity, events, [Spawn(id)]);
      } else {
        RespondIdle(s, id);
        AdmitAndSpawn(Apply(s, Respond(id)), next);
        RunThree(capacity, events, Respond(id), Arrive(next), Spawn(next));
        more := SaturateAfter(capacity, events, [Respond(id), Arrive(next), Spawn(next)]);
      }
    } else {
      more := [];
      assert events + more == events;
    }
  }

  lemma {:induction false} SaturateAfter(capacity: nat, events: seq<Event>, step: seq<Event>) returns (more: seq<Event>)
    requires DropFree(step) && Orphans(Run(capacity, events + step)) == Orphans(Run(capacity, events))
    ensures DropFree(more)
    ensures |Run(capacity, events + more).running| == capacity + |Orphans(Run(capacity, events))|
    decreases Run(capacity, events + step).free + |Idle(Run(capacity, events + step))|, 1
  {
    hide Apply, Run, Orphans;
    var rest := Saturate(capacity, events + step);
    more := step + rest;
    assert events + step + rest == events + more;
  }

  /**
   The bound is safe exactly when no task is orphaned: then and only then does every continuation
   without further drops keep running proofs within the capacity.
   */
  lemma SafeIffNoOrphans(capacity: nat, events: seq<Event>)
    ensures Orphans(Run(capacity, events)) == {}
       <==> forall more :: DropFree(more) ==> |Run(capacity, events + more).running| <= capacity
  {
    hide Apply, Run, Orphans, DropFree;
    if Orphans(Run(capacity, events)) == {} {
      forall more | DropFree(more)
        ensures |Run(capacity, events + more).running| <= capacity
      {
        NoNewOrphans(capacity, events, more);
        RunningBounded(capacity, events + more);
      }
    } else {
      var more := Saturate(capacity, events);
      assert |Run(capacity, events + more).running| > capacity;
    }
  }

  /** If no handler is dropped at all, running proofs never exceed the capacity. */
  lemma CapacityHolds(capacity: nat, events: seq<Event>)
    requires DropFree(events)
    ensures |Run(capacity, events).running| <= capacity
  {
    assert Orphans(Run(capacity, [])) == {};
    SafeIffNoOrphans(capacity, []);
    assert [] + events == events;
  }

  /** n clients that each start a proof and go away. */
  function Departures(n: nat): seq<Event> {
    if n == 0 then [] else Departures(n - 1) + [Arrive(n - 1), Spawn(n - 1), Drop(n - 1)]
  }

  lemma RunTwo(capacity: nat, events: seq<Event>, a: Event, b: Event)
    ensures Run(capacity, events + [a, b]) == Apply(Apply(Run(capacity, events), a), b)
  {
    hide Apply, Run;
    RunOne(capacity, events, a);
    RunOne(capacity, events + [a], b);
    assert events + [a] + [b] == events + [a, b];
  }

  lemma RunThree(capacity: nat, events: seq<Event>, a: Event, b: Event, c: Event)
    ensures Run(capacity, events + [a, b, c]) == Apply(Apply(Apply(Run(capacity, events), a), b), c)
  {
    hide Apply, Run;
    RunOne(capacity, events, a);
    RunOne(capacity, events + [a], b);
    RunOne(capacity, events + [a] + [b], c);
    assert events + [a] + [b] + [c] == events + [a, b, c];
  }

  /** A client that starts a proof and goes away leaves a running task and takes no permit along. */
  lemma Departure(s: State, id: nat)
    requires s.free > 0 && id !in s.requests
    ensures var s' := Apply(Apply(Apply(s, Arrive(id)), Spawn(id)), Drop(id));
      s' == State(s.free, s.requests[id := Dropped], s.running + {id})
  {
    var s1 := Apply(s, Arrive(id));
    assert s1.requests[id] == Admitted;
    var s2 := Apply(s1, Spawn(id));
    assert s2.requests == s.requests[id := Proving];
  }

  lemma {:induction false} DeparturesRun(capacity: nat, n: nat)
    requires capacity > 0
    ensures var s := Run(capacity, Departures(n));
      && s.free == capacity
      && (forall id: nat :: id in s.requests ==> id < n)
      && (forall id: nat :: id in s.running <==> id < n)
      && |s.running| == n
  {
    hide Apply;
    if n > 0 {
      DeparturesRun(capacity, n - 1);
      var s := Run(capacity, Departures(n - 1));
      RunThree(capacity, Departures(n - 1), Arrive(n - 1), Spawn(n - 1), Drop(n - 1));
      Departure(s, n - 1);
    }
  }

  /**
   With departures the bound is lost altogether: whatever the capacity, any number of proofs can
   run at once while all permits are free. The comment in the code promises a bound.
   */
  lemma CapacityCanBeExceeded(capacity: nat, n: nat)
    requires capacity > 0
    ensures |Run(capacity, Departures(n)).running| == n
    ensures Run(capacity, Departures(n)).free == capacity
  {
    DeparturesRun(capacity, n);
  }
}
