/** UniffiHandleMap and the poll/callback protocol of asynchronous calls. */
module UniffiHandles {
  import opened Common

  const POLL_READY: int := 0
  const POLL_MAYBE_READY: int := 1

  datatype HandleFault = UnexpectedStaleHandle

  /** The handle map. The counter is a UInt64 whose increment traps on overflow, so handing out
      the last handle is the caller's obligation to avoid. The ghost fields record the history:
      what each handle was given out for, and which handles were taken back. */
  class UniffiHandleMap<T> {
    var entries: map<u64, T>
    var currentHandle: u64
    ghost var given: map<u64, T>
    ghost var taken: set<u64>

    ghost predicate Valid()
      reads this
    {
      && 1 <= currentHandle
      && (forall h: u64 :: h in given <==> 1 <= h < currentHandle)
      && (forall h :: h in taken ==> h in given)
      && entries == map h | h in given && h !in taken :: given[h]
    }

    constructor ()
      ensures Valid() && entries == map[] && currentHandle == 1 && given == map[] && taken == {}
    {
      entries, currentHandle := map[], 1;
      given, taken := map[], {};
    }

    /** The new handle was never given out before, and the other entries stay. */
    method Insert(obj: T) returns (handle: u64)
      requires Valid() && currentHandle < MAX_U64
      modifies this
      ensures Valid() && handle == old(currentHandle) && currentHandle == handle + 1
      ensures handle !in old(given) && given == old(given)[handle := obj] && taken == old(taken)
      ensures entries == old(entries)[handle := obj]
    {
      handle := currentHandle;
      currentHandle := currentHandle + 1;
      entries := entries[handle := obj];
      assert handle !in taken;
      given := given[handle := obj];
      assert entries == map h | h in given && h !in taken :: given[h];
    }

    /** The object the handle was given out for, as long as it has not been taken back; a handle
        that was taken, or never given out, is stale. */
    method Get(handle: u64) returns (r: Result<T, HandleFault>)
      requires Valid()
      ensures r.Ok? ==> handle in given && r.value == given[handle]
      ensures r.Err? <==> handle == 0 || handle >= currentHandle || handle in taken
    {
      if handle !in entries {
        return Err(UnexpectedStaleHandle);
      }
      return Ok(entries[handle]);
    }

    /** The same once, and never again for this handle. */
    method Remove(handle: u64) returns (r: Result<T, HandleFault>)
      requires Valid()
      modifies this
      ensures Valid() && currentHandle == old(currentHandle) && given == old(given)
      ensures entries == old(entries) - {handle}
      ensures r.Ok? ==> handle in given && r.value == given[handle] && taken == old(taken) + {handle}
      ensures r.Err? ==> taken == old(taken)
      ensures r.Err? <==> handle == 0 || handle >= currentHandle || handle in old(taken)
    {
      if handle !in entries {
        return Err(UnexpectedStaleHandle);
      }
      r := Ok(entries[handle]);
      entries := entries - {handle};
      taken := taken + {handle};
    }

    /** One asynchronous call when every poll is answered by exactly one callback: it polls until
        a result says ready and leaves the map as it found it. */
    method CallAsync(continuation: T, results: seq<int>) returns (polls: nat)
      requires Valid() && POLL_READY in results && currentHandle + |results| <= MAX_U64
      modifies this
      ensures Valid() && entries == old(entries) && currentHandle == old(currentHandle) + polls
      ensures 1 <= polls <= |results| && results[polls - 1] == POLL_READY
      ensures forall i :: 0 <= i < polls - 1 ==> results[i] != POLL_READY
    {
      polls := 0;
      var pollResult := POLL_MAYBE_READY;
      while pollResult != POLL_READY
        invariant Valid() && entries == old(entries) && currentHandle == old(currentHandle) + polls
        invariant polls <= |results| && forall i :: 0 <= i < polls - 1 ==> results[i] != POLL_READY
        invariant pollResult == if polls == 0 then POLL_MAYBE_READY else results[polls - 1]
        decreases |results| - polls
      {
        assert polls < |results| by {
          var k :| 0 <= k < |results| && results[k] == POLL_READY;
          assert k >= polls;
        }
        var handle := Insert(continuation);
        var resumed := Remove(handle);
        pollResult := results[polls];
        polls := polls + 1;
      }
    }
  }

  // ----- many calls at once, with callbacks in any order -----

  /** One suspended await: the call it belongs to and its own identity. */
  datatype Continuation = Continuation(call: nat, await_: nat)

  datatype Phase = Polling | Waiting(handle: nat) | Finished

  datatype System = System(
    entries: map<nat, Continuation>,
    next: nat,
    awaits: nat,                       // awaits begun so far
    calls: map<nat, Phase>,
    issued: seq<nat>,                  // handles given out
    resumed: seq<nat>)                 // awaits resumed

  /** Nothing has been called yet. */
  const START := System(map[], 1, 0, map[], [], [])

  /** A call begins, a call's loop reaches its next await, or Rust invokes the callback with some
      handle: the right one, one already used, or one never given out. */
  datatype Event = Begin(call: nat) | Poll(call: nat) | Callback(handle: nat, result: int)

  function Step(s: System, e: Event): System {
    match e
    case Begin(call) =>
      if call in s.calls then s else s.(calls := s.calls[call := Polling])
    case Poll(call) =>
      if call !in s.calls || s.calls[call] != Polling || s.next >= MAX_U64 then s
      else s.(entries := s.entries[s.next := Continuation(call, s.awaits)],
              next := s.next + 1,
              awaits := s.awaits + 1,
              calls := s.calls[call := Waiting(s.next)],
              issued := s.issued + [s.next])
    case Callback(h, result) =>
      if h !in s.entries then s
      else
        var c := s.entries[h];
        s.(entries := s.entries - {h},
           calls := s.calls[c.call := if result == POLL_READY then Finished else Polling],
           resumed := s.resumed + [c.await_])
  }

  function Run(s: System, es: seq<Event>): System
    decreases |es|
  {
    if es == [] then s else Run(Step(s, es[0]), es[1..])
  }

  /** The map holds exactly the continuations of the calls that are waiting, each under the
      handle its call waits for; handles and awaits are never used twice. */
  ghost predicate Consistent(s: System) {
    && (forall h :: h in s.entries ==>
          h < s.next && s.entries[h].await_ < s.awaits && s.entries[h].await_ !in s.resumed
          && s.entries[h].call in s.calls && s.calls[s.entries[h].call] == Waiting(h))
    && (forall c :: c in s.calls && s.calls[c].Waiting? ==>
          s.calls[c].handle in s.entries && s.entries[s.calls[c].handle].call == c)
    && (forall i :: 0 <= i < |s.issued| ==> s.issued[i] < s.next)
    && (forall i :: 0 <= i < |s.resumed| ==> s.resumed[i] < s.awaits)
    && NoDuplicates(s.issued) && NoDuplicates(s.resumed)
    && (forall h, h' :: h in s.entries && h' in s.entries && h != h' ==> s.entries[h].await_ != s.entries[h'].await_)
  }

  lemma BeginConsistent(s: System, call: nat)
    requires Consistent(s)
    ensures Consistent(Step(s, Begin(call)))
  {
  }

  lemma PollConsistent(s: System, call: nat)
    requires Consistent(s)
    ensures Consistent(Step(s, Poll(call)))
  {
  }

  lemma CallbackConsistent(s: System, h: nat, result: int)
    requires Consistent(s)
    ensures Consistent(Step(s, Callback(h, result)))
  {
  }

  lemma StepConsistent(s: System, e: Event)
    requires Consistent(s)
    ensures Consistent(Step(s, e))
  {
    hide Consistent, Step;
    match e
    case Begin(call) => BeginConsistent(s, call);
    case Poll(call) => PollConsistent(s, call);
    case Callback(h, result) => CallbackConsistent(s, h, result);
  }

  lemma {:induction false} RunConsistent(s: System, es: seq<Event>)
    requires Consistent(s)
    ensures Consistent(Run(s, es)) && s.next <= Run(s, es).next
    decreases |es|
  {
    if es == [] {
    } else {
      StepConsistent(s, es[0]);
      RunConsistent(Step(s, es[0]), es[1..]);
    }
  }

  /** From the start, over every interleaving of calls, polls and callbacks, with duplicate, late
      and unknown handles among them: no handle is given out twice, no await is resumed twice, and
      a call waits exactly when its continuation is in the map. */
  lemma NothingIsUsedTwice(es: seq<Event>)
    ensures var s := Run(START, es);
      && NoDuplicates(s.issued) && NoDuplicates(s.resumed)
      && (forall c, h :: c in s.calls && s.calls[c] == Waiting(h) <==> h in s.entries && s.entries[h].call == c)
  {
    RunConsistent(START, es);
  }

  /** A handle that was given out and is gone stays gone, and calling it back does nothing. */
  lemma {:induction false} StaleForever(s: System, es: seq<Event>, h: nat)
    requires Consistent(s) && h < s.next && h !in s.entries
    ensures h !in Run(s, es).entries
    ensures forall result :: Step(Run(s, es), Callback(h, result)) == Run(s, es)
    decreases |es|
  {
    if es == [] {
    } else {
      StepConsistent(s, es[0]);
      StaleForever(Step(s, es[0]), es[1..], h);
    }
  }

  ghost predicate CalledBack(es: seq<Event>, h: nat) {
    exists i :: 0 <= i < |es| && es[i].Callback? && es[i].handle == h
  }

  lemma CalledBackFirst(es: seq<Event>, h: nat)
    requires es != []
    ensures CalledBack(es, h) <==> (es[0].Callback? && es[0].handle == h) || CalledBack(es[1..], h)
  {
    assert forall i :: 1 <= i < |es| ==> es[i] == es[1..][i - 1];
    assert forall i :: 0 <= i < |es[1..]| ==> es[1..][i] == es[i + 1];
  }

  lemma StepKeepsOthers(s: System, e: Event, h: nat)
    requires Consistent(s) && h < s.next
    ensures h < Step(s, e).next
    ensures h in Step(s, e).entries <==> h in s.entries && !(e.Callback? && e.handle == h)
    ensures h in Step(s, e).entries ==> Step(s, e).entries[h] == s.entries[h]
  {
  }

  /** What was in the map stays there, unless and until its own handle is called back. */
  lemma {:induction false} OthersAreKept(s: System, es: seq<Event>, h: nat)
    requires Consistent(s) && h < s.next
    ensures h in Run(s, es).entries <==> h in s.entries && !CalledBack(es, h)
    ensures h in Run(s, es).entries ==> Run(s, es).entries[h] == s.entries[h]
    decreases |es|
  {
    if es == [] {
    } else {
      hide Consistent, Step, CalledBack;
      StepConsistent(s, es[0]);
      StepKeepsOthers(s, es[0], h);
      OthersAreKept(Step(s, es[0]), es[1..], h);
      CalledBackFirst(es, h);
    }
  }

  lemma StepConservesAwaits(s: System, e: Event)
    requires Consistent(s)
    ensures Step(s, e).awaits - |Step(s, e).entries| - |Step(s, e).resumed| == s.awaits - |s.entries| - |s.resumed|
  {
    if e.Callback? && e.handle in s.entries {
      RemovedOne(s.entries, e.handle);
    }
  }

  /** Every await begun is either still in the map or has been resumed: none is lost and none is
      counted twice. */
  lemma {:induction false} AwaitsAreConserved(s: System, es: seq<Event>)
    requires Consistent(s)
    ensures Run(s, es).awaits - |Run(s, es).entries| - |Run(s, es).resumed| == s.awaits - |s.entries| - |s.resumed|
    decreases |es|
  {
    if es == [] {
    } else {
      hide Consistent, Step;
      StepConsistent(s, es[0]);
      StepConservesAwaits(s, es[0]);
      AwaitsAreConserved(Step(s, es[0]), es[1..]);
    }
  }

  lemma RemovedOne(m: map<nat, Continuation>, h: nat)
    requires h in m
    ensures |m - {h}| == |m| - 1
  {
  }

  /** The handle was called back at a time when it had already been given out. */
  ghost predicate Answered(s: System, es: seq<Event>, h: nat)
    decreases |es|
  {
    es != []
    && ((es[0].Callback? && es[0].handle == h && h < s.next) || Answered(Step(s, es[0]), es[1..], h))
  }

  /** In terms of the events: a callback with the handle, behind the poll that gave it out. */
  lemma {:induction false} AnsweredAt(s: System, es: seq<Event>, h: nat)
    ensures Answered(s, es, h)
      <==> exists j :: 0 <= j < |es| && es[j].Callback? && es[j].handle == h && h < Run(s, es[..j]).next
    decreases |es|
  {
    if es == [] {
    } else {
      var s', rest := Step(s, es[0]), es[1..];
      AnsweredAt(s', rest, h);
      assert es[..0] == [];
      forall j | 0 <= j < |rest|
        ensures Run(s, es[..j + 1]) == Run(s', rest[..j]) && es[j + 1] == rest[j]
      {
        assert es[..j + 1][0] == es[0] && es[..j + 1][1..] == rest[..j];
      }
      if j :| 0 <= j < |rest| && rest[j].Callback? && rest[j].handle == h && h < Run(s', rest[..j]).next {
        assert es[j + 1].Callback? && h < Run(s, es[..j + 1]).next;
      }
      if j :| 0 < j < |es| && es[j].Callback? && es[j].handle == h && h < Run(s, es[..j]).next {
        assert rest[j - 1].Callback? && Run(s, es[..j - 1 + 1]) == Run(s', rest[..j - 1]);
      }
    }
  }

  /** What is in the map after any events: the old entries and the handles given out meanwhile,
      less those called back since they were given out. */
  lemma {:induction false} EntriesAre(s: System, es: seq<Event>, h: nat)
    requires Consistent(s)
    ensures h in Run(s, es).entries
      <==> (h in s.entries || s.next <= h < Run(s, es).next) && !Answered(s, es, h)
    decreases |es|
  {
    if es == [] {
    } else {
      var s' := Step(s, es[0]);
      StepConsistent(s, es[0]);
      EntriesAre(s', es[1..], h);
      StepEntries(s, es[0], h);
      RunConsistent(s', es[1..]);
    }
  }

  lemma StepEntries(s: System, e: Event, h: nat)
    requires Consistent(s)
    ensures s.next <= Step(s, e).next
    ensures h in Step(s, e).entries
      <==> (h in s.entries || s.next <= h < Step(s, e).next) && !(e.Callback? && e.handle == h && h < s.next)
  {
  }

  lemma EntriesKeepValues(s: System, es: seq<Event>, h: nat)
    requires Consistent(s) && h in s.entries && h in Run(s, es).entries
    ensures Run(s, es).entries[h] == s.entries[h]
  {
    OthersAreKept(s, es, h);
  }

  ghost predicate AllNewAnswered(s: System, es: seq<Event>) {
    forall h: nat :: s.next <= h < Run(s, es).next ==> Answered(s, es, h)
  }

  ghost predicate NoOldAnswered(s: System, es: seq<Event>) {
    forall h: nat :: h in s.entries ==> !Answered(s, es, h)
  }

  /** The map is back to its contents exactly when every handle given out meanwhile has been called
      back and none of the older ones has. */
  lemma MapIsRestored(s: System, es: seq<Event>)
    requires Consistent(s)
    ensures Run(s, es).entries == s.entries <==> AllNewAnswered(s, es) && NoOldAnswered(s, es)
  {
    hide Run, Answered;
    var s' := Run(s, es);
    assert forall h :: h in s.entries ==> h < s.next;
    hide Consistent;
    if s'.entries == s.entries {
      forall h: nat
        ensures s.next <= h < s'.next ==> Answered(s, es, h)
        ensures h in s.entries ==> !Answered(s, es, h)
      {
        EntriesAre(s, es, h);
      }
    }
    if AllNewAnswered(s, es) && NoOldAnswered(s, es) {
      forall h: nat
        ensures h in s'.entries <==> h in s.entries
        ensures h in s.entries ==> s'.entries[h] == s.entries[h]
      {
        EntriesAre(s, es, h);
        if h in s.entries {
          EntriesKeepValues(s, es, h);
        }
      }
    }
  }

  /** No call waits on a handle given out since `s`. */
  ghost predicate NoNewWaiter(s: System, s': System) {
    forall c :: c in s'.calls && s'.calls[c].Waiting? ==> s'.calls[c].handle < s.next
  }

  /** No call waits on a new handle exactly when each new handle has been called back. */
  lemma NoneWaitsWhenAllAnswered(s: System, es: seq<Event>)
    requires Consistent(s)
    ensures NoNewWaiter(s, Run(s, es)) <==> AllNewAnswered(s, es)
  {
    hide Run, Answered;
    var s' := Run(s, es);
    RunConsistent(s, es);
    if NoNewWaiter(s, s') {
      forall h: nat | s.next <= h < s'.next
        ensures Answered(s, es, h)
      {
        EntriesAre(s, es, h);
      }
    }
    if AllNewAnswered(s, es) {
      forall c | c in s'.calls && s'.calls[c].Waiting?
        ensures s'.calls[c].handle < s.next
      {
        EntriesAre(s, es, s'.calls[c].handle);
      }
    }
  }

  // ----- what a call does next, from the events alone -----

  /** The i-th event resumes an await of the call: it calls back a handle its continuation is under. */
  ghost predicate Resumes(es: seq<Event>, i: int, call: nat) {
    && 0 <= i < |es| && es[i].Callback?
    && var s := Run(START, es[..i]);
       es[i].handle in s.entries && s.entries[es[i].handle].call == call
  }

  ghost predicate Begun(es: seq<Event>, call: nat) {
    exists i :: 0 <= i < |es| && es[i] == Begin(call)
  }

  ghost predicate ReadyAt(es: seq<Event>, i: int, call: nat) {
    Resumes(es, i, call) && es[i].result == POLL_READY
  }

  /** A resumption of the call has delivered ready. */
  ghost predicate GotReady(es: seq<Event>, call: nat) {
    exists i :: ReadyAt(es, i, call)
  }

  /** Its continuation is in the map under this handle. */
  ghost predicate Awaits(es: seq<Event>, call: nat, h: nat) {
    var s := Run(START, es);
    h in s.entries && s.entries[h].call == call
  }

  lemma {:induction false} RunConcat(s: System, a: seq<Event>, b: seq<Event>)
    ensures Run(s, a + b) == Run(Run(s, a), b)
    decreases |a|
  {
    if a == [] {
      assert a + b == b;
    } else {
      assert (a + b)[1..] == a[1..] + b;
      RunConcat(Step(s, a[0]), a[1..], b);
    }
  }

  lemma RunLast(es: seq<Event>)
    requires es != []
    ensures Run(START, es) == Step(Run(START, es[..|es| - 1]), es[|es| - 1])
  {
    var init, last := es[..|es| - 1], es[|es| - 1];
    assert es == init + [last];
    RunConcat(START, init, [last]);
    assert Run(Run(START, init), [last]) == Run(Step(Run(START, init), last), []);
  }

  lemma ResumesBefore(es: seq<Event>, n: nat, i: int, call: nat)
    requires n <= |es| && i < n
    ensures Resumes(es, i, call) <==> Resumes(es[..n], i, call)
    ensures ReadyAt(es, i, call) <==> ReadyAt(es[..n], i, call)
  {
    if 0 <= i {
      assert es[..n][..i] == es[..i];
    }
  }

  lemma GotReadyLast(es: seq<Event>, call: nat)
    requires es != []
    ensures GotReady(es, call) <==> GotReady(es[..|es| - 1], call) || ReadyAt(es, |es| - 1, call)
  {
    hide ReadyAt;
    var n := |es| - 1;
    forall i | i < n
      ensures ReadyAt(es, i, call) <==> ReadyAt(es[..n], i, call)
    {
      ResumesBefore(es, n, i, call);
    }
    if GotReady(es, call) {
      var i :| ReadyAt(es, i, call);
      ReadyWithin(es, i, call);
      assert i < n ==> ReadyAt(es[..n], i, call);
    }
    if GotReady(es[..n], call) {
      var i :| ReadyAt(es[..n], i, call);
      ReadyWithin(es[..n], i, call);
      assert ReadyAt(es, i, call);
    }
  }

  lemma ReadyWithin(es: seq<Event>, i: int, call: nat)
    requires ReadyAt(es, i, call)
    ensures 0 <= i < |es| && Resumes(es, i, call) && es[i].Callback? && es[i].result == POLL_READY
  {
  }

  lemma BegunLast(es: seq<Event>, call: nat)
    requires es != []
    ensures Begun(es, call) <==> Begun(es[..|es| - 1], call) || es[|es| - 1] == Begin(call)
  {
    var n := |es| - 1;
    assert forall i :: 0 <= i < n ==> es[..n][i] == es[i];
  }

  /** What one event makes of one call's phase. */
  lemma PhaseStep(s: System, e: Event, call: nat)
    requires Consistent(s)
    ensures var s' := Step(s, e);
      var resumed := e.Callback? && e.handle in s.entries && s.entries[e.handle].call == call;
      && (call in s'.calls <==> call in s.calls || e == Begin(call))
      && (call in s'.calls && s'.calls[call] == Finished
          <==> (call in s.calls && s.calls[call] == Finished) || (resumed && e.result == POLL_READY))
  {
  }

  /** A call has begun, has finished, or waits, exactly when the events say so; otherwise it is about
      to poll. */
  lemma {:induction false} PhaseIsKnown(es: seq<Event>, call: nat)
    ensures Consistent(Run(START, es))
    ensures call in Run(START, es).calls <==> Begun(es, call)
    ensures call in Run(START, es).calls && Run(START, es).calls[call] == Finished <==> GotReady(es, call)
    decreases |es|
  {
    hide Consistent;
    StartIsConsistent();
    RunConsistent(START, es);
    if es == [] {
    } else {
      var init, last := es[..|es| - 1], es[|es| - 1];
      hide Step, GotReady, Begun;
      PhaseIsKnown(init, call);
      RunLast(es);
      GotReadyLast(es, call);
      BegunLast(es, call);
      PhaseStep(Run(START, init), last, call);
    }
  }

  lemma StartIsConsistent()
    ensures Consistent(START)
  {
  }

  /** From the start, over every interleaving: a call is finished if and only if a callback that
      resumed one of its awaits delivered ready. */
  lemma FinishedWhenReady(es: seq<Event>, call: nat)
    ensures call in Run(START, es).calls && Run(START, es).calls[call] == Finished
      <==> exists i :: Resumes(es, i, call) && es[i].result == POLL_READY
  {
    PhaseIsKnown(es, call);
    if i :| Resumes(es, i, call) && es[i].result == POLL_READY {
      assert ReadyAt(es, i, call);
    }
    if GotReady(es, call) {
      var i :| ReadyAt(es, i, call);
      assert Resumes(es, i, call);
    }
  }

  /** And no handle is given out for it any more, whatever events follow. */
  lemma {:induction false} FinishedForGood(es: seq<Event>, n: nat, call: nat)
    requires n <= |es| && GotReady(es[..n], call)
    ensures GotReady(es, call)
    ensures forall h :: !Awaits(es, call, h)
    ensures forall i :: n <= i < |es| ==> !Resumes(es, i, call)
    decreases |es|
  {
    hide Consistent, GotReady, Resumes;
    if n < |es| {
      var init := es[..|es| - 1];
      assert init[..n] == es[..n];
      FinishedForGood(init, n, call);
      GotReadyLast(es, call);
      forall i | n <= i < |es|
        ensures !Resumes(es, i, call)
      {
        if i < |es| - 1 {
          ResumesBefore(es, |es| - 1, i, call);
        } else {
          NotResumedWithoutAwait(es, init, call);
        }
      }
    } else {
      assert es[..n] == es;
    }
    FinishedAwaitsNothing(es, call);
  }

  lemma NotResumedWithoutAwait(es: seq<Event>, init: seq<Event>, call: nat)
    requires es != [] && init == es[..|es| - 1] && forall h :: !Awaits(init, call, h)
    ensures !Resumes(es, |es| - 1, call)
  {
    if Resumes(es, |es| - 1, call) {
      assert Awaits(init, call, es[|es| - 1].handle);
    }
  }

  lemma FinishedAwaitsNothing(es: seq<Event>, call: nat)
    requires GotReady(es, call)
    ensures forall h :: !Awaits(es, call, h)
  {
    PhaseIsKnown(es, call);
  }

  /** The last resumption of the call, if there was one, did not deliver ready. */
  ghost predicate LastWasNotReady(es: seq<Event>, call: nat) {
    forall i :: Resumes(es, i, call) && (forall j :: i < j < |es| ==> !Resumes(es, j, call))
      ==> es[i].result != POLL_READY
  }

  lemma ReadyIsLast(es: seq<Event>, call: nat)
    requires GotReady(es, call)
    ensures !LastWasNotReady(es, call)
  {
    hide ReadyAt, Resumes, Awaits;
    var i :| ReadyAt(es, i, call);
    ReadyWithin(es, i, call);
    ResumesBefore(es, i + 1, i, call);
    assert GotReady(es[..i + 1], call);
    FinishedForGood(es, i + 1, call);
  }

  /** A call that has begun, waits for nothing, and was last told it is not ready (or never told
      anything) polls next: its poll puts its continuation, a new await, under a handle that was
      never given out before, and it then waits for that handle. */
  lemma PollsAgain(es: seq<Event>, call: nat)
    requires Begun(es, call) && LastWasNotReady(es, call) && forall h :: !Awaits(es, call, h)
    ensures var s := Run(START, es);
      && call in s.calls && s.calls[call] == Polling
      && (s.next < MAX_U64 ==>
            var s' := Run(START, es + [Poll(call)]);
            && s.next !in s.entries && s.next !in s.issued
            && s'.entries == s.entries[s.next := Continuation(call, s.awaits)]
            && s'.issued == s.issued + [s.next] && s'.calls == s.calls[call := Waiting(s.next)]
            && (forall h :: h in s.entries ==> s.entries[h].await_ != s.awaits) && s.awaits !in s.resumed)
  {
    hide Resumes, GotReady, LastWasNotReady, Begun;
    var s := Run(START, es);
    PhaseIsKnown(es, call);
    if GotReady(es, call) {
      ReadyIsLast(es, call);
    }
    assert call in s.calls && s.calls[call].Waiting? ==> Awaits(es, call, s.calls[call].handle);
    RunLast(es + [Poll(call)]);
    assert (es + [Poll(call)])[..|es|] == es;
  }

  ghost predicate OutOfTurn(es: seq<Event>, e: Event) {
    match e
    case Begin(c) => Begun(es, c)
    case Poll(c) => !Begun(es, c) || GotReady(es, c) || exists h :: Awaits(es, c, h)
    case Callback(h, _) => forall c :: !Awaits(es, c, h)
  }

  /** Any other poll, a repeated begin, and a callback with a handle that is not in the map change
      nothing. */
  lemma OutOfTurnIsIgnored(es: seq<Event>, e: Event)
    requires OutOfTurn(es, e)
    ensures Run(START, es + [e]) == Run(START, es)
  {
    hide GotReady, Begun;
    var s := Run(START, es);
    RunLast(es + [e]);
    assert (es + [e])[..|es|] == es;
    match e
    case Begin(c) => PhaseIsKnown(es, c);
    case Poll(c) => PhaseIsKnown(es, c);
    case Callback(h, _) =>
      assert h in s.entries ==> Awaits(es, s.entries[h].call, h);
  }
}
