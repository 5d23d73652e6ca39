/** The manager of dev pods: threads that start, stop, reset and wait for dev pods, with one lock per name and a mutex
    around the map of pods. */
module DevPods {
  import opened Wrappers

  type PodId = nat
  type ThreadId = nat

  // ---------------------------------------------------------------------------------------------
  // The map of pods, and the sections in which the mutex is held
  // ---------------------------------------------------------------------------------------------

  /** The map, the pods ever created, with their names, and those of them that are done. */
  datatype Pods = Pods(devPods: map<string, PodId>, created: map<PodId, string>, done: set<PodId>)

  /** A new pod may take a name unless the pod that has it is still running. */
  predicate MayStart(p: Pods, name: string) {
    name !in p.devPods || p.devPods[name] in p.done
  }

  function Started(p: Pods, name: string, id: PodId): Pods {
    p.(devPods := p.devPods[name := id], created := p.created[id := name])
  }

  function Deleted(p: Pods, name: string): Pods {
    p.(devPods := p.devPods - {name})
  }

  /** Every pod that is not done is the one that the map has for its name. */
  ghost predicate NoOrphan(p: Pods) {
    && (forall id {:trigger p.created[id]} :: id in p.created ==>
          id in p.done || (p.created[id] in p.devPods && p.devPods[p.created[id]] == id))
    && (forall n :: n in p.devPods ==> p.devPods[n] in p.created && p.created[p.devPods[n]] == n)
  }

  class Manager {
    var devPods: map<string, PodId>
    var created: map<PodId, string>
    var done: set<PodId>
    var next: PodId

    constructor ()
      ensures Valid() && State() == Pods(map[], map[], {})
    {
      devPods, created, done, next := map[], map[], {}, 0;
    }

    ghost predicate Valid()
      reads this
    {
      NoOrphan(State()) && forall id :: id in created ==> id < next
    }

    ghost function State(): Pods
      reads this
    {
      Pods(devPods, created, done)
    }

    /** The section of Start: nothing happens if a pod of that name was created and is not done. */
    method Claim(name: string) returns (dp: Option<PodId>)
      requires Valid()
      modifies this
      ensures Valid()
      ensures dp.None? <==> exists id :: id in old(created) && old(created)[id] == name && id !in old(done)
      ensures dp.None? ==> State() == old(State())
      ensures dp.Some? ==> dp.value !in old(created) && State() == Started(old(State()), name, dp.value)
      ensures dp.Some? ==>
                devPods == old(devPods)[name := dp.value] && created == old(created)[dp.value := name] && done == old(done)
    {
      if name in devPods && devPods[name] !in done {
        assert created[devPods[name]] == name;
        return None;
      }
      dp := Some(next);
      devPods := devPods[name := next];
      created := created[next := name];
      next := next + 1;
    }

    /** The first section of stop. */
    method Find(name: string) returns (dp: Option<PodId>)
      ensures dp == if name in devPods then Some(devPods[name]) else None
    {
      dp := if name in devPods then Some(devPods[name]) else None;
    }

    /** The second section of stop, after waiting for the pod to be done. */
    method Delete(name: string)
      requires Valid() && (name in devPods ==> devPods[name] in done)
      modifies this`devPods
      ensures Valid() && State() == Deleted(old(State()), name)
      ensures devPods == old(devPods) - {name}
    {
      devPods := devPods - {name};
    }

    /** The section of Wait. */
    method Snapshot() returns (pods: set<PodId>)
      ensures pods == devPods.Values
    {
      pods := set name | name in devPods :: devPods[name];
      assert pods == devPods.Values;
    }
  }

  // ---------------------------------------------------------------------------------------------
  // Threads
  // ---------------------------------------------------------------------------------------------

  /** Where a thread is. Reset is stop followed by work on other objects, under the same lock, so it is a stopping thread;
      Close cancels all pods, which only makes them end sooner, and waits. `before` records the pods that existed when the
      snapshot was taken. */
  datatype Thread =
    | Starting(name: string)                  // before the lock
    | Claiming(name: string)                  // behind the lock
    | Running(name: string, dp: PodId)        // the new pod's own Start is running
    | Stopping(name: string)                  // before the lock
    | Finding(name: string)                   // behind the lock
    | Ending(name: string, dp: PodId)         // waiting for the pod to be done
    | Deleting(name: string, dp: PodId)       // the pod is done
    | Unlocking(name: string)                 // about to release the lock
    | Snapshotting
    | Waiting(left: set<PodId>, before: set<PodId>)
    | Returned(before: set<PodId>)

  datatype State = State(pods: Pods, locks: map<string, ThreadId>, threads: map<ThreadId, Thread>)

  ghost predicate Init(s: State) {
    && s.pods == Pods(map[], map[], {}) && s.locks == map[]
    && forall t :: t in s.threads ==> s.threads[t].Starting? || s.threads[t].Stopping? || s.threads[t].Snapshotting?
  }

  /** The lock a thread holds. */
  function Holds(th: Thread): Option<string> {
    match th
    case Claiming(n) => Some(n)
    case Running(n, _) => Some(n)
    case Finding(n) => Some(n)
    case Ending(n, _) => Some(n)
    case Deleting(n, _) => Some(n)
    case Unlocking(n) => Some(n)
    case _ => None
  }

  ghost predicate Goes(s: State, s': State, t: ThreadId, to: Thread) {
    t in s.threads && s' == s.(threads := s.threads[t := to])
  }

  /** Lock, at the beginning of Start, Stop and Reset. */
  ghost predicate Lock(s: State, s': State, t: ThreadId) {
    && t in s.threads && (s.threads[t].Starting? || s.threads[t].Stopping?) && s.threads[t].name !in s.locks
    && var name := s.threads[t].name;
       s' == s.(locks := s.locks[name := t],
                threads := s.threads[t := if s.threads[t].Starting? then Claiming(name) else Finding(name)])
  }

  ghost predicate Claim(s: State, s': State, t: ThreadId, id: PodId) {
    && t in s.threads && s.threads[t].Claiming? && id !in s.pods.created
    && var name := s.threads[t].name;
       if MayStart(s.pods, name) then
         s' == s.(pods := Started(s.pods, name, id), threads := s.threads[t := Running(name, id)])
       else Goes(s, s', t, Unlocking(name))
  }

  /** The pod's Start returns; if it failed, it has waited for the pod to be done. */
  ghost predicate StartReturns(s: State, s': State, t: ThreadId, failed: bool) {
    && t in s.threads && s.threads[t].Running? && (failed ==> s.threads[t].dp in s.pods.done)
    && Goes(s, s', t, Unlocking(s.threads[t].name))
  }

  ghost predicate Find(s: State, s': State, t: ThreadId) {
    && t in s.threads && s.threads[t].Finding?
    && var name := s.threads[t].name;
       Goes(s, s', t, if name in s.pods.devPods then Ending(name, s.pods.devPods[name]) else Unlocking(name))
  }

  ghost predicate EndingReturns(s: State, s': State, t: ThreadId) {
    && t in s.threads && s.threads[t].Ending? && s.threads[t].dp in s.pods.done
    && Goes(s, s', t, Deleting(s.threads[t].name, s.threads[t].dp))
  }

  ghost predicate Delete(s: State, s': State, t: ThreadId) {
    && t in s.threads && s.threads[t].Deleting?
    && var name := s.threads[t].name;
       s' == s.(pods := Deleted(s.pods, name), threads := s.threads[t := Unlocking(name)])
  }

  /** Unlock; what the thread does next is open. */
  ghost predicate Unlock(s: State, s': State, t: ThreadId, next: Thread) {
    && t in s.threads && s.threads[t].Unlocking? && (next.Starting? || next.Stopping? || next.Snapshotting?)
    && s' == s.(locks := s.locks - {s.threads[t].name}, threads := s.threads[t := next])
  }

  ghost predicate TakeSnapshot(s: State, s': State, t: ThreadId) {
    && t in s.threads && s.threads[t].Snapshotting?
    && Goes(s, s', t, Waiting(s.pods.devPods.Values, s.pods.created.Keys))
  }

  /** One pod of the snapshot is done. */
  ghost predicate WaitForOne(s: State, s': State, t: ThreadId, dp: PodId) {
    && t in s.threads && s.threads[t].Waiting? && dp in s.threads[t].left && dp in s.pods.done
    && Goes(s, s', t, s.threads[t].(left := s.threads[t].left - {dp}))
  }

  ghost predicate WaitReturns(s: State, s': State, t: ThreadId) {
    && t in s.threads && s.threads[t].Waiting? && s.threads[t].left == {}
    && Goes(s, s', t, Returned(s.threads[t].before))
  }

  /** A pod ends, by itself, because it was stopped, or because its context was cancelled. */
  ghost predicate PodDone(s: State, s': State, dp: PodId) {
    dp in s.pods.created && s' == s.(pods := s.pods.(done := s.pods.done + {dp}))
  }

  ghost predicate ThreadStep(s: State, s': State, t: ThreadId) {
    || Lock(s, s', t)
    || (exists id :: Claim(s, s', t, id))
    || (exists failed :: StartReturns(s, s', t, failed))
    || Find(s, s', t)
    || EndingReturns(s, s', t)
    || Delete(s, s', t)
    || (exists next :: Unlock(s, s', t, next))
    || TakeSnapshot(s, s', t)
    || (exists dp :: WaitForOne(s, s', t, dp))
    || WaitReturns(s, s', t)
  }

  ghost predicate Step(s: State, s': State) {
    (exists t :: ThreadStep(s, s', t)) || (exists dp :: PodDone(s, s', dp))
  }

  ghost predicate Run(run: seq<State>) {
    run != [] && Init(run[0]) && forall i :: 0 <= i < |run| - 1 ==> Step(run[i], run[i+1])
  }

  // ---------------------------------------------------------------------------------------------
  // The invariant
  // ---------------------------------------------------------------------------------------------

  /** What a thread knows of the map, thanks to the lock it holds, or of the pods it has found. */
  ghost predicate Knows(p: Pods, th: Thread) {
    match th
    case Running(n, dp) => n in p.devPods && p.devPods[n] == dp
    case Ending(n, dp) => n in p.devPods && p.devPods[n] == dp
    case Deleting(n, dp) => n in p.devPods && p.devPods[n] == dp && dp in p.done
    case Waiting(left, before) => forall id :: id in before ==> id in p.done || id in left
    case Returned(before) => before <= p.done
    case _ => true
  }

  /** A thread in a locked section has the lock. */
  ghost predicate HasLock(locks: map<string, ThreadId>, t: ThreadId, th: Thread) {
    Holds(th).Some? ==> Holds(th).value in locks && locks[Holds(th).value] == t
  }

  ghost predicate ThreadOk(s: State, t: ThreadId)
    requires t in s.threads
  {
    Knows(s.pods, s.threads[t]) && HasLock(s.locks, t, s.threads[t])
  }

  ghost predicate Invariant(s: State) {
    NoOrphan(s.pods) && forall t {:trigger s.threads[t]} :: t in s.threads ==> ThreadOk(s, t)
  }

  /** Changes at one name leave alone what threads know that do not hold the lock of that name. */
  ghost predicate ChangedAt(p: Pods, p': Pods, name: string) {
    && (forall n :: n != name ==> (n in p.devPods <==> n in p'.devPods))
    && (forall n :: n != name && n in p.devPods ==> p'.devPods[n] == p.devPods[n])
    && p.done <= p'.done
  }

  lemma OthersKeep(p: Pods, p': Pods, name: string, th: Thread)
    requires ChangedAt(p, p', name) && Knows(p, th) && Holds(th) != Some(name)
    ensures Knows(p', th)
  {
  }

  /** A step of one thread that holds the lock of `name`, before and after, and changes the map at most there. */
  lemma LockedStepKeeps(s: State, s': State, t: ThreadId, name: string)
    requires Invariant(s) && NoOrphan(s'.pods) && t in s.threads && Holds(s.threads[t]) == Some(name)
    requires t in s'.threads && s' == s.(pods := s'.pods, threads := s.threads[t := s'.threads[t]])
    requires ChangedAt(s.pods, s'.pods, name)
    requires Holds(s'.threads[t]) == Some(name) && Knows(s'.pods, s'.threads[t])
    ensures Invariant(s')
  {
    assert ThreadOk(s, t);
    forall x | x in s'.threads ensures ThreadOk(s', x) {
      if x != t {
        assert ThreadOk(s, x) && s'.threads[x] == s.threads[x];
        OthersKeep(s.pods, s'.pods, name, s.threads[x]);
      }
    }
  }

  lemma LockKeeps(s: State, s': State, t: ThreadId)
    requires Invariant(s) && Lock(s, s', t)
    ensures Invariant(s')
  {
    forall x | x in s'.threads ensures ThreadOk(s', x) {
      assert ThreadOk(s, x);
    }
  }

  lemma UnlockKeeps(s: State, s': State, t: ThreadId, next: Thread)
    requires Invariant(s) && Unlock(s, s', t, next)
    ensures Invariant(s')
  {
    assert ThreadOk(s, t);
    forall x | x in s'.threads ensures ThreadOk(s', x) {
      assert ThreadOk(s, x);
    }
  }

  lemma ClaimKeeps(s: State, s': State, t: ThreadId, id: PodId)
    requires Invariant(s) && Claim(s, s', t, id)
    ensures Invariant(s')
  {
    var name := s.threads[t].name;
    assert ThreadOk(s, t);
    if MayStart(s.pods, name) {
      assert NoOrphan(s'.pods);
    }
    LockedStepKeeps(s, s', t, name);
  }

  lemma DeleteKeeps(s: State, s': State, t: ThreadId)
    requires Invariant(s) && Delete(s, s', t)
    ensures Invariant(s')
  {
    assert ThreadOk(s, t);
    LockedStepKeeps(s, s', t, s.threads[t].name);
  }

  lemma MoveKeeps(s: State, s': State, t: ThreadId)
    requires Invariant(s)
    requires (exists failed :: StartReturns(s, s', t, failed)) || Find(s, s', t) || EndingReturns(s, s', t)
    ensures Invariant(s')
  {
    assert ThreadOk(s, t);
    LockedStepKeeps(s, s', t, s.threads[t].name);
  }

  lemma WaitKeeps(s: State, s': State, t: ThreadId)
    requires Invariant(s)
    requires TakeSnapshot(s, s', t) || (exists dp :: WaitForOne(s, s', t, dp)) || WaitReturns(s, s', t)
    ensures Invariant(s')
  {
    assert ThreadOk(s, t);
    if TakeSnapshot(s, s', t) {
      forall id | id in s.pods.created && id !in s.pods.done ensures id in s.pods.devPods.Values {
        assert s.pods.devPods[s.pods.created[id]] == id;
      }
    }
    assert Knows(s'.pods, s'.threads[t]);
    forall x | x in s'.threads ensures ThreadOk(s', x) {
      assert ThreadOk(s, x);
    }
  }

  lemma DoneKeeps(s: State, s': State, dp: PodId)
    requires Invariant(s) && PodDone(s, s', dp)
    ensures Invariant(s')
  {
    forall x | x in s'.threads ensures ThreadOk(s', x) {
      assert ThreadOk(s, x);
    }
  }

  lemma StepKeeps(s: State, s': State)
    requires Invariant(s) && Step(s, s')
    ensures Invariant(s')
  {
    if dp :| PodDone(s, s', dp) {
      DoneKeeps(s, s', dp);
    } else {
      var t :| ThreadStep(s, s', t);
      if Lock(s, s', t) {
        LockKeeps(s, s', t);
      } else if id :| Claim(s, s', t, id) {
        ClaimKeeps(s, s', t, id);
      } else if Delete(s, s', t) {
        DeleteKeeps(s, s', t);
      } else if next :| Unlock(s, s', t, next) {
        UnlockKeeps(s, s', t, next);
      } else if TakeSnapshot(s, s', t) || (exists dp :: WaitForOne(s, s', t, dp)) || WaitReturns(s, s', t) {
        WaitKeeps(s, s', t);
      } else {
        MoveKeeps(s, s', t);
      }
    }
  }

  lemma {:induction false} InvariantInRun(run: seq<State>, i: nat)
    requires Run(run) && i < |run|
    ensures Invariant(run[i])
  {
    if i > 0 {
      InvariantInRun(run, i - 1);
      assert Step(run[i-1], run[i]);
      StepKeeps(run[i-1], run[i]);
    }
  }

  // ---------------------------------------------------------------------------------------------
  // Results
  // ---------------------------------------------------------------------------------------------

  /** Main result: whatever the threads do, a pod that is not done is the one in the map, so there is at most one for each
      name, and it can be stopped and waited for. */
  lemma NoOrphanedPod(run: seq<State>, i: nat, a: PodId, b: PodId)
    requires Run(run) && i < |run|
    requires a in run[i].pods.created && a !in run[i].pods.done
    ensures run[i].pods.created[a] in run[i].pods.devPods && run[i].pods.devPods[run[i].pods.created[a]] == a
    ensures b in run[i].pods.created && b !in run[i].pods.done && run[i].pods.created[b] == run[i].pods.created[a] ==> a == b
  {
    InvariantInRun(run, i);
  }

  /** Main result: a thread that wants a name gets a new pod if and only if no pod that was created for this name is still
      running. */
  lemma ClaimedExactly(run: seq<State>, i: nat, t: ThreadId, id: PodId)
    requires Run(run) && i + 1 < |run| && Claim(run[i], run[i+1], t, id)
    ensures t in run[i].threads && t in run[i+1].threads
    ensures run[i+1].threads[t].Running? <==>
              !exists a :: a in run[i].pods.created && run[i].pods.created[a] == run[i].threads[t].name && a !in run[i].pods.done
  {
    InvariantInRun(run, i);
    var p, name := run[i].pods, run[i].threads[t].name;
    if name in p.devPods && p.devPods[name] !in p.done {
      assert p.created[p.devPods[name]] == name;
    }
  }

  /** Main result: stop waits for the running pod of its name, if there is one. */
  lemma StopFindsRunning(run: seq<State>, i: nat, t: ThreadId, id: PodId)
    requires Run(run) && i + 1 < |run| && t in run[i].threads && Find(run[i], run[i+1], t)
    requires id in run[i].pods.created && id !in run[i].pods.done && run[i].pods.created[id] == run[i].threads[t].name
    ensures t in run[i+1].threads && run[i+1].threads[t] == Ending(run[i].threads[t].name, id)
  {
    InvariantInRun(run, i);
  }

  /** Main result: when Wait or Close returns, every pod that existed when it took its snapshot is done. */
  lemma WaitIsComplete(run: seq<State>, i: nat, t: ThreadId)
    requires Run(run) && i < |run| && t in run[i].threads && run[i].threads[t].Returned?
    ensures run[i].threads[t].before <= run[i].pods.done
  {
    InvariantInRun(run, i);
    assert ThreadOk(run[i], t);
  }

  /** Two threads are never in locked sections of the same name. */
  lemma LocksExclude(run: seq<State>, i: nat, t: ThreadId, u: ThreadId)
    requires Run(run) && i < |run| && t in run[i].threads && u in run[i].threads
    requires Holds(run[i].threads[t]).Some? && Holds(run[i].threads[t]) == Holds(run[i].threads[u])
    ensures t == u
  {
    InvariantInRun(run, i);
    assert ThreadOk(run[i], t) && ThreadOk(run[i], u);
  }

  /** Main result: when stop removes a name from the map, it removes the pod it has waited for, not a newer one. */
  lemma StopRemovesItsOwn(run: seq<State>, i: nat, t: ThreadId)
    requires Run(run) && i + 1 < |run| && t in run[i].threads && Delete(run[i], run[i+1], t)
    ensures var th := run[i].threads[t];
            && th.name in run[i].pods.devPods && run[i].pods.devPods[th.name] == th.dp && th.dp in run[i].pods.done
            && run[i+1].pods.devPods == run[i].pods.devPods - {th.name}
  {
    InvariantInRun(run, i);
    assert ThreadOk(run[i], t);
  }
}
