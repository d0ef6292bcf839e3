/** The request deduplicator as atomic steps of many callers over one shared map. */
module Dedup {
  import opened Wrappers

  type Key = string

  /** What a caller returns; the two notices below are ordinary values of the caller's error type. */
  type Outcome = Result<string, string>

  const CREATOR_PANICKED := "creator panicked"
  const CREATOR_ABANDONED := "creator abandoned"

  datatype StoredResult = Stored(outcome: Outcome) | StoredPanic

  /** `key` records where the entry was inserted; the source's entry does not need it. */
  datatype Entry = Entry(key: Key, result: Option<StoredResult>, closed: bool, claimed: bool)

  datatype Work = Running | Finished(outcome: Outcome) | Panicked

  datatype Task = Task(entry: nat, work: Work)

  /**
   * Where a call of `run_or_wait` stands. `Leaving` and `Removing` are the two halves of the guard's drop;
   * they carry no outcome when the call was cancelled.
   */
  datatype Phase =
    | LookedUp(entry: nat)
    | Claimed(entry: nat)
    | Awaiting(entry: nat, task: nat)
    | Storing(entry: nat, outcome: Outcome)
    | Leaving(entry: nat, left: Option<Outcome>)
    | Removing(entry: nat, left: Option<Outcome>)
    | Waiting(entry: nat)
    | Awake(entry: nat)
    | Returned(entry: nat, outcome: Outcome)
    | Cancelled(entry: nat)
    | Crashed(entry: nat)

  datatype Caller = Caller(key: Key, phase: Phase)

  datatype Dedup = Dedup(entries: map<Key, nat>, heap: seq<Entry>, tasks: seq<Task>, callers: map<nat, Caller>)

  datatype Step =
    | Arrive(caller: nat, key: Key)
    | Claim(caller: nat)
    | Spawn(caller: nat)
    | Crash(caller: nat)
    | FinishWork(task: nat, outcome: Outcome)
    | PanicWork(task: nat)
    | Store(caller: nat)
    | CloseStored(caller: nat)
    | Cancel(caller: nat)
    | DropClose(caller: nat)
    | DropRemove(caller: nat)
    | Wake(caller: nat)
    | Read(caller: nat)

  function StoredFor(work: Work): StoredResult
    requires !work.Running?
  {
    if work.Finished? then Stored(work.outcome) else StoredPanic
  }

  function OutcomeOf(stored: Option<StoredResult>): Outcome {
    match stored
    case Some(Stored(o)) => o
    case Some(StoredPanic) => Err(CREATOR_PANICKED)
    case None => Err(CREATOR_ABANDONED)
  }

  predicate At(s: Dedup, c: nat) {
    c in s.callers && s.callers[c].phase.entry < |s.heap|
  }

  predicate Enabled(s: Dedup, step: Step) {
    match step
    case Arrive(c, _) => c !in s.callers
    case Claim(c) => At(s, c) && s.callers[c].phase.LookedUp?
    case Spawn(c) => At(s, c) && s.callers[c].phase.Claimed?
    case Crash(c) => At(s, c) && s.callers[c].phase.Claimed?
    case FinishWork(t, _) => t < |s.tasks| && s.tasks[t].work.Running?
    case PanicWork(t) => t < |s.tasks| && s.tasks[t].work.Running?
    case Store(c) =>
      && At(s, c) && s.callers[c].phase.Awaiting?
      && s.callers[c].phase.task < |s.tasks| && !s.tasks[s.callers[c].phase.task].work.Running?
    case CloseStored(c) => At(s, c) && s.callers[c].phase.Storing?
    case Cancel(c) => At(s, c) && (s.callers[c].phase.Awaiting? || s.callers[c].phase.Waiting?)
    case DropClose(c) => At(s, c) && s.callers[c].phase.Leaving?
    case DropRemove(c) => At(s, c) && s.callers[c].phase.Removing?
    case Wake(c) => At(s, c) && s.callers[c].phase.Waiting? && s.heap[s.callers[c].phase.entry].closed
    case Read(c) => At(s, c) && s.callers[c].phase.Awake?
  }

  function MoveTo(s: Dedup, c: nat, phase: Phase): Dedup
    requires c in s.callers
  {
    s.(callers := s.callers[c := s.callers[c].(phase := phase)])
  }

  function Do(s: Dedup, step: Step): Dedup
    requires Enabled(s, step)
  {
    match step
    case Arrive(c, k) =>
      if k in s.entries then s.(callers := s.callers[c := Caller(k, LookedUp(s.entries[k]))])
      else
        var e := |s.heap|;
        s.(entries := s.entries[k := e],
           heap := s.heap + [Entry(k, None, false, false)],
           callers := s.callers[c := Caller(k, LookedUp(e))])
    case Claim(c) =>
      var e := s.callers[c].phase.entry;
      if s.heap[e].claimed then MoveTo(s, c, Waiting(e))
      else MoveTo(s.(heap := s.heap[e := s.heap[e].(claimed := true)]), c, Claimed(e))
    case Spawn(c) =>
      var e := s.callers[c].phase.entry;
      MoveTo(s.(tasks := s.tasks + [Task(e, Running)]), c, Awaiting(e, |s.tasks|))
    case Crash(c) => MoveTo(s, c, Crashed(s.callers[c].phase.entry))
    case FinishWork(t, o) => s.(tasks := s.tasks[t := s.tasks[t].(work := Finished(o))])
    case PanicWork(t) => s.(tasks := s.tasks[t := s.tasks[t].(work := Panicked)])
    case Store(c) =>
      var e := s.callers[c].phase.entry;
      var stored := Some(StoredFor(s.tasks[s.callers[c].phase.task].work));
      MoveTo(s.(heap := s.heap[e := s.heap[e].(result := stored)]), c, Storing(e, OutcomeOf(stored)))
    case CloseStored(c) =>
      var p := s.callers[c].phase;
      MoveTo(s.(heap := s.heap[p.entry := s.heap[p.entry].(closed := true)]), c, Leaving(p.entry, Some(p.outcome)))
    case Cancel(c) =>
      // The join handle was taken out of the guard before the await: the work is not aborted.
      var p := s.callers[c].phase;
      MoveTo(s, c, if p.Awaiting? then Leaving(p.entry, None) else Cancelled(p.entry))
    case DropClose(c) =>
      var p := s.callers[c].phase;
      MoveTo(s.(heap := s.heap[p.entry := s.heap[p.entry].(closed := true)]), c, Removing(p.entry, p.left))
    case DropRemove(c) =>
      var p := s.callers[c].phase;
      MoveTo(s.(entries := s.entries - {s.callers[c].key}), c,
             if p.left.Some? then Returned(p.entry, p.left.value) else Cancelled(p.entry))
    case Wake(c) => MoveTo(s, c, Awake(s.callers[c].phase.entry))
    case Read(c) =>
      var e := s.callers[c].phase.entry;
      MoveTo(s, c, Returned(e, OutcomeOf(s.heap[e].result)))
  }

  // ----- what every run keeps -----

  /** The caller has won the claim of its entry and its guard (or the call of `f`) is still to come to an end. */
  predicate Creating(p: Phase) {
    p.Claimed? || p.Awaiting? || p.Storing? || p.Leaving? || p.Removing?
  }

  predicate IsCreator(s: Dedup, c: nat, e: nat) {
    c in s.callers && Creating(s.callers[c].phase) && s.callers[c].phase.entry == e
  }

  predicate InMap(s: Dedup, e: nat) {
    e < |s.heap| && s.heap[e].key in s.entries && s.entries[s.heap[e].key] == e
  }

  predicate HasTask(s: Dedup, e: nat) {
    exists t | 0 <= t < |s.tasks| :: s.tasks[t].entry == e
  }

  predicate CallerOk(s: Dedup, c: nat)
    requires c in s.callers
  {
    var p := s.callers[c].phase;
    && p.entry < |s.heap|
    && s.heap[p.entry].key == s.callers[c].key
    && (!p.LookedUp? ==> s.heap[p.entry].claimed)
    && (Creating(p) ==> InMap(s, p.entry))
    && var e := s.heap[p.entry];
       match p
       case LookedUp(_) => true
       case Claimed(_) => !e.closed && e.result.None? && !HasTask(s, p.entry)
       case Awaiting(_, t) => !e.closed && e.result.None? && t < |s.tasks| && s.tasks[t].entry == p.entry
       case Storing(_, o) => !e.closed && e.result.Some? && o == OutcomeOf(e.result)
       case Leaving(_, left) =>
         if left.Some? then e.closed && e.result.Some? && left.value == OutcomeOf(e.result)
         else !e.closed && e.result.None?
       case Removing(_, left) =>
         e.closed && if left.Some? then e.result.Some? && left.value == OutcomeOf(e.result) else e.result.None?
       case Waiting(_) => true
       case Awake(_) => e.closed
       case Returned(_, o) => e.closed && o == OutcomeOf(e.result)
       case Cancelled(_) => true
       case Crashed(_) => !e.closed && e.result.None? && !HasTask(s, p.entry) && InMap(s, p.entry)
  }

  /** What an entry's result says about the work that was done for it. */
  predicate EntryOk(s: Dedup, e: nat)
    requires e < |s.heap|
  {
    && (!s.heap[e].claimed ==> !s.heap[e].closed && s.heap[e].result.None? && !HasTask(s, e) && InMap(s, e))
    && (s.heap[e].result.Some? ==>
          exists t | 0 <= t < |s.tasks| :: s.tasks[t].entry == e && !s.tasks[t].work.Running?
            && s.heap[e].result == Some(StoredFor(s.tasks[t].work)))
  }

  /** The map and the tasks name entries that exist, each entry at most one task. */
  predicate Tables(s: Dedup) {
    && (forall k | k in s.entries :: s.entries[k] < |s.heap| && s.heap[s.entries[k]].key == k)
    && (forall t | 0 <= t < |s.tasks| :: s.tasks[t].entry < |s.heap|)
    && (forall t, u | 0 <= t < u < |s.tasks| :: s.tasks[t].entry != s.tasks[u].entry)
  }

  predicate CallersOk(s: Dedup) {
    forall c | c in s.callers :: CallerOk(s, c)
  }

  predicate EntriesOk(s: Dedup) {
    forall e | 0 <= e < |s.heap| :: EntryOk(s, e)
  }

  /** No two callers create one entry. */
  predicate ClaimantsApart(s: Dedup) {
    forall c, d | c in s.callers && d in s.callers && c != d && Claimant(s, c) && Claimant(s, d) ::
      s.callers[c].phase.entry != s.callers[d].phase.entry
  }

  predicate Inv(s: Dedup) {
    Tables(s) && CallersOk(s) && EntriesOk(s) && ClaimantsApart(s)
  }

  /** Creating, or crashed while about to. */
  predicate Claimant(s: Dedup, c: nat)
    requires c in s.callers
  {
    Creating(s.callers[c].phase) || s.callers[c].phase.Crashed?
  }

  const Empty := Dedup(map[], [], [], map[])

  // ----- frames: what a step leaves alone -----

  predicate TasksGrow(s: Dedup, t: Dedup) {
    |s.tasks| <= |t.tasks| && forall i | 0 <= i < |s.tasks| ::
      t.tasks[i].entry == s.tasks[i].entry && (!s.tasks[i].work.Running? ==> t.tasks[i] == s.tasks[i])
  }

  lemma CallerKept(s: Dedup, t: Dedup, d: nat)
    requires d in s.callers && d in t.callers && t.callers[d] == s.callers[d] && CallerOk(s, d)
    requires TasksGrow(s, t)
    requires var e := s.callers[d].phase.entry;
      && e < |t.heap|
      && t.heap[e].key == s.heap[e].key
      && (Claimant(s, d) ==> t.heap[e] == s.heap[e] && InMap(t, e) && (HasTask(t, e) ==> HasTask(s, e)))
      && (s.heap[e].claimed ==> t.heap[e].claimed)
      && (s.heap[e].closed ==> t.heap[e].closed && t.heap[e].result == s.heap[e].result)
    ensures CallerOk(t, d)
  {
  }

  lemma EntryKept(s: Dedup, t: Dedup, e: nat)
    requires e < |s.heap| <= |t.heap| && t.heap[e] == s.heap[e] && EntryOk(s, e)
    requires TasksGrow(s, t)
    requires !s.heap[e].claimed ==> InMap(t, e) && (HasTask(t, e) ==> HasTask(s, e))
    ensures EntryOk(t, e)
  {
    if s.heap[e].result.Some? {
      var i :| 0 <= i < |s.tasks| && s.tasks[i].entry == e && !s.tasks[i].work.Running?
        && s.heap[e].result == Some(StoredFor(s.tasks[i].work));
      assert t.tasks[i] == s.tasks[i];
    }
  }

  /** The same work is on record for the same entries. */
  lemma SameTasks(s: Dedup, t: Dedup, e: nat)
    requires |s.tasks| == |t.tasks| && forall i | 0 <= i < |s.tasks| :: t.tasks[i].entry == s.tasks[i].entry
    ensures HasTask(t, e) <==> HasTask(s, e)
  {
    if HasTask(t, e) {
      var i :| 0 <= i < |t.tasks| && t.tasks[i].entry == e;
      assert s.tasks[i].entry == e;
    }
    if HasTask(s, e) {
      var i :| 0 <= i < |s.tasks| && s.tasks[i].entry == e;
      assert t.tasks[i].entry == e;
    }
  }

  /** Only caller `c` has moved, and it creates nothing that another caller creates. */
  lemma ApartKept(s: Dedup, t: Dedup, c: nat)
    requires ClaimantsApart(s) && c in t.callers && t.callers == s.callers[c := t.callers[c]]
    requires Claimant(t, c) ==> forall d | d in s.callers && d != c && Claimant(s, d) ::
      s.callers[d].phase.entry != t.callers[c].phase.entry
    ensures ClaimantsApart(t)
  {
    forall a, b | a in t.callers && b in t.callers && a != b && Claimant(t, a) && Claimant(t, b)
      ensures t.callers[a].phase.entry != t.callers[b].phase.entry
    {
      if a != c && b != c {
        assert Claimant(s, a) && Claimant(s, b);
      } else if a == c {
        assert Claimant(s, b);
      } else {
        assert Claimant(s, a);
      }
    }
  }

  // ----- the steps, one by one -----

  /** Nothing but caller `c` differs. */
  predicate SetCaller(s: Dedup, t: Dedup, c: nat) {
    c in t.callers && t == s.(callers := s.callers[c := t.callers[c]])
  }

  lemma OthersKept(s: Dedup, t: Dedup, c: nat)
    requires CallersOk(s) && SetCaller(s, t, c) && CallerOk(t, c)
    ensures CallersOk(t)
  {
    hide HasTask;
    forall d | d in t.callers ensures CallerOk(t, d) {
      if d != c {
        assert CallerOk(s, d);
        SameTasks(s, t, s.callers[d].phase.entry);
      }
    }
  }

  lemma AllKept(s: Dedup, t: Dedup, c: nat)
    requires EntriesOk(s) && SetCaller(s, t, c)
    ensures EntriesOk(t)
  {
    hide HasTask;
    forall e | 0 <= e < |t.heap| ensures EntryOk(t, e) {
      assert EntryOk(s, e);
      SameTasks(s, t, e);
    }
  }

  /** A step that only moves caller `c`, to a phase that suits its entry as it is. */
  lemma InvSetCaller(s: Dedup, t: Dedup, c: nat)
    requires Inv(s) && SetCaller(s, t, c) && CallerOk(t, c)
    requires Claimant(t, c) ==>
      c in s.callers && Claimant(s, c) && t.callers[c].phase.entry == s.callers[c].phase.entry
    ensures Inv(t)
  {
    OthersKept(s, t, c);
    AllKept(s, t, c);
    ApartKept(s, t, c);
    hide CallersOk, EntriesOk, ClaimantsApart;
  }

  /** A caller that finds an entry under its key. */
  lemma InvJoin(s: Dedup, c: nat, k: Key)
    requires Inv(s) && c !in s.callers && k in s.entries
    ensures Inv(s.(callers := s.callers[c := Caller(k, LookedUp(s.entries[k]))]))
  {
    hide CallersOk, EntriesOk, ClaimantsApart;
    InvSetCaller(s, s.(callers := s.callers[c := Caller(k, LookedUp(s.entries[k]))]), c);
  }

  /** A new entry under a key the map does not hold. */
  lemma InvInsert(s: Dedup, k: Key)
    requires Inv(s) && k !in s.entries
    ensures Inv(Inserted(s, k))
  {
    InsertCallers(s, k);
    InsertEntries(s, k);
    hide CallersOk, EntriesOk;
  }

  function Inserted(s: Dedup, k: Key): Dedup {
    s.(entries := s.entries[k := |s.heap|], heap := s.heap + [Entry(k, None, false, false)])
  }

  lemma InsertCallers(s: Dedup, k: Key)
    requires Inv(s) && k !in s.entries
    ensures CallersOk(Inserted(s, k))
  {
    hide HasTask, EntriesOk, ClaimantsApart;
    var t := Inserted(s, k);
    assert forall f | InMap(s, f) :: InMap(t, f);
    forall d | d in t.callers ensures CallerOk(t, d) {
      assert CallerOk(s, d);
      SameTasks(s, t, s.callers[d].phase.entry);
      CallerKept(s, t, d);
    }
  }

  lemma InsertEntries(s: Dedup, k: Key)
    requires Inv(s) && k !in s.entries
    ensures EntriesOk(Inserted(s, k))
  {
    hide CallersOk, ClaimantsApart;
    var t := Inserted(s, k);
    assert forall f | InMap(s, f) :: InMap(t, f);
    forall e | 0 <= e < |t.heap| ensures EntryOk(t, e) {
      SameTasks(s, t, e);
      if e < |s.heap| {
        assert EntryOk(s, e);
        EntryKept(s, t, e);
      } else {
        assert !HasTask(s, e);
      }
    }
  }

  lemma InvArrive(s: Dedup, c: nat, k: Key)
    requires Inv(s) && Enabled(s, Arrive(c, k))
    ensures Inv(Do(s, Arrive(c, k)))
  {
    if k in s.entries {
      InvJoin(s, c, k);
    } else {
      InvInsert(s, k);
      InvJoin(Inserted(s, k), c, k);
    }
  }

  lemma InvClaim(s: Dedup, c: nat)
    requires Inv(s) && Enabled(s, Claim(c))
    ensures Inv(Do(s, Claim(c)))
  {
    if s.heap[s.callers[c].phase.entry].claimed {
      InvOnlyPhase(s, Do(s, Claim(c)), c);
    } else {
      InvClaimWon(s, c);
    }
  }

  predicate WinsClaim(s: Dedup, c: nat) {
    Enabled(s, Claim(c)) && !s.heap[s.callers[c].phase.entry].claimed
  }

  lemma InvClaimWon(s: Dedup, c: nat)
    requires Inv(s) && WinsClaim(s, c)
    ensures Inv(Do(s, Claim(c)))
  {
    ClaimCallers(s, c);
    ClaimEntries(s, c);
    ClaimApart(s, c);
    hide CallersOk, EntriesOk, ClaimantsApart;
  }

  lemma ClaimApart(s: Dedup, c: nat)
    requires Inv(s) && WinsClaim(s, c)
    ensures ClaimantsApart(Do(s, Claim(c)))
  {
    hide CallersOk, EntriesOk, Tables, InMap, ClaimantsApart;
    ClaimCallers(s, c);
    var t := Do(s, Claim(c));
    forall d | d in s.callers && d != c && Claimant(s, d)
      ensures s.callers[d].phase.entry != t.callers[c].phase.entry
    {
      assert t.callers[d] == s.callers[d];
    }
    ApartKept(s, t, c);
  }

  /** Nobody else was the claimant of the entry that is claimed. */
  lemma ClaimCallers(s: Dedup, c: nat)
    requires Inv(s) && WinsClaim(s, c)
    ensures
      var t, e := Do(s, Claim(c)), s.callers[c].phase.entry;
      && CallersOk(t)
      && forall d | d in t.callers && d != c && Claimant(t, d) :: t.callers[d].phase.entry != e
  {
    var t, e := Do(s, Claim(c)), s.callers[c].phase.entry;
    assert CallerOk(s, c) && EntryOk(s, e);
    hide HasTask, EntriesOk, Tables, ClaimantsApart;
    forall d | d in t.callers ensures CallerOk(t, d) && (d != c && Claimant(t, d) ==> t.callers[d].phase.entry != e) {
      SameTasks(s, t, t.callers[d].phase.entry);
      if d != c {
        assert CallerOk(s, d);
        CallerKept(s, t, d);
      }
    }
  }

  lemma ClaimEntries(s: Dedup, c: nat)
    requires Inv(s) && WinsClaim(s, c)
    ensures EntriesOk(Do(s, Claim(c)))
  {
    var t, e := Do(s, Claim(c)), s.callers[c].phase.entry;
    hide HasTask, CallersOk, Tables, ClaimantsApart;
    forall f | 0 <= f < |t.heap| ensures EntryOk(t, f) {
      SameTasks(s, t, f);
      assert EntryOk(s, f);
      if f != e {
        EntryKept(s, t, f);
      }
    }
  }

  lemma InvSpawn(s: Dedup, c: nat)
    requires Inv(s) && Enabled(s, Spawn(c))
    ensures Inv(Do(s, Spawn(c)))
  {
    SpawnCallers(s, c);
    SpawnEntries(s, c);
    SpawnTables(s, c);
    ApartKept(s, Do(s, Spawn(c)), c);
    hide CallersOk, EntriesOk, Tables, ClaimantsApart;
  }

  lemma SpawnTables(s: Dedup, c: nat)
    requires Inv(s) && Enabled(s, Spawn(c))
    ensures Tables(Do(s, Spawn(c)))
  {
    assert CallerOk(s, c);
    hide CallersOk, EntriesOk, ClaimantsApart;
  }

  lemma NewTaskOnly(s: Dedup, c: nat, f: nat)
    requires Enabled(s, Spawn(c)) && f != s.callers[c].phase.entry
    ensures HasTask(Do(s, Spawn(c)), f) ==> HasTask(s, f)
  {
    var t := Do(s, Spawn(c));
    if HasTask(t, f) {
      var i :| 0 <= i < |t.tasks| && t.tasks[i].entry == f;
      assert s.tasks[i].entry == f;
    }
  }

  lemma SpawnCallers(s: Dedup, c: nat)
    requires Inv(s) && Enabled(s, Spawn(c))
    ensures CallersOk(Do(s, Spawn(c)))
  {
    hide HasTask, EntriesOk, Tables;
    var t := Do(s, Spawn(c));
    assert CallerOk(s, c);
    forall d | d in t.callers ensures CallerOk(t, d) {
      if d != c {
        assert CallerOk(s, d);
        if s.callers[d].phase.entry != s.callers[c].phase.entry {
          NewTaskOnly(s, c, s.callers[d].phase.entry);
        }
        CallerKept(s, t, d);
      }
    }
  }

  lemma SpawnEntries(s: Dedup, c: nat)
    requires Inv(s) && Enabled(s, Spawn(c))
    ensures EntriesOk(Do(s, Spawn(c)))
  {
    hide HasTask, Tables, ClaimantsApart;
    var t := Do(s, Spawn(c));
    assert CallerOk(s, c);
    forall f | 0 <= f < |t.heap| ensures EntryOk(t, f) {
      assert EntryOk(s, f);
      if f != s.callers[c].phase.entry {
        NewTaskOnly(s, c, f);
      }
      EntryKept(s, t, f);
    }
  }

  lemma InvCrash(s: Dedup, c: nat)
    requires Inv(s) && Enabled(s, Crash(c))
    ensures Inv(Do(s, Crash(c)))
  {
    InvOnlyPhase(s, Do(s, Crash(c)), c);
  }

  lemma InvOnlyPhase(s: Dedup, t: Dedup, c: nat)
    requires Inv(s) && c in s.callers
    requires c in t.callers && t == MoveTo(s, c, t.callers[c].phase)
    requires t.callers[c].phase.entry == s.callers[c].phase.entry
    requires CallerOk(s, c) ==> CallerOk(t, c)
    requires Claimant(t, c) ==> Claimant(s, c)
    ensures Inv(t)
  {
    assert CallerOk(s, c);
    hide CallersOk, EntriesOk, ClaimantsApart, Tables, CallerOk;
    InvSetCaller(s, t, c);
  }

  /** Work that ends, in whichever way. */
  lemma InvWork(s: Dedup, i: nat, work: Work)
    requires Inv(s) && i < |s.tasks| && s.tasks[i].work.Running?
    ensures Inv(s.(tasks := s.tasks[i := s.tasks[i].(work := work)]))
  {
    hide HasTask;
    var t := s.(tasks := s.tasks[i := s.tasks[i].(work := work)]);
    forall d | d in t.callers ensures CallerOk(t, d) {
      assert CallerOk(s, d);
      SameTasks(s, t, s.callers[d].phase.entry);
    }
    forall f | 0 <= f < |t.heap| ensures EntryOk(t, f) {
      assert EntryOk(s, f);
      SameTasks(s, t, f);
      EntryKept(s, t, f);
    }
  }

  /** A step of the creator of an entry that sets its result or closes it. */
  predicate EntryStep(s: Dedup, t: Dedup, c: nat) {
    && c in s.callers && Creating(s.callers[c].phase)
    && var e := s.callers[c].phase.entry;
       && e < |s.heap|
       && c in t.callers && Creating(t.callers[c].phase) && t.callers[c].phase.entry == e
       && |t.heap| == |s.heap|
       && t == MoveTo(s.(heap := s.heap[e := t.heap[e]]), c, t.callers[c].phase)
       && t.heap[e].key == s.heap[e].key && t.heap[e].claimed == s.heap[e].claimed
       && (s.heap[e].closed ==> t.heap[e].closed && t.heap[e].result == s.heap[e].result)
       && (InMap(t, e) ==> CallerOk(t, c) && EntryOk(t, e))
  }

  lemma EntryStepCallers(s: Dedup, t: Dedup, c: nat)
    requires Inv(s) && EntryStep(s, t, c)
    ensures CallersOk(t)
  {
    hide HasTask, EntryOk, EntriesOk, Tables;
    var e := s.callers[c].phase.entry;
    assert CallerOk(s, c);
    assert forall f :: InMap(s, f) <==> InMap(t, f);
    forall d | d in t.callers ensures CallerOk(t, d) {
      if d != c {
        assert CallerOk(s, d);
        SameTasks(s, t, s.callers[d].phase.entry);
        CallerKept(s, t, d);
      }
    }
  }

  lemma EntryStepEntries(s: Dedup, t: Dedup, c: nat)
    requires Inv(s) && EntryStep(s, t, c)
    ensures EntriesOk(t)
  {
    hide HasTask, Tables, ClaimantsApart;
    var e := s.callers[c].phase.entry;
    assert CallerOk(s, c);
    assert forall f :: InMap(s, f) <==> InMap(t, f);
    forall f | 0 <= f < |t.heap| ensures EntryOk(t, f) {
      if f != e {
        assert EntryOk(s, f);
        SameTasks(s, t, f);
        EntryKept(s, t, f);
      }
    }
  }

  lemma InvEntryStep(s: Dedup, t: Dedup, c: nat)
    requires Inv(s) && EntryStep(s, t, c)
    ensures Inv(t)
  {
    EntryStepCallers(s, t, c);
    EntryStepEntries(s, t, c);
    ApartKept(s, t, c);
    hide CallersOk, EntriesOk, ClaimantsApart, CallerOk, EntryOk;
  }

  lemma InvStore(s: Dedup, c: nat)
    requires Inv(s) && Enabled(s, Store(c))
    ensures Inv(Do(s, Store(c)))
  {
    var t := Do(s, Store(c));
    var p := s.callers[c].phase;
    assert CallerOk(s, c);
    assert t.tasks[p.task].entry == p.entry;
    InvEntryStep(s, t, c);
  }

  /** Closing an entry that has been claimed leaves what its result says true. */
  lemma ClosedEntryOk(s: Dedup, t: Dedup, e: nat)
    requires e < |s.heap| == |t.heap| && EntryOk(s, e) && s.heap[e].claimed
    requires t.tasks == s.tasks && t.heap[e] == s.heap[e].(closed := true)
    ensures EntryOk(t, e)
  {
    if s.heap[e].result.Some? {
      var i :| 0 <= i < |s.tasks| && s.tasks[i].entry == e && !s.tasks[i].work.Running?
        && s.heap[e].result == Some(StoredFor(s.tasks[i].work));
      assert t.tasks[i] == s.tasks[i];
    }
  }

  lemma InvClose(s: Dedup, t: Dedup, c: nat)
    requires Inv(s) && c in s.callers
    requires (Enabled(s, CloseStored(c)) && t == Do(s, CloseStored(c)))
          || (Enabled(s, DropClose(c)) && t == Do(s, DropClose(c)))
    ensures Inv(t)
  {
    var e := s.callers[c].phase.entry;
    assert CallerOk(s, c) && EntryOk(s, e);
    hide Inv, CallersOk, EntriesOk, Tables, ClaimantsApart, EntryOk, HasTask;
    ClosedEntryOk(s, t, e);
    InvEntryStep(s, t, c);
  }

  /** The guard removes its own entry: under its key the map holds nothing else. */
  lemma InvDropRemove(s: Dedup, c: nat)
    requires Inv(s) && Enabled(s, DropRemove(c))
    ensures Inv(Do(s, DropRemove(c)))
  {
    RemoveCallers(s, c);
    RemoveEntries(s, c);
    ApartKept(s, Do(s, DropRemove(c)), c);
    hide CallersOk, EntriesOk, ClaimantsApart;
  }

  lemma RemoveCallers(s: Dedup, c: nat)
    requires Inv(s) && Enabled(s, DropRemove(c))
    ensures CallersOk(Do(s, DropRemove(c)))
  {
    hide HasTask, EntriesOk, EntryOk;
    var t := Do(s, DropRemove(c));
    var e := s.callers[c].phase.entry;
    assert CallerOk(s, c);
    assert CallerOk(t, c);
    forall d | d in t.callers && d != c ensures CallerOk(t, d) {
      var f := s.callers[d].phase.entry;
      assert CallerOk(s, d);
      assert f != e && InMap(s, f) ==> InMap(t, f);
      SameTasks(s, t, f);
      CallerKept(s, t, d);
    }
  }

  lemma RemoveEntries(s: Dedup, c: nat)
    requires Inv(s) && Enabled(s, DropRemove(c))
    ensures EntriesOk(Do(s, DropRemove(c)))
  {
    hide HasTask, Tables, ClaimantsApart;
    var t := Do(s, DropRemove(c));
    var e := s.callers[c].phase.entry;
    assert CallerOk(s, c);
    assert forall f | f != e && InMap(s, f) :: InMap(t, f);
    forall f | 0 <= f < |t.heap| ensures EntryOk(t, f) {
      assert EntryOk(s, f);
      SameTasks(s, t, f);
      EntryKept(s, t, f);
    }
  }

  lemma StepInv(s: Dedup, step: Step)
    requires Inv(s) && Enabled(s, step)
    ensures Inv(Do(s, step))
  {
    match step {
      case Arrive(c, k) => InvArrive(s, c, k);
      case Claim(c) => InvClaim(s, c);
      case Spawn(c) => InvSpawn(s, c);
      case Crash(c) => InvCrash(s, c);
      case FinishWork(i, o) => InvWork(s, i, Finished(o));
      case PanicWork(i) => InvWork(s, i, Panicked);
      case Store(c) => InvStore(s, c);
      case CloseStored(c) => InvClose(s, Do(s, step), c);
      case Cancel(c) => InvOnlyPhase(s, Do(s, step), c);
      case DropClose(c) => InvClose(s, Do(s, step), c);
      case DropRemove(c) => InvDropRemove(s, c);
      case Wake(c) => InvOnlyPhase(s, Do(s, step), c);
      case Read(c) => InvOnlyPhase(s, Do(s, step), c);
    }
  }

  // ----- runs -----

  ghost predicate Run(states: seq<Dedup>, steps: seq<Step>) {
    && |states| == |steps| + 1
    && states[0] == Empty
    && forall k | 0 <= k < |steps| :: Enabled(states[k], steps[k]) && states[k + 1] == Do(states[k], steps[k])
  }

  lemma {:induction false} RunInv(states: seq<Dedup>, steps: seq<Step>, k: nat)
    requires Run(states, steps) && k < |states|
    ensures Inv(states[k])
    decreases k
  {
    if k > 0 {
      RunInv(states, steps, k - 1);
      StepInv(states[k - 1], steps[k - 1]);
    }
  }

  /** Each entry's work is started at most once. */
  lemma StartsOnce(states: seq<Dedup>, steps: seq<Step>, k: nat, t: nat, u: nat)
    requires Run(states, steps) && k < |states| && t < |states[k].tasks| && u < |states[k].tasks|
    requires states[k].tasks[t].entry == states[k].tasks[u].entry
    ensures t == u
  {
    RunInv(states, steps, k);
  }

  lemma ClosedStep(s: Dedup, step: Step, e: nat)
    requires Inv(s) && Enabled(s, step) && e < |s.heap| && s.heap[e].closed
    ensures e < |Do(s, step).heap| && Do(s, step).heap[e] == s.heap[e]
  {
    hide HasTask;
    if step.Claim? || step.Store? || step.CloseStored? || step.DropClose? {
      assert CallerOk(s, step.caller);
    }
    assert EntryOk(s, e);
  }

  /** An entry never changes again once it is closed. */
  lemma {:induction false} ClosedIsFinal(states: seq<Dedup>, steps: seq<Step>, k: nat, l: nat, e: nat)
    requires Run(states, steps) && k <= l < |states|
    requires e < |states[k].heap| && states[k].heap[e].closed
    ensures e < |states[l].heap| && states[l].heap[e] == states[k].heap[e]
    decreases l
  {
    hide Inv, Enabled, Do;
    if k < l {
      ClosedIsFinal(states, steps, k, l - 1, e);
      RunInv(states, steps, l - 1);
      ClosedStep(states[l - 1], steps[l - 1], e);
    }
  }

  /**
   * All calls that return from one entry, whenever they do, return the same: the result of the one piece of
   * work done for the entry, the panic notice if that panicked, or the abandonment notice if the creator was
   * cancelled before storing anything.
   */
  lemma SameOutcome(states: seq<Dedup>, steps: seq<Step>, k: nat, l: nat, c: nat, d: nat)
    requires Run(states, steps) && k <= l < |states|
    requires c in states[k].callers && states[k].callers[c].phase.Returned?
    requires d in states[l].callers && states[l].callers[d].phase.Returned?
    requires states[k].callers[c].phase.entry == states[l].callers[d].phase.entry
    ensures states[k].callers[c].phase.outcome == states[l].callers[d].phase.outcome
  {
    RunInv(states, steps, k);
    RunInv(states, steps, l);
    assert CallerOk(states[k], c) && CallerOk(states[l], d);
    ClosedIsFinal(states, steps, k, l, states[k].callers[c].phase.entry);
  }

  // ----- why a call is told that the creator gave up -----

  /** The creator of entry `e` is cancelled while it waits for the work. */
  predicate CancelsCreator(s: Dedup, step: Step, e: nat) {
    && step.Cancel? && step.caller in s.callers
    && s.callers[step.caller].phase.Awaiting? && s.callers[step.caller].phase.entry == e
  }

  ghost predicate CancelledBefore(states: seq<Dedup>, steps: seq<Step>, k: nat, e: nat)
    requires k <= |steps| && k <= |states|
  {
    exists j :: 0 <= j < k && CancelsCreator(states[j], steps[j], e)
  }

  predicate LeavesNothing(s: Dedup, c: nat, e: nat) {
    c in s.callers && (s.callers[c].phase == Leaving(e, None) || s.callers[c].phase == Removing(e, None))
  }

  /** The entry is closed without a result, or about to be. */
  ghost predicate GivenUp(s: Dedup, e: nat) {
    (e < |s.heap| && s.heap[e].closed && s.heap[e].result.None?) || exists c :: LeavesNothing(s, c, e)
  }

  lemma GivenUpStep(s: Dedup, step: Step, e: nat)
    requires Inv(s) && Enabled(s, step) && GivenUp(Do(s, step), e)
    ensures GivenUp(s, e) || CancelsCreator(s, step, e)
  {
    hide HasTask;
    var t := Do(s, step);
    if c :| LeavesNothing(t, c, e) {
      if !LeavesNothing(s, c, e) {
        assert step.Cancel? && step.caller == c;
      }
    } else if e < |s.heap| && s.heap[e].closed {
      ClosedStep(s, step, e);
    } else {
      assert (step.CloseStored? || step.DropClose?) && CallerOk(s, step.caller);
      assert LeavesNothing(s, step.caller, e);
    }
  }

  lemma {:induction false} GivenUpCancelled(states: seq<Dedup>, steps: seq<Step>, k: nat, e: nat)
    requires Run(states, steps) && k < |states| && GivenUp(states[k], e)
    ensures CancelledBefore(states, steps, k, e)
    decreases k
  {
    hide Inv, Enabled, Do, CancelsCreator;
    if k > 0 {
      RunInv(states, steps, k - 1);
      GivenUpStep(states[k - 1], steps[k - 1], e);
      if GivenUp(states[k - 1], e) {
        GivenUpCancelled(states, steps, k - 1, e);
        var j :| 0 <= j < k - 1 && CancelsCreator(states[j], steps[j], e);
        assert 0 <= j < k && CancelsCreator(states[j], steps[j], e);
      } else {
        assert CancelsCreator(states[k - 1], steps[k - 1], e);
      }
    }
  }

  /** The work done for entry `e` ended with this outcome, or panicked and this is the notice of that. */
  ghost predicate FromWork(s: Dedup, e: nat, o: Outcome) {
    || (exists t | 0 <= t < |s.tasks| :: s.tasks[t] == Task(e, Finished(o)))
    || (o == Err(CREATOR_PANICKED) && exists t | 0 <= t < |s.tasks| :: s.tasks[t] == Task(e, Panicked))
  }

  lemma StoredFromWork(s: Dedup, e: nat)
    requires e < |s.heap| && EntryOk(s, e) && s.heap[e].result.Some?
    ensures FromWork(s, e, OutcomeOf(s.heap[e].result))
  {
    var t :| 0 <= t < |s.tasks| && s.tasks[t].entry == e && !s.tasks[t].work.Running?
      && s.heap[e].result == Some(StoredFor(s.tasks[t].work));
    assert s.tasks[t] == Task(e, s.tasks[t].work);
  }

  /** Where a returned outcome comes from: without a cancelled creator, always from the work. */
  lemma OutcomeSource(states: seq<Dedup>, steps: seq<Step>, k: nat, c: nat)
    requires Run(states, steps) && k < |states|
    requires c in states[k].callers && states[k].callers[c].phase.Returned?
    ensures
      var s := states[k];
      var p := s.callers[c].phase;
      || FromWork(s, p.entry, p.outcome)
      || (p.outcome == Err(CREATOR_ABANDONED) && p.entry < |s.heap|
          && s.heap[p.entry].closed && s.heap[p.entry].result.None? && CancelledBefore(states, steps, k, p.entry))
  {
    var s := states[k];
    RunInv(states, steps, k);
    assert CallerOk(s, c);
    var e := s.callers[c].phase.entry;
    assert EntryOk(s, e);
    if s.heap[e].result.Some? {
      StoredFromWork(s, e);
    } else {
      GivenUpCancelled(states, steps, k, e);
    }
  }

  // ----- which calls return -----

  /** The call is over without an outcome, or is about to be. */
  predicate GivingUp(s: Dedup, c: nat) {
    c in s.callers &&
      match s.callers[c].phase
      case Leaving(_, left) => left.None?
      case Removing(_, left) => left.None?
      case Cancelled(_) => true
      case _ => false
  }

  predicate CallCancelled(steps: seq<Step>, k: nat, c: nat)
    requires k <= |steps|
  {
    exists j | 0 <= j < k :: steps[j] == Cancel(c)
  }

  lemma GivingUpOnce(s: Dedup, step: Step, c: nat)
    requires Enabled(s, step)
    ensures GivingUp(Do(s, step), c) <==> GivingUp(s, c) || step == Cancel(c)
  {
  }

  /** A call ends without an outcome if and only if it was cancelled. */
  lemma {:induction false} GivesUpIffCancelled(states: seq<Dedup>, steps: seq<Step>, k: nat, c: nat)
    requires Run(states, steps) && k < |states|
    ensures GivingUp(states[k], c) <==> CallCancelled(steps, k, c)
    decreases k
  {
    hide Enabled, Do, GivingUp;
    if k == 0 {
      NobodyGivesUp(c);
    } else {
      GivesUpIffCancelled(states, steps, k - 1, c);
      GivingUpOnce(states[k - 1], steps[k - 1], c);
      assert CallCancelled(steps, k, c) <==> CallCancelled(steps, k - 1, c) || steps[k - 1] == Cancel(c);
    }
  }

  lemma NobodyGivesUp(c: nat)
    ensures !GivingUp(Empty, c)
  {
  }

  lemma CreatorEnds(s: Dedup, c: nat)
    requires Inv(s) && Enabled(s, DropRemove(c))
    ensures
      var e, p := s.callers[c].phase.entry, Do(s, DropRemove(c)).callers[c].phase;
      if GivingUp(s, c) then p == Cancelled(e)
      else p.Returned? && p.entry == e && FromWork(s, e, p.outcome)
  {
    hide FromWork;
    var e := s.callers[c].phase.entry;
    assert CallerOk(s, c);
    assert EntryOk(s, e);
    if s.heap[e].result.Some? {
      StoredFromWork(s, e);
    }
  }

  /**
   * When the creator's guard has been dropped its call is over: it has returned what the work came to, unless it
   * was cancelled before.
   */
  lemma CreatorReturns(states: seq<Dedup>, steps: seq<Step>, k: nat, c: nat)
    requires Run(states, steps) && k < |steps| && steps[k] == DropRemove(c)
    ensures
      var e, t := states[k].callers[c].phase.entry, states[k + 1];
      && c in t.callers
      && if CallCancelled(steps, k, c) then t.callers[c].phase == Cancelled(e)
         else t.callers[c].phase.Returned? && t.callers[c].phase.entry == e
              && FromWork(t, e, t.callers[c].phase.outcome)
  {
    hide Do, GivingUp, FromWork, Inv;
    RunInv(states, steps, k);
    GivesUpIffCancelled(states, steps, k, c);
    CreatorEnds(states[k], c);
    SameWork(states[k], c);
  }

  lemma SameWork(s: Dedup, c: nat)
    requires Enabled(s, DropRemove(c))
    ensures c in Do(s, DropRemove(c)).callers && Do(s, DropRemove(c)).tasks == s.tasks
    ensures forall e: nat, o: Outcome :: FromWork(s, e, o) ==> FromWork(Do(s, DropRemove(c)), e, o)
  {
  }

  /** A waiter that has been woken returns in its next step, from the entry it waited for. */
  lemma WaiterReturns(states: seq<Dedup>, steps: seq<Step>, k: nat, c: nat)
    requires Run(states, steps) && k < |steps| && steps[k] == Read(c)
    ensures c in states[k + 1].callers && states[k + 1].callers[c].phase.Returned?
    ensures states[k + 1].callers[c].phase.entry == states[k].callers[c].phase.entry
    ensures FromWork(states[k + 1], states[k].callers[c].phase.entry, states[k + 1].callers[c].phase.outcome)
         || states[k + 1].callers[c].phase.outcome == Err(CREATOR_ABANDONED)
  {
    OutcomeSource(states, steps, k + 1, c);
  }

  /** A guard's drop removes its own entry and touches no other key. */
  lemma GuardRemovesOwn(states: seq<Dedup>, steps: seq<Step>, k: nat, c: nat)
    requires Run(states, steps) && k < |steps| && steps[k] == DropRemove(c)
    ensures
      var s, t := states[k], states[k + 1];
      var key := s.callers[c].key;
      && key in s.entries && s.entries[key] == s.callers[c].phase.entry
      && t.entries.Keys == s.entries.Keys - {key}
      && forall j | j in t.entries :: t.entries[j] == s.entries[j]
  {
    RunInv(states, steps, k);
    assert CallerOk(states[k], c);
  }

  // ----- two pieces of work for one key -----

  /** The work goes on although its creator no longer waits for it. */
  predicate Detached(s: Dedup, t: nat)
    requires t < |s.tasks|
  {
    s.tasks[t].work.Running? && !exists c | c in s.callers :: s.callers[c].phase == Awaiting(s.tasks[t].entry, t)
  }

  predicate RunsFor(s: Dedup, t: nat, k: Key) {
    t < |s.tasks| && s.tasks[t].work.Running? && s.tasks[t].entry < |s.heap| && s.heap[s.tasks[t].entry].key == k
  }

  /** For each key at most one piece of running work is still waited for by its creator. */
  lemma OneAttachedPerKey(states: seq<Dedup>, steps: seq<Step>, i: nat, t: nat, u: nat, k: Key)
    requires Run(states, steps) && i < |states|
    requires RunsFor(states[i], t, k) && RunsFor(states[i], u, k) && t != u
    ensures Detached(states[i], t) || Detached(states[i], u)
  {
    RunInv(states, steps, i);
    if !Detached(states[i], t) && !Detached(states[i], u) {
      OneAttached(states[i], t, u);
      assert false;
    }
  }

  lemma OneAttached(s: Dedup, t: nat, u: nat)
    requires Inv(s) && t < |s.tasks| && u < |s.tasks| && t != u
    requires !Detached(s, t) && s.tasks[t].work.Running? && !Detached(s, u) && s.tasks[u].work.Running?
    ensures s.heap[s.tasks[t].entry].key != s.heap[s.tasks[u].entry].key
  {
    var c :| c in s.callers && s.callers[c].phase == Awaiting(s.tasks[t].entry, t);
    var d :| d in s.callers && s.callers[d].phase == Awaiting(s.tasks[u].entry, u);
    assert CallerOk(s, c) && CallerOk(s, d);
    assert s.tasks[t].entry != s.tasks[u].entry;
  }

  predicate CreatorNeverCancelled(states: seq<Dedup>, steps: seq<Step>)
    requires |states| == |steps| + 1
  {
    forall k | 0 <= k < |steps| && steps[k].Cancel? && steps[k].caller in states[k].callers ::
      !states[k].callers[steps[k].caller].phase.Awaiting?
  }

  lemma AttachedStep(s: Dedup, step: Step, t: nat)
    requires Enabled(s, step) && t < |Do(s, step).tasks|
    requires t < |s.tasks| ==> !Detached(s, t)
    requires step.Cancel? && step.caller in s.callers ==> !s.callers[step.caller].phase.Awaiting?
    ensures !Detached(Do(s, step), t)
  {
    var s' := Do(s, step);
    if s'.tasks[t].work.Running? {
      if t < |s.tasks| {
        assert s.tasks[t] == s'.tasks[t];
        var c :| c in s.callers && s.callers[c].phase == Awaiting(s.tasks[t].entry, t);
        assert s'.callers[c].phase == s.callers[c].phase;
      } else {
        assert s'.callers[step.caller].phase == Awaiting(s'.tasks[t].entry, t);
      }
    }
  }

  lemma {:induction false} NeverDetached(states: seq<Dedup>, steps: seq<Step>, k: nat, t: nat)
    requires Run(states, steps) && CreatorNeverCancelled(states, steps)
    requires k < |states| && t < |states[k].tasks|
    ensures !Detached(states[k], t)
    decreases k
  {
    hide Do, Enabled;
    if k > 0 {
      if t < |states[k - 1].tasks| {
        NeverDetached(states, steps, k - 1, t);
      }
      AttachedStep(states[k - 1], steps[k - 1], t);
    }
  }

  /** As long as no waiting creator is cancelled, the work for one key never overlaps. */
  lemma NoOverlapWithoutCancel(states: seq<Dedup>, steps: seq<Step>, i: nat, t: nat, u: nat, k: Key)
    requires Run(states, steps) && CreatorNeverCancelled(states, steps)
    requires i < |states| && RunsFor(states[i], t, k) && RunsFor(states[i], u, k)
    ensures t == u
  {
    if t != u {
      NeverDetached(states, steps, i, t);
      NeverDetached(states, steps, i, u);
      OneAttachedPerKey(states, steps, i, t, u, k);
    }
  }

  /** The map is empty again, caller 0 is gone, and the work it started still runs. */
  function Abandoned(k: Key): Dedup {
    Dedup(map[], [Entry(k, None, true, true)], [Task(0, Running)], map[0 := Caller(k, Cancelled(0))])
  }

  /** Caller 0 has started the work for key `k` and waits for it. */
  function FirstCall(k: Key): Dedup {
    Dedup(map[k := 0], [Entry(k, None, false, true)], [Task(0, Running)], map[0 := Caller(k, Awaiting(0, 0))])
  }

  lemma FirstCallRun(k: Key) returns (s1: Dedup, s2: Dedup)
    ensures Enabled(Empty, Arrive(0, k)) && s1 == Do(Empty, Arrive(0, k))
    ensures Enabled(s1, Claim(0)) && s2 == Do(s1, Claim(0))
    ensures Enabled(s2, Spawn(0)) && FirstCall(k) == Do(s2, Spawn(0))
  {
    s1 := Do(Empty, Arrive(0, k));
    s2 := Do(s1, Claim(0));
  }

  lemma AbandonRun(k: Key) returns (s4: Dedup, s5: Dedup)
    ensures Enabled(FirstCall(k), Cancel(0)) && s4 == Do(FirstCall(k), Cancel(0))
    ensures Enabled(s4, DropClose(0)) && s5 == Do(s4, DropClose(0))
    ensures Enabled(s5, DropRemove(0)) && Abandoned(k) == Do(s5, DropRemove(0))
  {
    s4 := Do(FirstCall(k), Cancel(0));
    s5 := Do(s4, DropClose(0));
  }

  lemma SecondCall(k: Key) returns (s7: Dedup, s8: Dedup, s9: Dedup)
    ensures Enabled(Abandoned(k), Arrive(1, k)) && s7 == Do(Abandoned(k), Arrive(1, k))
    ensures Enabled(s7, Claim(1)) && s8 == Do(s7, Claim(1))
    ensures Enabled(s8, Spawn(1)) && s9 == Do(s8, Spawn(1))
    ensures RunsFor(s9, 0, k) && RunsFor(s9, 1, k)
  {
    s7 := Do(Abandoned(k), Arrive(1, k));
    s8 := Do(s7, Claim(1));
    s9 := Do(s8, Spawn(1));
  }

  /** Cancelling a waiting creator lets the work for one key run twice at the same time. */
  lemma OverlapAfterCancel(k: Key) returns (states: seq<Dedup>, steps: seq<Step>)
    ensures Run(states, steps)
    ensures RunsFor(states[|steps|], 0, k) && RunsFor(states[|steps|], 1, k)
  {
    var s1, s2 := FirstCallRun(k);
    var s4, s5 := AbandonRun(k);
    var s7, s8, s9 := SecondCall(k);
    hide Enabled, Do, RunsFor;
    states := [Empty, s1, s2, FirstCall(k), s4, s5, Abandoned(k), s7, s8, s9];
    steps := [Arrive(0, k), Claim(0), Spawn(0), Cancel(0), DropClose(0), DropRemove(0),
              Arrive(1, k), Claim(1), Spawn(1)];
  }

  // ----- two calls that share one piece of work -----

  /** Caller 0 waits for the work on key `k`, caller 1 waits for caller 0. */
  function Joined(k: Key): Dedup {
    Dedup(map[k := 0], [Entry(k, None, false, true)], [Task(0, Running)],
          map[0 := Caller(k, Awaiting(0, 0)), 1 := Caller(k, Waiting(0))])
  }

  function EndOf(work: Work): Step
    requires !work.Running?
  {
    match work
    case Finished(o) => FinishWork(0, o)
    case Panicked => PanicWork(0)
  }

  /** The work has ended; its outcome is stored, the entry closed, and caller 1 has returned it. */
  function Shared(k: Key, work: Work): Dedup
    requires !work.Running?
  {
    var o := OutcomeOf(Some(StoredFor(work)));
    Dedup(map[k := 0], [Entry(k, Some(StoredFor(work)), true, true)], [Task(0, work)],
          map[0 := Caller(k, Leaving(0, Some(o))), 1 := Caller(k, Returned(0, o))])
  }

  lemma JoinRun(k: Key) returns (s4: Dedup)
    ensures Enabled(FirstCall(k), Arrive(1, k)) && s4 == Do(FirstCall(k), Arrive(1, k))
    ensures Enabled(s4, Claim(1)) && Joined(k) == Do(s4, Claim(1))
  {
    s4 := Do(FirstCall(k), Arrive(1, k));
  }

  /** The work has ended and nobody knows yet. */
  function Ended(k: Key, work: Work): Dedup {
    Joined(k).(tasks := [Task(0, work)])
  }

  /** The result is stored and the entry closed; caller 1 has not noticed. */
  function Closed(k: Key, work: Work): Dedup
    requires !work.Running?
  {
    var stored := Some(StoredFor(work));
    Dedup(map[k := 0], [Entry(k, stored, true, true)], [Task(0, work)],
          map[0 := Caller(k, Leaving(0, Some(OutcomeOf(stored)))), 1 := Caller(k, Waiting(0))])
  }

  lemma EndRun(k: Key, work: Work)
    requires !work.Running?
    ensures Enabled(Joined(k), EndOf(work)) && Ended(k, work) == Do(Joined(k), EndOf(work))
  {
  }

  lemma CloseRun(k: Key, work: Work) returns (s7: Dedup)
    requires !work.Running?
    ensures Enabled(Ended(k, work), Store(0)) && s7 == Do(Ended(k, work), Store(0))
    ensures Enabled(s7, CloseStored(0)) && Closed(k, work) == Do(s7, CloseStored(0))
  {
    s7 := Do(Ended(k, work), Store(0));
    assert s7.callers == map[0 := s7.callers[0], 1 := Caller(k, Waiting(0))];
  }

  lemma WakeRun(k: Key, work: Work) returns (s9: Dedup)
    requires !work.Running?
    ensures Enabled(Closed(k, work), Wake(1)) && s9 == Do(Closed(k, work), Wake(1))
    ensures Enabled(s9, Read(1)) && Shared(k, work) == Do(s9, Read(1))
  {
    s9 := Do(Closed(k, work), Wake(1));
  }

  lemma LeaveRun(k: Key, work: Work) returns (s11: Dedup, s12: Dedup)
    requires !work.Running?
    ensures Enabled(Shared(k, work), DropClose(0)) && s11 == Do(Shared(k, work), DropClose(0))
    ensures Enabled(s11, DropRemove(0)) && s12 == Do(s11, DropRemove(0))
    ensures s12.entries == map[] && s12.callers.Keys == {0, 1}
    ensures forall c | 0 <= c < 2 :: s12.callers[c] == Caller(k, Returned(0, OutcomeOf(Some(StoredFor(work)))))
  {
    s11 := Do(Shared(k, work), DropClose(0));
    s12 := Do(s11, DropRemove(0));
  }

  /** What a call returns when the work ends this way and nobody is cancelled. */
  function Verdict(work: Work): Outcome
    requires !work.Running?
  {
    if work.Finished? then work.outcome else Err("creator panicked")
  }

  /**
   * Two calls of one key, the second while the first waits for the work: however the work ends, both return that,
   * it was started once, and the map is empty again.
   */
  lemma BothReturn(k: Key, work: Work) returns (states: seq<Dedup>, steps: seq<Step>)
    requires !work.Running?
    ensures Run(states, steps)
    ensures steps == [Arrive(0, k), Claim(0), Spawn(0), Arrive(1, k), Claim(1), EndOf(work), Store(0), CloseStored(0),
                      Wake(1), Read(1), DropClose(0), DropRemove(0)]
    ensures
      var s := states[|steps|];
      && s.entries == map[] && s.callers.Keys == {0, 1}
      && forall c | 0 <= c < 2 :: s.callers[c] == Caller(k, Returned(0, Verdict(work)))
  {
    var s1, s2 := FirstCallRun(k);
    var s4 := JoinRun(k);
    EndRun(k, work);
    var s7 := CloseRun(k, work);
    var s9 := WakeRun(k, work);
    var s11, s12 := LeaveRun(k, work);
    hide Enabled, Do;
    states := [Empty, s1, s2, FirstCall(k), s4, Joined(k), Ended(k, work), s7, Closed(k, work), s9,
               Shared(k, work), s11, s12];
    steps := [Arrive(0, k), Claim(0), Spawn(0), Arrive(1, k), Claim(1), EndOf(work), Store(0), CloseStored(0),
              Wake(1), Read(1), DropClose(0), DropRemove(0)];
  }

  // ----- who is left waiting -----

  /** Nobody is left who could ever close the entry. */
  ghost predicate Orphaned(s: Dedup, e: nat) {
    e < |s.heap| && s.heap[e].claimed && !s.heap[e].closed && forall c :: !IsCreator(s, c, e)
  }

  predicate CrashedAt(s: Dedup, e: nat) {
    exists c | c in s.callers :: s.callers[c].phase == Crashed(e)
  }

  /** The creator of an open entry stays its creator until it closes the entry, unless its closure panics. */
  lemma CreatorMoves(s: Dedup, step: Step, c: nat, e: nat)
    requires Inv(s) && Enabled(s, step) && IsCreator(s, c, e) && !Do(s, step).heap[e].closed
    ensures IsCreator(Do(s, step), c, e) || CrashedAt(Do(s, step), e)
  {
    assert CallerOk(s, c);
    var t := Do(s, step);
    if step == Crash(c) {
      assert t.callers[c].phase == Crashed(e);
    }
  }

  /** A claimed entry has a caller that will close it, or one that crashed. */
  ghost predicate Answered(s: Dedup, e: nat) {
    CrashedAt(s, e) || exists c :: IsCreator(s, c, e)
  }

  lemma AnsweredStep(s: Dedup, step: Step, e: nat)
    requires Inv(s) && Enabled(s, step) && Answered(s, e) && !Do(s, step).heap[e].closed
    ensures Answered(Do(s, step), e)
  {
    hide Inv, Enabled, Do;
    if CrashedAt(s, e) {
      CrashedStays(s, step, e);
    } else {
      var c :| IsCreator(s, c, e);
      CreatorMoves(s, step, c, e);
    }
  }

  lemma ClaimAnswered(s: Dedup, step: Step, e: nat)
    requires Enabled(s, step) && e < |Do(s, step).heap| && Do(s, step).heap[e].claimed
    requires e >= |s.heap| || !s.heap[e].claimed
    ensures Answered(Do(s, step), e)
  {
    assert IsCreator(Do(s, step), step.caller, e);
  }

  lemma OpenBefore(s: Dedup, step: Step, e: nat)
    requires Inv(s) && Enabled(s, step) && e < |s.heap|
    ensures e < |Do(s, step).heap| && (s.heap[e].closed ==> Do(s, step).heap[e].closed)
  {
    if s.heap[e].closed {
      ClosedStep(s, step, e);
    }
  }

  lemma {:induction false} OpenHasClaimant(states: seq<Dedup>, steps: seq<Step>, k: nat, e: nat)
    requires Run(states, steps) && k < |states|
    requires e < |states[k].heap| && states[k].heap[e].claimed && !states[k].heap[e].closed
    ensures Answered(states[k], e)
    decreases k
  {
    hide Inv, Enabled, Do;
    if k > 0 {
      var s, step := states[k - 1], steps[k - 1];
      RunInv(states, steps, k - 1);
      if e < |s.heap| && s.heap[e].claimed {
        OpenBefore(s, step, e);
        OpenHasClaimant(states, steps, k - 1, e);
        AnsweredStep(s, step, e);
      } else {
        ClaimAnswered(s, step, e);
      }
    }
  }

  lemma CrashedStays(s: Dedup, step: Step, e: nat)
    requires CrashedAt(s, e) && Enabled(s, step)
    ensures CrashedAt(Do(s, step), e)
  {
    var c :| c in s.callers && s.callers[c].phase == Crashed(e);
    assert Do(s, step).callers[c] == s.callers[c];
  }

  /** Waiters can be stranded in exactly one way: the creator's closure itself panicked before its work began. */
  lemma OrphanedIffCrashed(states: seq<Dedup>, steps: seq<Step>, k: nat, e: nat)
    requires Run(states, steps) && k < |states|
    ensures Orphaned(states[k], e) <==> CrashedAt(states[k], e)
  {
    var s := states[k];
    RunInv(states, steps, k);
    if Orphaned(s, e) {
      OpenHasClaimant(states, steps, k, e);
    }
    if CrashedAt(s, e) {
      var d :| d in s.callers && s.callers[d].phase == Crashed(e);
      assert CallerOk(s, d);
      forall c ensures !IsCreator(s, c, e) {
        if IsCreator(s, c, e) {
          assert Claimant(s, c) && Claimant(s, d);
        }
      }
    }
  }

  /** The call is over, or has a step it can take, or waits for work that can end or for a call that can go on. */
  ghost predicate CanGoOn(s: Dedup, c: nat)
    requires c in s.callers
  {
    match s.callers[c].phase
    case LookedUp(_) => Enabled(s, Claim(c))
    case Claimed(_) => Enabled(s, Spawn(c)) && Enabled(s, Crash(c))
    case Awaiting(_, t) =>
      && Enabled(s, Cancel(c))
      && (Enabled(s, Store(c)) || (Enabled(s, PanicWork(t)) && forall o: Outcome :: Enabled(s, FinishWork(t, o))))
    case Storing(_, _) => Enabled(s, CloseStored(c))
    case Leaving(_, _) => Enabled(s, DropClose(c))
    case Removing(_, _) => Enabled(s, DropRemove(c))
    case Waiting(e) =>
      && Enabled(s, Cancel(c))
      && (Enabled(s, Wake(c)) || CrashedAt(s, e) || exists d :: IsCreator(s, d, e))
    case Awake(_) => Enabled(s, Read(c))
    case _ => true
  }

  /** Nobody is ever stuck, except those who wait for an entry whose creator crashed. */
  lemma NeverStuck(states: seq<Dedup>, steps: seq<Step>, k: nat, c: nat)
    requires Run(states, steps) && k < |states| && c in states[k].callers
    ensures CanGoOn(states[k], c)
  {
    var s := states[k];
    RunInv(states, steps, k);
    assert CallerOk(s, c);
    if s.callers[c].phase.Waiting? {
      OrphanedIffCrashed(states, steps, k, s.callers[c].phase.entry);
    }
  }

  /** A run in which the closure panics; a second caller of the key then waits for good. */
  lemma CrashStrands(k: Key) returns (states: seq<Dedup>, steps: seq<Step>)
    ensures Run(states, steps) && Orphaned(states[|steps|], 0)
    ensures 1 in states[|steps|].callers && states[|steps|].callers[1] == Caller(k, Waiting(0))
  {
    var s1 := Do(Empty, Arrive(0, k));
    var s2 := Do(s1, Claim(0));
    var s3 := Do(s2, Crash(0));
    var s4 := Do(s3, Arrive(1, k));
    var s5 := Do(s4, Claim(1));
    states := [Empty, s1, s2, s3, s4, s5];
    steps := [Arrive(0, k), Claim(0), Crash(0), Arrive(1, k), Claim(1)];
    assert CrashedAt(s5, 0) by {
      assert s5.callers[0].phase == Crashed(0);
    }
    hide Enabled, Do;
    OrphanedIffCrashed(states, steps, 5, 0);
  }

  /** Such an entry stays open and stays in the map: every later caller of its key joins the wait. */
  lemma {:induction false} CrashBlocksKey(states: seq<Dedup>, steps: seq<Step>, k: nat, l: nat, e: nat)
    requires Run(states, steps) && k <= l < |states| && CrashedAt(states[k], e)
    ensures CrashedAt(states[l], e) && InMap(states[l], e) && !states[l].heap[e].closed
    decreases l
  {
    if k < l {
      CrashBlocksKey(states, steps, k, l - 1, e);
      CrashedStays(states[l - 1], steps[l - 1], e);
    }
    RunInv(states, steps, l);
    var d :| d in states[l].callers && states[l].callers[d].phase == Crashed(e);
    assert CallerOk(states[l], d);
  }
}
