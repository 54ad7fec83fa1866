/** The single-flight protocol of crates/coalesced_map/src/lib.rs as a step system. Each
    step is one section of get_or_try_init that no other call can interrupt. */
module SingleFlight {
  import opened Orders

  type Key = string
  type Value = string
  type Error = string

  datatype Entry = Pending(id: nat) | Fetched(value: Value)

  datatype Result = Ok(value: Value) | InitError(error: Error) | CoalescedRequestFailed

  /** Where one call of get_or_try_init stands. An initialiser publishes in two steps, the
      insertion and the send; a dropped call was cancelled or panicked. */
  datatype Call =
    | Start(key: Key)
    | Running(key: Key, id: nat)
    | Publishing(key: Key, id: nat, value: Value)
    | Waiting(key: Key, id: nat)
    | Returned(key: Key, result: Result)
    | Dropped(key: Key)

  /** The broadcast channel of one attempt: live while its owner holds the sender, then
      either sent once or closed without a value. */
  datatype Status = Live | Sent(value: Value) | Closed

  datatype Attempt = Attempt(key: Key, owner: nat, status: Status)

  datatype State = State(entries: map<Key, Entry>, calls: seq<Call>, attempts: seq<Attempt>)

  datatype Action =
    | Enter(call: nat)
    | FinishInit(call: nat, value: Value)
    | Send(call: nat)
    | FailInit(call: nat, error: Error)
    | Drop(call: nat)
    | Receive(call: nat)
    | Evict(key: Key)
    | EvictFetched(key: Key)
    | Get(key: Key)

  // ---------------------------------------------------------------- Steps

  predicate Unfinished(c: Call) { !c.Returned? && !c.Dropped? }

  /** The sender held by a call, if any. */
  predicate Owns(c: Call, id: nat) { (c.Running? || c.Publishing?) && c.id == id }

  predicate Enabled(s: State, a: Action) {
    match a
    case Enter(c) => c < |s.calls| && s.calls[c].Start?
    case FinishInit(c, _) => c < |s.calls| && s.calls[c].Running?
    case Send(c) => c < |s.calls| && s.calls[c].Publishing? && s.calls[c].id < |s.attempts|
    case FailInit(c, _) => c < |s.calls| && s.calls[c].Running? && s.calls[c].id < |s.attempts|
    case Drop(c) => c < |s.calls| && Unfinished(s.calls[c]) &&
      (s.calls[c].Running? || s.calls[c].Publishing? ==> s.calls[c].id < |s.attempts|)
    case Receive(c) => c < |s.calls| && s.calls[c].Waiting? && s.calls[c].id < |s.attempts|
      && !s.attempts[s.calls[c].id].status.Live?
    case Evict(_) => true
    case EvictFetched(_) => true
    case Get(_) => true
  }

  function SetCall(s: State, c: nat, to: Call): State
    requires c < |s.calls|
  {
    s.(calls := s.calls[c := to])
  }

  function SetStatus(s: State, id: nat, to: Status): State
    requires id < |s.attempts|
  {
    s.(attempts := s.attempts[id := s.attempts[id].(status := to)])
  }

  /** The weak sender of a pending entry can still be upgraded. */
  predicate Upgrades(s: State, id: nat) {
    id < |s.attempts| && s.attempts[id].status.Live?
  }

  function BeginAttempt(s: State, c: nat): State
    requires c < |s.calls|
  {
    var k := s.calls[c].key;
    State(s.entries[k := Pending(|s.attempts|)],
          s.calls[c := Running(k, |s.attempts|)],
          s.attempts + [Attempt(k, c, Live)])
  }

  function EnterStep(s: State, c: nat): State
    requires c < |s.calls|
  {
    var k := s.calls[c].key;
    if k !in s.entries then BeginAttempt(s, c)
    else match s.entries[k]
      case Fetched(v) => SetCall(s, c, Returned(k, Ok(v)))
      case Pending(id) => if Upgrades(s, id) then SetCall(s, c, Waiting(k, id)) else BeginAttempt(s, c)
  }

  function DropStep(s: State, c: nat): State
    requires Enabled(s, Drop(c))
  {
    var call := s.calls[c];
    var t := SetCall(s, c, Dropped(call.key));
    if call.Running? || call.Publishing? then SetStatus(t, call.id, Closed) else t
  }

  function Apply(s: State, a: Action): State
    requires Enabled(s, a)
  {
    match a
    case Enter(c) => EnterStep(s, c)
    case FinishInit(c, v) =>
      var call := s.calls[c];
      SetCall(s, c, Publishing(call.key, call.id, v)).(entries := s.entries[call.key := Fetched(v)])
    case Send(c) =>
      var call := s.calls[c];
      SetStatus(SetCall(s, c, Returned(call.key, Ok(call.value))), call.id, Sent(call.value))
    case FailInit(c, e) =>
      var call := s.calls[c];
      SetStatus(SetCall(s, c, Returned(call.key, InitError(e))), call.id, Closed)
    case Drop(c) => DropStep(s, c)
    case Receive(c) =>
      var call := s.calls[c];
      var status := s.attempts[call.id].status;
      SetCall(s, c, Returned(call.key, if status.Sent? then Ok(status.value) else CoalescedRequestFailed))
    case Evict(k) => s.(entries := s.entries - {k})
    case EvictFetched(k) =>
      if k in s.entries && s.entries[k].Fetched? then s.(entries := s.entries - {k}) else s
    case Get(k) => s
  }

  ghost predicate Initial(s: State) {
    s.entries == map[] && s.attempts == [] && forall c :: 0 <= c < |s.calls| ==> s.calls[c].Start?
  }

  ghost predicate StepTo(s: State, a: Action, t: State) { Enabled(s, a) && t == Apply(s, a) }

  /** A run of any number of calls, interleaved in any way with evictions and lookups. */
  ghost predicate Run(ss: seq<State>, actions: seq<Action>) {
    && |ss| == |actions| + 1
    && Initial(ss[0])
    && forall i :: 0 <= i < |actions| ==> StepTo(ss[i], actions[i], ss[i + 1])
  }

  // ---------------------------------------------------------------- Invariant

  /** Live attempts and sender-holding calls match one to one. */
  ghost predicate SendersMatch(s: State) {
    && (forall c :: 0 <= c < |s.calls| && (s.calls[c].Running? || s.calls[c].Publishing?) ==>
         s.calls[c].id < |s.attempts| && s.attempts[s.calls[c].id] == Attempt(s.calls[c].key, c, Live))
    && (forall id :: 0 <= id < |s.attempts| ==> s.attempts[id].owner < |s.calls|)
    && (forall id :: 0 <= id < |s.attempts| && s.attempts[id].status.Live? ==>
         Owns(s.calls[s.attempts[id].owner], id))
  }

  /** How an attempt ended is how its owner ended. */
  ghost predicate OutcomesMatch(s: State)
    requires forall id :: 0 <= id < |s.attempts| ==> s.attempts[id].owner < |s.calls|
  {
    forall id :: 0 <= id < |s.attempts| ==>
      var a := s.attempts[id];
      var owner := s.calls[a.owner];
      && owner.key == a.key
      && (a.status.Sent? ==> owner == Returned(a.key, Ok(a.status.value)))
      && (a.status.Closed? ==> owner.Dropped? || (owner.Returned? && owner.result.InitError?))
  }

  /** Waiters wait on an attempt at their key, and pending entries name one that has not
      inserted its value. */
  ghost predicate ReferencesMatch(s: State)
    requires forall id :: 0 <= id < |s.attempts| ==> s.attempts[id].owner < |s.calls|
  {
    && (forall c :: 0 <= c < |s.calls| && s.calls[c].Waiting? ==>
         s.calls[c].id < |s.attempts| && s.attempts[s.calls[c].id].key == s.calls[c].key)
    && (forall k :: k in s.entries && s.entries[k].Pending? ==>
         && s.entries[k].id < |s.attempts|
         && s.attempts[s.entries[k].id].key == k
         && !s.attempts[s.entries[k].id].status.Sent?
         && !s.calls[s.attempts[s.entries[k].id].owner].Publishing?)
  }

  ghost predicate Inv(s: State) {
    SendersMatch(s) && OutcomesMatch(s) && ReferencesMatch(s)
  }

  lemma BeginKeepsInv(s: State, c: nat)
    requires Inv(s) && c < |s.calls| && s.calls[c].Start?
    ensures Inv(BeginAttempt(s, c))
  {
    var t := BeginAttempt(s, c);
    assert forall id :: 0 <= id < |s.attempts| ==> t.attempts[id] == s.attempts[id];
    assert SendersMatch(t);
    assert OutcomesMatch(t);
  }

  /** A call that holds no sender may return, wait or be dropped. */
  lemma BystanderKeepsInv(s: State, c: nat, to: Call)
    requires Inv(s) && c < |s.calls| && (s.calls[c].Start? || s.calls[c].Waiting?)
    requires !to.Running? && !to.Publishing?
    requires to.Waiting? ==> to.id < |s.attempts| && s.attempts[to.id].key == to.key
    ensures Inv(SetCall(s, c, to))
  {
    var t := SetCall(s, c, to);
    assert forall id :: 0 <= id < |s.attempts| ==> s.attempts[id].owner != c by {
      forall id | 0 <= id < |s.attempts| ensures s.attempts[id].owner != c {
        if s.attempts[id].status.Live? { assert Owns(s.calls[s.attempts[id].owner], id); }
      }
    }
    assert SendersMatch(t);
    assert OutcomesMatch(t);
  }

  lemma FinishKeepsInv(s: State, c: nat, v: Value)
    requires Inv(s) && Enabled(s, FinishInit(c, v))
    ensures Inv(Apply(s, FinishInit(c, v)))
  {
    var t := Apply(s, FinishInit(c, v));
    assert SendersMatch(t);
    assert OutcomesMatch(t);
  }

  /** An owner ends its attempt: it returns its value after sending it, or ends otherwise. */
  lemma EndKeepsInv(s: State, c: nat, to: Call, status: Status)
    requires Inv(s) && c < |s.calls| && (s.calls[c].Running? || s.calls[c].Publishing?)
    requires to.key == s.calls[c].key
    requires status.Sent? ==> s.calls[c].Publishing? && to == Returned(to.key, Ok(status.value))
    requires status.Closed? ==> to.Dropped? || (to.Returned? && to.result.InitError?)
    requires !status.Live?
    ensures Inv(SetStatus(SetCall(s, c, to), s.calls[c].id, status))
  {
    var id := s.calls[c].id;
    var t := SetStatus(SetCall(s, c, to), id, status);
    forall i | 0 <= i < |s.attempts| && i != id ensures s.attempts[i].owner != c && t.attempts[i] == s.attempts[i] {
      if s.attempts[i].status.Live? { assert Owns(s.calls[s.attempts[i].owner], i); }
    }
    assert SendersMatch(t);
    assert OutcomesMatch(t);
  }

  lemma StepKeepsInv(s: State, a: Action, t: State)
    requires Inv(s) && StepTo(s, a, t)
    ensures Inv(t)
  {
    match a {
      case Enter(c) =>
        var k := s.calls[c].key;
        if k !in s.entries { BeginKeepsInv(s, c); }
        else {
          match s.entries[k] {
            case Fetched(v) => BystanderKeepsInv(s, c, Returned(k, Ok(v)));
            case Pending(id) => if Upgrades(s, id) { BystanderKeepsInv(s, c, Waiting(k, id)); } else { BeginKeepsInv(s, c); }
          }
        }
      case FinishInit(c, v) => FinishKeepsInv(s, c, v);
      case Send(c) =>
        var call := s.calls[c];
        EndKeepsInv(s, c, Returned(call.key, Ok(call.value)), Sent(call.value));
      case FailInit(c, e) => EndKeepsInv(s, c, Returned(s.calls[c].key, InitError(e)), Closed);
      case Drop(c) =>
        var to := Dropped(s.calls[c].key);
        if s.calls[c].Running? || s.calls[c].Publishing? { EndKeepsInv(s, c, to, Closed); }
        else { BystanderKeepsInv(s, c, to); }
      case Receive(c) => BystanderKeepsInv(s, c, t.calls[c]);
      case Evict(k) =>
      case EvictFetched(k) =>
      case Get(k) =>
    }
  }

  lemma {:induction false} RunKeepsInv(ss: seq<State>, actions: seq<Action>, i: nat)
    requires Run(ss, actions) && i < |ss|
    ensures Inv(ss[i]) && |ss[i].calls| == |ss[0].calls|
  {
    if i > 0 {
      RunKeepsInv(ss, actions, i - 1);
      assert StepTo(ss[i - 1], actions[i - 1], ss[i]);
      StepKeepsInv(ss[i - 1], actions[i - 1], ss[i]);
    }
  }

  // ---------------------------------------------------------------- No lost wake-up

  /** What a call that waits at w may have become by state s: it gets the value of its
      attempt exactly when that was sent, and a failure exactly when it was not. */
  ghost predicate WaitResolved(w: Call, now: Call, s: State)
    requires w.Waiting?
  {
    w.id < |s.attempts| &&
    (now == w || now == Dropped(w.key) ||
      match s.attempts[w.id].status
      case Live => false
      case Sent(v) => now == Returned(w.key, Ok(v))
      case Closed => now == Returned(w.key, CoalescedRequestFailed))
  }

  /** A waiter gets what its attempt came to, under every interleaving and every eviction:
      from the moment it subscribed, whatever happens to the map entry. */
  lemma {:induction false} NoLostWakeUp(ss: seq<State>, actions: seq<Action>, i: nat, j: nat, c: nat)
    requires Run(ss, actions) && i <= j < |ss| && c < |ss[i].calls| && ss[i].calls[c].Waiting?
    ensures c < |ss[j].calls| && WaitResolved(ss[i].calls[c], ss[j].calls[c], ss[j])
    decreases j - i
  {
    RunKeepsInv(ss, actions, i);
    RunKeepsInv(ss, actions, j);
    if i < j {
      NoLostWakeUp(ss, actions, i, j - 1, c);
      RunKeepsInv(ss, actions, j - 1);
      ResolvedStep(ss[i].calls[c], ss[j - 1], actions[j - 1], ss[j], c);
    }
  }

  lemma ResolvedStep(w: Call, s: State, a: Action, t: State, c: nat)
    requires Inv(s) && StepTo(s, a, t) && w.Waiting? && c < |s.calls| && WaitResolved(w, s.calls[c], s)
    ensures c < |t.calls| && WaitResolved(w, t.calls[c], t)
  {
    EndedStaysEnded(s, a, t, w.id);
    WaitStep(s, a, t, c);
  }

  lemma EndedStaysEnded(s: State, a: Action, t: State, id: nat)
    requires Inv(s) && StepTo(s, a, t) && id < |s.attempts|
    ensures id < |t.attempts|
    ensures t.attempts[id].key == s.attempts[id].key && t.attempts[id].owner == s.attempts[id].owner
    ensures !s.attempts[id].status.Live? ==> t.attempts[id] == s.attempts[id]
  {
  }

  lemma WaitStep(s: State, a: Action, t: State, c: nat)
    requires Inv(s) && StepTo(s, a, t) && c < |s.calls|
    ensures c < |t.calls|
    ensures !Unfinished(s.calls[c]) ==> t.calls[c] == s.calls[c]
    ensures s.calls[c].Waiting? ==> WaitResolved(s.calls[c], t.calls[c], t)
  {
  }

  /** A waiter whose attempt has ended can receive; otherwise the owner of the attempt still
      holds the sender and can move. The attempt was sent exactly when its owner returned
      the value. */
  lemma WaiterProgress(s: State, c: nat)
    requires Inv(s) && c < |s.calls| && s.calls[c].Waiting?
    ensures
      var attempt := s.attempts[s.calls[c].id];
      var owner := s.calls[attempt.owner];
      && (Enabled(s, Receive(c)) <==> !attempt.status.Live?)
      && (attempt.status.Live? <==> Owns(owner, s.calls[c].id))
      && (attempt.status.Sent? <==> owner.Returned? && owner.result.Ok? && !attempt.status.Live?)
      && (attempt.status.Sent? ==> owner == Returned(s.calls[c].key, Ok(attempt.status.value)))
  {
    var id := s.calls[c].id;
    assert s.attempts[id].status.Live? ==> Owns(s.calls[s.attempts[id].owner], id);
  }

  // ---------------------------------------------------------------- Single flight

  /** A running initialiser is the one its map entry is pending on. */
  ghost predicate EntryHeld(s: State) {
    forall c :: 0 <= c < |s.calls| && s.calls[c].Running? ==>
      s.calls[c].key in s.entries && s.entries[s.calls[c].key] == Pending(s.calls[c].id)
  }

  /** The step throws out a pending entry whose initialiser is still there. */
  predicate EvictsLive(s: State, a: Action) {
    a.Evict? && a.key in s.entries && s.entries[a.key].Pending? && Upgrades(s, s.entries[a.key].id)
  }

  lemma StepKeepsEntryHeld(s: State, a: Action, t: State)
    requires Inv(s) && EntryHeld(s) && StepTo(s, a, t) && !EvictsLive(s, a)
    ensures EntryHeld(t)
  {
    forall c | 0 <= c < |t.calls| && t.calls[c].Running?
      ensures t.calls[c].key in t.entries && t.entries[t.calls[c].key] == Pending(t.calls[c].id)
    {
      if s.calls[c].Running? {
        assert s.attempts[s.calls[c].id] == Attempt(s.calls[c].key, c, Live);
        match a {
          case FinishInit(d, _) =>
            assert s.attempts[s.calls[d].id] == Attempt(s.calls[d].key, d, Live);
          case _ =>
        }
      }
    }
  }

  lemma {:induction false} RunKeepsEntryHeld(ss: seq<State>, actions: seq<Action>, i: nat)
    requires Run(ss, actions) && i < |ss|
    requires forall j :: 0 <= j < i ==> !EvictsLive(ss[j], actions[j])
    ensures EntryHeld(ss[i])
  {
    if i > 0 {
      RunKeepsEntryHeld(ss, actions, i - 1);
      RunKeepsInv(ss, actions, i - 1);
      assert StepTo(ss[i - 1], actions[i - 1], ss[i]);
      StepKeepsEntryHeld(ss[i - 1], actions[i - 1], ss[i]);
    }
  }

  /** As long as evictions keep the pending entries of live attempts, as clear does, at most
      one initialiser per key is running. */
  lemma AtMostOneInitialiser(ss: seq<State>, actions: seq<Action>, i: nat, c: nat, d: nat)
    requires Run(ss, actions) && i < |ss| && c < |ss[i].calls| && d < |ss[i].calls|
    requires forall j :: 0 <= j < i ==> !EvictsLive(ss[j], actions[j])
    requires ss[i].calls[c].Running? && ss[i].calls[d].Running? && ss[i].calls[c].key == ss[i].calls[d].key
    ensures c == d
  {
    RunKeepsEntryHeld(ss, actions, i);
    RunKeepsInv(ss, actions, i);
  }

  ghost predicate TwoRunning(s: State, k: Key) {
    exists c, d :: 0 <= c < d < |s.calls| && RunningFor(s, c, k) && RunningFor(s, d, k)
  }

  predicate RunningFor(s: State, c: nat, k: Key) {
    c < |s.calls| && s.calls[c].Running? && s.calls[c].key == k
  }

  /** A state with one initialiser per key, an eviction and a new caller: two initialisers of
      the key are running afterwards exactly when the entry was pending on a live attempt. */
  lemma {:induction false} EvictionAllowsTwoIff(s: State, k: Key, c: nat)
    requires Inv(s) && EntryHeld(s) && c < |s.calls| && s.calls[c] == Start(k)
    ensures TwoRunning(Apply(Apply(s, Evict(k)), Enter(c)), k) <==> EvictsLive(s, Evict(k))
  {
    var t := Apply(Apply(s, Evict(k)), Enter(c));
    assert t.calls == s.calls[c := Running(k, |s.attempts|)];
    if EvictsLive(s, Evict(k)) {
      var owner := s.attempts[s.entries[k].id].owner;
      assert RunningFor(t, owner, k) && RunningFor(t, c, k) && owner != c;
    }
    if d, e :| 0 <= d < e < |t.calls| && RunningFor(t, d, k) && RunningFor(t, e, k) {
      var other := if d == c then e else d;
      assert s.calls[other].Running? && s.attempts[s.calls[other].id].status.Live?;
    }
  }

  /** Such a run exists: evicting a pending entry lets a second initialiser start next to the
      first. */
  lemma EvictingPendingAllowsTwo(k: Key) returns (ss: seq<State>, actions: seq<Action>)
    ensures Run(ss, actions) && |ss| == 4 && |ss[3].calls| == 2
    ensures forall c :: 0 <= c < 2 ==> ss[3].calls[c].Running? && ss[3].calls[c].key == k
  {
    actions := [Enter(0), Evict(k), Enter(1)];
    var s0 := State(map[], [Start(k), Start(k)], []);
    var s1 := Apply(s0, Enter(0));
    var s2 := Apply(s1, Evict(k));
    ss := [s0, s1, s2, Apply(s2, Enter(1))];
    assert StepTo(ss[0], actions[0], ss[1]) && StepTo(ss[1], actions[1], ss[2]) && StepTo(ss[2], actions[2], ss[3]);
  }

  // ---------------------------------------------------------------- One value per key

  /** Without evictions: what was published or returned for a key is what its entry holds. */
  ghost predicate ValuesHeld(s: State) {
    EntryHeld(s) && forall c :: 0 <= c < |s.calls| ==> ValueHeld(s, s.calls[c])
  }

  predicate Evicts(a: Action) { a.Evict? || a.EvictFetched? }

  /** A fetched entry stays as it is: its key has no initialiser any more. */
  lemma StepKeepsFetched(s: State, a: Action, t: State)
    requires Inv(s) && EntryHeld(s) && StepTo(s, a, t) && !Evicts(a)
    ensures forall k :: k in s.entries && s.entries[k].Fetched? ==> k in t.entries && t.entries[k] == s.entries[k]
  {
    if a.FinishInit? { assert s.calls[a.call].Running?; }
  }

  lemma StepKeepsValues(s: State, a: Action, t: State)
    requires Inv(s) && ValuesHeld(s) && StepTo(s, a, t) && !Evicts(a)
    ensures ValuesHeld(t)
    ensures forall k :: k in s.entries && s.entries[k].Fetched? ==> k in t.entries && t.entries[k] == s.entries[k]
  {
    StepKeepsEntryHeld(s, a, t);
    StepKeepsFetched(s, a, t);
    forall c | 0 <= c < |t.calls| ensures ValueHeld(t, t.calls[c]) {
      ValueHeldAfter(s, a, t, c);
    }
  }

  /** What one call published or returned is what the entry holds. */
  predicate ValueHeld(s: State, call: Call) {
    && (call.Publishing? ==> call.key in s.entries && s.entries[call.key] == Fetched(call.value))
    && (call.Returned? && call.result.Ok? ==>
         call.key in s.entries && s.entries[call.key] == Fetched(call.result.value))
  }

  lemma ValueHeldAfter(s: State, a: Action, t: State, c: nat)
    requires Inv(s) && ValuesHeld(s) && StepTo(s, a, t) && !Evicts(a) && c < |t.calls|
    requires forall k :: k in s.entries && s.entries[k].Fetched? ==> k in t.entries && t.entries[k] == s.entries[k]
    ensures ValueHeld(t, t.calls[c])
  {
    assert ValueHeld(s, s.calls[c]);
    if a.Receive? && a.call == c {
      var attempt := s.attempts[s.calls[c].id];
      assert attempt.status.Sent? ==> ValueHeld(s, s.calls[attempt.owner]);
    }
  }

  lemma {:induction false} RunKeepsValues(ss: seq<State>, actions: seq<Action>, i: nat, j: nat)
    requires Run(ss, actions) && i <= j < |ss| && forall n :: 0 <= n < j ==> !Evicts(actions[n])
    ensures ValuesHeld(ss[j])
    ensures forall k :: k in ss[i].entries && ss[i].entries[k].Fetched? ==>
      k in ss[j].entries && ss[j].entries[k] == ss[i].entries[k]
    decreases j
  {
    if j > 0 {
      if i < j { RunKeepsValues(ss, actions, i, j - 1); } else { RunKeepsValues(ss, actions, i - 1, j - 1); }
      RunKeepsInv(ss, actions, j - 1);
      assert StepTo(ss[j - 1], actions[j - 1], ss[j]);
      StepKeepsValues(ss[j - 1], actions[j - 1], ss[j]);
    }
  }

  /** Without evictions, at most one initialisation per key ever succeeds. */
  lemma AtMostOneSuccess(ss: seq<State>, actions: seq<Action>, i: nat, j: nat)
    requires Run(ss, actions) && i < j < |actions| && forall n :: 0 <= n < |actions| ==> !Evicts(actions[n])
    requires actions[i].FinishInit? && actions[j].FinishInit?
    ensures actions[i].call < |ss[i].calls| && actions[j].call < |ss[j].calls|
    ensures ss[i].calls[actions[i].call].key != ss[j].calls[actions[j].call].key
  {
    assert StepTo(ss[i], actions[i], ss[i + 1]) && StepTo(ss[j], actions[j], ss[j + 1]);
    RunKeepsValues(ss, actions, i + 1, j);
  }

  /** Without evictions, every value a lookup sees for a key and every value a call returns
      for it, at any two moments of a run, are the same. */
  lemma OneValuePerKey(ss: seq<State>, actions: seq<Action>, i: nat, j: nat, k: Key, c: nat, d: nat)
    requires Run(ss, actions) && i <= j < |ss| && forall n :: 0 <= n < |actions| ==> !Evicts(actions[n])
    requires c < |ss[i].calls| && d < |ss[j].calls|
    requires ss[i].calls[c].key == k && ss[j].calls[d].key == k
    ensures Lookup(ss[i], k).Some? ==> Lookup(ss[j], k) == Lookup(ss[i], k)
    ensures Answer(ss[j].calls[d]).Some? ==> Lookup(ss[j], k) == Answer(ss[j].calls[d])
    ensures Answer(ss[i].calls[c]).Some? && Answer(ss[j].calls[d]).Some? ==>
      Answer(ss[i].calls[c]) == Answer(ss[j].calls[d])
  {
    RunKeepsValues(ss, actions, i, j);
    RunKeepsValues(ss, actions, i, i);
  }

  /** What get answers. */
  function Lookup(s: State, k: Key): Option<Value> {
    if k in s.entries && s.entries[k].Fetched? then Some(s.entries[k].value) else None
  }

  function Answer(c: Call): Option<Value> {
    if c.Returned? && c.result.Ok? then Some(c.result.value) else None
  }

  // ---------------------------------------------------------------- Where answers come from

  /** Before state j, an initialiser called for k came back with v. */
  ghost predicate Produced(ss: seq<State>, actions: seq<Action>, j: nat, k: Key, v: Value)
    requires Run(ss, actions) && j < |ss|
  {
    exists i: nat, d: nat :: i < j && actions[i] == FinishInit(d, v) && d < |ss[i].calls| && ss[i].calls[d].key == k
  }

  /** Before state j, the initialiser of this very call failed with e. */
  ghost predicate Failed(actions: seq<Action>, j: nat, c: nat, e: Error)
    requires j <= |actions|
  {
    exists i :: 0 <= i < j && actions[i] == FailInit(c, e)
  }

  /** Before state j, this call was waiting on an attempt of its key. */
  ghost predicate Waited(ss: seq<State>, j: nat, c: nat, k: Key)
    requires j < |ss|
  {
    exists i :: 0 <= i < j && c < |ss[i].calls| && ss[i].calls[c].Waiting? && ss[i].calls[c].key == k
  }

  /** What a call publishes or answers was produced for its key, or is its own error. */
  ghost predicate CallTraced(ss: seq<State>, actions: seq<Action>, j: nat, c: nat)
    requires Run(ss, actions) && j < |ss| && c < |ss[j].calls|
  {
    match ss[j].calls[c]
    case Publishing(k, _, v) => Produced(ss, actions, j, k, v)
    case Returned(k, Ok(v)) => Produced(ss, actions, j, k, v)
    case Returned(_, InitError(e)) => Failed(actions, j, c, e)
    case Returned(k, CoalescedRequestFailed) => Waited(ss, j, c, k)
    case _ => true
  }

  ghost predicate Traced(ss: seq<State>, actions: seq<Action>, j: nat)
    requires Run(ss, actions) && j < |ss|
  {
    && (forall c :: 0 <= c < |ss[j].calls| ==> CallTraced(ss, actions, j, c))
    && (forall k :: k in ss[j].entries && ss[j].entries[k].Fetched? ==>
         Produced(ss, actions, j, k, ss[j].entries[k].value))
    && (forall id :: 0 <= id < |ss[j].attempts| && ss[j].attempts[id].status.Sent? ==>
         Produced(ss, actions, j, ss[j].attempts[id].key, ss[j].attempts[id].status.value))
  }

  lemma ProducedLater(ss: seq<State>, actions: seq<Action>, j: nat, k: Key, v: Value)
    requires Run(ss, actions) && j + 1 < |ss| && Produced(ss, actions, j, k, v)
    ensures Produced(ss, actions, j + 1, k, v)
  {
  }

  lemma ProducedNow(ss: seq<State>, actions: seq<Action>, j: nat)
    requires Run(ss, actions) && j < |actions| && actions[j].FinishInit?
    ensures
      var d := actions[j].call;
      d < |ss[j].calls| && Produced(ss, actions, j + 1, ss[j].calls[d].key, actions[j].value)
  {
    assert StepTo(ss[j], actions[j], ss[j + 1]);
  }

  /** What one step does to one call. */
  lemma CallAfterStep(s: State, a: Action, t: State, c: nat)
    requires Inv(s) && StepTo(s, a, t) && c < |s.calls|
    ensures c < |t.calls| && t.calls[c].key == s.calls[c].key
    ensures t.calls[c] != s.calls[c] ==> CallStep(a) && a.call == c
    ensures t.calls[c].Publishing? && t.calls[c] != s.calls[c] ==>
      a == FinishInit(c, t.calls[c].value)
    ensures t.calls[c].Returned? && t.calls[c] != s.calls[c] ==>
      match t.calls[c].result
      case Ok(v) =>
        || (s.calls[c].Publishing? && s.calls[c].value == v)
        || (s.calls[c].Start? && s.calls[c].key in s.entries && s.entries[s.calls[c].key] == Fetched(v))
        || (s.calls[c].Waiting? && s.attempts[s.calls[c].id].status == Sent(v))
      case InitError(e) => a == FailInit(c, e) && s.calls[c].Running?
      case CoalescedRequestFailed => s.calls[c].Waiting? && s.attempts[s.calls[c].id].status == Closed
  {
  }

  /** What one step does to entries and attempts: a value is only stored by the initialiser
      that came back with it, and only sent by the call that stored it. */
  lemma ValuesAfterStep(s: State, a: Action, t: State)
    requires Inv(s) && StepTo(s, a, t)
    ensures forall k :: k in t.entries && t.entries[k].Fetched? ==>
      || (k in s.entries && s.entries[k] == t.entries[k])
      || (a.FinishInit? && t.entries[k].value == a.value && s.calls[a.call].key == k)
    ensures forall id :: 0 <= id < |t.attempts| && t.attempts[id].status.Sent? ==>
      || (id < |s.attempts| && s.attempts[id] == t.attempts[id])
      || (a.Send? && s.calls[a.call] == Publishing(t.attempts[id].key, id, t.attempts[id].status.value))
  {
    if a.Send? { assert s.attempts[s.calls[a.call].id] == Attempt(s.calls[a.call].key, a.call, Live); }
  }

  lemma CallStaysTraced(ss: seq<State>, actions: seq<Action>, j: nat, c: nat)
    requires Run(ss, actions) && j + 1 < |ss| && Inv(ss[j]) && Traced(ss, actions, j) && c < |ss[j].calls|
    ensures c < |ss[j + 1].calls| && CallTraced(ss, actions, j + 1, c)
  {
    var s, a, t := ss[j], actions[j], ss[j + 1];
    assert StepTo(s, a, t);
    CallAfterStep(s, a, t, c);
    assert CallTraced(ss, actions, j, c);
    if a.FinishInit? { ProducedNow(ss, actions, j); }
  }

  lemma EntriesStayTraced(ss: seq<State>, actions: seq<Action>, j: nat, k: Key)
    requires Run(ss, actions) && j + 1 < |ss| && Inv(ss[j]) && Traced(ss, actions, j)
    requires k in ss[j + 1].entries && ss[j + 1].entries[k].Fetched?
    ensures Produced(ss, actions, j + 1, k, ss[j + 1].entries[k].value)
  {
    assert StepTo(ss[j], actions[j], ss[j + 1]);
    ValuesAfterStep(ss[j], actions[j], ss[j + 1]);
    if actions[j].FinishInit? { ProducedNow(ss, actions, j); }
  }

  lemma SentStaysTraced(ss: seq<State>, actions: seq<Action>, j: nat, id: nat)
    requires Run(ss, actions) && j + 1 < |ss| && Inv(ss[j]) && Traced(ss, actions, j)
    requires id < |ss[j + 1].attempts| && ss[j + 1].attempts[id].status.Sent?
    ensures Produced(ss, actions, j + 1, ss[j + 1].attempts[id].key, ss[j + 1].attempts[id].status.value)
  {
    assert StepTo(ss[j], actions[j], ss[j + 1]);
    ValuesAfterStep(ss[j], actions[j], ss[j + 1]);
    if actions[j].Send? { assert CallTraced(ss, actions, j, actions[j].call); }
  }

  lemma {:induction false} StepKeepsTraced(ss: seq<State>, actions: seq<Action>, j: nat)
    requires Run(ss, actions) && j + 1 < |ss| && Inv(ss[j]) && Traced(ss, actions, j)
    ensures Traced(ss, actions, j + 1)
  {
    var t, next := ss[j + 1], j + 1;
    assert StepTo(ss[j], actions[j], t);
    forall c | 0 <= c < |t.calls| ensures CallTraced(ss, actions, next, c) {
      StepKeepsCalls(ss[j], actions[j], t);
      CallStaysTraced(ss, actions, j, c);
    }
    forall k | k in t.entries && t.entries[k].Fetched? ensures Produced(ss, actions, next, k, t.entries[k].value) {
      EntriesStayTraced(ss, actions, j, k);
    }
    forall id | 0 <= id < |t.attempts| && t.attempts[id].status.Sent?
      ensures Produced(ss, actions, next, t.attempts[id].key, t.attempts[id].status.value)
    {
      SentStaysTraced(ss, actions, j, id);
    }
  }

  lemma StepKeepsCalls(s: State, a: Action, t: State)
    requires StepTo(s, a, t)
    ensures |t.calls| == |s.calls|
  {
  }

  /** Over every run, evictions included: what an entry holds and what a call returns for a
      key is what some initialiser called for that key came back with before; an error is
      that of the call's own initialiser; and only a waiter is told that a request failed. */
  lemma {:induction false} AnswersAreProduced(ss: seq<State>, actions: seq<Action>, j: nat)
    requires Run(ss, actions) && j < |ss|
    ensures Traced(ss, actions, j)
  {
    if j > 0 {
      AnswersAreProduced(ss, actions, j - 1);
      RunKeepsInv(ss, actions, j - 1);
      StepKeepsTraced(ss, actions, j - 1);
    }
  }

  /** What an initialiser comes back with is stored at once, and from then on its own call
      publishes it, has returned it or was dropped, whatever is evicted. */
  lemma {:induction false} OwnValueReturned(ss: seq<State>, actions: seq<Action>, i: nat, j: nat, c: nat, v: Value)
    requires Run(ss, actions) && i < j < |ss| && actions[i] == FinishInit(c, v)
    ensures c < |ss[i].calls| && c < |ss[j].calls|
    ensures
      var k := ss[i].calls[c].key;
      && k in ss[i + 1].entries && ss[i + 1].entries[k] == Fetched(v)
      && (ss[j].calls[c] == Returned(k, Ok(v)) || ss[j].calls[c] == Dropped(k)
        || (ss[j].calls[c].Publishing? && ss[j].calls[c].key == k && ss[j].calls[c].value == v))
    decreases j
  {
    assert StepTo(ss[i], actions[i], ss[i + 1]);
    RunKeepsInv(ss, actions, j);
    if i + 1 < j {
      OwnValueReturned(ss, actions, i, j - 1, c, v);
      assert StepTo(ss[j - 1], actions[j - 1], ss[j]);
    }
  }

  // ---------------------------------------------------------------- Progress

  /** Steps of a call, as opposed to evictions and lookups. */
  predicate CallStep(a: Action) { !Evicts(a) && !a.Get? }

  /** No deadlock: while a call is unfinished, some call other than by being dropped can step. */
  lemma NoDeadlock(s: State, c: nat) returns (a: Action)
    requires Inv(s) && c < |s.calls| && Unfinished(s.calls[c])
    ensures Enabled(s, a) && CallStep(a) && !a.Drop?
  {
    match s.calls[c] {
      case Start(_) => a := Enter(c);
      case Running(_, _) => a := FinishInit(c, "");
      case Publishing(_, _, _) => a := Send(c);
      case Waiting(_, id) =>
        var attempt := s.attempts[id];
        if attempt.status.Live? {
          assert Owns(s.calls[attempt.owner], id);
          a := if s.calls[attempt.owner].Running? then FinishInit(attempt.owner, "") else Send(attempt.owner);
        } else {
          a := Receive(c);
        }
    }
  }

  /** A caller starts an attempt exactly when there is no entry, or one left pending by an
      attempt that failed; otherwise it waits on the live attempt, or returns the value. */
  lemma EnterOutcome(s: State, c: nat)
    requires Inv(s) && Enabled(s, Enter(c))
    ensures
      var k, t := s.calls[c].key, Apply(s, Enter(c));
      && (t.calls[c] == Running(k, |s.attempts|) <==>
           k !in s.entries || (s.entries[k].Pending? && s.attempts[s.entries[k].id].status.Closed?))
      && (t.calls[c].Running? ==>
           t.entries == s.entries[k := Pending(|s.attempts|)] && t.attempts == s.attempts + [Attempt(k, c, Live)])
      && (k in s.entries && s.entries[k].Fetched? ==> t == s.(calls := s.calls[c := Returned(k, Ok(s.entries[k].value))]))
      && (t.calls[c].Waiting? ==> t.entries == s.entries && k in s.entries && s.entries[k] == Pending(t.calls[c].id))
  {
  }

  function Weight(c: Call): nat {
    match c
    case Start(_) => 3
    case Running(_, _) => 2
    case Publishing(_, _, _) => 1
    case Waiting(_, _) => 1
    case _ => 0
  }

  function Work(calls: seq<Call>): nat {
    if calls == [] then 0 else Weight(calls[0]) + Work(calls[1..])
  }

  lemma {:induction false} WorkUpdate(calls: seq<Call>, c: nat, to: Call)
    requires c < |calls|
    ensures Work(calls[c := to]) == Work(calls) - Weight(calls[c]) + Weight(to)
  {
    if c > 0 {
      assert calls[c := to][1..] == calls[1..][c - 1 := to];
      WorkUpdate(calls[1..], c - 1, to);
    }
  }

  /** Every step of a call lowers the remaining work; evictions and lookups leave it. */
  lemma StepLowersWork(s: State, a: Action, t: State)
    requires StepTo(s, a, t)
    ensures CallStep(a) ==> Work(t.calls) < Work(s.calls)
    ensures !CallStep(a) ==> t.calls == s.calls
  {
    if CallStep(a) { WorkUpdate(s.calls, a.call, t.calls[a.call]); }
  }

  function CallSteps(actions: seq<Action>): nat {
    if actions == [] then 0
    else CallSteps(actions[..|actions| - 1]) + if CallStep(actions[|actions| - 1]) then 1 else 0
  }

  /** A finite set of calls ends: a run has at most three call steps per call, and when the
      work is used up every call has finished. */
  lemma {:induction false} RunsTerminate(ss: seq<State>, actions: seq<Action>)
    requires Run(ss, actions)
    ensures CallSteps(actions) + Work(ss[|actions|].calls) <= 3 * |ss[0].calls|
    ensures Work(ss[|actions|].calls) == 0 <==>
      forall c :: 0 <= c < |ss[|actions|].calls| ==> !Unfinished(ss[|actions|].calls[c])
    decreases |actions|
  {
    var n := |actions|;
    WorkDone(ss[n].calls);
    if n == 0 {
      InitialWork(ss[0].calls);
    } else {
      var earlier, before := ss[..n], actions[..n - 1];
      assert Run(earlier, before) by {
        forall i | 0 <= i < |before| ensures StepTo(earlier[i], before[i], earlier[i + 1]) {
          assert StepTo(ss[i], actions[i], ss[i + 1]);
        }
      }
      RunsTerminate(earlier, before);
      assert StepTo(ss[n - 1], actions[n - 1], ss[n]);
      StepLowersWork(ss[n - 1], actions[n - 1], ss[n]);
    }
  }

  lemma {:induction false} WorkDone(calls: seq<Call>)
    ensures Work(calls) == 0 <==> forall c :: 0 <= c < |calls| ==> !Unfinished(calls[c])
  {
    if calls != [] {
      WorkDone(calls[1..]);
      if Work(calls) == 0 {
        forall c | 0 <= c < |calls| ensures !Unfinished(calls[c]) {
          if c > 0 { assert calls[c] == calls[1..][c - 1]; }
        }
      }
      if forall c :: 0 <= c < |calls| ==> !Unfinished(calls[c]) {
        forall c | 0 <= c < |calls[1..]| ensures !Unfinished(calls[1..][c]) {
          assert calls[1..][c] == calls[c + 1];
        }
      }
    }
  }

  lemma {:induction false} InitialWork(calls: seq<Call>)
    requires forall c :: 0 <= c < |calls| ==> calls[c].Start?
    ensures Work(calls) == 3 * |calls|
  {
    if calls != [] { InitialWork(calls[1..]); }
  }

  /** The steps of one retain or clear: evictions, key by key. */
  function EvictAll(s: State, keys: seq<Key>, fetchedOnly: bool): State
    decreases |keys|
  {
    if keys == [] then s
    else
      var t := EvictAll(s, keys[..|keys| - 1], fetchedOnly);
      var k := keys[|keys| - 1];
      Apply(t, if fetchedOnly then EvictFetched(k) else Evict(k))
  }

  lemma EvictOneMore(s: State, keys: seq<Key>, k: Key, fetchedOnly: bool)
    ensures EvictAll(s, keys + [k], fetchedOnly) ==
      Apply(EvictAll(s, keys, fetchedOnly), if fetchedOnly then EvictFetched(k) else Evict(k))
  {
    assert (keys + [k])[..|keys|] == keys;
  }
}
