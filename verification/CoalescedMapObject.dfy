/** The shared map object of crates/coalesced_map/src/lib.rs. Each method below is one
    uninterrupted section; the protocol lemmas are about their interleavings. */
module CoalescedMapObject {
  import opened Orders
  import opened SingleFlight

  class CoalescedMap {
    var entries: map<Key, Entry>
    var calls: seq<Call>
    var attempts: seq<Attempt>

    function Now(): State
      reads this
    {
      State(entries, calls, attempts)
    }

    constructor (keys: seq<Key>)
      ensures Initial(Now()) && |calls| == |keys|
      ensures forall c :: 0 <= c < |keys| ==> calls[c] == Start(keys[c])
    {
      entries, attempts := map[], [];
      calls := seq(|keys|, c requires 0 <= c < |keys| => Start(keys[c]));
    }

    /** Occupy or observe the entry, under its lock: the subscription is made before the
        lock is given back. */
    method Enter(c: nat)
      requires Enabled(Now(), SingleFlight.Enter(c))
      modifies this
      ensures Now() == Apply(old(Now()), SingleFlight.Enter(c))
    {
      var k := calls[c].key;
      if k in entries {
        match entries[k] {
          case Fetched(v) =>
            calls := calls[c := Returned(k, Ok(v))];
            return;
          case Pending(id) =>
            if id < |attempts| && attempts[id].status.Live? {
              calls := calls[c := Waiting(k, id)];
              return;
            }
        }
      }
      Begin(c);
    }

    /** Create the channel and mark the entry as pending on it. */
    method Begin(c: nat)
      requires c < |calls|
      modifies this
      ensures Now() == BeginAttempt(old(Now()), c)
    {
      var k := calls[c].key;
      var id := |attempts|;
      attempts := attempts + [Attempt(k, c, Live)];
      entries := entries[k := Pending(id)];
      calls := calls[c := Running(k, id)];
    }

    /** The initialiser came back with a value: store it. */
    method FinishInit(c: nat, v: Value)
      requires Enabled(Now(), SingleFlight.FinishInit(c, v))
      modifies this
      ensures Now() == Apply(old(Now()), SingleFlight.FinishInit(c, v))
    {
      var call := calls[c];
      entries := entries[call.key := Fetched(v)];
      calls := calls[c := Publishing(call.key, call.id, v)];
    }

    /** Send the stored value to the waiters and return it. */
    method Send(c: nat)
      requires Enabled(Now(), SingleFlight.Send(c))
      modifies this
      ensures Now() == Apply(old(Now()), SingleFlight.Send(c))
    {
      var call := calls[c];
      attempts := attempts[call.id := attempts[call.id].(status := Sent(call.value))];
      calls := calls[c := Returned(call.key, Ok(call.value))];
    }

    /** The initialiser failed: return its error; the sender is dropped. */
    method FailInit(c: nat, e: Error)
      requires Enabled(Now(), SingleFlight.FailInit(c, e))
      modifies this
      ensures Now() == Apply(old(Now()), SingleFlight.FailInit(c, e))
    {
      var call := calls[c];
      attempts := attempts[call.id := attempts[call.id].(status := Closed)];
      calls := calls[c := Returned(call.key, InitError(e))];
    }

    /** The call is cancelled or panics: whatever it holds is dropped. */
    method Drop(c: nat)
      requires Enabled(Now(), SingleFlight.Drop(c))
      modifies this
      ensures Now() == Apply(old(Now()), SingleFlight.Drop(c))
    {
      var call := calls[c];
      if call.Running? || call.Publishing? {
        attempts := attempts[call.id := attempts[call.id].(status := Closed)];
      }
      calls := calls[c := Dropped(call.key)];
    }

    /** A waiter wakes up: with the value sent, or because the channel closed without one. */
    method Receive(c: nat)
      requires Enabled(Now(), SingleFlight.Receive(c))
      modifies this
      ensures Now() == Apply(old(Now()), SingleFlight.Receive(c))
    {
      var call := calls[c];
      match attempts[call.id].status {
        case Sent(v) => calls := calls[c := Returned(call.key, Ok(v))];
        case Closed => calls := calls[c := Returned(call.key, CoalescedRequestFailed)];
      }
    }

    method Get(k: Key) returns (v: Option<Value>)
      ensures v == Lookup(Now(), k)
    {
      if k in entries && entries[k].Fetched? { return Some(entries[k].value); }
      return None;
    }

    /** Keep the entries the caller's test accepts: one eviction per entry it rejects. */
    method Retain(f: (Key, Entry) -> bool) returns (ghost gone: seq<Key>)
      modifies this
      ensures Now() == EvictAll(old(Now()), gone, false)
      ensures entries == map k | k in old(entries) && f(k, old(entries)[k]) :: old(entries)[k]
    {
      gone := [];
      var rest := entries.Keys;
      while rest != {}
        invariant rest <= entries.Keys <= old(entries).Keys
        invariant forall k :: k in entries ==> entries[k] == old(entries)[k]
        invariant forall k :: k in old(entries) && k !in rest ==>
          (k in entries <==> f(k, old(entries)[k]))
        invariant Now() == EvictAll(old(Now()), gone, false)
      {
        var k :| k in rest;
        if !f(k, entries[k]) {
          ghost var before := Now();
          entries := entries - {k};
          assert Now() == Apply(before, SingleFlight.Evict(k));
          EvictOneMore(old(Now()), gone, k, false);
          gone := gone + [k];
        }
        rest := rest - {k};
      }
    }

    /** Keep the pending entries only. */
    method Clear() returns (ghost gone: seq<Key>)
      modifies this
      ensures Now() == EvictAll(old(Now()), gone, true)
      ensures entries == map k | k in old(entries) && old(entries)[k].Pending? :: old(entries)[k]
    {
      gone := [];
      var rest := entries.Keys;
      while rest != {}
        invariant rest <= entries.Keys <= old(entries).Keys
        invariant forall k :: k in entries ==> entries[k] == old(entries)[k]
        invariant forall k :: k in old(entries) && k !in rest ==>
          (k in entries <==> old(entries)[k].Pending?)
        invariant Now() == EvictAll(old(Now()), gone, true)
      {
        var k :| k in rest;
        if !entries[k].Pending? {
          ghost var before := Now();
          entries := entries - {k};
          assert Now() == Apply(before, SingleFlight.EvictFetched(k));
          EvictOneMore(old(Now()), gone, k, true);
          gone := gone + [k];
        }
        rest := rest - {k};
      }
    }
  }
}
