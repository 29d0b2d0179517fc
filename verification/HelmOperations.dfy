/** The in-memory bookkeeping of Helm work shared by every host: the map of active operations guarded
    by a mutex, and the channel that bounds concurrent renders.

    The functions are the lock sections as values; the interleaved protocol (module HelmProtocol) is
    built from them. The classes are the same bookkeeping updated in place. */
module HelmOperations {

  /** A namespaced name. */
  datatype Key = Key(ns: string, name: string)

  /** An entry of the active map: the context its cancel function cancels, and the launch hash. */
  datatype HelmOperation = HelmOperation(ctx: nat, hash: string)

  type Active = map<Key, HelmOperation>

  predicate IsActive(m: Active, key: Key, hash: string) {
    key in m && m[key].hash == hash
  }

  /** Forgets the entry of `key` only if it was launched for `hash`. */
  function ClearEntry(m: Active, key: Key, hash: string): Active {
    if IsActive(m, key, hash) then m - {key} else m
  }

  class OperationTable {
    var active: Active
    var cancelled: set<nat>
    var held: bool // the mutex

    constructor ()
      ensures active == map[] && cancelled == {} && !held
    {
      active, cancelled, held := map[], {}, false;
    }

    method Lock()
      requires !held
      modifies this`held
      ensures held
    {
      held := true;
    }

    method Unlock()
      requires held
      modifies this`held
      ensures !held
    {
      held := false;
    }

    /** Runs a cancel function. It may run work that needs the mutex, so the mutex must be free. */
    method Cancel(ctx: nat)
      requires !held
      modifies this`cancelled
      ensures cancelled == old(cancelled) + {ctx}
    {
      cancelled := cancelled + {ctx};
    }

    /** Everything other goroutines may do to the map while this one does not hold the mutex. */
    method Interference()
      requires !held
      modifies this`active
    {
      active := *;
    }

    /** Claims the key for `hash`, superseding an operation of another hash. The old operation is
        cancelled between two lock sections, where other goroutines may change the map. */
    method TrySet(key: Key, ctx: nat, hash: string) returns (ok: bool)
      requires !held
      modifies this
      ensures !held
      ensures ok <==> !IsActive(old(active), key, hash)
      ensures !ok ==> active == old(active) && cancelled == old(cancelled)
      ensures ok ==> key in active && active[key] == HelmOperation(ctx, hash)
      ensures ok && key in old(active) ==> cancelled == old(cancelled) + {old(active)[key].ctx}
      ensures key !in old(active) ==>
                active == old(active)[key := HelmOperation(ctx, hash)] && cancelled == old(cancelled)
    {
      Lock();
      if key in active {
        var op := active[key];
        if op.hash == hash {
          Unlock();
          return false;
        }
        Unlock();
        Interference();
        Cancel(op.ctx);
        Interference();
        Lock();
      }
      active := active[key := HelmOperation(ctx, hash)];
      Unlock();
      ok := true;
    }

    method Clear(key: Key, hash: string)
      requires !held
      modifies this`active, this`held
      ensures !held
      ensures active == ClearEntry(old(active), key, hash) && !IsActive(active, key, hash)
      ensures !IsActive(old(active), key, hash) ==> active == old(active)
    {
      Lock();
      if key in active && active[key].hash == hash {
        active := active - {key};
      }
      Unlock();
    }

    /** Forgets the key under the mutex, then cancels outside it. */
    method CancelHelmOperation(key: Key)
      requires !held
      modifies this
      ensures !held
      ensures key !in old(active) ==> active == old(active) && cancelled == old(cancelled)
      ensures key in old(active) ==>
                active == old(active) - {key} && cancelled == old(cancelled) + {old(active)[key].ctx}
    {
      Lock();
      var found := key in active;
      var op := if found then active[key] else HelmOperation(0, "");
      if found {
        active := active - {key};
      }
      Unlock();
      if found {
        Cancel(op.ctx);
      }
    }
  }

  /** The release function handed out with a slot: it drains the channel at most once. */
  class Slot {
    const bounded: bool
    var released: bool

    constructor (bounded: bool)
      ensures this.bounded == bounded && !released
    {
      this.bounded := bounded;
      released := false;
    }
  }

  /** The channel behind HelmRenderConcurrency; a concurrency of zero or less means no channel. */
  class RenderSlots {
    const concurrency: int
    var tokens: nat
    ghost var slots: set<Slot> // every slot handed out

    ghost function Unreleased(): set<Slot>
      reads this, slots
    {
      set s | s in slots && s.bounded && !s.released
    }

    ghost predicate Valid()
      reads this, slots
    {
      && (forall s :: s in slots ==> s.bounded == (concurrency > 0))
      && tokens == |Unreleased()|
      && (concurrency > 0 ==> tokens <= concurrency)
      && (concurrency <= 0 ==> tokens == 0)
    }

    constructor (concurrency: int)
      ensures Valid() && this.concurrency == concurrency && slots == {} && tokens == 0
    {
      this.concurrency := concurrency;
      tokens, slots := 0, {};
    }

    /** The select of acquireHelmRenderSlot: a free slot and a cancelled context may both be ready,
        and then either case may be taken. A caller facing neither would block, so it is not called. */
    method Acquire(cancelled: bool) returns (slot: Slot?)
      requires Valid()
      requires cancelled || concurrency <= 0 || tokens < concurrency
      modifies this
      ensures Valid()
      ensures slot == null ==> cancelled && concurrency > 0 && tokens == old(tokens) && slots == old(slots)
      ensures slot != null ==> fresh(slot) && slots == old(slots) + {slot} && !slot.released
      ensures slot != null ==> tokens == old(tokens) + (if concurrency > 0 then 1 else 0)
    {
      if concurrency <= 0 {
        var s := new Slot(false);
        slots := slots + {s};
        assert Unreleased() == old(Unreleased());
        return s;
      }
      var drop: bool := *;
      if cancelled && (tokens == concurrency || drop) {
        return null;
      }
      var s := new Slot(true);
      tokens := tokens + 1;
      slots := slots + {s};
      assert Unreleased() == old(Unreleased()) + {s};
      slot := s;
    }

    /** Idempotent: the first release of a slot drains one token, any later one drains none. */
    method Release(slot: Slot)
      requires Valid() && slot in slots
      modifies this`tokens, slot
      ensures Valid() && slot.released
      ensures tokens == old(tokens) - (if concurrency > 0 && !old(slot.released) then 1 else 0)
    {
      if !slot.released {
        if slot.bounded {
          assert slot in Unreleased();
          tokens := tokens - 1;
        }
        slot.released := true;
        assert Unreleased() == old(Unreleased()) - {slot};
      }
    }
  }
}
