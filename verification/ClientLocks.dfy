/** The server's table of client locks as it works: grown on a client's first sighting, one
    mutex for each identifier. `TunnelServer` has its steps one by one; here each call runs alone,
    from the moment its waits are over. */
module ClientLocks {

  class Mutex {
    var locked: bool

    constructor ()
      ensures !locked
    {
      locked := false;
    }
  }

  class Locks {
    var clientLocks: map<string, Mutex>

    constructor ()
      ensures Valid() && clientLocks == map[]
    {
      clientLocks := map[];
    }

    /** No two clients share a mutex. */
    ghost predicate Valid()
      reads this
    {
      forall a, b :: a in clientLocks && b in clientLocks && clientLocks[a] == clientLocks[b] ==> a == b
    }

    /** The clients whose lock is held. */
    ghost function Held(): set<string>
      reads this, clientLocks.Values
    {
      set id | id in clientLocks && clientLocks[id].locked
    }

    /** The client's mutex, made on its first sighting. */
    method MutexOf(id: string) returns (mw: Mutex)
      requires Valid()
      modifies this
      ensures Valid() && clientLocks == old(clientLocks)[id := mw]
      ensures id in old(clientLocks) ==> mw == old(clientLocks[id])
      ensures id !in old(clientLocks) ==> fresh(mw) && !mw.locked
    {
      if id in clientLocks {
        mw := clientLocks[id];
      } else {
        mw := new Mutex();
      }
      clientLocks := clientLocks[id := mw];
    }

    /** Takes the client's lock, once nobody holds it. No other client's lock changes hands. */
    method LockClient(id: string)
      requires Valid() && id !in Held()
      modifies this, clientLocks.Values
      ensures Valid() && Held() == old(Held()) + {id}
      ensures clientLocks.Keys == old(clientLocks.Keys) + {id}
      ensures forall a :: a in old(clientLocks) ==> clientLocks[a] == old(clientLocks[a])
    {
      var mw := MutexOf(id);
      mw.locked := true;
    }

    /** Gives it back. */
    method UnlockClient(id: string)
      requires Valid() && id in Held()
      modifies clientLocks.Values
      ensures Valid() && Held() == old(Held()) - {id}
    {
      var mw := clientLocks[id];
      mw.locked := false;
    }
  }
}
