/** The pool of database handles of one community: handles are handed out while they last, the
    database is opened for the first one and closed when all are back. */
module ConnectionPool {

  /** A handle and the database it refers to. Databases are numbered by their opening; 0 stands for
      none. */
  class DbObject {
    var db: nat

    constructor ()
      ensures db == 0
    {
      db := 0;
    }
  }

  /** Get and Put as they are without other callers in between. Outstanding is the set of handles
      that callers hold. */
  class DbPoolObject {
    const capacity: nat
    var pool: seq<DbObject>
    var db: nat
    var opens: nat
    ghost var outstanding: set<DbObject>

    ghost predicate Valid()
      reads this, pool, outstanding
    {
      && |pool| + |outstanding| == capacity
      && (forall i, j | 0 <= i < j < |pool| :: pool[i] != pool[j])
      && (forall o | o in pool :: o !in outstanding)
      && (forall o | o in outstanding :: o.db == db)
      && db <= opens
      && (db != 0 <==> outstanding != {})
    }

    constructor (size: nat)
      ensures Valid() && capacity == size && |pool| == size && outstanding == {}
      ensures forall o | o in pool :: fresh(o) && o.db == 0
    {
      capacity, pool, db, opens, outstanding := size, [], 0, 0, {};
      new;
      for i := 0 to size
        invariant |pool| == i && db == 0 && opens == 0 && outstanding == {}
        invariant forall o | o in pool :: fresh(o) && o.db == 0
        invariant forall i, j | 0 <= i < j < |pool| :: pool[i] != pool[j]
      {
        var o := new DbObject();
        pool := pool + [o];
      }
    }

    /** Hands out the first idle handle on the open database, opening it when it is closed. A call
        on an empty pool waits until a handle comes back. */
    method Get() returns (o: DbObject)
      requires Valid() && pool != []
      modifies this, pool[0]
      ensures Valid() && o == old(pool)[0] && pool == old(pool)[1..] && outstanding == old(outstanding) + {o}
      ensures o.db == db != 0
      ensures if old(outstanding) == {} then db == opens == old(opens) + 1 else db == old(db) && opens == old(opens)
    {
      o := pool[0];
      pool := pool[1..];
      if db == 0 {
        db, opens := opens + 1, opens + 1;
      }
      o.db := db;
      outstanding := outstanding + {o};
    }

    /** Takes a handle back, and closes the database when it was the last one. A handle returned to
        a full pool is dropped. */
    method Put(o: DbObject)
      requires Valid() && (o in outstanding || |pool| == capacity)
      modifies this, o
      ensures Valid() && o.db == 0 && opens == old(opens)
      ensures outstanding == old(outstanding) - {o}
      ensures pool == if old(|pool|) == capacity then old(pool) else old(pool) + [o]
      ensures db == if outstanding == {} then 0 else old(db)
    {
      o.db := 0;
      if |pool| == capacity {
        return;
      }
      pool := pool + [o];
      outstanding := outstanding - {o};
      if |pool| == capacity {
        db := 0;
      }
    }
  }
}
