/** Per-PR locks in one table that several processes share (backend/ci_fix_locks.py).
    Acquire, attach and release are atomic statements or transactions; a reader selects
    rows, reads the clock, probes the run of each row and deletes ended rows one by one,
    with other processes acting in between. */
module FixLocks {
  import opened Common
  import Text

  type Key = (string, int)

  function KeyOf(repo: string, pr: int): Key {
    (Text.Lower(Text.Strip(repo)), pr)
  }

  datatype Row = Row(session: string, runId: string, deadline: real)

  type Table = map<Key, Row>

  /** The answer of the liveness probe; an exception is `Unreadable` and keeps the lock. */
  datatype Probe = Live | Over | Unreadable

  predicate Ended(row: Row, answer: Probe, now: real) {
    now >= row.deadline || (row.runId != "" && answer == Over)
  }

  /** DELETE ... WHERE key = ? AND deadline = ?. */
  function DeleteExact(table: Table, key: Key, deadline: real): Table {
    if key in table && table[key].deadline == deadline then table - {key} else table
  }

  /** The table after the ended row of `key`, if there is one, is deleted. */
  function Cleaned(table: Table, key: Key, answer: Probe, now: real): Table {
    if key in table && Ended(table[key], answer, now) then DeleteExact(table, key, table[key].deadline) else table
  }

  predicate Grants(table: Table, key: Key, answer: Probe, now: real) {
    key !in Cleaned(table, key, answer, now)
  }

  /** The acquire transaction: `now` is read for the liveness check, `stamp` for the deadline.
      A refused acquire is rolled back. */
  function Acquired(table: Table, key: Key, session: string, answer: Probe, now: real, stamp: real, ttl: real): Table {
    if Grants(table, key, answer, now)
    then Cleaned(table, key, answer, now)[key := Row(session, "", stamp + ttl)]
    else table
  }

  function Attached(table: Table, key: Key, run: string): Table {
    if key in table then table[key := table[key].(runId := run)] else table
  }

  /** Rows of a query, in some order; a row is deleted where the sequential code deletes it. */
  function Survivors(table: Table, answers: string -> Probe, now: real): Table {
    map key | key in table && !Ended(table[key], answers(table[key].runId), now) :: table[key]
  }

  // ---------------------------------------------------------------- the manager

  /** The table every process opens. */
  class LockStore {
    var rows: Table

    constructor ()
      ensures rows == map[]
    {
      rows := map[];
    }
  }

  class CIFixLockManager {
    const store: LockStore
    const ttl: real

    constructor (store: LockStore, ttl: real)
      ensures this.store == store && this.ttl == ttl
    {
      this.store, this.ttl := store, ttl;
    }

    /** Rows still held among `query`; ended rows are deleted on the way. */
    method LiveRows(query: set<Key>, answers: string -> Probe, now: real) returns (live: set<Key>)
      requires query <= store.rows.Keys
      modifies store
      ensures live == set key | key in query && !Ended(old(store.rows)[key], answers(old(store.rows)[key].runId), now)
      ensures store.rows == map key | key in old(store.rows) && (key in query ==> key in live) :: old(store.rows)[key]
    {
      live := {};
      var rest := query;
      ghost var before := store.rows;
      while rest != {}
        invariant rest <= query
        invariant live == set key | key in query - rest && !Ended(before[key], answers(before[key].runId), now)
        invariant store.rows == map key | key in before && (key in query - rest ==> key in live) :: before[key]
        decreases |rest|
      {
        var key :| key in rest;
        var row := store.rows[key];
        rest := rest - {key};
        if Ended(row, answers(row.runId), now) {
          if key in store.rows && store.rows[key].deadline == row.deadline {
            store.rows := store.rows - {key};
          }
        } else {
          live := live + {key};
        }
      }
    }

    method Acquire(repo: string, pr: int, session: string, answers: string -> Probe, now: real, stamp: real)
      returns (granted: bool)
      modifies store
      ensures var key := KeyOf(repo, pr);
              var answer := if key in old(store.rows) then answers(old(store.rows)[key].runId) else Unreadable;
              && granted == Grants(old(store.rows), key, answer, now)
              && store.rows == Acquired(old(store.rows), key, session, answer, now, stamp, ttl)
    {
      var key := KeyOf(repo, pr);
      var saved := store.rows;
      var live := LiveRows((set k | k in store.rows && k == key), answers, now);
      if live != {} {
        store.rows := saved;
        return false;
      }
      // The insert cannot hit the primary key.
      assert key !in store.rows;
      store.rows := store.rows[key := Row(session, "", stamp + ttl)];
      return true;
    }

    method AttachRun(repo: string, pr: int, run: string) returns (found: bool)
      modifies store
      ensures found == (KeyOf(repo, pr) in old(store.rows))
      ensures store.rows == Attached(old(store.rows), KeyOf(repo, pr), run)
    {
      var key := KeyOf(repo, pr);
      found := key in store.rows;
      if found {
        store.rows := store.rows[key := store.rows[key].(runId := run)];
      }
    }

    method Release(repo: string, pr: int) returns (found: bool)
      modifies store
      ensures found == (KeyOf(repo, pr) in old(store.rows))
      ensures store.rows == old(store.rows) - {KeyOf(repo, pr)}
    {
      found := KeyOf(repo, pr) in store.rows;
      store.rows := store.rows - {KeyOf(repo, pr)};
    }

    method ListLocks(answers: string -> Probe, now: real) returns (live: set<Key>)
      modifies store
      ensures store.rows == Survivors(old(store.rows), answers, now) && live == store.rows.Keys
    {
      live := LiveRows(store.rows.Keys, answers, now);
    }
  }
}
