/**
 * The reference-counted keyed lock registry of FileLockService: a dictionary
 * from a file path to the semaphore that guards it and the number of holders
 * and waiters (QueueSize) that refer to that semaphore.  Only the sequential
 * bookkeeping done under the dictionary's monitor is modelled; waiting on the
 * semaphore is not.  Semaphores are named by numbers handed out in order.
 */
module Locking {

  /** The record `SemaphoreMonitor(Semaphore, QueueSize)`. */
  datatype SemaphoreMonitor = SemaphoreMonitor(semaphore: nat, queueSize: int)

  type Registry = map<string, SemaphoreMonitor>

  /** The handle returned to a caller: disposing it releases `key`. */
  datatype FileLock = FileLock(key: string, semaphore: nat)

  /** The registry never keeps an entry nobody refers to. */
  ghost predicate NoIdleEntries(r: Registry) {
    forall k :: k in r ==> r[k].queueSize >= 1
  }

  /** Number of holders and waiters registered for `k` (0 when absent). */
  function QueueSizeOf(r: Registry, k: string): int {
    if k in r then r[k].queueSize else 0
  }

  /** The registry update of AcquireLock: a new entry with a new semaphore
      and count 1, or the same semaphore with its count raised by one. */
  function AcquireStep(r: Registry, key: string, newSemaphore: nat): (r': Registry)
    ensures r'.Keys == r.Keys + {key}
    ensures key !in r ==> r'[key] == SemaphoreMonitor(newSemaphore, 1)
    ensures key in r ==> r'[key].semaphore == r[key].semaphore
    ensures QueueSizeOf(r', key) == QueueSizeOf(r, key) + 1
    ensures forall k :: k in r && k != key ==> r'[k] == r[k]
  {
    if key in r then r[key := r[key].(queueSize := r[key].queueSize + 1)]
    else r[key := SemaphoreMonitor(newSemaphore, 1)]
  }

  /** The registry update of Release for a key that is present: the count
      drops by one and the entry goes away when it reaches zero. */
  function ReleaseStep(r: Registry, key: string): (r': Registry)
    requires key in r
    ensures r'.Keys == if r[key].queueSize == 1 then r.Keys - {key} else r.Keys
    ensures key in r' ==> r'[key].semaphore == r[key].semaphore
    ensures QueueSizeOf(r', key) == QueueSizeOf(r, key) - 1
    ensures forall k :: k in r && k != key ==> r'[k] == r[k]
  {
    var decremented := r[key].(queueSize := r[key].queueSize - 1);
    if decremented.queueSize == 0 then r - {key} else r[key := decremented]
  }

  lemma AcquireKeepsNoIdleEntries(r: Registry, key: string, newSemaphore: nat)
    requires NoIdleEntries(r)
    ensures NoIdleEntries(AcquireStep(r, key, newSemaphore))
  {
  }

  lemma ReleaseKeepsNoIdleEntries(r: Registry, key: string)
    requires NoIdleEntries(r) && key in r
    ensures NoIdleEntries(ReleaseStep(r, key))
  {
  }

  /** An acquire followed by its release gives back the registry exactly. */
  lemma ReleaseUndoesAcquire(r: Registry, key: string, newSemaphore: nat)
    requires NoIdleEntries(r)
    ensures key in AcquireStep(r, key, newSemaphore)
    ensures ReleaseStep(AcquireStep(r, key, newSemaphore), key) == r
  {
    var r' := ReleaseStep(AcquireStep(r, key, newSemaphore), key);
    assert r'.Keys == r.Keys;
    assert forall k :: k in r ==> r'[k] == r[k];
  }

  /** A sequential history of lock operations. */
  datatype LockOp = Acquire(key: string) | Release(key: string)

  /** The registry after a history, starting from an empty dictionary.  The
      i-th operation would create semaphore number i; a release of a key that
      is absent throws and changes nothing. */
  function Replay(ops: seq<LockOp>): Registry
  {
    if ops == [] then map[]
    else
      var r := Replay(ops[..|ops| - 1]);
      match ops[|ops| - 1]
      case Acquire(k) => AcquireStep(r, k, |ops| - 1)
      case Release(k) => if k in r then ReleaseStep(r, k) else r
  }

  /** Acquisitions of `k` minus its releases. */
  function Outstanding(ops: seq<LockOp>, k: string): int {
    (multiset(ops)[Acquire(k)] as int) - (multiset(ops)[Release(k)] as int)
  }

  /** Every release disposes a lock that an earlier acquire handed out. */
  ghost predicate DisposedOnce(ops: seq<LockOp>) {
    forall i :: 0 <= i < |ops| && ops[i].Release? ==> Outstanding(ops[..i], ops[i].key) > 0
  }

  /** Each key's count is its acquisitions minus its releases, and a key is
      in the registry exactly while that number is positive. */
  lemma {:induction false} ReplayCounts(ops: seq<LockOp>, k: string)
    requires DisposedOnce(ops)
    ensures NoIdleEntries(Replay(ops))
    ensures QueueSizeOf(Replay(ops), k) == Outstanding(ops, k)
    ensures k in Replay(ops) <==> Outstanding(ops, k) > 0
  {
    if ops != [] {
      var init := ops[..|ops| - 1];
      var last := ops[|ops| - 1];
      assert ops == init + [last];
      assert DisposedOnce(init) by {
        forall i | 0 <= i < |init| && init[i].Release?
          ensures Outstanding(init[..i], init[i].key) > 0
        {
          assert init[..i] == ops[..i];
        }
      }
      ReplayCounts(init, k);
      ReplayCounts(init, last.key);
      var r := Replay(init);
      assert multiset(ops) == multiset(init) + multiset{last};
      match last
      case Acquire(key) =>
        AcquireKeepsNoIdleEntries(r, key, |ops| - 1);
      case Release(key) =>
        assert init == ops[..|ops| - 1];
        assert Outstanding(init, key) > 0;
        ReleaseKeepsNoIdleEntries(r, key);
    }
  }

  /** After every acquired lock has been released, the registry is empty. */
  lemma DrainedRegistryIsEmpty(ops: seq<LockOp>)
    requires DisposedOnce(ops)
    requires forall k :: Outstanding(ops, k) == 0
    ensures Replay(ops) == map[]
  {
    forall k | k in Replay(ops) ensures false {
      ReplayCounts(ops, k);
    }
  }

  /** The service object: `_fileLockDictionary` plus ghost counters of the
      acquisitions and releases it has performed. */
  class FileLockService {
    var monitors: Registry
    var nextSemaphore: nat
    ghost var acquired: multiset<string>
    ghost var released: multiset<string>

    ghost predicate Valid()
      reads this
    {
      && NoIdleEntries(monitors)
      && (forall k :: k in monitors ==> monitors[k].semaphore < nextSemaphore)
      && (forall k :: (acquired[k] as int) - (released[k] as int) == QueueSizeOf(monitors, k))
    }

    constructor ()
      ensures Valid()
      ensures monitors == map[] && acquired == multiset{} && released == multiset{}
    {
      monitors := map[];
      nextSemaphore := 0;
      acquired := multiset{};
      released := multiset{};
    }

    /** AcquireLock up to the wait: register interest in `fileName` and
        return the lock whose semaphore the caller then waits on. */
    method AcquireLock(fileName: string) returns (lock: FileLock)
      requires Valid()
      modifies this
      ensures Valid()
      ensures monitors == AcquireStep(old(monitors), fileName, old(nextSemaphore))
      ensures lock == FileLock(fileName, monitors[fileName].semaphore)
      ensures fileName !in old(monitors) ==> lock.semaphore !in set k | k in old(monitors) :: old(monitors)[k].semaphore
      ensures acquired == old(acquired) + multiset{fileName} && released == old(released)
    {
      if fileName in monitors {
        var existingItem := monitors[fileName];
        monitors := monitors[fileName := existingItem.(queueSize := existingItem.queueSize + 1)];
      } else {
        monitors := monitors[fileName := SemaphoreMonitor(nextSemaphore, 1)];
        nextSemaphore := nextSemaphore + 1;
      }
      acquired := acquired + multiset{fileName};
      lock := FileLock(fileName, monitors[fileName].semaphore);
    }

    /** Release, reached by disposing a FileLock.  The dictionary indexer
        throws when the key is absent; `found` is false then and nothing
        changes. */
    method Release(key: string) returns (found: bool)
      requires Valid()
      modifies this
      ensures Valid()
      ensures found == (key in old(monitors))
      ensures found ==> monitors == ReleaseStep(old(monitors), key)
      ensures found ==> released == old(released) + multiset{key}
      ensures !found ==> monitors == old(monitors) && released == old(released)
      ensures acquired == old(acquired) && nextSemaphore == old(nextSemaphore)
    {
      found := key in monitors;
      if !found {
        return;
      }
      var existingTracker := monitors[key];
      var newTracker := existingTracker.(queueSize := existingTracker.queueSize - 1);
      if newTracker.queueSize == 0 {
        monitors := monitors - {key};
      } else {
        monitors := monitors[key := newTracker];
      }
      released := released + multiset{key};
    }
  }
}
