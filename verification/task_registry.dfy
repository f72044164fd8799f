/**
 The registry of scheduled retries that both revisions of `ScheduledUtil` keep:
 a map from task id to the retry scheduled for it. The source's map is a
 `ConcurrentHashMap`, which holds no `null` values, so `get(id) != null` is
 membership.
 */
module TaskRegistry {

  /**
   `addTask`: an id that already has a retry keeps it and the new one is dropped;
   otherwise exactly that id is added. No other id is touched.
   */
  function AddTask<T>(futures: map<string, T>, id: string, task: T): (r: map<string, T>)
    ensures r.Keys == futures.Keys + {id}
    ensures r[id] == if id in futures then futures[id] else task
    ensures forall k :: k in futures && k != id ==> r[k] == futures[k]
  {
    if id in futures then futures else futures[id := task]
  }

  /**
   `remove`: an absent id changes nothing; a present one is deleted, whatever
   `cancel` reports, and no other id is touched.
   */
  function Remove<T>(futures: map<string, T>, id: string): (r: map<string, T>)
    ensures r.Keys == futures.Keys - {id}
    ensures forall k :: k in r ==> r[k] == futures[k]
  {
    if id !in futures then futures else futures - {id}
  }

  /** A second `addTask` for the same id is a no-op, whatever task it carries. */
  lemma AddTaskIdempotent<T>(futures: map<string, T>, id: string, task: T, other: T)
    ensures AddTask(AddTask(futures, id, task), id, other) == AddTask(futures, id, task)
  {
  }

  /** Removing twice is removing once. */
  lemma RemoveIdempotent<T>(futures: map<string, T>, id: string)
    ensures Remove(Remove(futures, id), id) == Remove(futures, id)
  {
  }

  /** Adding a fresh id and removing it again restores the registry. */
  lemma RemoveUndoesAdd<T>(futures: map<string, T>, id: string, task: T)
    requires id !in futures
    ensures Remove(AddTask(futures, id, task), id) == futures
  {
  }
}
