/** The job queue as a sequence.

    These functions say what the pointer code of the thread pool does to the list
    hanging off `job_head`. They follow the branches the C code takes on
    `job_count`, so they are also defined where the count and the list disagree.
    `PoolModel` uses them for the steps taken under the queue mutex, and the class
    `WorkQueue` is proved to implement them with linked nodes. */
module JobQueue {
  import opened Wrappers

  /** The pointer `job_head`: NULL exactly when the list is empty. */
  function Front<T>(queue: seq<T>): Option<T> {
    if queue == [] then None else Some(queue[0])
  }

  /** Lines 336-345: a count of 0 replaces the list, any other count appends. */
  function Link<T>(queue: seq<T>, count: nat, job: T): seq<T> {
    if count == 0 then [job] else queue + [job]
  }

  /** Lines 373-386: a count of 1 clears the list, a larger one drops its head. */
  function Unlink<T>(queue: seq<T>, count: nat): seq<T> {
    if count == 1 then []
    else if count > 1 && queue != [] then queue[1..]
    else queue
  }

  /** The elements of an optional pointer, as a sequence of length 0 or 1. */
  function Listed<T>(x: Option<T>): seq<T> {
    match x
    case None => []
    case Some(v) => [v]
  }
}
