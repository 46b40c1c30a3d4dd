/**
  FastAPI `BackgroundTasks` as the services use it: a queue of cache commands
  appended during a request and drained in order against the cache once the
  request has succeeded.
 */
module BackgroundTasks {
  import opened Common
  import opened RedisCache

  /** One `add_task(self.redis_cache.<op>, redis_client, ...)` call. */
  datatype Command<V> =
    | Add(key: string, value: V)
    | Delete(key: string)
    | CascadeDelete(pattern: string)
    | ExcelCascadeDelete(pattern: string)
    | MultiplyDelete(keys: seq<string>)

  /** Every scan pattern in the queue is free of glob metacharacters. */
  predicate Runnable<V>(cs: seq<Command<V>>)
  {
    forall i :: 0 <= i < |cs| ==> match cs[i]
      case CascadeDelete(p) => GlobFree(p)
      case ExcelCascadeDelete(p) => GlobFree(p)
      case _ => true
  }

  /** The effect of one command on the store. */
  function Apply<V>(m: Store<V>, c: Command<V>): Store<V>
  {
    match c
    case Add(k, v) => AfterAdd(m, k, v)
    case Delete(k) => AfterDelete(m, k)
    case CascadeDelete(p) => AfterCascadeDelete(m, p)
    case ExcelCascadeDelete(p) => AfterExcelCascadeDelete(m, p)
    case MultiplyDelete(ks) => AfterMultiplyDelete(m, ks)
  }

  /** The effect of running `cs` in order. */
  function ApplyAll<V>(m: Store<V>, cs: seq<Command<V>>): Store<V>
    decreases |cs|
  {
    if cs == [] then m else ApplyAll(Apply(m, cs[0]), cs[1..])
  }

  /** Running `a` and then `b` is running `a + b`. */
  lemma {:induction false} ApplyAllAppend<V>(m: Store<V>, a: seq<Command<V>>, b: seq<Command<V>>)
    ensures ApplyAll(m, a + b) == ApplyAll(ApplyAll(m, a), b)
    decreases |a|
  {
    if a != [] {
      assert (a + b)[0] == a[0] && (a + b)[1..] == a[1..] + b;
      ApplyAllAppend(Apply(m, a[0]), a[1..], b);
    } else {
      assert a + b == b;
    }
  }

  /** Draining a one-command queue applies that command. */
  lemma ApplyOne<V>(m: Store<V>, a: Command<V>)
    ensures ApplyAll(m, [a]) == Apply(m, a)
  {
    assert [a][1..] == [];
  }

  /** Draining a two-command queue applies the first command, then the second. */
  lemma ApplyTwo<V>(m: Store<V>, a: Command<V>, b: Command<V>)
    ensures ApplyAll(m, [a, b]) == Apply(Apply(m, a), b)
  {
    assert [a, b][1..] == [b];
    assert [b][1..] == [];
    calc {
      ApplyAll(m, [a, b]);
      ApplyAll(Apply(m, a), [b]);
      ApplyAll(Apply(Apply(m, a), b), []);
    }
  }

  class Tasks<V> {
    var queue: seq<Command<V>>

    constructor ()
      ensures queue == []
    {
      queue := [];
    }

    /** `add_task`: append one command. */
    method AddTask(c: Command<V>)
      modifies this
      ensures queue == old(queue) + [c]
    {
      queue := queue + [c];
    }
  }

  /** Run every queued command, in order, against the cache. */
  method Run<V>(tasks: Tasks<V>, cache: Cache<V>)
    requires Runnable(tasks.queue)
    modifies cache
    ensures cache.store == ApplyAll(old(cache.store), tasks.queue)
  {
    var q := tasks.queue;
    for i := 0 to |q|
      invariant ApplyAll(cache.store, q[i..]) == ApplyAll(old(cache.store), q)
    {
      assert q[i..][1..] == q[i + 1..];
      match q[i]
      case Add(k, v) => cache.Add(k, v);
      case Delete(k) => cache.Delete(k);
      case CascadeDelete(p) => cache.CascadeDelete(p);
      case ExcelCascadeDelete(p) => cache.ExcelCascadeDelete(p);
      case MultiplyDelete(ks) => cache.MultiplyDelete(ks);
    }
  }
}
