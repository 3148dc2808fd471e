/** The priority ready queue (`PriorityTaskQueue`), used by the scheduler for
    ready tasks and by the mutex for waiting tasks. Its implementation is not
    part of this model; it is represented by its entries in arrival order, and
    `pop` takes the oldest entry of the highest priority present. */
module TaskQueue {
  import opened Tasks

  datatype Entry = Entry(prio: Priority, tid: TaskId)

  type Queue = seq<Entry>

  /** `push(prio, task)`: append behind every entry already queued. */
  function Push(q: Queue, prio: Priority, tid: TaskId): Queue
  {
    q + [Entry(prio, tid)]
  }

  /** No id is queued twice. */
  predicate DistinctTids(q: Queue)
  {
    forall i, j :: 0 <= i < j < |q| ==> q[i].tid != q[j].tid
  }

  predicate Queued(q: Queue, tid: TaskId)
  {
    exists e :: e in q && e.tid == tid
  }

  /** Index of the oldest entry among those of the highest priority. */
  function Head(q: Queue): (i: nat)
    requires q != []
    ensures i < |q|
    ensures forall j :: 0 <= j < |q| ==> q[j].prio <= q[i].prio
    ensures forall j :: 0 <= j < i ==> q[j].prio < q[i].prio
  {
    if |q| == 1 then 0
    else
      var k := 1 + Head(q[1..]);
      if q[0].prio >= q[k].prio then 0 else k
  }

  /** An entry taken out of a queue: where it was, what it was, and the queue without it. */
  datatype Popped = Popped(at: nat, entry: Entry, rest: Queue)

  /** `p` takes exactly the entry at `p.at` out of `q`, keeping the others in order. */
  predicate Removed(q: Queue, p: Popped)
  {
    p.at < |q| && q[p.at] == p.entry && p.rest == q[..p.at] + q[p.at + 1..]
  }

  /** The entry at `i` is the one the queue serves first: no entry outranks it
      and every older entry has a strictly lower priority. */
  predicate ServedFirst(q: Queue, i: nat)
    requires i < |q|
  {
    (forall j :: 0 <= j < |q| ==> q[j].prio <= q[i].prio) &&
    (forall j :: 0 <= j < i ==> q[j].prio < q[i].prio)
  }

  function Take(q: Queue, i: nat): Popped
    requires i < |q|
  {
    Popped(i, q[i], q[..i] + q[i + 1..])
  }

  /** `pop()`: the oldest task of the highest priority, or none when empty. */
  function Pop(q: Queue): (r: Option<Popped>)
    ensures r.None? <==> q == []
    ensures r.Some? ==> Removed(q, r.value) && ServedFirst(q, r.value.at)
  {
    if q == [] then None else Some(Take(q, Head(q)))
  }

  /** `pop_with_prio(min)`: as `pop`, but only a task whose priority is at least
      `min`; none when no queued task has such a priority. */
  function PopWithPrio(q: Queue, min: Priority): (r: Option<Popped>)
    ensures r.None? <==> forall j :: 0 <= j < |q| ==> q[j].prio < min
    ensures r.Some? ==> Removed(q, r.value) && ServedFirst(q, r.value.at) && r.value.entry.prio >= min
  {
    if q == [] then None
    else
      var i := Head(q);
      if q[i].prio >= min then Some(Take(q, i)) else None
  }

  /** Removing an entry keeps exactly the other entries. */
  lemma RemovedContents(q: Queue, p: Popped)
    requires Removed(q, p)
    ensures |p.rest| == |q| - 1
    ensures forall e :: e in p.rest ==> e in q
    ensures forall j :: 0 <= j < |q| && j != p.at ==> q[j] in p.rest
    ensures multiset(p.rest) + multiset{p.entry} == multiset(q)
  {
    var i := p.at;
    assert q == q[..i] + [q[i]] + q[i + 1..];
    forall j | 0 <= j < |q| && j != i
      ensures q[j] in p.rest
    {
      if j < i { assert p.rest[j] == q[j]; } else { assert p.rest[j - 1] == q[j]; }
    }
  }

  /** Removing an entry from a queue without duplicate ids keeps it duplicate-free
      and drops every occurrence of the removed id. */
  lemma RemovedDistinct(q: Queue, p: Popped)
    requires Removed(q, p) && DistinctTids(q)
    ensures DistinctTids(p.rest)
    ensures !Queued(p.rest, p.entry.tid)
    ensures forall t :: Queued(q, t) && t != p.entry.tid ==> Queued(p.rest, t)
  {
    var i := p.at;
    forall a, b | 0 <= a < b < |p.rest|
      ensures p.rest[a].tid != p.rest[b].tid
    {
      var a' := if a < i then a else a + 1;
      var b' := if b < i then b else b + 1;
      assert p.rest[a] == q[a'] && p.rest[b] == q[b'];
    }
    forall k | 0 <= k < |p.rest|
      ensures p.rest[k].tid != p.entry.tid
    {
      var k' := if k < i then k else k + 1;
      assert p.rest[k] == q[k'] && k' != i;
    }
    forall t | Queued(q, t) && t != p.entry.tid
      ensures Queued(p.rest, t)
    {
      var e :| e in q && e.tid == t;
      var k :| 0 <= k < |q| && q[k] == e;
      RemovedContents(q, p);
      assert q[k] in p.rest;
    }
  }

  /** Pushing an id that is not yet queued keeps the queue duplicate-free. */
  lemma PushDistinct(q: Queue, prio: Priority, tid: TaskId)
    requires DistinctTids(q) && !Queued(q, tid)
    ensures DistinctTids(Push(q, prio, tid))
    ensures forall t :: Queued(Push(q, prio, tid), t) <==> Queued(q, t) || t == tid
  {
    var r := Push(q, prio, tid);
    forall a, b | 0 <= a < b < |r|
      ensures r[a].tid != r[b].tid
    {
      if b == |q| { assert r[a] in q; }
    }
    forall t | Queued(r, t)
      ensures Queued(q, t) || t == tid
    {
      var e :| e in r && e.tid == t;
      assert e in q || e == Entry(prio, tid);
    }
    forall t | Queued(q, t)
      ensures Queued(r, t)
    {
      var e :| e in q && e.tid == t;
      assert e in r;
    }
    assert Entry(prio, tid) in r;
  }
}
