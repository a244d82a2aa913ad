/**
 The fair lock (fair_lock.h): its entry queue and entry pool as linked structures.

 A lock call that must wait takes an entry from the pool, links it at the rear and sleeps on it;
 it is therefore two methods, `Attempt` up to the sleep and `Resume` after it.  `woken` holds the
 entries whose condition variable was signalled and whose thread has not resumed yet: threads do
 not wake otherwise.
 */
module FairLock {

  /** The positions among the first `n` that are not marked weak, in order. */
  function StrongAt(weak: seq<bool>, n: nat): (at: seq<nat>)
    requires n <= |weak|
    ensures forall j :: 0 <= j < |at| ==> at[j] < n && !weak[at[j]]
    ensures |at| <= n
  {
    if n == 0 then [] else StrongAt(weak, n - 1) + if weak[n - 1] then [] else [n - 1]
  }

  lemma StrongAtGrows(weak: seq<bool>, n: nat)
    requires n < |weak|
    ensures |StrongAt(weak, n + 1)| == |StrongAt(weak, n)| + if weak[n] then 0 else 1
  {
  }

  lemma StrongAtSame(weak: seq<bool>, n: nat)
    requires n < |weak| && weak[n]
    ensures StrongAt(weak, n + 1) == StrongAt(weak, n)
  {
  }

  /** What is left of `q` without the elements marked weak, in order. */
  function Strong<T>(q: seq<T>, weak: seq<bool>): (s: seq<T>)
    requires |q| == |weak|
    ensures |s| <= |q|
  {
    var at := StrongAt(weak, |q|);
    seq(|at|, j requires 0 <= j < |at| => q[at[j]])
  }

  /** Order is kept and nothing strong is lost. */
  lemma {:induction false} StrongAtExact(weak: seq<bool>, n: nat)
    requires n <= |weak|
    ensures forall i, j :: 0 <= i < j < |StrongAt(weak, n)| ==> StrongAt(weak, n)[i] < StrongAt(weak, n)[j]
    ensures forall k :: 0 <= k < n && !weak[k] ==> k in StrongAt(weak, n)
  {
    if 0 < n {
      StrongAtExact(weak, n - 1);
    }
  }

  class Entry {
    var weak: bool
    var abandoned: bool
    var next: Entry?

    constructor ()
      ensures next == null
    {
      weak, abandoned, next := false, false, null;
    }
  }

  datatype Outcome = Acquired | Refused | MustWait

  class FairLock {
    var front: Entry?
    var rear: Entry?
    var pool: Entry?
    var acquired: bool
    var waiting: int
    var blockWeak: bool
    /** The entries linked from `front` and from `pool`, in order and as sets. */
    ghost var queue: seq<Entry>
    ghost var free: seq<Entry>
    ghost var queued: set<Entry>
    ghost var pooled: set<Entry>
    /** Entries signalled and not yet resumed. */
    ghost var woken: set<Entry>

    /** `q` lists distinct entries of `nodes`, each linked to the next. */
    static ghost predicate Linked(q: seq<Entry>, nodes: set<Entry>)
      reads nodes
    {
      && (forall i :: 0 <= i < |q| ==> q[i] in nodes)
      && (forall i :: 0 <= i < |q| - 1 ==> q[i].next == q[i + 1])
      && (q != [] ==> q[|q| - 1].next == null)
      && (forall i, j :: 0 <= i < j < |q| ==> q[i] != q[j])
    }

    ghost predicate Valid()
      reads this, queued, pooled
    {
      && Linked(queue, queued)
      && Linked(free, pooled)
      && queued !! pooled
      && front == (if queue == [] then null else queue[0])
      && rear == (if queue == [] then null else queue[|queue| - 1])
      && pool == (if free == [] then null else free[0])
    }

    /** Which queued requests are weak. */
    ghost predicate Marks(weak: seq<bool>)
      reads this, queue
    {
      |weak| == |queue| && forall i :: 0 <= i < |queue| ==> queue[i].weak == weak[i]
    }

    /** `fair_lock_init` */
    constructor ()
      ensures Valid() && queue == [] && free == [] && woken == {}
      ensures !acquired && waiting == 0 && !blockWeak
    {
      front, rear, pool := null, null, null;
      acquired, waiting, blockWeak := false, 0, false;
      queue, free, woken, queued, pooled := [], [], {}, {}, {};
    }

    /** Takes an entry off the pool, into which a new one goes first when it is empty. */
    method TakeEntry() returns (e: Entry)
      requires Valid()
      modifies this`pool, this`free, this`pooled
      ensures Valid() && e !in queued && e !in pooled && pooled <= old(pooled)
      ensures old(free) == [] ==> free == [] && fresh(e)
      ensures old(free) != [] ==> [e] + free == old(free) && e in old(pooled)
    {
      if pool == null {
        e := new Entry();
      } else {
        e := pool;
        pool := e.next;
        free, pooled := free[1..], pooled - {e};
      }
    }

    /** `enqueue_cond_queue_entry`, where the allocation succeeds. */
    method EnqueueEntry(weak: bool) returns (e: Entry)
      requires Valid()
      modifies this`front, this`rear, this`pool, this`queue, this`free, this`queued, this`pooled, queued`next, pooled
      ensures Valid()
      ensures queue == old(queue) + [e] && e.weak == weak && !e.abandoned
      ensures old(free) != [] ==> [e] + free == old(free)
      ensures old(free) == [] ==> free == []
      ensures queued == old(queued) + {e} && pooled <= old(pooled) && (e in old(pooled) || fresh(e))
    {
      e := TakeEntry();
      e.weak := weak;
      e.abandoned := false;
      e.next := null;
      LinkLast(e);
    }

    /** Its end: the entry is linked behind the others. */
    method LinkLast(e: Entry)
      requires Valid() && e !in queued && e !in pooled && e.next == null
      modifies this`front, this`rear, this`queue, this`queued, queued`next
      ensures Valid() && queue == old(queue) + [e] && queued == old(queued) + {e} && e.next == null
    {
      var head := front;
      if front != null {
        rear.next := e;
      } else {
        head := e;
      }
      queued := queued + {e};
      Relink(head, e, queue + [e]);
    }

    /** `dequeue_cond_queue_entry` */
    method DequeueEntry() returns (e: Entry?)
      requires Valid()
      modifies this`front, this`rear, this`queue, this`queued
      ensures Valid()
      ensures old(queue) == [] ==> e == null && queue == []
      ensures old(queue) != [] ==> e != null && [e] + queue == old(queue)
      ensures queued <= old(queued) && (e != null ==> e !in queued)
    {
      if front == null {
        return null;
      }
      e := front;
      assert [e] + queue[1..] == queue;
      if e == rear {
        rear := null;
      }
      front := e.next;
      queue := queue[1..];
      queued := queued - {e};
    }

    /** `release_cond_queue_entry` */
    method ReleaseEntry(e: Entry)
      requires Valid() && e !in queued && e !in pooled
      modifies this`pool, this`free, this`pooled, e`next
      ensures Valid() && free == [e] + old(free) && pooled == old(pooled) + {e}
    {
      e.next := pool;
      pool := e;
      free := [e] + free;
      pooled := pooled + {e};
    }

    /**
     What `abandone_weak_locks` knows on reaching the entry numbered `i`: the strong entries passed are linked up
     to here, the weak ones are marked and no others, and `was` tells which were marked before.
     */
    static ghost predicate Scanned(q: seq<Entry>, nodes: set<Entry>, weak: seq<bool>, was: seq<bool>, i: nat,
                                   current: Entry?, firstStrong: Entry?, lastStrong: Entry?)
      reads nodes
    {
      && Listed(q, nodes, weak) && Marked(q, nodes, weak, was, i)
      && Ahead(q, Links(q), i, current) && Behind(q, Links(q), weak, i, current, firstStrong, lastStrong)
    }

    /** The weak entries passed are marked, besides those that were. */
    static ghost predicate Marked(q: seq<Entry>, nodes: set<Entry>, weak: seq<bool>, was: seq<bool>, i: nat)
      reads nodes`abandoned
    {
      && |q| == |weak| == |was| && i <= |q| && (forall j :: 0 <= j < |q| ==> q[j] in nodes)
      && forall j :: 0 <= j < |q| ==> q[j].abandoned == (was[j] || (j < i && weak[j]))
    }

    /** Where the entries are linked to. */
    static ghost function Links(q: seq<Entry>): (r: seq<Entry?>)
      reads q`next
      ensures |r| == |q| && forall j :: 0 <= j < |q| ==> r[j] == q[j].next
    {
      if q == [] then [] else Links(q[..|q| - 1]) + [q[|q| - 1].next]
    }

    /** The entries from `i` on are linked as they were. */
    static ghost predicate Ahead(q: seq<Entry>, links: seq<Entry?>, i: nat, current: Entry?) {
      && |links| == |q| && i <= |q| && current == (if i < |q| then q[i] else null)
      && forall j :: i <= j < |q| ==> links[j] == if j + 1 < |q| then q[j + 1] else null
    }

    /** The strong entries before `i` are linked, the last of them to the current one. */
    static ghost predicate Behind(q: seq<Entry>, links: seq<Entry?>, weak: seq<bool>, i: nat, current: Entry?,
                                  firstStrong: Entry?, lastStrong: Entry?) {
      && |links| == |q| == |weak| && i <= |q|
      && var at := StrongAt(weak, i);
      && firstStrong == (if at == [] then null else q[at[0]])
      && lastStrong == (if at == [] then null else q[at[|at| - 1]])
      && (forall j, k :: 0 <= j && k == j + 1 && k < |at| ==> links[at[j]] == q[at[k]])
      && (at != [] ==> links[at[|at| - 1]] == current)
    }

    /** `q` lists distinct entries of `nodes`, of which `weak` marks the weak ones. */
    static ghost predicate Listed(q: seq<Entry>, nodes: set<Entry>, weak: seq<bool>)
      reads nodes
    {
      && |q| == |weak|
      && (forall j :: 0 <= j < |q| ==> q[j] in nodes)
      && (forall j, k :: 0 <= j < k < |q| ==> q[j] != q[k])
      && (forall j :: 0 <= j < |q| ==> q[j].weak == weak[j])
    }

    /** The weak ones among the first `n` entries. */
    static ghost function WeakOnes(q: seq<Entry>, weak: seq<bool>, n: nat): (r: set<Entry>)
      requires n <= |q| == |weak|
    {
      set j | 0 <= j < n && weak[j] :: q[j]
    }

    static lemma WeakOnesGrow(q: seq<Entry>, weak: seq<bool>, n: nat)
      requires n < |q| == |weak|
      ensures WeakOnes(q, weak, n + 1) == WeakOnes(q, weak, n) + if weak[n] then {q[n]} else {}
    {
    }

    /** The body of the loop of `abandone_weak_locks`. */
    method VisitEntry(ghost q: seq<Entry>, ghost nodes: set<Entry>, ghost weak: seq<bool>, ghost was: seq<bool>,
                      ghost i: nat, current: Entry, firstStrong: Entry?, lastStrong: Entry?)
      returns (current': Entry?, firstStrong': Entry?, lastStrong': Entry?)
      requires Scanned(q, nodes, weak, was, i, current, firstStrong, lastStrong)
      modifies nodes`next, nodes`abandoned, this`waiting, this`woken
      ensures Scanned(q, nodes, weak, was, i + 1, current', firstStrong', lastStrong')
      ensures waiting == old(waiting) - if weak[i] then 1 else 0
      ensures woken == old(woken) + if weak[i] then {q[i]} else {}
    {
      hide Marked, Behind, StrongAt;
      CurrentIs(q, nodes, weak, i, current);
      firstStrong', lastStrong' := firstStrong, lastStrong;
      if current.weak {
        UnlinkEntry(q, nodes, weak, was, i, current, firstStrong, lastStrong);
        waiting := waiting - 1;
        woken := woken + {current};
      } else {
        StrongScanned(q, nodes, weak, was, i, current, firstStrong, lastStrong);
        if firstStrong == null {
          firstStrong' := current;
        }
        lastStrong' := current;
      }
      current' := current.next;
    }

    /** A weak entry: the strong one before it, if any, is linked past it, and it is marked. */
    method UnlinkEntry(ghost q: seq<Entry>, ghost nodes: set<Entry>, ghost weak: seq<bool>, ghost was: seq<bool>,
                       ghost i: nat, current: Entry, ghost firstStrong: Entry?, lastStrong: Entry?)
      requires Scanned(q, nodes, weak, was, i, current, firstStrong, lastStrong) && current.weak
      modifies nodes`next, nodes`abandoned
      ensures Scanned(q, nodes, weak, was, i + 1, current.next, firstStrong, lastStrong)
    {
      hide StrongAt, Marked, Ahead, Behind;
      CurrentIs(q, nodes, weak, i, current);
      PassWeak(q, nodes, weak, i, current, firstStrong, lastStrong);
      MarkWeak(q, nodes, weak, was, i, current);
    }

    static lemma CurrentIs(q: seq<Entry>, nodes: set<Entry>, weak: seq<bool>, i: nat, current: Entry)
      requires Listed(q, nodes, weak) && Ahead(q, Links(q), i, current)
      ensures i < |q| == |weak| && q[i] == current && current in nodes && weak[i] == current.weak
    {
    }

    /** Its link. */
    static method PassWeak(ghost q: seq<Entry>, ghost nodes: set<Entry>, ghost weak: seq<bool>, ghost i: nat,
                           current: Entry, ghost firstStrong: Entry?, lastStrong: Entry?)
      requires Listed(q, nodes, weak) && i < |q| && q[i] == current && weak[i]
      requires Ahead(q, Links(q), i, current) && Behind(q, Links(q), weak, i, current, firstStrong, lastStrong)
      modifies nodes`next
      ensures current.next == old(current.next)
      ensures Ahead(q, Links(q), i + 1, current.next) && Behind(q, Links(q), weak, i + 1, current.next, firstStrong, lastStrong)
    {
      hide StrongAt, Ahead, Behind;
      ghost var links := Links(q);
      ghost var p := Passed(q, links, weak, i, current, firstStrong, lastStrong);
      if lastStrong != null {
        lastStrong.next := current.next;
        assert Links(q) == links[p := links[i]];
      } else {
        assert Links(q) == links;
      }
    }

    /** On values: linking the last strong entry, at `p`, past the current one. */
    static lemma Passed(q: seq<Entry>, links: seq<Entry?>, weak: seq<bool>, i: nat, current: Entry,
                        firstStrong: Entry?, lastStrong: Entry?) returns (p: nat)
      requires Ahead(q, links, i, current) && Behind(q, links, weak, i, current, firstStrong, lastStrong) && i < |q| && weak[i]
      ensures |links| == |q| && (lastStrong != null ==> p < i && q[p] == lastStrong)
      ensures var links' := if lastStrong != null && p < |q| then links[p := links[i]] else links;
        Ahead(q, links', i + 1, links[i]) && Behind(q, links', weak, i + 1, links[i], firstStrong, lastStrong)
    {
      hide StrongAt;
      var at := StrongAt(weak, i);
      StrongAtExact(weak, i);
      StrongAtSame(weak, i);
      p := if at == [] then 0 else at[|at| - 1];
    }

    /** Its mark. */
    static method MarkWeak(ghost q: seq<Entry>, ghost nodes: set<Entry>, ghost weak: seq<bool>, ghost was: seq<bool>,
                           ghost i: nat, current: Entry)
      requires Listed(q, nodes, weak) && Marked(q, nodes, weak, was, i) && i < |q| && q[i] == current && weak[i]
      modifies nodes`abandoned
      ensures Marked(q, nodes, weak, was, i + 1)
    {
      current.abandoned := true;
    }

    /** A strong entry stays linked. */
    static lemma StrongScanned(q: seq<Entry>, nodes: set<Entry>, weak: seq<bool>, was: seq<bool>, i: nat,
                               current: Entry, firstStrong: Entry?, lastStrong: Entry?)
      requires Scanned(q, nodes, weak, was, i, current, firstStrong, lastStrong) && !current.weak
      ensures Scanned(q, nodes, weak, was, i + 1, current.next, if firstStrong == null then current else firstStrong, current)
    {
      hide Marked, Ahead, Behind, StrongAt;
      CurrentIs(q, nodes, weak, i, current);
      StrongAhead(q, Links(q), i, current);
      StrongBehind(q, Links(q), weak, i, current, firstStrong, lastStrong);
      StrongMarked(q, nodes, weak, was, i);
    }

    static lemma StrongAhead(q: seq<Entry>, links: seq<Entry?>, i: nat, current: Entry)
      requires Ahead(q, links, i, current)
      ensures i < |q| == |links| && Ahead(q, links, i + 1, links[i])
    {
    }

    static lemma StrongMarked(q: seq<Entry>, nodes: set<Entry>, weak: seq<bool>, was: seq<bool>, i: nat)
      requires Marked(q, nodes, weak, was, i) && i < |q| && !weak[i]
      ensures Marked(q, nodes, weak, was, i + 1)
    {
      assert forall j :: 0 <= j < |q| ==> (j < i && weak[j] <==> j < i + 1 && weak[j]);
    }

    static lemma StrongBehind(q: seq<Entry>, links: seq<Entry?>, weak: seq<bool>, i: nat, current: Entry,
                              firstStrong: Entry?, lastStrong: Entry?)
      requires Behind(q, links, weak, i, current, firstStrong, lastStrong) && i < |q| && q[i] == current && !weak[i]
      ensures |links| == |q|
      ensures Behind(q, links, weak, i + 1, links[i], if firstStrong == null then current else firstStrong, current)
    {
      assert StrongAt(weak, i + 1) == StrongAt(weak, i) + [i];
    }

    static lemma ScanPlace(q: seq<Entry>, nodes: set<Entry>, weak: seq<bool>, was: seq<bool>, i: nat,
                    current: Entry?, firstStrong: Entry?, lastStrong: Entry?)
      requires Scanned(q, nodes, weak, was, i, current, firstStrong, lastStrong)
      ensures |q| == |weak| && i <= |q| && (current == null <==> i == |q|)
    {
    }

    /** The loop of `abandone_weak_locks`: one pass that unlinks every weak entry and signals it. */
    method ScanEntries(ghost q: seq<Entry>, ghost nodes: set<Entry>, ghost weak: seq<bool>, ghost was: seq<bool>)
      returns (firstStrong: Entry?, lastStrong: Entry?)
      requires |q| == |weak| && Scanned(q, nodes, weak, was, 0, front, null, null)
      modifies this`waiting, this`woken, nodes`next, nodes`abandoned
      ensures Scanned(q, nodes, weak, was, |q|, null, firstStrong, lastStrong)
      ensures waiting == old(waiting) - (|q| - |StrongAt(weak, |q|)|) && woken == old(woken) + WeakOnes(q, weak, |q|)
    {
      hide Scanned, WeakOnes, StrongAt;
      var current := front;
      firstStrong, lastStrong := null, null;
      ghost var i := 0;
      ScanPlace(q, nodes, weak, was, i, current, firstStrong, lastStrong);
      NoneWeak(q, weak);
      while current != null
        invariant Scanned(q, nodes, weak, was, i, current, firstStrong, lastStrong)
        invariant i <= |q| && (current == null <==> i == |q|)
        invariant waiting == old(waiting) - (i - |StrongAt(weak, i)|) && woken == old(woken) + WeakOnes(q, weak, i)
        decreases |q| - i
      {
        WeakOnesGrow(q, weak, i);
        StrongAtGrows(weak, i);
        current, firstStrong, lastStrong := VisitEntry(q, nodes, weak, was, i, current, firstStrong, lastStrong);
        i := i + 1;
        ScanPlace(q, nodes, weak, was, i, current, firstStrong, lastStrong);
      }
    }

    static lemma NoneWeak(q: seq<Entry>, weak: seq<bool>)
      requires |q| == |weak|
      ensures WeakOnes(q, weak, 0) == {} && StrongAt(weak, 0) == []
    {
    }

    lemma ScanStart(weak: seq<bool>, was: seq<bool>)
      requires Valid() && Marks(weak) && |was| == |queue| && forall i :: 0 <= i < |was| ==> was[i] == queue[i].abandoned
      ensures Scanned(queue, queued, weak, was, 0, front, null, null)
    {
    }

    lemma ScanDone(q: seq<Entry>, nodes: set<Entry>, weak: seq<bool>, was: seq<bool>, firstStrong: Entry?, lastStrong: Entry?)
      requires |q| == |weak| && Scanned(q, nodes, weak, was, |q|, null, firstStrong, lastStrong)
      ensures var s := Strong(q, weak);
        && Linked(s, nodes - WeakOnes(q, weak, |q|))
        && firstStrong == (if s == [] then null else s[0])
        && lastStrong == (if s == [] then null else s[|s| - 1])
      ensures |Strong(q, weak)| == |StrongAt(weak, |q|)|
      ensures forall i :: 0 <= i < |q| ==> i < |was| && q[i].abandoned == (weak[i] || was[i])
    {
      hide WeakOnes, Ahead;
      StrongAreOthers(q, weak);
      StrongLinked(q, nodes, weak, firstStrong, lastStrong);
    }

    static lemma StrongLinked(q: seq<Entry>, nodes: set<Entry>, weak: seq<bool>, firstStrong: Entry?, lastStrong: Entry?)
      requires Listed(q, nodes, weak) && Behind(q, Links(q), weak, |q|, null, firstStrong, lastStrong)
      ensures Linked(Strong(q, weak), nodes)
    {
      StrongAtExact(weak, |q|);
    }

    static lemma StrongAreOthers(q: seq<Entry>, weak: seq<bool>)
      requires |q| == |weak| && forall j, k :: 0 <= j < k < |q| ==> q[j] != q[k]
      ensures forall i :: 0 <= i < |Strong(q, weak)| ==> Strong(q, weak)[i] !in WeakOnes(q, weak, |q|)
    {
    }

    /** `abandone_weak_locks` */
    method AbandonWeakLocks(ghost weak: seq<bool>)
      requires Valid() && Marks(weak)
      modifies this`front, this`rear, this`waiting, this`queue, this`queued, this`woken, queued`next, queued`abandoned
      ensures Valid()
      ensures queue == Strong(old(queue), weak)
      ensures waiting == old(waiting) - (|old(queue)| - |queue|) && queued == old(queued) - WeakOnes(old(queue), weak, |weak|)
      ensures woken == old(woken) + WeakOnes(old(queue), weak, |weak|)
      ensures forall i :: 0 <= i < |weak| ==> old(queue)[i].abandoned == (weak[i] || old(queue[i].abandoned))
    {
      hide Scanned, WeakOnes, Strong, StrongAt;
      ghost var q, nodes := queue, queued;
      ghost var was := seq(|q|, i requires 0 <= i < |q| reads q => q[i].abandoned);
      ScanStart(weak, was);
      var first, last := ScanEntries(q, nodes, weak, was);
      ScanDone(q, nodes, weak, was, first, last);
      queued := nodes - WeakOnes(q, weak, |q|);
      Relink(first, last, Strong(q, weak));
    }

    /** Sets the ends of the entry queue. */
    method Relink(first: Entry?, last: Entry?, ghost kept: seq<Entry>)
      requires Linked(kept, queued) && Linked(free, pooled) && queued !! pooled
      requires first == (if kept == [] then null else kept[0])
      requires last == (if kept == [] then null else kept[|kept| - 1])
      requires pool == (if free == [] then null else free[0])
      modifies this`front, this`rear, this`queue
      ensures Valid() && queue == kept
    {
      front, rear, queue := first, last, kept;
    }

    /** `_fair_lock_lock` up to `pthread_cond_wait`; on `MustWait` the caller sleeps on `e`. */
    method Attempt(weak: bool) returns (outcome: Outcome, e: Entry?)
      requires Valid()
      modifies this`front, this`rear, this`pool, this`queue, this`free, this`queued, this`pooled
      modifies this`acquired, this`waiting, queued`next, pooled
      ensures Valid()
      ensures outcome == if weak && old(blockWeak) then Refused
                         else if old(acquired) || old(waiting) > 0 then MustWait else Acquired
      ensures outcome == MustWait ==> e != null && queue == old(queue) + [e] && e.weak == weak && !e.abandoned
      ensures outcome == MustWait ==> queued == old(queued) + {e} && pooled <= old(pooled) && (e in old(pooled) || fresh(e))
      ensures outcome != MustWait ==> queue == old(queue) && free == old(free) && queued == old(queued) && pooled == old(pooled)
      ensures acquired == (old(acquired) || outcome == Acquired)
      ensures waiting == old(waiting) + if outcome == MustWait then 1 else 0
    {
      if weak && blockWeak {
        return Refused, null;
      }
      if acquired || waiting > 0 {
        waiting := waiting + 1;
        e := EnqueueEntry(weak);
        return MustWait, e;
      }
      acquired := true;
      return Acquired, null;
    }

    /** `_fair_lock_lock` after its entry was signalled. */
    method Resume(e: Entry) returns (granted: bool)
      requires Valid() && e in woken && e !in queued && e !in pooled
      modifies this`pool, this`free, this`pooled, this`acquired, this`waiting, this`woken, e`next
      ensures Valid() && queue == old(queue) && free == [e] + old(free) && woken == old(woken) - {e}
      ensures pooled == old(pooled) + {e}
      ensures granted == !e.abandoned
      ensures acquired == (old(acquired) || granted)
      ensures waiting == old(waiting) - if granted then 1 else 0
    {
      woken := woken - {e};
      ReleaseEntry(e);
      if e.abandoned {
        return false;
      }
      waiting := waiting - 1;
      acquired := true;
      return true;
    }

    /** `fair_lock_unlock` */
    method Unlock()
      requires Valid()
      modifies this`front, this`rear, this`queue, this`queued, this`acquired, this`woken
      ensures Valid() && !acquired
      ensures old(queue) == [] ==> queue == [] && woken == old(woken)
      ensures old(queue) != [] ==> queue == old(queue)[1..] && woken == old(woken) + {old(queue)[0]}
      ensures queued <= old(queued) && (old(queue) != [] ==> old(queue)[0] !in queued)
    {
      var e := DequeueEntry();
      if e != null {
        woken := woken + {e};
      }
      acquired := false;
    }

    /** `fair_lock_block_weak_locks` */
    method BlockWeakLocks(ghost weak: seq<bool>)
      requires Valid() && Marks(weak)
      modifies this`front, this`rear, this`waiting, this`queue, this`queued, this`woken, this`blockWeak, queued`next, queued`abandoned
      ensures Valid() && blockWeak
      ensures queue == Strong(old(queue), weak)
      ensures waiting == old(waiting) - (|old(queue)| - |queue|) && queued == old(queued) - WeakOnes(old(queue), weak, |weak|)
      ensures woken == old(woken) + WeakOnes(old(queue), weak, |weak|)
      ensures forall i :: 0 <= i < |weak| ==> old(queue)[i].abandoned == (weak[i] || old(queue[i].abandoned))
    {
      hide WeakOnes, Strong, Linked;
      blockWeak := true;
      AbandonWeakLocks(weak);
    }

    /** `fair_lock_allow_weak_locks` */
    method AllowWeakLocks()
      modifies this`blockWeak
      ensures !blockWeak
    {
      blockWeak := false;
    }
  }
}
