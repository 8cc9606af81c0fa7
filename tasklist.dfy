/** The task lists of the scheduler as sequences of TCB references, head
    first: the prioritised ready-to-run list and the blocked lists.

    Each quantified clause of the list invariants is stated through a
    named predicate of its bound variables (Ordered, Distinct, ReadyEntry,
    ...), which is then the clause's trigger: the clause is instantiated
    only where a proof names that predicate, and the scheduler's methods
    use the invariant through the lemmas of this module. */
module TaskList {
  import opened Task

  /** Entry i of `q` has at least the priority of entry j. */
  predicate Ordered(q: seq<Tcb>, i: int, j: int)
    requires 0 <= i < |q| && 0 <= j < |q|
  {
    q[i].priority >= q[j].priority
  }

  /** Ordered by priority, highest first. */
  predicate Sorted(q: seq<Tcb>)
  {
    forall i, j :: 0 <= i < j < |q| ==> Ordered(q, i, j)
  }

  /** Entries i and j of `q` are different TCBs. */
  predicate Distinct(q: seq<Tcb>, i: int, j: int)
    requires 0 <= i < |q| && 0 <= j < |q|
  {
    q[i] != q[j]
  }

  /** A TCB is linked into a list at most once. */
  predicate NoDup(q: seq<Tcb>)
  {
    forall i, j :: 0 <= i < j < |q| ==> Distinct(q, i, j)
  }

  /** The list `q` with `t` linked in at position `k`. */
  function InsertAt(q: seq<Tcb>, k: nat, t: Tcb): (r: seq<Tcb>)
    requires k <= |q|
    ensures |r| == |q| + 1 && r[k] == t
    ensures forall i :: 0 <= i < k ==> r[i] == q[i]
    ensures forall i :: k < i < |r| ==> r[i] == q[i - 1]
  {
    q[..k] + [t] + q[k..]
  }

  /** Where the prioritised insertion links `t` in: in front of the first
      entry whose priority is strictly lower. Every entry before that point
      has at least the priority of `t`. */
  function InsertionPoint(q: seq<Tcb>, t: Tcb): (k: nat)
    ensures k <= |q|
    ensures forall j :: 0 <= j < k ==> q[j].priority >= t.priority
    ensures k < |q| ==> q[k].priority < t.priority
  {
    if q == [] || q[0].priority < t.priority then 0 else 1 + InsertionPoint(q[1..], t)
  }

  /** Unlinking `t` from a list (dq_rem): the first occurrence goes, the
      others keep their order. */
  function Remove(q: seq<Tcb>, t: Tcb): (r: seq<Tcb>)
    ensures |r| == if t in q then |q| - 1 else |q|
    ensures forall x :: x in r ==> x in q
    ensures t !in q ==> r == q
  {
    if q == [] then []
    else if q[0] == t then q[1..]
    else [q[0]] + Remove(q[1..], t)
  }

  /** Linking a task in at the insertion point keeps the list sorted. */
  lemma InsertionKeepsSorted(q: seq<Tcb>, t: Tcb)
    requires Sorted(q)
    ensures Sorted(InsertAt(q, InsertionPoint(q, t), t))
  {
    var k := InsertionPoint(q, t);
    var r := InsertAt(q, k, t);
    forall i, j | 0 <= i < j < |r| ensures Ordered(r, i, j) {
      if j < k {
        assert Ordered(q, i, j);
      } else if j == k {
        assert r[i] == q[i];
      } else if i < k {
        assert r[i] == q[i] && r[j] == q[j - 1];
        if i < j - 1 {
          assert Ordered(q, i, j - 1);
        }
      } else if i == k {
        assert r[j] == q[j - 1];
        if k < j - 1 {
          assert Ordered(q, k, j - 1);
        }
      } else {
        assert r[i] == q[i - 1] && r[j] == q[j - 1];
        assert Ordered(q, i - 1, j - 1);
      }
    }
  }

  /** Linking a task in adds it and keeps every other entry. */
  lemma InsertMembers(q: seq<Tcb>, k: nat, t: Tcb)
    requires k <= |q|
    ensures forall x :: x in InsertAt(q, k, t) <==> x in q || x == t
    ensures multiset(InsertAt(q, k, t)) == multiset(q) + multiset{t}
  {
    assert q == q[..k] + q[k..];
  }

  /** A task not yet in the list is linked in once. */
  lemma InsertNoDup(q: seq<Tcb>, k: nat, t: Tcb)
    requires k <= |q| && NoDup(q) && t !in q
    ensures NoDup(InsertAt(q, k, t))
  {
    var r := InsertAt(q, k, t);
    forall i, j | 0 <= i < j < |r| ensures Distinct(r, i, j) {
      if i == k {
        assert r[j] == q[j - 1];
      } else if j == k {
        assert r[i] == q[i];
      } else if j < k {
        assert Distinct(q, i, j);
      } else if i < k {
        assert r[i] == q[i] && r[j] == q[j - 1];
        assert Distinct(q, i, j - 1);
      } else {
        assert r[i] == q[i - 1] && r[j] == q[j - 1];
        assert Distinct(q, i - 1, j - 1);
      }
    }
  }

  /** The head of the list changes exactly when the new task is linked in
      at the front, and then the new head is that task. */
  lemma InsertHead(q: seq<Tcb>, k: nat, t: Tcb)
    requires 0 < |q| && k <= |q| && t !in q
    ensures InsertAt(q, k, t)[0] != q[0] <==> k == 0
    ensures InsertAt(q, k, t)[0] != q[0] <==> InsertAt(q, k, t)[0] == t
  {
  }

  /** In a sorted list a task of strictly higher priority than the head
      always becomes the head, and one of strictly lower priority never
      does. What happens between equal priorities is left open. */
  lemma SortedInsertHead(q: seq<Tcb>, k: nat, t: Tcb)
    requires 0 < |q| && k <= |q| && Sorted(InsertAt(q, k, t))
    ensures t.priority > q[0].priority ==> k == 0
    ensures t.priority < q[0].priority ==> k != 0
  {
    var r := InsertAt(q, k, t);
    if k != 0 {
      assert Ordered(r, 0, k);
    } else {
      assert Ordered(r, 0, 1);
    }
  }

  /** The tail of a list without duplicates has none, and does not hold
      the head. */
  lemma NoDupTail(q: seq<Tcb>)
    requires 0 < |q| && NoDup(q)
    ensures NoDup(q[1..]) && q[0] !in q[1..]
  {
    forall i, j | 0 <= i < j < |q[1..]| ensures Distinct(q[1..], i, j) {
      assert Distinct(q, i + 1, j + 1);
    }
    forall i | 0 <= i < |q[1..]| ensures q[1..][i] != q[0] {
      assert Distinct(q, 0, i + 1);
    }
  }

  /** In a list without duplicates, unlinking removes exactly `t`. */
  lemma {:induction false} RemoveMembers(q: seq<Tcb>, t: Tcb)
    requires NoDup(q)
    ensures NoDup(Remove(q, t))
    ensures forall x :: x in Remove(q, t) <==> x in q && x != t
  {
    if q != [] {
      NoDupTail(q);
      if q[0] != t {
        RemoveMembers(q[1..], t);
        var r := Remove(q, t);
        var r' := Remove(q[1..], t);
        assert r == [q[0]] + r';
        forall i, j | 0 <= i < j < |r| ensures Distinct(r, i, j) {
          if i == 0 {
            assert r[j] in r';
          } else {
            assert Distinct(r', i - 1, j - 1);
          }
        }
      }
    }
  }

  /** Unlinking is the inverse of linking in: a task linked in anywhere and
      unlinked again leaves the list as it was. */
  lemma {:induction false} RemoveInsertAt(q: seq<Tcb>, k: nat, t: Tcb)
    requires k <= |q| && t !in q
    ensures Remove(InsertAt(q, k, t), t) == q
  {
    if k == 0 {
      assert InsertAt(q, 0, t) == [t] + q;
    } else {
      assert InsertAt(q, k, t) == [q[0]] + InsertAt(q[1..], k - 1, t);
      RemoveInsertAt(q[1..], k - 1, t);
    }
  }

  /** Entry i of the ready-to-run list is a task the kernel knows, in
      state Running at the head and ReadyToRun behind it. */
  ghost predicate ReadyEntry(ready: seq<Tcb>, st: map<Tcb, TaskState>, i: int)
    requires 0 <= i < |ready|
  {
    ready[i] in st && st[ready[i]] == if i == 0 then Running else ReadyToRun
  }

  /** If `t` is in state Running or ReadyToRun it is in the ready-to-run
      list. */
  ghost predicate ReadyListed(ready: seq<Tcb>, st: map<Tcb, TaskState>, t: Tcb)
    requires t in st
  {
    st[t] == Running || st[t] == ReadyToRun ==> t in ready
  }

  /** The invariant of the ready-to-run list, on the state of every task
      the kernel knows (`st`): not empty, sorted, free of duplicates; its
      head is in state Running, the rest are ReadyToRun, and every task in
      one of those two states is in it. */
  ghost predicate ReadyWf(ready: seq<Tcb>, st: map<Tcb, TaskState>)
  {
    && 0 < |ready| && Sorted(ready) && NoDup(ready)
    && ready[0] in st && st[ready[0]] == Running
    && (forall i :: 0 <= i < |ready| ==> ReadyEntry(ready, st, i))
    && (forall t {:trigger ReadyListed(ready, st, t)} :: t in st ==> ReadyListed(ready, st, t))
  }

  /** If `t` is in the list of state `s`, it is a task the kernel knows
      and its state is `s`. */
  ghost predicate BlockedEntry(blocked: map<TaskState, seq<Tcb>>, st: map<Tcb, TaskState>,
                               s: TaskState, t: Tcb)
    requires s in blocked
  {
    t in blocked[s] ==> t in st && st[t] == s
  }

  /** If `t` is in a blocked state it is in the list of that state. */
  ghost predicate BlockedListed(blocked: map<TaskState, seq<Tcb>>, st: map<Tcb, TaskState>, t: Tcb)
    requires t in st
  {
    IsBlocked(st[t]) ==> st[t] in blocked && t in blocked[st[t]]
  }

  /** The invariant of the blocked lists: each blocked state has a list,
      free of duplicates and holding exactly the tasks in that state. */
  ghost predicate BlockedWf(blocked: map<TaskState, seq<Tcb>>, st: map<Tcb, TaskState>)
  {
    && (forall s :: s in blocked <==> IsBlocked(s))
    && (forall s :: s in blocked ==> NoDup(blocked[s]))
    && (forall s, t {:trigger BlockedEntry(blocked, st, s, t)} ::
          s in blocked && t in blocked[s] ==> BlockedEntry(blocked, st, s, t))
    && (forall t {:trigger BlockedListed(blocked, st, t)} :: t in st ==> BlockedListed(blocked, st, t))
  }

  /** The invariant of all task lists together. */
  ghost predicate Wf(ready: seq<Tcb>, blocked: map<TaskState, seq<Tcb>>, st: map<Tcb, TaskState>)
  {
    ReadyWf(ready, st) && BlockedWf(blocked, st)
  }

  /** The lists of a kernel whose only task is the idle task, running,
      with every blocked list empty. */
  lemma InitialWf(idle: Tcb, blocked: map<TaskState, seq<Tcb>>)
    requires forall s :: s in blocked <==> IsBlocked(s)
    requires forall s :: s in blocked ==> blocked[s] == []
    ensures Wf([idle], blocked, map[idle := Running])
  {
  }

  /** Moving a task between two states that have no blocked list leaves
      the blocked lists consistent. */
  lemma BlockedWfUnblockedUpdate(blocked: map<TaskState, seq<Tcb>>, st: map<Tcb, TaskState>,
                                 u: Tcb, v: TaskState)
    requires BlockedWf(blocked, st) && u in st && !IsBlocked(st[u]) && !IsBlocked(v)
    ensures BlockedWf(blocked, st[u := v])
  {
    var st' := st[u := v];
    forall s, t | s in blocked && t in blocked[s] ensures BlockedEntry(blocked, st', s, t) {
      assert BlockedEntry(blocked, st, s, t);
    }
    forall t | t in st' ensures BlockedListed(blocked, st', t) {
      assert BlockedListed(blocked, st, t);
    }
  }

  /** Exactly one task is running, the head of the ready-to-run list. */
  lemma RunningIsHead(ready: seq<Tcb>, blocked: map<TaskState, seq<Tcb>>, st: map<Tcb, TaskState>)
    requires Wf(ready, blocked, st)
    ensures forall t :: t in st ==> (st[t] == Running <==> t == ready[0])
  {
    forall t | t in st && st[t] == Running ensures t == ready[0] {
      assert ReadyListed(ready, st, t);
      var i :| 0 <= i < |ready| && ready[i] == t;
      assert ReadyEntry(ready, st, i);
    }
  }

  /** A task is in at most one list. */
  lemma OneListEach(ready: seq<Tcb>, blocked: map<TaskState, seq<Tcb>>, st: map<Tcb, TaskState>,
                    t: Tcb, s: TaskState)
    requires Wf(ready, blocked, st) && s in blocked && t in blocked[s]
    ensures t !in ready
    ensures forall s' :: s' in blocked && s' != s ==> t !in blocked[s']
  {
    assert BlockedEntry(blocked, st, s, t);
    forall i | 0 <= i < |ready| ensures ready[i] != t {
      assert ReadyEntry(ready, st, i);
    }
    forall s' | s' in blocked && s' != s ensures t !in blocked[s'] {
      assert BlockedEntry(blocked, st, s', t);
    }
  }

  /** Unlinking a blocked task from the list of its state and marking it
      Invalid keeps the invariant, and the task is then in no list. */
  lemma RemoveBlockedWf(ready: seq<Tcb>, blocked: map<TaskState, seq<Tcb>>, st: map<Tcb, TaskState>,
                        t: Tcb)
    requires Wf(ready, blocked, st) && t in st && IsBlocked(st[t])
    ensures Wf(ready, blocked[st[t] := Remove(blocked[st[t]], t)], st[t := Invalid])
    ensures t !in ready
    ensures forall s :: s in blocked ==> t !in blocked[st[t] := Remove(blocked[st[t]], t)][s]
  {
    var s := st[t];
    var b := blocked[s := Remove(blocked[s], t)];
    var st' := st[t := Invalid];
    assert BlockedListed(blocked, st, t);
    RemoveMembers(blocked[s], t);
    OneListEach(ready, blocked, st, t, s);
    forall i | 0 <= i < |ready| ensures ReadyEntry(ready, st', i) {
      assert ReadyEntry(ready, st, i);
    }
    forall u | u in st' ensures ReadyListed(ready, st', u) {
      assert ReadyListed(ready, st, u);
    }
    forall s0, u | s0 in b && u in b[s0] ensures BlockedEntry(b, st', s0, u) {
      if s0 == s {
        assert u in blocked[s] && u != t;
      }
      assert BlockedEntry(blocked, st, s0, u);
    }
    forall u | u in st' ensures BlockedListed(b, st', u) {
      assert BlockedListed(blocked, st, u);
    }
  }

  /** Linking a task that is in no list into the ready-to-run list at a
      place that keeps it sorted keeps the ready-list invariant. When it
      goes in at the front it becomes the running task and the old head
      goes back to ReadyToRun; elsewhere it is ReadyToRun. */
  lemma InsertReadyListWf(ready: seq<Tcb>, st: map<Tcb, TaskState>, t: Tcb, k: nat)
    requires ReadyWf(ready, st) && t in st && t !in ready
    requires k <= |ready| && Sorted(InsertAt(ready, k, t))
    ensures ReadyWf(InsertAt(ready, k, t),
                    if k == 0 then st[t := Running][ready[0] := ReadyToRun] else st[t := ReadyToRun])
  {
    var r := InsertAt(ready, k, t);
    var st' := if k == 0 then st[t := Running][ready[0] := ReadyToRun] else st[t := ReadyToRun];
    InsertNoDup(ready, k, t);
    InsertMembers(ready, k, t);
    forall i | 0 <= i < |r| ensures ReadyEntry(r, st', i) {
      if i < k {
        assert r[i] == ready[i];
        assert ReadyEntry(ready, st, i);
      } else if i > k {
        assert r[i] == ready[i - 1];
        assert ReadyEntry(ready, st, i - 1);
      }
    }
    forall u | u in st' ensures ReadyListed(r, st', u) {
      if u != t && u != ready[0] {
        assert ReadyListed(ready, st, u);
      }
    }
  }

  /** The same step on all task lists: the blocked lists are untouched. */
  lemma InsertReadyWf(ready: seq<Tcb>, blocked: map<TaskState, seq<Tcb>>, st: map<Tcb, TaskState>,
                      t: Tcb, k: nat)
    requires Wf(ready, blocked, st) && t in st && t !in ready && !IsBlocked(st[t])
    requires k <= |ready| && Sorted(InsertAt(ready, k, t))
    ensures Wf(InsertAt(ready, k, t), blocked,
               if k == 0 then st[t := Running][ready[0] := ReadyToRun] else st[t := ReadyToRun])
  {
    InsertReadyListWf(ready, st, t, k);
    if k == 0 {
      BlockedWfUnblockedUpdate(blocked, st, t, Running);
      BlockedWfUnblockedUpdate(blocked, st[t := Running], ready[0], ReadyToRun);
    } else {
      BlockedWfUnblockedUpdate(blocked, st, t, ReadyToRun);
    }
  }
}
