/**
 * The exception-handling kernel's process bookkeeping: a list of processes, a current
 * process, round-robin selection of the next runnable process, removal of a process that
 * raised an exception, and the clock interrupt's switch. A process thread is reduced to
 * a record: `id` stands for the thread object's identity (what `==`, `in`, `index` and
 * `remove` compare), `alive` for `is_alive()`, `exceptionOccurred` for a recorded exception.
 */
module Scheduling {
  import opened Wrappers
  import Arithmetic

  datatype Proc = Proc(id: nat, name: string, alive: bool, exceptionOccurred: bool)

  /** The selection test: alive and without a recorded exception. */
  predicate Runnable(p: Proc)
  {
    p.alive && !p.exceptionOccurred
  }

  /** Every process object appears at most once. */
  predicate DistinctIds(procs: seq<Proc>)
  {
    forall i, j :: 0 <= i < j < |procs| ==> procs[i].id != procs[j].id
  }

  predicate Contains(procs: seq<Proc>, id: nat)
  {
    exists i :: 0 <= i < |procs| && procs[i].id == id
  }

  /** `procs.index(p)` for a p with identity `id`, or -1 when it is absent. */
  function IndexOf(procs: seq<Proc>, id: nat): (i: int)
    ensures -1 <= i < |procs|
    ensures i == -1 <==> !Contains(procs, id)
    ensures i >= 0 ==> procs[i].id == id && forall k :: 0 <= k < i ==> procs[k].id != id
  {
    if |procs| == 0 then -1
    else if procs[0].id == id then 0
    else
      var k := IndexOf(procs[1..], id);
      assert forall m :: 0 < m < |procs| ==> procs[m] == procs[1..][m - 1];
      if k == -1 then -1 else k + 1
  }

  /** The index the search starts after: the current process's index, or -1 when there is no
    * current process or it is not in the list. */
  function CurrentIndex(procs: seq<Proc>, current: Option<Proc>): (ci: int)
    ensures -1 <= ci < |procs|
  {
    if current.Some? then IndexOf(procs, current.value.id) else -1
  }

  /** The list rotated to begin at index `start`. */
  function Rotation(procs: seq<Proc>, start: nat): seq<Proc>
    requires start <= |procs|
  {
    procs[start..] + procs[..start]
  }

  /** The index of the first runnable process, or |xs| when there is none. */
  function FirstRunnableIndex(xs: seq<Proc>): (k: nat)
    ensures k <= |xs|
    ensures k < |xs| ==> Runnable(xs[k])
    ensures forall i :: 0 <= i < k ==> !Runnable(xs[i])
  {
    if |xs| == 0 then 0
    else if Runnable(xs[0]) then 0
    else
      var k := FirstRunnableIndex(xs[1..]);
      assert forall i :: 0 < i < |xs| ==> xs[i] == xs[1..][i - 1];
      k + 1
  }

  function FirstRunnable(xs: seq<Proc>): Option<Proc>
  {
    var k := FirstRunnableIndex(xs);
    if k < |xs| then Some(xs[k]) else None
  }

  /** The search order: every process once, starting just after the current one and wrapping
    * around, so that the current process (if listed) comes last. */
  function SearchOrder(procs: seq<Proc>, current: Option<Proc>): (order: seq<Proc>)
    ensures |order| == |procs|
    ensures forall p :: p in order <==> p in procs
  {
    if |procs| == 0 then []
    else
      var start := (CurrentIndex(procs, current) + 1) % |procs|;
      assert procs == procs[..start] + procs[start..];
      Rotation(procs, start)
  }

  /** The process round-robin selection picks: the first runnable one in search order. */
  function NextAlive(procs: seq<Proc>, current: Option<Proc>): (next: Option<Proc>)
    ensures next.Some? ==> next.value in procs && Runnable(next.value)
  {
    FirstRunnable(SearchOrder(procs, current))
  }

  /** The list after `remove(p)` for the p with identity `id`, when it is present. */
  function RemoveFirst(procs: seq<Proc>, id: nat): (r: seq<Proc>)
    ensures Contains(procs, id) ==> |r| == |procs| - 1
    ensures !Contains(procs, id) ==> r == procs
    ensures forall q :: q in r ==> q in procs
  {
    var i := IndexOf(procs, id);
    if i == -1 then procs
    else
      RemoveAtKeeps(procs, i);
      procs[..i] + procs[i + 1..]
  }

  /** With distinct processes, `remove` drops exactly the process with identity `id`. */
  lemma RemoveFirstDistinct(procs: seq<Proc>, id: nat)
    requires DistinctIds(procs)
    ensures var r := RemoveFirst(procs, id);
      && DistinctIds(r)
      && !Contains(r, id)
      && (forall q :: q in procs && q.id != id ==> q in r)
  {
    var i := IndexOf(procs, id);
    if i >= 0 {
      RemoveAtDistinct(procs, i);
    }
  }

  /** Dropping index i keeps every other entry, in order. */
  lemma RemoveAtKeeps(procs: seq<Proc>, i: nat)
    requires i < |procs|
    ensures var r := procs[..i] + procs[i + 1..];
      && |r| == |procs| - 1
      && (forall k :: 0 <= k < |r| ==> r[k] == if k < i then procs[k] else procs[k + 1])
      && (forall q :: q in r ==> q in procs)
      && (forall k :: 0 <= k < |procs| && k != i ==> procs[k] in r)
  {
    var r := procs[..i] + procs[i + 1..];
    forall k | 0 <= k < |procs| && k != i
      ensures procs[k] in r
    {
      if k < i {
        assert r[k] == procs[k];
      } else {
        assert r[k - 1] == procs[k];
      }
    }
  }

  /** With distinct identities, dropping the entry with identity `id` leaves no entry with it
    * and keeps every other process. */
  lemma RemoveAtDistinct(procs: seq<Proc>, i: nat)
    requires i < |procs| && DistinctIds(procs)
    ensures var r := procs[..i] + procs[i + 1..];
      && DistinctIds(r)
      && !Contains(r, procs[i].id)
      && (forall q :: q in procs && q.id != procs[i].id ==> q in r)
  {
    RemoveAtKeeps(procs, i);
    var r := procs[..i] + procs[i + 1..];
    forall q | q in procs && q.id != procs[i].id
      ensures q in r
    {
      var k :| 0 <= k < |procs| && procs[k] == q;
      assert k != i;
    }
  }

  // ---------------------------------------------------------------------------
  // Properties of the selection order
  // ---------------------------------------------------------------------------

  /** The k-th process of a rotation starting at `start`. */
  lemma RotationAt(procs: seq<Proc>, start: nat, k: nat)
    requires start <= |procs| && k < |procs|
    ensures Rotation(procs, start)[k] == if start + k < |procs| then procs[start + k] else procs[start + k - |procs|]
  {
  }

  /** A rotation holds the same processes as the list. */
  lemma RotationPermutes(procs: seq<Proc>, start: nat)
    requires start <= |procs|
    ensures multiset(Rotation(procs, start)) == multiset(procs)
  {
    assert procs == procs[..start] + procs[start..];
  }

  /** The i-th candidate the source examines, procs[(ci + i) % n] for i = 1..n, is the
    * (i - 1)-th process of the search order. */
  lemma CandidateIsSearchOrder(procs: seq<Proc>, current: Option<Proc>, i: nat)
    requires 1 <= i <= |procs|
    ensures procs[(CurrentIndex(procs, current) + i) % |procs|] == SearchOrder(procs, current)[i - 1]
  {
    var n := |procs|;
    var ci := CurrentIndex(procs, current);
    SearchStart(procs, current);
    var start := if ci == n - 1 then 0 else ci + 1;
    assert SearchOrder(procs, current) == Rotation(procs, start);
    var pos := if start + (i - 1) < n then start + (i - 1) else start + (i - 1) - n;
    CandidateIndex(ci, n, i);
    RotationAt(procs, start, i - 1);
    assert Rotation(procs, start)[i - 1] == procs[pos];
  }

  /** Where the i-th candidate `(ci + i) % n` falls, written without `%`. */
  lemma CandidateIndex(ci: int, n: nat, i: nat)
    requires -1 <= ci < n && 1 <= i <= n
    ensures var start := if ci == n - 1 then 0 else ci + 1;
      (ci + i) % n == if start + (i - 1) < n then start + (i - 1) else start + (i - 1) - n
  {
    if ci + i < n {
      Arithmetic.LemmaFundamentalDivMod(ci + i, n, 0, ci + i);
    } else {
      Arithmetic.LemmaFundamentalDivMod(ci + i, n, 1, ci + i - n);
    }
  }

  /** The search visits every process exactly as often as it is listed. */
  lemma SearchOrderPermutes(procs: seq<Proc>, current: Option<Proc>)
    ensures multiset(SearchOrder(procs, current)) == multiset(procs)
  {
    if |procs| > 0 {
      RotationPermutes(procs, (CurrentIndex(procs, current) + 1) % |procs|);
    }
  }

  /** The search starts right after the current process and ends with it; a current process
    * that is not listed (or none) makes it start at index 0, in list order. */
  lemma SearchOrderShape(procs: seq<Proc>, current: Option<Proc>)
    requires |procs| > 0
    ensures var order := SearchOrder(procs, current);
      var ci := CurrentIndex(procs, current);
      && |order| == |procs|
      && order[0] == procs[(ci + 1) % |procs|]
      && (ci >= 0 ==> order[|procs| - 1] == procs[ci])
      && (ci == -1 ==> order == procs)
  {
    var ci := CurrentIndex(procs, current);
    CandidateIsSearchOrder(procs, current, |procs|);
    if ci == -1 {
      Arithmetic.LemmaFundamentalDivMod(0, |procs|, 0, 0);
      assert Rotation(procs, 0) == procs;
    } else {
      Arithmetic.LemmaFundamentalDivMod(ci + |procs|, |procs|, 1, ci);
    }
  }

  /** A selected process is listed and runnable; None means no listed process is runnable. */
  lemma NextAliveSound(procs: seq<Proc>, current: Option<Proc>)
    ensures NextAlive(procs, current).Some? ==>
      NextAlive(procs, current).value in procs && Runnable(NextAlive(procs, current).value)
    ensures NextAlive(procs, current).None? <==> forall p :: p in procs ==> !Runnable(p)
  {
    var order := SearchOrder(procs, current);
    SearchOrderPermutes(procs, current);
    assert forall p :: p in order <==> p in procs by {
      forall p
        ensures p in order <==> p in procs
      {
        assert p in order <==> p in multiset(order);
      }
    }
  }

  /** The search starts just after the current process's index (wrapping to 0 after the last). */
  lemma SearchStart(procs: seq<Proc>, current: Option<Proc>)
    requires |procs| > 0
    ensures var ci := CurrentIndex(procs, current);
      (ci + 1) % |procs| == if ci == |procs| - 1 then 0 else ci + 1
  {
    var ci := CurrentIndex(procs, current);
    if ci == |procs| - 1 {
      Arithmetic.LemmaFundamentalDivMod(ci + 1, |procs|, 1, 0);
    } else {
      Arithmetic.LemmaFundamentalDivMod(ci + 1, |procs|, 0, ci + 1);
    }
  }

  /** The current process is picked again only when no other listed process is runnable. */
  lemma CurrentPickedLast(procs: seq<Proc>, current: Option<Proc>)
    requires DistinctIds(procs) && current.Some? && Contains(procs, current.value.id)
    requires NextAlive(procs, current).Some? && NextAlive(procs, current).value.id == current.value.id
    ensures forall j :: 0 <= j < |procs| && procs[j].id != current.value.id ==> !Runnable(procs[j])
  {
    var n := |procs|;
    var ci := CurrentIndex(procs, current);
    var order := SearchOrder(procs, current);
    SearchStart(procs, current);
    var start := if ci == n - 1 then 0 else ci + 1;
    assert order == Rotation(procs, start);
    var k := FirstRunnableIndex(order);
    RotationAt(procs, start, k);
    assert k == n - 1;
    forall j | 0 <= j < n && procs[j].id != current.value.id
      ensures !Runnable(procs[j])
    {
      var pos := if j >= start then j - start else n - start + j;
      RotationAt(procs, start, pos);
      assert order[pos] == procs[j];
    }
  }

  /** Without the current process in the list, the pick is the first runnable one in list order. */
  lemma NextAliveFromHead(procs: seq<Proc>, current: Option<Proc>)
    requires current.None? || !Contains(procs, current.value.id)
    ensures NextAlive(procs, current) == FirstRunnable(procs)
  {
    if |procs| > 0 {
      SearchOrderShape(procs, current);
    }
  }

  // ---------------------------------------------------------------------------
  // The kernel's bookkeeping
  // ---------------------------------------------------------------------------

  class Kernel {
    var running: bool
    var currentProcess: Option<Proc>
    var allProcesses: seq<Proc>

    /** No process is listed twice: the list only ever holds the threads `start` created. */
    ghost predicate Valid()
      reads this
    {
      DistinctIds(allProcesses)
    }

    /** `Kernel()`: running, no current process, no processes. */
    constructor ()
      ensures Valid()
      ensures running && currentProcess == None && allProcesses == []
    {
      running := true;
      currentProcess := None;
      allProcesses := [];
    }

    /** The bookkeeping of `start`: two newly created processes (so two different threads)
      * are listed and the first becomes current. */
    method Start(a: Proc, b: Proc)
      requires a.id != b.id
      modifies this`allProcesses, this`currentProcess
      ensures Valid()
      ensures allProcesses == [a, b] && currentProcess == Some(a)
    {
      allProcesses := [a, b];
      currentProcess := Some(a);
    }

    /** Round-robin search from the index after the current process, modulo the list length. */
    method GetNextAliveProcess() returns (next: Option<Proc>)
      ensures next == NextAlive(allProcesses, currentProcess)
      ensures |allProcesses| == 0 ==> next == None
      ensures next.Some? ==> next.value in allProcesses && Runnable(next.value)
    {
      NextAliveSound(allProcesses, currentProcess);
      var n := |allProcesses|;
      if n == 0 {
        return None;
      }
      var currentIdx := if currentProcess.Some? then IndexOf(allProcesses, currentProcess.value.id) else -1;
      ghost var order := SearchOrder(allProcesses, currentProcess);
      for i := 1 to n + 1
        invariant forall k :: 0 <= k < i - 1 ==> !Runnable(order[k])
      {
        var idx := (currentIdx + i) % n;
        var candidate := allProcesses[idx];
        CandidateIsSearchOrder(allProcesses, currentProcess, i);
        if Runnable(candidate) {
          return Some(candidate);
        }
      }
      return None;
    }

    /** Removes the current (faulty) process from the list, if it is there, then selects the
      * next runnable process, searching from the head of the list. */
    method HandleException()
      requires Valid() && currentProcess.Some?
      modifies this`allProcesses, this`currentProcess
      ensures Valid()
      ensures allProcesses == RemoveFirst(old(allProcesses), old(currentProcess).value.id)
      ensures currentProcess == NextAlive(allProcesses, old(currentProcess))
      ensures !Contains(allProcesses, old(currentProcess).value.id)
      ensures currentProcess == FirstRunnable(allProcesses)
    {
      var errorProcess := currentProcess.value;
      if Contains(allProcesses, errorProcess.id) {
        var i := IndexOf(allProcesses, errorProcess.id);
        allProcesses := allProcesses[..i] + allProcesses[i + 1..];
      }
      assert allProcesses == RemoveFirst(old(allProcesses), errorProcess.id);
      RemoveFirstDistinct(old(allProcesses), errorProcess.id);
      currentProcess := GetNextAliveProcess();
      NextAliveFromHead(allProcesses, old(currentProcess));
    }

    /** The clock interrupt's switch: nothing when the kernel is stopped or no listed process
      * is alive (an empty list included); otherwise the next runnable process becomes current. */
    method ClockInterrupt()
      modifies this`currentProcess
      ensures !old(running) || (forall p :: p in allProcesses ==> !p.alive) ==>
        currentProcess == old(currentProcess)
      ensures old(running) && (exists p :: p in allProcesses && p.alive) ==>
        currentProcess == NextAlive(allProcesses, old(currentProcess))
    {
      if !running {
        return;
      }
      if forall p :: p in allProcesses ==> !p.alive {
        return;
      }
      currentProcess := GetNextAliveProcess();
    }
  }
}
