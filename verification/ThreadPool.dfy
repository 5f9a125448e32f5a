/** common::ThreadPool: delayed tasks that can be cancelled, and a queue of normal tasks.
    Every critical section of the pool is one step; a run is any interleaving of the
    steps of its callers and workers. */
module ThreadPool {

  datatype Item = Item(id: nat, exeTime: int, task: nat)

  datatype Pool = Pool(
    queue: seq<Item>,
    pendingNum: int,
    timeQueue: seq<Item>,
    latest: map<nat, Item>,
    running: set<nat>,
    lastTaskId: nat,
    stop: bool,
    threads: nat)

  /** Before the constructor starts the threads. */
  const Idle := Pool([], 0, [], map[], {}, 0, false, 0)

  // ---------- the priority queue ----------

  /** The item a worker takes first: due earlier, or issued earlier. */
  predicate Sooner(a: Item, b: Item) {
    a.exeTime < b.exeTime || (a.exeTime == b.exeTime && a.id < b.id)
  }

  function Push(q: seq<Item>, x: Item): seq<Item> {
    if q == [] || Sooner(x, q[0]) then [x] + q else [q[0]] + Push(q[1..], x)
  }

  ghost predicate Ordered(q: seq<Item>) {
    forall i, j :: 0 <= i < j < |q| ==> Sooner(q[i], q[j])
  }

  lemma {:induction false} PushOrdered(q: seq<Item>, x: Item)
    requires Ordered(q) && forall y :: y in q ==> y.id != x.id
    ensures Ordered(Push(q, x))
    ensures forall y :: y in Push(q, x) <==> y in q || y == x
  {
    if q == [] {
    } else if Sooner(x, q[0]) {
      assert Push(q, x) == [x] + q;
    } else {
      assert q == [q[0]] + q[1..];
      PushOrdered(q[1..], x);
      var rest := Push(q[1..], x);
      assert q[0] in q;
      forall y | y in rest ensures Sooner(q[0], y) {
        if y != x {
          var i :| 0 <= i < |q[1..]| && q[1..][i] == y;
          assert q[i + 1] == y;
        }
      }
      assert Push(q, x) == [q[0]] + rest;
    }
  }

  // ---------- the critical sections ----------

  function AddStep(p: Pool, front: bool, now: int, task: nat): Pool {
    var item := Item(0, now, task);
    p.(queue := if front then [item] + p.queue else p.queue + [item], pendingNum := p.pendingNum + 1)
  }

  function DelayStep(p: Pool, now: int, delay: int, task: nat): Pool {
    var item := Item(p.lastTaskId + 1, now + delay * 1000, task);
    p.(lastTaskId := item.id, timeQueue := Push(p.timeQueue, item), latest := p.latest[item.id := item])
  }

  datatype Cancelling = Cancelled | Missed | StillRunning | Retry

  /** One pass of CancelTask's loop. */
  function CancelStep(p: Pool, id: nat, nonBlock: bool): (Pool, Cancelling) {
    if id == 0 then (p, Missed)
    else if id !in p.running then
      if id !in p.latest then (p, Missed) else (p.(latest := p.latest - {id}), Cancelled)
    else (p, if nonBlock then StillRunning else Retry)
  }

  datatype Work = Exit | Wait | Discard(item: Item) | RunDelayed(item: Item) | RunNormal(task: nat)

  /** One turn of a worker, up to where it releases the lock. */
  function WorkStep(p: Pool, now: int): (Pool, Work) {
    if p.stop then (p, Exit)
    else if p.timeQueue != [] && p.timeQueue[0].exeTime <= now then
      var item := p.timeQueue[0];
      var popped := p.(timeQueue := p.timeQueue[1..]);
      if item.id in p.latest && p.latest[item.id].exeTime == item.exeTime then
        (popped.(latest := p.latest - {item.id}, running := p.running + {item.id}), RunDelayed(item))
      else (popped, Discard(item))
    else if p.queue != [] then
      (p.(queue := p.queue[1..], pendingNum := p.pendingNum - 1), RunNormal(p.queue[0].task))
    else (p, Wait)
  }

  /** A worker takes the lock again after a delayed task. */
  function FinishStep(p: Pool, id: nat): Pool {
    p.(running := p.running - {id})
  }

  /** Start, which does nothing while there are threads. */
  function StartStep(p: Pool, threadsNum: nat): Pool {
    if p.threads != 0 then p else p.(stop := false, threads := threadsNum)
  }

  /** Stop sets the flag, and when all threads have ended forgets them. */
  function StopStep(p: Pool): Pool {
    p.(stop := true)
  }

  function JoinStep(p: Pool): Pool {
    p.(threads := 0)
  }

  // ---------- the pool ----------

  class ThreadPool {
    var queue: seq<Item>
    var pendingNum: int
    var timeQueue: seq<Item>
    var latest: map<nat, Item>
    var runningTaskIds: set<nat>
    var lastTaskId: nat
    var stop: bool
    var threads: nat
    const threadsNum: nat

    ghost function View(): Pool
      reads this
    {
      Pool(queue, pendingNum, timeQueue, latest, runningTaskIds, lastTaskId, stop, threads)
    }

    constructor (threadNum: nat)
      ensures View() == StartStep(Idle, threadNum) && threadsNum == threadNum
    {
      threadsNum := threadNum;
      queue, pendingNum, timeQueue, latest, runningTaskIds, lastTaskId, stop := [], 0, [], map[], {}, 0, false;
      threads := 0;
      new;
      var started := Start();
    }

    method Start() returns (ok: bool)
      modifies this
      ensures View() == StartStep(old(View()), threadsNum) && (ok <==> old(threads) == 0)
    {
      if threads != 0 {
        return false;
      }
      stop := false;
      threads := threadsNum;
      ok := true;
    }

    /** Stop, up to where it waits for the threads, and from there on. */
    method BeginStop()
      modifies this
      ensures View() == StopStep(old(View()))
    {
      stop := true;
    }

    method EndStop()
      modifies this
      ensures View() == JoinStep(old(View()))
    {
      threads := 0;
    }

    method AddTask(now: int, task: nat)
      modifies this
      ensures View() == AddStep(old(View()), false, now, task)
    {
      queue := queue + [Item(0, now, task)];
      pendingNum := pendingNum + 1;
    }

    method AddPriorityTask(now: int, task: nat)
      modifies this
      ensures View() == AddStep(old(View()), true, now, task)
    {
      queue := [Item(0, now, task)] + queue;
      pendingNum := pendingNum + 1;
    }

    method DelayTask(now: int, delay: int, task: nat) returns (id: nat)
      modifies this
      ensures View() == DelayStep(old(View()), now, delay, task) && id == lastTaskId
    {
      var exeTime := now + delay * 1000;
      lastTaskId := lastTaskId + 1;
      var item := Item(lastTaskId, exeTime, task);
      timeQueue := Push(timeQueue, item);
      latest := latest[item.id := item];
      id := item.id;
    }

    /** `found` is CancelTask's result, `isRunning` what it reports; without either the
        caller sleeps and tries again. */
    method CancelPass(id: nat, nonBlock: bool) returns (done: bool, found: bool, isRunning: bool)
      modifies this
      ensures View() == CancelStep(old(View()), id, nonBlock).0
      ensures var r := CancelStep(old(View()), id, nonBlock).1;
              && (done <==> !r.Retry?) && (found <==> r.Cancelled?) && (isRunning <==> r.StillRunning?)
    {
      if id == 0 {
        return true, false, false;
      }
      if id !in runningTaskIds {
        if id !in latest {
          return true, false, false;
        }
        latest := latest - {id};
        return true, true, false;
      } else if nonBlock {
        return true, false, true;
      }
      return false, false, false;
    }

    method Worker(now: int) returns (work: Work)
      modifies this
      ensures (View(), work) == WorkStep(old(View()), now)
    {
      if stop {
        return Exit;
      }
      if timeQueue != [] {
        var item := timeQueue[0];
        var waitTime := item.exeTime - now;
        if waitTime <= 0 {
          timeQueue := timeQueue[1..];
          if item.id in latest && latest[item.id].exeTime == item.exeTime {
            latest := latest - {item.id};
            runningTaskIds := runningTaskIds + {item.id};
            return RunDelayed(item);
          }
          return Discard(item);
        } else if queue == [] {
          return Wait;
        }
      }
      if queue != [] {
        var task := queue[0].task;
        queue := queue[1..];
        pendingNum := pendingNum - 1;
        return RunNormal(task);
      }
      return Wait;
    }

    method Finish(id: nat)
      modifies this
      ensures View() == FinishStep(old(View()), id)
    {
      runningTaskIds := runningTaskIds - {id};
    }
  }
}
