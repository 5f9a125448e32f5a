/** All interleavings of any number of dump workers, on a lock service that gives a lock to
    one worker at a time. */
module RangeDumpRuns {
  import opened Collections
  import opened RangeDump

  /** The service and the workers; a worker not listed is idle. */
  datatype System = System(done: set<Range>, holder: map<Range, nat>, phases: map<nat, Phase>)

  /** A dump begins with no worker at work and any flags stored by an earlier one. */
  predicate Begins(p: System) {
    p.holder == map[] && p.phases == map[]
  }

  datatype Event = Calls(w: nat, call: Call) | Expires(r: Range)

  function PhaseOf(p: System, w: nat): Phase {
    if w in p.phases then p.phases[w] else Idle
  }

  predicate Holds(p: System, w: nat, r: Range) {
    r in p.holder && p.holder[r] == w
  }

  /** The answers the service can give.  It may refuse any lock, but grants one only if no
      other worker has it; it reads what is stored; the lock of a dead worker may expire. */
  predicate Enabled(p: System, e: Event) {
    match e
    case Expires(r) => r in p.holder && PhaseOf(p, p.holder[r]) == Dead
    case Calls(w, call) =>
      var phase := PhaseOf(p, w);
      && Next(phase, call).Some?
      && (call.TryLock? && call.ok ==> call.r !in p.holder || p.holder[call.r] == w)
      && (call.Get? && phase.Locked? ==> (call.done <==> phase.r in p.done))
  }

  function Apply(p: System, e: Event): System
    requires Enabled(p, e)
  {
    match e
    case Expires(r) => p.(holder := p.holder - {r})
    case Calls(w, call) =>
      var phase := PhaseOf(p, w);
      var q := p.(phases := p.phases[w := Next(phase, call).value]);
      match call
      case TryLock(r, ok) => if ok then q.(holder := p.holder[r := w]) else q
      case GetFails(released) => if released then q.(holder := p.holder - {phase.r}) else q
      case GiveBack(ok) => if ok then q.(holder := p.holder - {phase.r}) else q
      case Unlock(ok) => if ok then q.(holder := p.holder - {phase.r}) else q
      case Put(ok) => if ok then q.(done := p.done + {phase.r}) else q
      case _ => q
  }

  /** A worker busy with a range holds its lock, and from the check to the end of the scan
      the range is not done. */
  ghost predicate Kept(p: System) {
    forall w :: w in p.phases ==> Fits(p, w, p.phases[w])
  }

  predicate Fits(p: System, w: nat, phase: Phase) {
    && (!phase.Idle? && !phase.Dead? ==> Holds(p, w, phase.r))
    && (phase.Chosen? || phase.Scanning? || phase.Scanned? ==> phase.r !in p.done)
  }

  lemma KeptByStep(p: System, e: Event)
    requires Kept(p) && Enabled(p, e)
    ensures Kept(Apply(p, e))
  {
    var p' := Apply(p, e);
    forall w | w in p'.phases ensures Fits(p', w, p'.phases[w]) {
      assert w in p.phases ==> Fits(p, w, p.phases[w]);
      assert e.Calls? && e.w in p.phases ==> Fits(p, e.w, p.phases[e.w]);
    }
  }

  // ---------- runs ----------

  ghost predicate Run(log: seq<Event>, states: seq<System>) {
    && |states| == |log| + 1 && Begins(states[0])
    && forall i :: 0 <= i < |log| ==> Enabled(states[i], log[i]) && states[i + 1] == Apply(states[i], log[i])
  }

  lemma {:induction false} AlwaysKept(log: seq<Event>, states: seq<System>, n: nat)
    requires Run(log, states) && n <= |log|
    ensures Kept(states[n])
  {
    if n > 0 {
      AlwaysKept(log, states, n - 1);
      KeptByStep(states[n - 1], log[n - 1]);
    }
  }

  /** No range is scanned by two workers at once. */
  lemma OneScanner(log: seq<Event>, states: seq<System>, n: nat, v: nat, w: nat, r: Range)
    requires Run(log, states) && n <= |log|
    requires PhaseOf(states[n], v) == Scanning(r) && PhaseOf(states[n], w) == Scanning(r)
    ensures v == w
  {
    AlwaysKept(log, states, n);
    assert Fits(states[n], v, Scanning(r)) && Fits(states[n], w, Scanning(r));
  }

  /** A scan starts only on a range whose stored flag is not set, under its lock. */
  lemma ScansOnlyUndone(log: seq<Event>, states: seq<System>, n: nat, w: nat)
    requires Run(log, states) && n < |log| && log[n] == Calls(w, BeginScan)
    ensures var phase := PhaseOf(states[n], w);
            phase.Chosen? && phase.r !in states[n].done && Holds(states[n], w, phase.r)
  {
    AlwaysKept(log, states, n);
    assert Fits(states[n], w, PhaseOf(states[n], w));
  }

  /** A flag that is set stays set. */
  lemma {:induction false} FlagsStay(log: seq<Event>, states: seq<System>, m: nat, n: nat)
    requires Run(log, states) && m <= n <= |log|
    ensures states[m].done <= states[n].done
  {
    if m < n {
      FlagsStay(log, states, m, n - 1);
      assert states[n] == Apply(states[n - 1], log[n - 1]);
    }
  }

  /** The step that sets a flag is a Put by a worker that holds the lock and has scanned
      the range to the end. */
  lemma FlipsByPut(log: seq<Event>, states: seq<System>, n: nat, r: Range) returns (w: nat)
    requires Run(log, states) && n < |log| && r !in states[n].done && r in states[n + 1].done
    ensures log[n] == Calls(w, Put(true)) && PhaseOf(states[n], w) == Scanned(r) && Holds(states[n], w, r)
  {
    w := log[n].w;
    AlwaysKept(log, states, n);
    assert Fits(states[n], w, PhaseOf(states[n], w));
  }

  /** From `b` to `n` the worker holds the range's lock and the range is not done. */
  ghost predicate Held(states: seq<System>, b: nat, n: nat, w: nat, r: Range) {
    n < |states| && forall i :: b <= i <= n ==> Holds(states[i], w, r) && r !in states[i].done
  }

  lemma {:induction false} ScanBegan(log: seq<Event>, states: seq<System>, n: nat, w: nat, r: Range) returns (b: nat)
    requires Run(log, states) && n <= |log| && PhaseOf(states[n], w) == Scanning(r)
    ensures b < n && log[b] == Calls(w, BeginScan) && PhaseOf(states[b], w) == Chosen(r) && Held(states, b, n, w, r)
  {
    HeldWhile(log, states, n, w, r);
    HeldWhile(log, states, n - 1, w, r);
    PhaseBefore(states[n - 1], log[n - 1], w, r);
    if PhaseOf(states[n - 1], w) == Chosen(r) {
      b := n - 1;
    } else {
      b := ScanBegan(log, states, n - 1, w, r);
    }
  }

  /** A worker that has scanned a range did so in one scan that began and ended well under
      its lock, with nobody else holding the lock since it began. */
  lemma {:induction false} ScannedByHolder(log: seq<Event>, states: seq<System>, n: nat, w: nat, r: Range)
    returns (b: nat, e: nat)
    requires Run(log, states) && n <= |log| && PhaseOf(states[n], w) == Scanned(r)
    ensures b < e < n && log[b] == Calls(w, BeginScan) && PhaseOf(states[b], w) == Chosen(r)
    ensures log[e] == Calls(w, EndScan(true)) && PhaseOf(states[e], w) == Scanning(r) && Held(states, b, n, w, r)
  {
    HeldWhile(log, states, n, w, r);
    PhaseBefore(states[n - 1], log[n - 1], w, r);
    if PhaseOf(states[n - 1], w) == Scanning(r) {
      e := n - 1;
      b := ScanBegan(log, states, n - 1, w, r);
    } else {
      b, e := ScannedByHolder(log, states, n - 1, w, r);
    }
  }

  lemma HeldWhile(log: seq<Event>, states: seq<System>, n: nat, w: nat, r: Range)
    requires Run(log, states) && n <= |log|
    ensures PhaseOf(states[n], w) in {Chosen(r), Scanning(r), Scanned(r)} ==>
              Holds(states[n], w, r) && r !in states[n].done
  {
    AlwaysKept(log, states, n);
    assert Fits(states[n], w, PhaseOf(states[n], w));
  }

  lemma PhaseBefore(p: System, e: Event, w: nat, r: Range)
    requires Enabled(p, e)
    ensures PhaseOf(Apply(p, e), w) == Scanning(r) ==>
              PhaseOf(p, w) == Scanning(r) || (PhaseOf(p, w) == Chosen(r) && e == Calls(w, BeginScan))
    ensures PhaseOf(Apply(p, e), w) == Scanned(r) ==>
              PhaseOf(p, w) == Scanned(r) || (PhaseOf(p, w) == Scanning(r) && e == Calls(w, EndScan(true)))
  {
  }

  /** Each flag is set after a complete scan of its range by the worker that sets it, and
      from the start of that scan until then that worker alone holds the lock. */
  lemma FlipFollowsScan(log: seq<Event>, states: seq<System>, n: nat, r: Range) returns (w: nat, b: nat, e: nat)
    requires Run(log, states) && n < |log| && r !in states[n].done && r in states[n + 1].done
    ensures b < e < n && log[b] == Calls(w, BeginScan) && log[e] == Calls(w, EndScan(true)) && log[n] == Calls(w, Put(true))
    ensures PhaseOf(states[b], w) == Chosen(r) && PhaseOf(states[e], w) == Scanning(r)
    ensures Held(states, b, n, w, r)
  {
    w := FlipsByPut(log, states, n, r);
    b, e := ScannedByHolder(log, states, n, w, r);
  }

  /** Every range whose flag is set was done before the dump began, or was scanned to the end
      in it by the worker that set its flag. */
  lemma {:induction false} DoneWasScanned(log: seq<Event>, states: seq<System>, n: nat, r: Range)
    returns (w: nat, b: nat, e: nat, m: nat)
    requires Run(log, states) && n <= |log| && r in states[n].done && r !in states[0].done
    ensures b < e < m < n && log[b] == Calls(w, BeginScan) && log[e] == Calls(w, EndScan(true)) && log[m] == Calls(w, Put(true))
    ensures PhaseOf(states[b], w) == Chosen(r) && PhaseOf(states[e], w) == Scanning(r) && Held(states, b, m, w, r)
  {
    if r in states[n - 1].done {
      w, b, e, m := DoneWasScanned(log, states, n - 1, r);
    } else {
      m := n - 1;
      w, b, e := FlipFollowsScan(log, states, m, r);
    }
  }

  /** A flag is put at most once. */
  lemma PutOnce(log: seq<Event>, states: seq<System>, m: nat, n: nat, v: nat, w: nat)
    requires Run(log, states) && m < n < |log| && log[m] == Calls(v, Put(true)) && log[n] == Calls(w, Put(true))
    ensures PhaseOf(states[m], v).Scanned? && PhaseOf(states[n], w).Scanned?
    ensures PhaseOf(states[m], v).r != PhaseOf(states[n], w).r
  {
    AlwaysKept(log, states, n);
    FlagsStay(log, states, m + 1, n);
    assert states[m + 1] == Apply(states[m], log[m]);
    assert Fits(states[n], w, PhaseOf(states[n], w));
  }

  // ---------- who has a lock ----------

  /** The step gives back the lock of `r`, or lets it expire. */
  predicate Frees(p: System, e: Event, r: Range) {
    match e
    case Expires(x) => x == r
    case Calls(w, call) =>
      && (call == Unlock(true) || call == GiveBack(true) || call == GetFails(true))
      && (PhaseOf(p, w) == Stored(r) || PhaseOf(p, w) == Stale(r) || PhaseOf(p, w) == Locked(r))
  }

  lemma LockStep(p: System, e: Event, w: nat, r: Range)
    requires Kept(p) && Enabled(p, e)
    ensures Holds(Apply(p, e), w, r) <==> e == Calls(w, TryLock(r, true)) || (Holds(p, w, r) && !Frees(p, e, r))
  {
    assert e.Calls? && e.w in p.phases ==> Fits(p, e.w, p.phases[e.w]);
  }

  /** The worker got the lock in step `i`, and it has been neither given back nor expired. */
  ghost predicate HoldsSince(log: seq<Event>, states: seq<System>, i: nat, n: nat, w: nat, r: Range)
    requires n <= |log| && n < |states|
  {
    i < n && log[i] == Calls(w, TryLock(r, true)) && forall j :: i < j < n ==> !Frees(states[j], log[j], r)
  }

  /** A worker holds a lock from the grant until it is given back or expires, and no longer:
      then the range is free for others. */
  lemma {:induction false} LockMeans(log: seq<Event>, states: seq<System>, n: nat, w: nat, r: Range)
    requires Run(log, states) && n <= |log|
    ensures Holds(states[n], w, r) <==> exists i: nat :: HoldsSince(log, states, i, n, w, r)
  {
    if n > 0 {
      var m := n - 1;
      LockMeans(log, states, m, w, r);
      AlwaysKept(log, states, m);
      LockStep(states[m], log[m], w, r);
      assert states[n] == Apply(states[m], log[m]);
      if Holds(states[n], w, r) {
        if log[m] == Calls(w, TryLock(r, true)) {
          assert HoldsSince(log, states, m, n, w, r);
        } else {
          var i: nat :| HoldsSince(log, states, i, m, w, r);
          assert HoldsSince(log, states, i, n, w, r);
        }
      }
      if i: nat :| HoldsSince(log, states, i, n, w, r) {
        assert i == m || HoldsSince(log, states, i, m, w, r);
      }
    }
  }

  /** The worker's calls in a run are a path of its protocol, as the program's are. */
  function CallsOf(log: seq<Event>, w: nat): seq<Call> {
    if log == [] then []
    else CallsOf(log[..|log| - 1], w) +
         if log[|log| - 1].Calls? && log[|log| - 1].w == w then [log[|log| - 1].call] else []
  }

  lemma {:induction false} RunsFollowProtocol(log: seq<Event>, states: seq<System>, w: nat, n: nat)
    requires Run(log, states) && n <= |log|
    ensures Path(Idle, CallsOf(log[..n], w)) == Some(PhaseOf(states[n], w))
  {
    if n > 0 {
      RunsFollowProtocol(log, states, w, n - 1);
      assert log[..n][..n - 1] == log[..n - 1];
      assert states[n] == Apply(states[n - 1], log[n - 1]);
      if log[n - 1].Calls? && log[n - 1].w == w {
        PathSnoc(Idle, CallsOf(log[..n - 1], w), log[n - 1].call);
      } else {
        assert CallsOf(log[..n], w) == CallsOf(log[..n - 1], w);
      }
    }
  }
}
