/** terautil's dump workers: they share out the key ranges of a table through a lock
    service that also stores a done flag per range. */
module RangeDump {
  import opened Collections

  type Range = nat

  /** Where a worker stands in its protocol; every phase but the first and the last is
      about one range. */
  datatype Phase =
    | Idle
    | Locked(r: Range)
    | Stale(r: Range)
    | Chosen(r: Range)
    | Scanning(r: Range)
    | Scanned(r: Range)
    | Stored(r: Range)
    | Dead

  /** What a worker does, with the answer of the service. */
  datatype Call =
    | TryLock(r: Range, ok: bool)
    | Get(done: bool)
    | GetFails(released: bool)
    | GiveBack(ok: bool)
    | OpenFails
    | NotMapped
    | BeginScan
    | EndScan(ok: bool)
    | Put(ok: bool)
    | Unlock(ok: bool)

  /** The order in which the program makes its calls. */
  function Next(phase: Phase, call: Call): Option<Phase> {
    match (phase, call)
    case (Idle, TryLock(r, ok)) => Some(if ok then Locked(r) else Idle)
    case (Locked(r), Get(done)) => Some(if done then Stale(r) else Chosen(r))
    case (Locked(r), GetFails(_)) => Some(Dead)
    case (Stale(r), GiveBack(_)) => Some(Idle)
    case (Chosen(r), OpenFails) => Some(Idle)
    case (Chosen(r), NotMapped) => Some(Dead)
    case (Chosen(r), BeginScan) => Some(Scanning(r))
    case (Scanning(r), EndScan(ok)) => Some(if ok then Scanned(r) else Idle)
    case (Scanned(r), Put(_)) => Some(Stored(r))
    case (Stored(r), Unlock(_)) => Some(Idle)
    case _ => None
  }

  function Path(phase: Phase, calls: seq<Call>): Option<Phase>
    decreases |calls|
  {
    if calls == [] then Some(phase)
    else match Next(phase, calls[0])
      case None => None
      case Some(next) => Path(next, calls[1..])
  }

  lemma {:induction false} PathConcat(phase: Phase, a: seq<Call>, b: seq<Call>)
    requires Path(phase, a).Some?
    ensures Path(phase, a + b) == Path(Path(phase, a).value, b)
    decreases |a|
  {
    if a == [] {
      assert a + b == b;
    } else {
      assert (a + b)[1..] == a[1..] + b;
      PathConcat(Next(phase, a[0]).value, a[1..], b);
    }
  }

  lemma PathSnoc(phase: Phase, calls: seq<Call>, call: Call)
    requires Path(phase, calls).Some?
    ensures Path(phase, calls + [call]) == Next(Path(phase, calls).value, call)
  {
    PathConcat(phase, calls, [call]);
    assert [call][1..] == [];
  }

  // ---------- the program ----------

  /** A range as the listing shows it, and what the service answers about it. */
  datatype Entry = Entry(r: Range, listedDone: bool, locks: bool, stored: Option<bool>, unlocks: bool)

  /** The program stops looking at this entry. */
  predicate Stops(x: Entry) {
    !x.listedDone && x.locks && x.stored != Some(true)
  }

  /** What the program does about an entry it looks at: nothing if it is listed as done; else
      it tries the lock, and with the lock it reads the flag; a range that is done is given
      back, and so is one whose flag cannot be read. */
  function Looked(x: Entry): seq<Call> {
    if x.listedDone then []
    else if !x.locks then [TryLock(x.r, false)]
    else
      [TryLock(x.r, true)] +
      match x.stored
      case None => [GetFails(x.unlocks)]
      case Some(done) => if done then [Get(true), GiveBack(x.unlocks)] else [Get(false)]
  }

  function LookedAll(xs: seq<Entry>): seq<Call> {
    if xs == [] then [] else LookedAll(xs[..|xs| - 1]) + Looked(xs[|xs| - 1])
  }

  lemma LookedNext(xs: seq<Entry>, i: nat)
    requires i < |xs|
    ensures LookedAll(xs[..i + 1]) == LookedAll(xs[..i]) + Looked(xs[i])
  {
    assert xs[..i + 1][..i] == xs[..i];
  }

  lemma LookedPath(x: Entry)
    ensures Path(Idle, Looked(x)) ==
            Some(if !Stops(x) then Idle else if x.stored.None? then Dead else Chosen(x.r))
  {
    if !x.listedDone {
      var first := [TryLock(x.r, x.locks)];
      PathSnoc(Idle, [], TryLock(x.r, x.locks));
      assert [] + first == first;
      if x.locks {
        if x.stored.None? {
          PathSnoc(Idle, first, GetFails(x.unlocks));
        } else {
          PathSnoc(Idle, first, Get(x.stored.value));
          if x.stored.value {
            PathSnoc(Idle, first + [Get(true)], GiveBack(x.unlocks));
            assert first + [Get(true)] + [GiveBack(x.unlocks)] == Looked(x);
          }
        }
      }
    }
  }

  /** Where the program stops looking, if anywhere. */
  ghost predicate StopsAt(listing: seq<Entry>, i: nat) {
    i < |listing| && Stops(listing[i]) && forall j :: 0 <= j < i ==> !Stops(listing[j])
  }

  /** What GetAndLockDumpRange makes of a listing: it looks at the entries in order up to the
      first at which it stops, and there it aborts if the flag cannot be read, or has found
      its range. */
  ghost predicate Looks(listing: seq<Entry>, found: Option<Range>, aborted: bool, calls: seq<Call>) {
    || (exists i: nat :: StopsAt(listing, i) && calls == LookedAll(listing[..i + 1]) &&
          (aborted <==> listing[i].stored.None?) && found == if aborted then None else Some(listing[i].r))
    || ((forall i :: 0 <= i < |listing| ==> !Stops(listing[i])) && calls == LookedAll(listing) && !aborted && found.None?)
  }

  /** Look at one entry. */
  method LookAt(x: Entry) returns (calls: seq<Call>, stop: bool)
    ensures calls == Looked(x) && (stop <==> Stops(x))
  {
    calls, stop := [], false;
    if x.listedDone {
      return;
    }
    calls := [TryLock(x.r, x.locks)];
    if !x.locks {
      return;
    }
    if x.stored.None? {
      return calls + [GetFails(x.unlocks)], true;
    }
    calls := calls + [Get(x.stored.value)];
    if x.stored.value {
      return calls + [GiveBack(x.unlocks)], false;
    }
    stop := true;
  }

  /** GetAndLockDumpRange: the calls it makes follow the protocol, and it returns the first
      range not listed as done that it can lock and that is not done now. */
  method GetAndLockDumpRange(listing: seq<Entry>) returns (found: Option<Range>, aborted: bool, calls: seq<Call>)
    ensures Path(Idle, calls) == Some(if aborted then Dead else if found.Some? then Chosen(found.value) else Idle)
    ensures Looks(listing, found, aborted, calls)
  {
    found, aborted, calls := None, false, [];
    var i: nat := 0;
    while i < |listing|
      invariant i <= |listing| && Path(Idle, calls) == Some(Idle) && calls == LookedAll(listing[..i])
      invariant forall j :: 0 <= j < i ==> !Stops(listing[j])
    {
      var more, stop := LookAt(listing[i]);
      LookedNext(listing, i);
      LookedPath(listing[i]);
      PathConcat(Idle, calls, more);
      calls := calls + more;
      if stop {
        assert StopsAt(listing, i);
        aborted := listing[i].stored.None?;
        found := if aborted then None else Some(listing[i].r);
        return;
      }
      i := i + 1;
    }
    assert listing[..i] == listing;
  }

  /** What happens to a range once it is chosen: whether its table opens, whether the map of
      tables names a destination for it, whether that opens, and so on. */
  datatype Outcome = Outcome(opens: bool, mapped: bool, opensDest: bool, scans: bool, puts: bool, unlocks: bool)

  /** The lock is given back only after a successful scan. */
  function Dumped(o: Outcome): seq<Call> {
    if !o.opens then [OpenFails]
    else if !o.mapped then [NotMapped]
    else if !o.opensDest then [OpenFails]
    else [BeginScan, EndScan(o.scans)] + if o.scans then [Put(o.puts), Unlock(o.unlocks)] else []
  }

  /** One turn of the worker's loop after a range is chosen; a table without a destination
      ends the worker. */
  method DumpRange(r: Range, o: Outcome) returns (quits: bool, calls: seq<Call>)
    ensures Path(Chosen(r), calls) == Some(if quits then Dead else Idle)
    ensures quits <==> o.opens && !o.mapped
    ensures calls == Dumped(o)
  {
    quits, calls := false, [];
    if !o.opens {
      PathSnoc(Chosen(r), calls, OpenFails);
      return false, [OpenFails];
    }
    if !o.mapped {
      PathSnoc(Chosen(r), calls, NotMapped);
      return true, [NotMapped];
    }
    if !o.opensDest {
      PathSnoc(Chosen(r), calls, OpenFails);
      return false, [OpenFails];
    }
    PathSnoc(Chosen(r), calls, BeginScan);
    calls := calls + [BeginScan];
    PathSnoc(Chosen(r), calls, EndScan(o.scans));
    calls := calls + [EndScan(o.scans)];
    if o.scans {
      PathSnoc(Chosen(r), calls, Put(o.puts));
      calls := calls + [Put(o.puts)];
      PathSnoc(Chosen(r), calls, Unlock(o.unlocks));
      calls := calls + [Unlock(o.unlocks)];
    }
  }

  /** One round of a worker: the listing it gets and what happens to the range it chooses. */
  datatype Round = Round(listing: seq<Entry>, outcome: Outcome)

  /** The calls of a round, and whether the worker goes on after it: only if it found a range
      and did not quit over it. */
  ghost predicate Rounded(x: Round, calls: seq<Call>, goesOn: bool) {
    exists found, aborted, looked :: Looks(x.listing, found, aborted, looked) &&
      calls == looked + (if found.Some? then Dumped(x.outcome) else []) &&
      (goesOn <==> found.Some? && !(x.outcome.opens && !x.outcome.mapped))
  }

  /** The calls of the worker, round by round: `parts[k]` are those of round `k`, and every
      round but the last one made goes on. */
  ghost predicate Rounds(rounds: seq<Round>, parts: seq<seq<Call>>) {
    && |parts| <= |rounds|
    && (forall k :: 0 <= k < |parts| - 1 ==> Rounded(rounds[k], parts[k], true))
    && (parts == [] ==> rounds == [])
    && (parts != [] ==>
          var n := |parts|;
          Rounded(rounds[n - 1], parts[n - 1], false) || (n == |rounds| && Rounded(rounds[n - 1], parts[n - 1], true)))
  }

  function Joined(parts: seq<seq<Call>>): seq<Call> {
    if parts == [] then [] else Joined(parts[..|parts| - 1]) + parts[|parts| - 1]
  }

  lemma JoinedSnoc(parts: seq<seq<Call>>, calls: seq<Call>)
    ensures Joined(parts + [calls]) == Joined(parts) + calls
  {
    assert (parts + [calls])[..|parts|] == parts;
  }

  /** One round. */
  method DumpRound(x: Round) returns (goesOn: bool, calls: seq<Call>)
    ensures Rounded(x, calls, goesOn)
    ensures Path(Idle, calls).Some? && (goesOn ==> Path(Idle, calls) == Some(Idle))
  {
    var found, aborted, looked := GetAndLockDumpRange(x.listing);
    if aborted || found.None? {
      assert looked + [] == looked;
      return false, looked;
    }
    var quits, rest := DumpRange(found.value, x.outcome);
    PathConcat(Idle, looked, rest);
    return !quits, looked + rest;
  }

  /** The rounds made so far. */
  ghost predicate Going(rounds: seq<Round>, parts: seq<seq<Call>>, goesOn: bool) {
    && |parts| <= |rounds| && (parts == [] ==> goesOn)
    && (forall k :: 0 <= k < |parts| - 1 ==> Rounded(rounds[k], parts[k], true))
    && (parts != [] ==> Rounded(rounds[|parts| - 1], parts[|parts| - 1], goesOn))
  }

  lemma GoingNext(rounds: seq<Round>, parts: seq<seq<Call>>, more: seq<Call>, goesOn: bool)
    requires Going(rounds, parts, true) && |parts| < |rounds| && Rounded(rounds[|parts|], more, goesOn)
    ensures Going(rounds, parts + [more], goesOn)
  {
    var all := parts + [more];
    forall k | 0 <= k < |all| - 1 ensures Rounded(rounds[k], all[k], true) {
      assert all[k] == parts[k];
    }
  }

  /** A round more, and the protocol it keeps to. */
  lemma GoingFurther(rounds: seq<Round>, parts: seq<seq<Call>>, calls: seq<Call>, more: seq<Call>, goesOn: bool)
    requires Going(rounds, parts, true) && |parts| < |rounds| && Rounded(rounds[|parts|], more, goesOn)
    requires calls == Joined(parts) && Path(Idle, calls) == Some(Idle)
    requires Path(Idle, more).Some? && (goesOn ==> Path(Idle, more) == Some(Idle))
    ensures Going(rounds, parts + [more], goesOn) && calls + more == Joined(parts + [more])
    ensures Path(Idle, calls + more).Some? && (goesOn ==> Path(Idle, calls + more) == Some(Idle))
  {
    PathConcat(Idle, calls, more);
    JoinedSnoc(parts, more);
    GoingNext(rounds, parts, more, goesOn);
  }

  lemma GoingEnds(rounds: seq<Round>, parts: seq<seq<Call>>, goesOn: bool)
    requires Going(rounds, parts, goesOn) && (goesOn ==> |parts| == |rounds|)
    ensures Rounds(rounds, parts)
  {
  }

  /** A worker's whole run: it makes the calls of every round up to the first after which it
      does not go on, and every sequence of calls it can make follows the protocol. */
  method DumpRun(rounds: seq<Round>) returns (calls: seq<Call>, ghost parts: seq<seq<Call>>)
    ensures calls == Joined(parts) && Rounds(rounds, parts)
    ensures Path(Idle, calls).Some?
  {
    calls, parts := [], [];
    var k: nat, goesOn := 0, true;
    while goesOn && k < |rounds|
      invariant k == |parts| && calls == Joined(parts) && Going(rounds, parts, goesOn)
      invariant Path(Idle, calls).Some? && (goesOn ==> Path(Idle, calls) == Some(Idle))
      decreases |rounds| - k
    {
      var on, more := DumpRound(rounds[k]);
      GoingFurther(rounds, parts, calls, more, on);
      calls, parts, goesOn, k := calls + more, parts + [more], on, k + 1;
    }
    GoingEnds(rounds, parts, goesOn);
  }
}
