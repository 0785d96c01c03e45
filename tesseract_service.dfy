/** The OCR worker pool of `TesseractService`: at most three wrapped workers,
    each with a busy flag and the time it was last handed back. The pool's
    `Map` iterates in insertion order, so it is kept here as a sequence in
    that order; a worker handle is a number. Time is the caller's `now`. */
module TesseractService {

  const MAX_WORKERS: nat := 3
  /** Idle workers older than this many milliseconds are evicted. */
  const IDLE_TIMEOUT: int := 5 * 60 * 1000

  /** One entry of the pool: the worker handle and its wrapper fields. */
  datatype PooledWorker = PooledWorker(id: nat, busy: bool, lastUsed: int)

  /** What one call of `getWorker` gives: an idle worker claimed again, a
      worker created for the call, a rejection because `createWorker`
      rejected (nothing is added), or nothing yet (the caller keeps polling). */
  datatype Acquire = Reused(id: nat) | Created(id: nat) | CreateFailed | MustWait

  predicate UniqueIds(ws: seq<PooledWorker>)
  {
    forall a, b :: 0 <= a < b < |ws| ==> ws[a].id != ws[b].id
  }

  predicate HasId(ws: seq<PooledWorker>, id: nat)
  {
    exists k :: 0 <= k < |ws| && ws[k].id == id
  }

  /** Position of the first idle worker in iteration order, or -1 when every
      worker is busy (the `find(w => !w.busy)` of the source). */
  function FirstIdle(ws: seq<PooledWorker>): (r: int)
    ensures -1 <= r < |ws|
    ensures r >= 0 ==> !ws[r].busy && forall m :: 0 <= m < r ==> ws[m].busy
    ensures r == -1 <==> forall m :: 0 <= m < |ws| ==> ws[m].busy
  {
    if ws == [] then -1
    else if !ws[0].busy then 0
    else
      var r := FirstIdle(ws[1..]);
      if r < 0 then -1 else r + 1
  }

  /** The effect of `getWorker` on the pool (lines 13-28, and the waiting
      branch at 31), given the handle `handle` that `createWorker` would make
      and whether that call resolves (`createOk`). */
  function AcquireStep(ws: seq<PooledWorker>, handle: nat, createOk: bool, now: int): (r: (seq<PooledWorker>, Acquire))
    ensures |ws| <= |r.0| <= |ws| + 1
    ensures r.0 == ws <==> r.1.MustWait? || r.1.CreateFailed?
    ensures |r.0| == |ws| + 1 <==> r.1.Created?
    ensures r.1.CreateFailed? ==> !createOk
  {
    var k := FirstIdle(ws);
    if k >= 0 then (ws[k := ws[k].(busy := true)], Reused(ws[k].id))
    else if |ws| < MAX_WORKERS then
      if createOk then (ws + [PooledWorker(handle, true, now)], Created(handle)) else (ws, CreateFailed)
    else (ws, MustWait)
  }

  /** The effect of `releaseWorker`: the one worker with that handle becomes
      idle, stamped with `now`. */
  function ReleaseStep(ws: seq<PooledWorker>, id: nat, now: int): (r: seq<PooledWorker>)
    ensures |r| == |ws|
    ensures forall k :: 0 <= k < |ws| && ws[k].id != id ==> r[k] == ws[k]
    ensures forall k :: 0 <= k < |ws| && ws[k].id == id ==> r[k] == PooledWorker(id, false, now)
  {
    if ws == [] then []
    else [if ws[0].id == id then PooledWorker(id, false, now) else ws[0]] + ReleaseStep(ws[1..], id, now)
  }

  /** Whether `cleanup` evicts this worker at time `now`. */
  predicate Expired(w: PooledWorker, now: int)
  {
    !w.busy && now - w.lastUsed > IDLE_TIMEOUT
  }

  /** The workers that `cleanup` leaves, in their order; it never adds one. */
  function Survivors(ws: seq<PooledWorker>, now: int): (r: seq<PooledWorker>)
    ensures |r| <= |ws|
  {
    if ws == [] then []
    else
      var last := ws[|ws| - 1];
      Survivors(ws[..|ws| - 1], now) + (if Expired(last, now) then [] else [last])
  }

  /** A worker is kept by `cleanup` exactly when it was in the pool and is not
      an idle worker older than the timeout; kept records are unchanged. */
  lemma {:induction false} SurvivorsExactly(ws: seq<PooledWorker>, now: int, w: PooledWorker)
    ensures w in Survivors(ws, now) <==> w in ws && !Expired(w, now)
  {
    if ws != [] {
      var init := ws[..|ws| - 1];
      SurvivorsExactly(init, now, w);
      assert ws == init + [ws[|ws| - 1]];
    }
  }

  /** `cleanup` keeps handles distinct. */
  lemma {:induction false} SurvivorsUnique(ws: seq<PooledWorker>, now: int)
    requires UniqueIds(ws)
    ensures UniqueIds(Survivors(ws, now))
  {
    if ws != [] {
      var init := ws[..|ws| - 1];
      var last := ws[|ws| - 1];
      assert UniqueIds(init);
      SurvivorsUnique(init, now);
      var s := Survivors(init, now);
      forall a | 0 <= a < |s| ensures s[a].id != last.id {
        SurvivorsExactly(init, now, s[a]);
        var m :| 0 <= m < |init| && init[m] == s[a];
        assert ws[m] == init[m];
      }
    }
  }

  /** Pool bound: no step of `getWorker` takes the pool above MAX_WORKERS. */
  lemma AcquireKeepsBound(ws: seq<PooledWorker>, handle: nat, createOk: bool, now: int)
    requires |ws| <= MAX_WORKERS
    ensures |AcquireStep(ws, handle, createOk, now).0| <= MAX_WORKERS
  {
  }

  /** With an idle worker present, `getWorker` hands back the first idle one,
      creates nothing, and leaves every other entry (and that worker's
      `lastUsed`) as it was. */
  lemma AcquirePrefersIdle(ws: seq<PooledWorker>, handle: nat, createOk: bool, now: int)
    requires exists k :: 0 <= k < |ws| && !ws[k].busy
    ensures var (ws', r) := AcquireStep(ws, handle, createOk, now);
      var k := FirstIdle(ws);
      && r.Reused? && |ws'| == |ws|
      && 0 <= k < |ws| && !ws[k].busy && ws[k].id == r.id
      && (forall m :: 0 <= m < k ==> ws[m].busy)
      && ws'[k] == ws[k].(busy := true)
      && forall m :: 0 <= m < |ws| && m != k ==> ws'[m] == ws[m]
  {
    var k := FirstIdle(ws);
    assert k >= 0;
  }

  /** Exclusivity: whatever `getWorker` returns was idle or did not exist
      before the call, and is busy in the pool afterwards. */
  lemma AcquireIsExclusive(ws: seq<PooledWorker>, handle: nat, createOk: bool, now: int)
    requires UniqueIds(ws) && !HasId(ws, handle)
    ensures var (ws', r) := AcquireStep(ws, handle, createOk, now);
      r.Reused? || r.Created? ==>
        && (forall k :: 0 <= k < |ws| && ws[k].id == r.id ==> !ws[k].busy)
        && exists k :: 0 <= k < |ws'| && ws'[k].id == r.id && ws'[k].busy
  {
    var (ws', r) := AcquireStep(ws, handle, createOk, now);
    var k := FirstIdle(ws);
    if k >= 0 {
      assert ws'[k].id == r.id && ws'[k].busy;
    } else if |ws| < MAX_WORKERS && createOk {
      assert ws'[|ws|].id == handle == r.id && ws'[|ws|].busy;
      forall m | 0 <= m < |ws| ensures ws[m].id != r.id {
        assert !(ws[m].id == handle);
      }
    }
  }

  /** A created worker enters the pool busy and stamped with `now`. */
  lemma CreatedWorkerIsFresh(ws: seq<PooledWorker>, handle: nat, now: int)
    requires forall k :: 0 <= k < |ws| ==> ws[k].busy
    requires |ws| < MAX_WORKERS
    ensures AcquireStep(ws, handle, true, now) == (ws + [PooledWorker(handle, true, now)], Created(handle))
  {
  }

  /** When `createWorker` rejects, `getWorker` rejects too and the pool is
      left as it was: no entry is added for the failed worker. */
  lemma FailedCreateKeepsPool(ws: seq<PooledWorker>, handle: nat, now: int)
    requires forall k :: 0 <= k < |ws| ==> ws[k].busy
    requires |ws| < MAX_WORKERS
    ensures AcquireStep(ws, handle, false, now) == (ws, CreateFailed)
  {
  }

  /** `getWorker` must wait exactly when the pool is full and every worker is
      busy; the pool is then unchanged. */
  lemma {:induction false} AcquireWaitsOnlyWhenSaturated(ws: seq<PooledWorker>, handle: nat, createOk: bool, now: int)
    requires |ws| <= MAX_WORKERS
    ensures AcquireStep(ws, handle, createOk, now).1 == MustWait
      <==> |ws| == MAX_WORKERS && forall k :: 0 <= k < |ws| ==> ws[k].busy
    ensures AcquireStep(ws, handle, createOk, now).1 == MustWait ==> AcquireStep(ws, handle, createOk, now).0 == ws
  {
  }

  /** Releasing changes neither the membership nor the order of the pool. */
  lemma ReleaseKeepsMembers(ws: seq<PooledWorker>, id: nat, now: int, h: nat)
    ensures HasId(ReleaseStep(ws, id, now), h) <==> HasId(ws, h)
  {
    var r := ReleaseStep(ws, id, now);
    if HasId(r, h) {
      var k :| 0 <= k < |r| && r[k].id == h;
      assert ws[k].id == h;
    }
    if HasId(ws, h) {
      var k :| 0 <= k < |ws| && ws[k].id == h;
      assert r[k].id == h;
    }
  }

  /** The pool object: the worker map in insertion order and the source of
      fresh handles standing in for `createWorker`. */
  class WorkerPool {
    var workers: seq<PooledWorker>
    var nextId: nat

    ghost predicate Valid()
      reads this
    {
      && |workers| <= MAX_WORKERS
      && UniqueIds(workers)
      && forall k :: 0 <= k < |workers| ==> workers[k].id < nextId
    }

    constructor ()
      ensures Valid() && workers == []
    {
      workers := [];
      nextId := 0;
    }

    /** The linear search behind `find(w => !w.busy)`. */
    method FindIdle() returns (k: int)
      ensures k == FirstIdle(workers)
    {
      k := 0;
      while k < |workers| && workers[k].busy
        invariant 0 <= k <= |workers|
        invariant forall m :: 0 <= m < k ==> workers[m].busy
      {
        k := k + 1;
      }
      if k == |workers| {
        k := -1;
      }
    }

    /** `getWorker`: reuse the first idle worker, else create one while below
        the cap, else answer that the caller must wait. */
    method GetWorker(now: int, createOk: bool) returns (r: Acquire)
      requires Valid()
      modifies this
      ensures Valid()
      ensures (workers, r) == AcquireStep(old(workers), old(nextId), createOk, now)
      ensures nextId == if r.Created? then old(nextId) + 1 else old(nextId)
    {
      var k := FindIdle();
      if k >= 0 {
        workers := workers[k := workers[k].(busy := true)];
        r := Reused(workers[k].id);
      } else if |workers| < MAX_WORKERS {
        if createOk {
          r := Created(nextId);
          workers := workers + [PooledWorker(nextId, true, now)];
          nextId := nextId + 1;
        } else {
          r := CreateFailed;
        }
      } else {
        r := MustWait;
      }
    }

    /** One tick of the 100 ms polling wait: claim the first idle worker if
        there is one, otherwise leave the pool as it is. */
    method PollOnce() returns (claimed: int)
      requires Valid()
      modifies this
      ensures Valid() && nextId == old(nextId)
      ensures claimed == -1 <==> forall m :: 0 <= m < |old(workers)| ==> old(workers)[m].busy
      ensures claimed == -1 ==> workers == old(workers)
      ensures claimed >= 0 ==>
        var k := FirstIdle(old(workers));
        k >= 0 && claimed == old(workers)[k].id && workers == old(workers)[k := old(workers)[k].(busy := true)]
    {
      var k := FindIdle();
      if k >= 0 {
        claimed := workers[k].id;
        workers := workers[k := workers[k].(busy := true)];
      } else {
        claimed := -1;
      }
    }

    /** `releaseWorker`: the caller hands back the wrapper it holds; only
        that entry changes. */
    method ReleaseWorker(id: nat, now: int)
      requires Valid()
      modifies this
      ensures Valid() && nextId == old(nextId)
      ensures workers == ReleaseStep(old(workers), id, now)
    {
      workers := ReleaseStep(workers, id, now);
      assert forall k :: 0 <= k < |workers| ==> workers[k].id == old(workers)[k].id;
    }

    /** `cleanup`: walk the map and delete every idle worker unused for more
        than IDLE_TIMEOUT, terminating each first; `terminateOk` says whose
        `terminate` resolves. `completed` is false when the call rejects. */
    method Cleanup(now: int, terminateOk: nat -> bool) returns (completed: bool)
      requires Valid()
      modifies this
      ensures Valid() && nextId == old(nextId)
      ensures workers == CleanupStep(old(workers), now, terminateOk)
      ensures completed <==> FirstRejection(old(workers), now, terminateOk) == |old(workers)|
    {
      CleanupValid(workers, now, terminateOk, nextId);
      workers, completed := DropExpired(workers, now, terminateOk);
    }
  }

  /** The walk of `cleanup` over the map's entries: each expired entry is
      terminated, then deleted where it stands, and the walk goes on with the
      next one. A rejected `terminate` ends the walk there, with the failing
      entry and every later one still in the map. */
  method DropExpired(ws: seq<PooledWorker>, now: int, terminateOk: nat -> bool)
    returns (remaining: seq<PooledWorker>, completed: bool)
    ensures remaining == CleanupStep(ws, now, terminateOk)
    ensures completed <==> FirstRejection(ws, now, terminateOk) == |ws|
  {
    remaining, completed := ws, true;
    ghost var i := 0;
    var j := 0;
    while j < |remaining|
      invariant 0 <= i <= |ws|
      invariant j == |Survivors(ws[..i], now)|
      invariant remaining == Survivors(ws[..i], now) + ws[i..]
      invariant forall m :: 0 <= m < i ==> !TerminateRejects(ws[m], now, terminateOk)
      decreases |ws| - i
    {
      WalkStep(ws, i, now, remaining, j);
      if Expired(remaining[j], now) {
        if !terminateOk(remaining[j].id) {
          RejectionAt(ws, now, terminateOk, i);
          return remaining, false;
        }
        remaining := remaining[..j] + remaining[j + 1..];
      } else {
        j := j + 1;
      }
      i := i + 1;
    }
    RejectionAt(ws, now, terminateOk, i);
  }

  /** Whether `cleanup` calls `terminate` on this worker and that call
      rejects. */
  predicate TerminateRejects(w: PooledWorker, now: int, terminateOk: nat -> bool)
  {
    Expired(w, now) && !terminateOk(w.id)
  }

  /** Position of the first entry whose `terminate` rejects during the walk,
      or the pool's length when none does. */
  function FirstRejection(ws: seq<PooledWorker>, now: int, terminateOk: nat -> bool): (f: nat)
    ensures f <= |ws|
    ensures f < |ws| ==> TerminateRejects(ws[f], now, terminateOk)
    ensures forall m :: 0 <= m < f ==> !TerminateRejects(ws[m], now, terminateOk)
  {
    if ws == [] then 0
    else if TerminateRejects(ws[0], now, terminateOk) then 0
    else 1 + FirstRejection(ws[1..], now, terminateOk)
  }

  /** The pool `cleanup` leaves: the survivors of the part walked before the
      first rejected `terminate`, then the rest untouched. */
  function CleanupStep(ws: seq<PooledWorker>, now: int, terminateOk: nat -> bool): (r: seq<PooledWorker>)
    ensures |r| <= |ws|
  {
    var f := FirstRejection(ws, now, terminateOk);
    Survivors(ws[..f], now) + ws[f..]
  }

  /** The position where the walk stops is the first rejection. */
  lemma RejectionAt(ws: seq<PooledWorker>, now: int, terminateOk: nat -> bool, i: nat)
    requires i <= |ws|
    requires forall m :: 0 <= m < i ==> !TerminateRejects(ws[m], now, terminateOk)
    requires i < |ws| ==> TerminateRejects(ws[i], now, terminateOk)
    ensures FirstRejection(ws, now, terminateOk) == i
    ensures i == |ws| ==> CleanupStep(ws, now, terminateOk) == Survivors(ws, now)
  {
    assert ws[..|ws|] == ws;
  }

  /** When every `terminate` resolves, the walk runs to its end and
      `cleanup` leaves exactly the survivors. */
  lemma CleanupWithoutRejection(ws: seq<PooledWorker>, now: int, terminateOk: nat -> bool)
    requires forall k :: 0 <= k < |ws| ==> terminateOk(ws[k].id)
    ensures FirstRejection(ws, now, terminateOk) == |ws|
    ensures CleanupStep(ws, now, terminateOk) == Survivors(ws, now)
  {
    RejectionAt(ws, now, terminateOk, |ws|);
  }

  /** After `cleanup`, a worker is in the pool exactly when it is a
      non-expired one from before the first rejected `terminate`, or any one
      from that point on. */
  lemma CleanupKeepsExactly(ws: seq<PooledWorker>, now: int, terminateOk: nat -> bool, w: PooledWorker)
    ensures var f := FirstRejection(ws, now, terminateOk);
      w in CleanupStep(ws, now, terminateOk) <==> (w in ws[..f] && !Expired(w, now)) || w in ws[f..]
  {
    var f := FirstRejection(ws, now, terminateOk);
    SurvivorsExactly(ws[..f], now, w);
  }

  /** `cleanup`, complete or not, keeps the pool's invariant. */
  lemma CleanupValid(ws: seq<PooledWorker>, now: int, terminateOk: nat -> bool, bound: nat)
    requires UniqueIds(ws) && forall k :: 0 <= k < |ws| ==> ws[k].id < bound
    ensures UniqueIds(CleanupStep(ws, now, terminateOk))
    ensures forall k :: 0 <= k < |CleanupStep(ws, now, terminateOk)| ==> CleanupStep(ws, now, terminateOk)[k].id < bound
  {
    var f := FirstRejection(ws, now, terminateOk);
    var init, rest := ws[..f], ws[f..];
    var s := Survivors(init, now);
    assert ws == init + rest;
    assert UniqueIds(s + rest) by {
      UniqueParts(init, rest);
      SurvivorsUnique(init, now);
      SurvivorsApart(init, rest, now);
      UniqueJoin(s, rest);
    }
    assert forall k :: 0 <= k < |s| ==> s[k].id < bound by {
      SurvivorsValid(init, now, bound);
    }
  }

  /** A survivor of the walked part shares its id with no entry after it. */
  lemma SurvivorsApart(init: seq<PooledWorker>, rest: seq<PooledWorker>, now: int)
    requires UniqueIds(init + rest)
    ensures forall a, b :: 0 <= a < |Survivors(init, now)| && 0 <= b < |rest| ==>
      Survivors(init, now)[a].id != rest[b].id
  {
    var s := Survivors(init, now);
    forall a, b | 0 <= a < |s| && 0 <= b < |rest| ensures s[a].id != rest[b].id {
      SurvivorsExactly(init, now, s[a]);
      var m :| 0 <= m < |init| && init[m] == s[a];
      assert (init + rest)[m] == s[a] && (init + rest)[|init| + b] == rest[b];
    }
  }

  /** Both halves of a pool with distinct ids have distinct ids. */
  lemma UniqueParts(init: seq<PooledWorker>, rest: seq<PooledWorker>)
    requires UniqueIds(init + rest)
    ensures UniqueIds(init) && UniqueIds(rest)
  {
    var ws := init + rest;
    forall a, b | 0 <= a < b < |rest| ensures rest[a].id != rest[b].id {
      assert ws[|init| + a] == rest[a] && ws[|init| + b] == rest[b];
    }
    forall a, b | 0 <= a < b < |init| ensures init[a].id != init[b].id {
      assert ws[a] == init[a] && ws[b] == init[b];
    }
  }

  /** Two pools with distinct ids, sharing none, join into one. */
  lemma UniqueJoin(s: seq<PooledWorker>, t: seq<PooledWorker>)
    requires UniqueIds(s) && UniqueIds(t)
    requires forall a, b :: 0 <= a < |s| && 0 <= b < |t| ==> s[a].id != t[b].id
    ensures UniqueIds(s + t)
  {
    var r := s + t;
    forall a, b | 0 <= a < b < |r| ensures r[a].id != r[b].id {
      if a >= |s| {
        assert r[a] == t[a - |s|] && r[b] == t[b - |s|];
      } else if b >= |s| {
        assert r[a] == s[a] && r[b] == t[b - |s|];
      }
    }
  }

  /** One step of the walk: the entry at the cursor is the next one of the
      original map; deleting it when expired, or stepping past it when not,
      keeps the walked part equal to the survivors so far. */
  lemma WalkStep(ws: seq<PooledWorker>, i: nat, now: int, remaining: seq<PooledWorker>, j: nat)
    requires i <= |ws| && j == |Survivors(ws[..i], now)|
    requires remaining == Survivors(ws[..i], now) + ws[i..] && j < |remaining|
    ensures i < |ws| && remaining[j] == ws[i]
    ensures Expired(ws[i], now) ==>
      && remaining[..j] + remaining[j + 1..] == Survivors(ws[..i + 1], now) + ws[i + 1..]
      && j == |Survivors(ws[..i + 1], now)|
    ensures !Expired(ws[i], now) ==>
      && remaining == Survivors(ws[..i + 1], now) + ws[i + 1..]
      && j + 1 == |Survivors(ws[..i + 1], now)|
  {
    SurvivorsStep(ws, i, now);
    WalkSlices(Survivors(ws[..i], now), ws, i, remaining);
  }

  /** The cursor of the walk sits between the part already walked and the
      rest of the original entries. */
  lemma WalkSlices(done: seq<PooledWorker>, ws: seq<PooledWorker>, i: nat, remaining: seq<PooledWorker>)
    requires i <= |ws| && remaining == done + ws[i..] && |done| < |remaining|
    ensures i < |ws| && remaining[|done|] == ws[i]
    ensures remaining[..|done|] == done && remaining[|done| + 1..] == ws[i + 1..]
  {
    assert ws[i..] == [ws[i]] + ws[i + 1..];
  }

  lemma SurvivorsStep(ws: seq<PooledWorker>, i: nat, now: int)
    requires i < |ws|
    ensures Survivors(ws[..i + 1], now)
      == Survivors(ws[..i], now) + (if Expired(ws[i], now) then [] else [ws[i]])
  {
    assert ws[..i + 1][..i] == ws[..i];
  }

  lemma SurvivorsValid(ws: seq<PooledWorker>, now: int, bound: nat)
    requires UniqueIds(ws) && forall k :: 0 <= k < |ws| ==> ws[k].id < bound
    ensures |Survivors(ws, now)| <= |ws|
    ensures UniqueIds(Survivors(ws, now))
    ensures forall k :: 0 <= k < |Survivors(ws, now)| ==> Survivors(ws, now)[k].id < bound
  {
    SurvivorsUnique(ws, now);
    var s := Survivors(ws, now);
    forall k | 0 <= k < |s| ensures s[k].id < bound {
      SurvivorsExactly(ws, now, s[k]);
    }
  }
}
