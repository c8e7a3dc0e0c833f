/**
 One tick of the spawner interval in `Game.initScene` as a pure transition.

 The state is abstract: the tick counter (which doubles as the identity of
 each spawned body), the insertion-ordered list of live bodies, the set of
 bodies registered in the physics world, and the log of removal requests the
 spawner has sent to the visual helper and to the world. A tick spawns body
 `ticks + 1`, adds it to the world, appends it to the list and, once the list
 holds more than `Capacity` bodies, shifts the front body off and asks for
 its removal from both the helper and the world.
 */
module Spawner {
  import opened Spawn

  /** Most bodies the spawner keeps alive after a tick. */
  const Capacity: nat := 30

  /** A removal request: `removeVisual` to the helper, `removeBody` to the world. */
  datatype Request = RemoveVisual(id: nat) | RemoveBody(id: nat)

  /** What a tick shifted off the front of the live list, if anything. */
  datatype Eviction = Kept | Evicted(id: nat)

  datatype State = State(ticks: nat, bodies: seq<nat>, world: set<nat>, removals: seq<Request>)

  /** Result of one tick: the new state, the body spawned and the eviction. */
  datatype Step = Step(next: State, spawned: Body, eviction: Eviction)

  /** The spawner before its first tick. */
  const Init: State := State(0, [], {}, [])

  function Min(a: int, b: int): int {
    if a <= b then a else b
  }

  function Members(q: seq<nat>): set<nat> {
    set id | id in q
  }

  /** The ids a tick shifted off, as a list of zero or one element. */
  function Shifted(e: Eviction): seq<nat> {
    match e
    case Kept => []
    case Evicted(id) => [id]
  }

  /** The requests a tick sends for its eviction, helper first. */
  function Requests(e: Eviction): seq<Request> {
    match e
    case Kept => []
    case Evicted(id) => [RemoveVisual(id), RemoveBody(id)]
  }

  /** One tick of the interval. What leaves the front of the list followed
      by what remains is exactly the old list with the new body appended: the
      list is a FIFO queue, at most one body leaves, and one leaves exactly
      when the list was full. The world gains the new body and loses the
      evicted one; the log gains the two requests for the evicted body. */
  function Tick(s: State, d: Draws): (t: Step)
    ensures t.next.ticks == s.ticks + 1 && t.spawned.id == t.next.ticks
    ensures t.spawned == SpawnBody(t.spawned.id, d)
    ensures t.eviction.Evicted? <==> |s.bodies| >= Capacity
    ensures Shifted(t.eviction) + t.next.bodies == s.bodies + [t.spawned.id]
    ensures t.next.world == s.world + {t.spawned.id} - Members(Shifted(t.eviction))
    ensures t.next.removals == s.removals + Requests(t.eviction)
    ensures |s.bodies| <= Capacity ==> |t.next.bodies| <= Capacity
  {
    var id := s.ticks + 1;
    var body := SpawnBody(id, d);
    var world := s.world + {id};
    var queue := s.bodies + [id];
    if |queue| > Capacity then
      var victim := queue[0];
      assert [victim] + queue[1..] == queue;
      Step(State(id, queue[1..], world - {victim}, s.removals + [RemoveVisual(victim), RemoveBody(victim)]),
           body, Evicted(victim))
    else
      Step(State(id, queue, world, s.removals), body, Kept)
  }

  /** The removal requests for bodies 1 to n, in eviction order. */
  function EvictionLog(n: nat): (log: seq<Request>)
    ensures |log| == 2 * n
  {
    if n == 0 then [] else EvictionLog(n - 1) + [RemoveVisual(n), RemoveBody(n)]
  }

  /** Oldest live id of a state whose live list is the newest bodies. */
  function Oldest(s: State): int {
    s.ticks - |s.bodies| + 1
  }

  /** The reachable states: the live list is the `min(ticks, Capacity)`
      newest bodies in spawn order, the world holds exactly the live bodies,
      and every older body has had both removal requests sent, in order. */
  ghost predicate Valid(s: State) {
    && |s.bodies| == Min(s.ticks, Capacity)
    && (forall k :: 0 <= k < |s.bodies| ==> s.bodies[k] == Oldest(s) + k)
    && s.world == Members(s.bodies)
    && s.removals == EvictionLog(s.ticks - |s.bodies|)
  }

  lemma InitValid()
    ensures Valid(Init)
  {
  }

  /** Each tick keeps the state reachable. */
  lemma TickValid(s: State, d: Draws)
    requires Valid(s)
    ensures Valid(Tick(s, d).next)
  {
    var t := Tick(s, d);
    var n := s.ticks;
    var id := n + 1;
    var q := s.bodies + [id];
    if |s.bodies| >= Capacity {
      var victim := s.bodies[0];
      assert t.next.bodies == q[1..];
      assert victim == n - Capacity + 1;
      forall k | 0 <= k < |t.next.bodies|
        ensures t.next.bodies[k] == Oldest(t.next) + k
      {
        assert t.next.bodies[k] == q[k + 1];
      }
      assert t.next.world == Members(t.next.bodies) by {
        assert Members(q) == Members(s.bodies) + {id};
        assert Members(q) == {victim} + Members(t.next.bodies) by {
          assert q == [victim] + t.next.bodies;
        }
      }
      assert EvictionLog(victim) == EvictionLog(victim - 1) + Requests(t.eviction);
    } else {
      assert Members(q) == Members(s.bodies) + {id};
    }
  }

  /** The state after running one tick per sample record, from `Init`. */
  function Run(ds: seq<Draws>): State
    decreases |ds|
  {
    if |ds| == 0 then Init else Tick(Run(ds[..|ds| - 1]), ds[|ds| - 1]).next
  }

  /** Every state the spawner reaches is valid, after as many ticks as there
      were sample records; in particular after n ticks the live list holds
      exactly min(n, Capacity) bodies, never more than `Capacity`. */
  lemma {:induction false} RunValid(ds: seq<Draws>)
    ensures Run(ds).ticks == |ds|
    ensures |Run(ds).bodies| == Min(|ds|, Capacity) <= Capacity
    ensures Valid(Run(ds))
  {
    if |ds| == 0 {
      InitValid();
    } else {
      RunValid(ds[..|ds| - 1]);
      TickValid(Run(ds[..|ds| - 1]), ds[|ds| - 1]);
    }
  }

  /** In a reachable state the live list is in strictly increasing spawn
      order (so it has no duplicates) and holds only bodies already spawned. */
  lemma ValidSpawnOrder(s: State)
    requires Valid(s)
    ensures forall i, j :: 0 <= i < j < |s.bodies| ==> s.bodies[i] < s.bodies[j]
    ensures forall id :: id in s.bodies ==> 1 <= id <= s.ticks
  {
  }

  /** In a reachable state the live bodies are exactly the ids from the
      oldest live one up to the latest tick. */
  lemma ValidLiveRange(s: State, id: nat)
    requires Valid(s)
    ensures id in s.bodies <==> Oldest(s) <= id <= s.ticks
  {
    if Oldest(s) <= id <= s.ticks {
      assert s.bodies[id - Oldest(s)] == id;
    }
  }

  /** A tick evicts exactly when the spawner has already run `Capacity`
      ticks, and the body evicted is the front of the list: the oldest live
      body, older than every other. The survivors keep their order and the
      new body sits at the back. */
  lemma TickEvictsOldest(s: State, d: Draws)
    requires Valid(s)
    ensures Tick(s, d).eviction.Evicted? <==> s.ticks >= Capacity
    ensures Tick(s, d).eviction.Evicted? ==>
              && Tick(s, d).eviction.id == s.bodies[0]
              && (forall id :: id in s.bodies ==> Tick(s, d).eviction.id <= id)
              && Tick(s, d).next.bodies == s.bodies[1..] + [Tick(s, d).spawned.id]
    ensures Tick(s, d).eviction.Kept? ==> Tick(s, d).next.bodies == s.bodies + [Tick(s, d).spawned.id]
  {
  }

  /** The body spawned by a tick is fresh and is never the one that tick
      evicts: it ends up live, at the back of the list, and in the world. */
  lemma TickSparesNewcomer(s: State, d: Draws)
    requires Valid(s)
    ensures Tick(s, d).spawned.id !in s.bodies
    ensures Tick(s, d).eviction != Evicted(Tick(s, d).spawned.id)
    ensures Tick(s, d).next.bodies[|Tick(s, d).next.bodies| - 1] == Tick(s, d).spawned.id
    ensures Tick(s, d).spawned.id in Tick(s, d).next.world
  {
  }

  /** The log for bodies 1 to n names exactly those bodies, each with its
      helper request immediately followed by its world request. */
  lemma {:induction false} EvictionLogContents(n: nat, id: nat)
    ensures RemoveVisual(id) in EvictionLog(n) <==> 1 <= id <= n
    ensures RemoveBody(id) in EvictionLog(n) <==> 1 <= id <= n
    ensures 1 <= id <= n ==>
              EvictionLog(n)[2 * id - 2] == RemoveVisual(id) && EvictionLog(n)[2 * id - 1] == RemoveBody(id)
  {
    if n > 0 {
      EvictionLogContents(n - 1, id);
      var tail := [RemoveVisual(n), RemoveBody(n)];
      assert EvictionLog(n) == EvictionLog(n - 1) + tail;
      if 1 <= id < n {
        assert EvictionLog(n)[2 * id - 2] == EvictionLog(n - 1)[2 * id - 2];
        assert EvictionLog(n)[2 * id - 1] == EvictionLog(n - 1)[2 * id - 1];
      }
    }
  }

  /** In a reachable state a body has had a removal request, of either kind,
      exactly when it was spawned and is no longer live: every evicted body
      has had both, and no live or future body has had either. */
  lemma ValidRemovals(s: State, id: nat)
    requires Valid(s)
    ensures RemoveVisual(id) in s.removals <==> 1 <= id <= s.ticks && id !in s.bodies
    ensures RemoveBody(id) in s.removals <==> 1 <= id <= s.ticks && id !in s.bodies
  {
    EvictionLogContents(s.ticks - |s.bodies|, id);
    ValidLiveRange(s, id);
  }

  /** The invariant pins the state down: two reachable states after the
      same number of ticks are equal. */
  lemma ValidUnique(s: State, s': State)
    requires Valid(s) && Valid(s') && s.ticks == s'.ticks
    ensures s == s'
  {
    assert s.bodies == s'.bodies;
  }

  /** Once evicted, a body never comes back: later ticks neither list it
      nor put it back into the world. */
  lemma {:induction false} EvictedNeverReturns(ds: seq<Draws>, later: seq<Draws>, id: nat)
    requires 1 <= id <= |ds| && id !in Run(ds).bodies
    ensures id !in Run(ds + later).bodies
    ensures id !in Run(ds + later).world
  {
    RunValid(ds);
    RunValid(ds + later);
    ValidLiveRange(Run(ds), id);
    ValidLiveRange(Run(ds + later), id);
  }

  /** While the list is filling up, nothing is evicted. */
  lemma {:induction false} FillingEvictsNothing(ds: seq<Draws>)
    requires |ds| <= Capacity
    ensures |Run(ds).bodies| == |ds|
    ensures forall id :: 1 <= id <= |ds| ==> id in Run(ds).bodies && id in Run(ds).world
    ensures Run(ds).removals == []
  {
    RunValid(ds);
    forall id | 1 <= id <= |ds|
      ensures id in Run(ds).bodies && id in Run(ds).world
    {
      ValidLiveRange(Run(ds), id);
    }
  }

  /** A reachable state one tick past `Capacity`: bodies 2 to 31 are live,
      body 1 is gone from the world, and exactly its two requests were sent. */
  lemma ValidOnePastCapacity(s: State)
    requires Valid(s) && s.ticks == Capacity + 1
    ensures |s.bodies| == Capacity
    ensures forall k :: 0 <= k < Capacity ==> s.bodies[k] == k + 2
    ensures 1 !in s.world
    ensures s.removals == [RemoveVisual(1), RemoveBody(1)]
  {
    ValidLiveRange(s, 1);
    assert EvictionLog(1) == EvictionLog(0) + [RemoveVisual(1), RemoveBody(1)];
  }

  /** The 31st tick evicts the first body: 30 remain, bodies 2 to 31, and
      body 1 is gone from the world with both removal requests sent. */
  lemma {:induction false} ThirtyFirstTick(ds: seq<Draws>)
    requires |ds| == Capacity + 1
    ensures |Run(ds).bodies| == Capacity
    ensures forall k :: 0 <= k < Capacity ==> Run(ds).bodies[k] == k + 2
    ensures 1 !in Run(ds).world
    ensures Run(ds).removals == [RemoveVisual(1), RemoveBody(1)]
  {
    RunValid(ds);
    ValidOnePastCapacity(Run(ds));
  }

  /** Running one more sample record is one more tick. */
  lemma RunPrefixStep(ds: seq<Draws>, i: nat)
    requires i < |ds|
    ensures Run(ds[..i + 1]) == Tick(Run(ds[..i]), ds[i]).next
  {
    assert ds[..i + 1][..i] == ds[..i];
  }

  /** The interval driver: one tick per sample record, collecting the spawned
      bodies. The result is reachable, holds min(n, Capacity) live bodies,
      and body k was spawned on tick k + 1. */
  method RunTicks(ds: seq<Draws>) returns (s: State, spawned: seq<Body>)
    ensures s == Run(ds) && Valid(s) && s.ticks == |ds|
    ensures |s.bodies| == Min(|ds|, Capacity)
    ensures |spawned| == |ds|
    ensures forall k :: 0 <= k < |spawned| ==> spawned[k] == SpawnBody(k + 1, ds[k])
  {
    s := Init;
    spawned := [];
    var i := 0;
    while i < |ds|
      invariant 0 <= i <= |ds|
      invariant s == Run(ds[..i]) && s.ticks == i
      invariant |spawned| == i
      invariant forall k :: 0 <= k < i ==> spawned[k] == SpawnBody(k + 1, ds[k])
    {
      var t := Tick(s, ds[i]);
      RunPrefixStep(ds, i);
      s := t.next;
      spawned := spawned + [t.spawned];
      i := i + 1;
    }
    assert ds[..i] == ds;
    RunValid(ds);
  }
}
