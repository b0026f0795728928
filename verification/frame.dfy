/**
 The per-frame bookkeeping of `MainState::update` over the ordered list of
 live actors: the update pass (each actor sees all the others, spawns are
 collected and appended afterwards), removal of dead actors, and the
 pairwise interaction loop.

 The actor methods this code calls are not modelled here; the actor is a
 type parameter `A` and `update`, `dead` and `interact` are parameters.
 The game context and the frame's start time are folded into `update`.
 */
module Frame {

  // ---------------------------------------------------------------------------
  // Update pass
  // ---------------------------------------------------------------------------

  /**
   The actors handed to actor `k` while actors `0..k-1` have already been
   updated to `done`: every other actor exactly once, those before `k` (in
   their updated state) and then those after `k` (not yet updated), in order.
   */
  function Others<A>(done: seq<A>, ships: seq<A>, k: nat): (o: seq<A>)
    requires k < |ships| && k <= |done|
    ensures |o| == |ships| - 1
    ensures forall j :: 0 <= j < k ==> o[j] == done[j]
    ensures forall j :: k <= j < |o| ==> o[j] == ships[j + 1]
  {
    done[..k] + ships[k + 1..]
  }

  /** `done` is the list of actors after each of `ships` was updated in turn. */
  ghost predicate IsUpdatePass<A>(update: (A, seq<A>) -> (A, seq<A>), ships: seq<A>, done: seq<A>) {
    && |done| == |ships|
    && forall k :: 0 <= k < |ships| ==> done[k] == update(ships[k], Others(done, ships, k)).0
  }

  /** The spawns of the first `|done|` updates, concatenated in generation order. */
  function Spawned<A>(update: (A, seq<A>) -> (A, seq<A>), ships: seq<A>, done: seq<A>): seq<A>
    requires |done| <= |ships|
    decreases |done|
  {
    if |done| == 0 then []
    else
      var k := |done| - 1;
      Spawned(update, ships, done[..k]) + update(ships[k], Others(done, ships, k)).1
  }

  /** `next` is the actor list after the update pass: updated actors, then all spawns. */
  ghost predicate IsPassResult<A>(update: (A, seq<A>) -> (A, seq<A>), ships: seq<A>, next: seq<A>) {
    && |ships| <= |next|
    && IsUpdatePass(update, ships, next[..|ships|])
    && next[|ships|..] == Spawned(update, ships, next[..|ships|])
  }

  /**
   The first loop of `MainState::update`: update every actor in place, in
   index order, collecting spawns; append the spawns once the pass is over.
   */
  method UpdatePass<A>(update: (A, seq<A>) -> (A, seq<A>), ships: seq<A>) returns (next: seq<A>)
    ensures IsPassResult(update, ships, next)
  {
    var cur := ships;
    var extra: seq<A> := [];
    for index := 0 to |ships|
      invariant |cur| == |ships|
      invariant cur[index..] == ships[index..]
      invariant forall k :: 0 <= k < index ==> cur[k] == update(ships[k], Others(cur, ships, k)).0
      invariant extra == Spawned(update, ships, cur[..index])
    {
      var before := cur[..index];
      var after := cur[index + 1..];
      var result := update(cur[index], before + after);
      assert before + after == Others(cur, ships, index);
      var cur' := cur[index := result.0];
      forall k | 0 <= k <= index
        ensures Others(cur', ships, k) == Others(cur, ships, k)
      {
        assert cur'[..k] == cur[..k];
      }
      assert cur'[..index + 1][..index] == cur[..index];
      cur := cur';
      extra := extra + result.1;
    }
    next := cur + extra;
    assert next[..|ships|] == cur;
    assert next[|ships|..] == extra;
    assert cur[..|ships|] == cur;
  }

  /** The update pass is deterministic: at most one list of updated actors fits it. */
  lemma {:induction false} UpdatePassUnique<A>(update: (A, seq<A>) -> (A, seq<A>), ships: seq<A>, d1: seq<A>, d2: seq<A>)
    requires IsUpdatePass(update, ships, d1)
    requires IsUpdatePass(update, ships, d2)
    ensures d1 == d2
  {
    PrefixesAgree(update, ships, d1, d2, |ships|);
    assert d1 == d1[..|ships|] && d2 == d2[..|ships|];
  }

  lemma {:induction false} PrefixesAgree<A>(update: (A, seq<A>) -> (A, seq<A>), ships: seq<A>, d1: seq<A>, d2: seq<A>, n: nat)
    requires IsUpdatePass(update, ships, d1)
    requires IsUpdatePass(update, ships, d2)
    requires n <= |ships|
    ensures d1[..n] == d2[..n]
    decreases n
  {
    if n > 0 {
      var k := n - 1;
      PrefixesAgree(update, ships, d1, d2, k);
      assert d1[..k] == d2[..k];
      assert Others(d1, ships, k) == Others(d2, ships, k);
      assert d1[k] == d2[k];
      assert d1[..n] == d1[..k] + [d1[k]];
      assert d2[..n] == d2[..k] + [d2[k]];
    }
  }

  // ---------------------------------------------------------------------------
  // Dead-actor removal
  // ---------------------------------------------------------------------------

  /** The actors of `s` that are not dead, in their original order. */
  function Alive<A>(dead: A -> bool, s: seq<A>): (r: seq<A>)
    ensures |r| <= |s|
  {
    if |s| == 0 then []
    else (if dead(s[0]) then [] else [s[0]]) + Alive(dead, s[1..])
  }

  /** Filtering distributes over concatenation, so relative order is kept. */
  lemma {:induction false} AliveAppend<A>(dead: A -> bool, a: seq<A>, b: seq<A>)
    ensures Alive(dead, a + b) == Alive(dead, a) + Alive(dead, b)
    decreases |a|
  {
    if |a| > 0 {
      assert (a + b)[0] == a[0];
      assert (a + b)[1..] == a[1..] + b;
      AliveAppend(dead, a[1..], b);
    } else {
      assert a + b == b;
    }
  }

  /** Each live actor is kept as often as it occurs; each dead one is dropped entirely. */
  lemma {:induction false} AliveCount<A>(dead: A -> bool, s: seq<A>, x: A)
    ensures multiset(Alive(dead, s))[x] == if dead(x) then 0 else multiset(s)[x]
    decreases |s|
  {
    if |s| > 0 {
      AliveCount(dead, s[1..], x);
      var head := if dead(s[0]) then [] else [s[0]];
      assert Alive(dead, s) == head + Alive(dead, s[1..]);
      assert multiset(Alive(dead, s)) == multiset(head) + multiset(Alive(dead, s[1..]));
      assert s == [s[0]] + s[1..];
      assert multiset(s) == multiset([s[0]]) + multiset(s[1..]);
    }
  }

  /** An actor survives removal exactly when it was present and is not dead. */
  lemma AliveMembers<A>(dead: A -> bool, s: seq<A>, x: A)
    ensures x in Alive(dead, s) <==> x in s && !dead(x)
  {
    AliveCount(dead, s, x);
    assert x in Alive(dead, s) <==> multiset(Alive(dead, s))[x] > 0;
    assert x in s <==> multiset(s)[x] > 0;
  }

  /**
   The second loop of `MainState::update`: walk the indices downwards and
   remove each dead actor, so removals never shift an index still to visit.
   */
  method RemoveDead<A>(dead: A -> bool, ships: seq<A>) returns (r: seq<A>)
    ensures r == Alive(dead, ships)
  {
    r := ships;
    var index := |ships|;
    while index > 0
      invariant 0 <= index <= |ships|
      invariant r == ships[..index] + Alive(dead, ships[index..])
    {
      index := index - 1;
      RemoveStep(dead, ships, index);
      assert r[index] == ships[index];
      if dead(r[index]) {
        r := r[..index] + r[index + 1..];
      }
    }
    assert ships[0..] == ships;
  }

  /** One step of `RemoveDead`: element `index` is either kept or dropped in place. */
  lemma RemoveStep<A>(dead: A -> bool, ships: seq<A>, index: nat)
    requires index < |ships|
    ensures var rest := Alive(dead, ships[index + 1..]);
            var r := ships[..index + 1] + rest;
            && (dead(ships[index]) ==> r[..index] + r[index + 1..] == ships[..index] + Alive(dead, ships[index..]))
            && (!dead(ships[index]) ==> r == ships[..index] + Alive(dead, ships[index..]))
  {
    var x := ships[index];
    var rest := Alive(dead, ships[index + 1..]);
    assert ships[index..] == [x] + ships[index + 1..];
    AliveCons(dead, x, ships[index + 1..]);
    assert ships[..index + 1] == ships[..index] + [x];
    DropAt(ships[..index], x, rest);
  }

  lemma AliveCons<A>(dead: A -> bool, x: A, s: seq<A>)
    ensures Alive(dead, [x] + s) == (if dead(x) then [] else [x]) + Alive(dead, s)
  {
    assert ([x] + s)[0] == x;
    assert ([x] + s)[1..] == s;
  }

  lemma DropAt<A>(p: seq<A>, x: A, q: seq<A>)
    ensures (p + [x] + q)[..|p|] + (p + [x] + q)[|p| + 1..] == p + q
  {
    assert (p + [x] + q)[..|p|] == p;
    assert (p + [x] + q)[|p| + 1..] == q;
  }

  // ---------------------------------------------------------------------------
  // Pairwise interaction
  // ---------------------------------------------------------------------------

  /** One `source.interact(dest)` call, by index into the actor list. */
  datatype Pair = Pair(source: nat, dest: nat)

  /** Every pair names two distinct actors of a list of length `n`, source first. */
  predicate InRange(ps: seq<Pair>, n: nat) {
    forall k :: 0 <= k < |ps| ==> ps[k].source < ps[k].dest < n
  }

  /** The inner loop for destination `dest`: sources `0..len-1`, in order. */
  function Row(dest: nat, len: nat): (r: seq<Pair>)
    requires len <= dest
    ensures |r| == len
    ensures forall k :: 0 <= k < len ==> r[k] == Pair(k, dest)
  {
    if len == 0 then [] else Row(dest, len - 1) + [Pair(len - 1, dest)]
  }

  /** The interaction loop's calls, in order, for `n` actors: destinations `1..n-1`, each with all lower sources. */
  function PairOrder(n: nat): (r: seq<Pair>)
    ensures InRange(r, n)
  {
    if n <= 1 then [] else PairOrder(n - 1) + Row(n - 1, n - 1)
  }

  /** Every unordered pair of distinct indices below `n` is visited, with the lower index as source. */
  lemma {:induction false} PairOrderComplete(n: nat, j: nat, i: nat)
    requires j < i < n
    ensures Pair(j, i) in PairOrder(n)
    decreases n
  {
    if i < n - 1 {
      PairOrderComplete(n - 1, j, i);
    } else {
      assert Row(n - 1, n - 1)[j] == Pair(j, i);
    }
  }

  /** `p` comes strictly before `q` when ordered by destination, then source. */
  predicate Before(p: Pair, q: Pair) {
    p.dest < q.dest || (p.dest == q.dest && p.source < q.source)
  }

  /**
   The calls are strictly increasing in (destination, source), so no pair
   is visited twice and destinations are handled in increasing order.
   */
  lemma {:induction false} PairOrderIncreasing(n: nat)
    ensures forall a, b :: 0 <= a < b < |PairOrder(n)| ==> Before(PairOrder(n)[a], PairOrder(n)[b])
    decreases n
  {
    if n > 1 {
      PairOrderIncreasing(n - 1);
      var p := PairOrder(n - 1);
      var row := Row(n - 1, n - 1);
      forall a, b | 0 <= a < b < |p + row|
        ensures Before((p + row)[a], (p + row)[b])
      {
        if b < |p| {
          assert (p + row)[a] == p[a] && (p + row)[b] == p[b];
        } else if a < |p| {
          assert (p + row)[a] == p[a] && (p + row)[b] == row[b - |p|];
        } else {
          assert (p + row)[a] == row[a - |p|] && (p + row)[b] == row[b - |p|];
        }
      }
    }
  }

  /** There are n(n-1)/2 calls: one per unordered pair. */
  lemma {:induction false} PairOrderLength(n: nat)
    ensures 2 * |PairOrder(n)| == n * (n - 1)
    decreases n
  {
    if n > 1 {
      PairOrderLength(n - 1);
      assert 2 * |PairOrder(n)| == (n - 1) * (n - 2) + 2 * (n - 1);
    }
  }

  /** One interaction: only the two actors of the pair change, to what `interact` returns for them. */
  function ApplyPair<A>(interact: (A, A) -> (A, A), s: seq<A>, p: Pair): (r: seq<A>)
    requires p.source < p.dest < |s|
    ensures |r| == |s|
    ensures forall k :: 0 <= k < |s| && k != p.source && k != p.dest ==> r[k] == s[k]
    ensures (r[p.source], r[p.dest]) == interact(s[p.source], s[p.dest])
  {
    var result := interact(s[p.source], s[p.dest]);
    s[p.source := result.0][p.dest := result.1]
  }

  /** The interactions `ps` applied one after another, each seeing the previous ones' effects. */
  function ApplyPairs<A>(interact: (A, A) -> (A, A), s: seq<A>, ps: seq<Pair>): (r: seq<A>)
    requires InRange(ps, |s|)
    ensures |r| == |s|
    decreases |ps|
  {
    if |ps| == 0 then s
    else ApplyPair(interact, ApplyPairs(interact, s, ps[..|ps| - 1]), ps[|ps| - 1])
  }

  /** Appending one more call to the sequence of interactions applies it last. */
  lemma ApplyPairsSnoc<A>(interact: (A, A) -> (A, A), s: seq<A>, ps: seq<Pair>, p: Pair)
    requires InRange(ps + [p], |s|)
    ensures InRange(ps, |s|) && p.source < p.dest < |s|
    ensures ApplyPairs(interact, s, ps + [p]) == ApplyPair(interact, ApplyPairs(interact, s, ps), p)
  {
    assert (ps + [p])[..|ps|] == ps;
    assert (ps + [p])[|ps|] == p;
    assert forall k :: 0 <= k < |ps| ==> ps[k] == (ps + [p])[k];
  }

  /** The actor list after every pair of `PairOrder` has interacted, one after another. */
  function Interactions<A>(interact: (A, A) -> (A, A), ships: seq<A>): seq<A> {
    ApplyPairs(interact, ships, PairOrder(|ships|))
  }

  /**
   The third loop of `MainState::update`: for each destination `index` from
   1, call `interact` from every lower source in order.
   */
  method InteractAll<A>(interact: (A, A) -> (A, A), ships: seq<A>) returns (r: seq<A>)
    ensures r == Interactions(interact, ships)
  {
    r := ships;
    if |ships| <= 1 {
      return;
    }
    for index := 1 to |ships|
      invariant r == ApplyPairs(interact, ships, PairOrder(index))
    {
      r := InteractRow(interact, ships, r, index);
    }
  }

  /** The inner loop: every source below `index` interacts with `index`, lowest first. */
  method InteractRow<A>(interact: (A, A) -> (A, A), ships: seq<A>, r0: seq<A>, index: nat) returns (r: seq<A>)
    requires 1 <= index < |ships|
    requires r0 == ApplyPairs(interact, ships, PairOrder(index))
    ensures r == ApplyPairs(interact, ships, PairOrder(index + 1))
  {
    r := r0;
    assert PairsSoFar(index, 0, |ships|) == PairOrder(index);
    for source := 0 to index
      invariant r == ApplyPairs(interact, ships, PairsSoFar(index, source, |ships|))
    {
      RowStep(interact, ships, index, source);
      r := ApplyPair(interact, r, Pair(source, index));
    }
    assert PairsSoFar(index, index, |ships|) == PairOrder(index + 1);
  }

  /** The calls made before `source` interacts with `index`. */
  function PairsSoFar(index: nat, source: nat, n: nat): (ps: seq<Pair>)
    requires source <= index < n
    ensures InRange(ps, n)
  {
    var ps := PairOrder(index) + Row(index, source);
    assert forall k :: 0 <= k < |PairOrder(index)| ==> ps[k] == PairOrder(index)[k];
    assert forall k :: |PairOrder(index)| <= k < |ps| ==> ps[k] == Row(index, source)[k - |PairOrder(index)|];
    ps
  }

  lemma RowStep<A>(interact: (A, A) -> (A, A), ships: seq<A>, index: nat, source: nat)
    requires source < index < |ships|
    ensures ApplyPairs(interact, ships, PairsSoFar(index, source + 1, |ships|))
            == ApplyPair(interact, ApplyPairs(interact, ships, PairsSoFar(index, source, |ships|)), Pair(source, index))
  {
    var done := PairsSoFar(index, source, |ships|);
    assert done + [Pair(source, index)] == PairsSoFar(index, source + 1, |ships|);
    ApplyPairsSnoc(interact, ships, done, Pair(source, index));
  }

  // ---------------------------------------------------------------------------
  // The whole frame
  // ---------------------------------------------------------------------------

  /**
   `MainState::update`: the update pass, then dead-actor removal over the
   result (spawns included), then one interaction per unordered pair of the
   survivors.
   */
  method FrameUpdate<A>(update: (A, seq<A>) -> (A, seq<A>), dead: A -> bool, interact: (A, A) -> (A, A), ships: seq<A>)
    returns (r: seq<A>)
    ensures exists next :: IsPassResult(update, ships, next)
                           && r == Interactions(interact, Alive(dead, next))
  {
    var next := UpdatePass(update, ships);
    var survivors := RemoveDead(dead, next);
    r := InteractAll(interact, survivors);
  }
}
