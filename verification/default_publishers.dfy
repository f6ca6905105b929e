/** Publishers that let the store choose the generation, any number of them at once. */
module DefaultPublishers {
  import opened Wrappers
  import opened ReadPlans
  import opened StoreRuns

  /** Everything but the two calls that name a generation themselves. */
  predicate DefaultAction(a: Action) {
    !a.Seal? && !a.CasPublish?
  }

  ghost predicate DefaultRun(actions: seq<Action>) {
    forall i :: 0 <= i < |actions| ==> DefaultAction(actions[i])
  }

  /** Where a store starts: empty, or seeded with one sealed current generation. */
  datatype Base = Empty | Seeded(gen: nat, image: Bytes)

  ghost predicate Starts(base: Base, s: State) {
    && s.publishers == map[] && s.flips == []
    && match base
       case Empty => s.store.sealed == map[] && s.store.current == None
       case Seeded(g, image) => g < U64_LIMIT && s.store.sealed == map[g := image] && s.store.current == Some(g)
  }

  /** The `k`-th generation after the start, in `u64` arithmetic. */
  function GenOf(base: Base, k: nat): nat {
    ((if base.Seeded? then base.gen else 0) + k) % U64_LIMIT
  }

  /** What CURRENT is after `n` accepted publishes. */
  function PointerAfter(base: Base, n: nat): Option<nat> {
    if n == 0 && base.Empty? then None else Some(GenOf(base, n))
  }

  /** The first sealed position: a seeded store has sealed generation number 0. */
  function Floor(base: Base): nat {
    if base.Seeded? then 0 else 1
  }

  lemma WrapOnce(a: nat)
    ensures (a % U64_LIMIT + 1) % U64_LIMIT == (a + 1) % U64_LIMIT
  {
    var q, r := a / U64_LIMIT, a % U64_LIMIT;
    assert a == q * U64_LIMIT + r;
    if r + 1 == U64_LIMIT {
      assert a + 1 == (q + 1) * U64_LIMIT;
    }
  }

  lemma NextIs(base: Base, n: nat)
    ensures NextGeneration(PointerAfter(base, n)) == GenOf(base, n + 1)
  {
    WrapOnce((if base.Seeded? then base.gen else 0) + n);
  }

  lemma GenOfInjective(base: Base, j: nat, k: nat)
    requires j <= k < j + U64_LIMIT && GenOf(base, j) == GenOf(base, k)
    ensures j == k
  {
  }

  lemma GenOfWraps(base: Base, k: nat)
    ensures GenOf(base, k + U64_LIMIT) == GenOf(base, k)
  {
  }

  // ----- the invariant -----

  /** Position `k` has been sealed and published. */
  ghost predicate Published(base: Base, s: State, k: nat) {
    GenOf(base, k) in s.store.sealed
  }

  ghost predicate SealedAt(base: Base, n: nat, g: nat) {
    exists k :: Floor(base) <= k <= n + 1 && g == GenOf(base, k)
  }

  /** A publisher that has chosen did so from the pointer of some moment up to now. */
  ghost predicate ChosenAt(base: Base, n: nat, p: Publisher) {
    p.Chosen? ==> exists k :: 0 <= k <= n && p.seen == PointerAfter(base, k) && p.gen == GenOf(base, k + 1)
  }

  /** A publisher that has sealed holds the next position, and its CAS cannot miss. */
  ghost predicate HoldsNext(base: Base, n: nat, s: State, p: Publisher) {
    p.Holding? ==>
      && n + 2 <= U64_LIMIT + Floor(base)
      && p.gen == GenOf(base, n + 1) && p.expected == PointerAfter(base, n) && p.gen in s.store.sealed
  }

  ghost predicate StoreInv(base: Base, s: State) {
    var n := |s.flips|;
    && n + 1 <= U64_LIMIT + Floor(base)
    && s.store.current == PointerAfter(base, n)
    && (forall i :: 0 <= i < n ==> s.flips[i] == (PointerAfter(base, i), GenOf(base, i + 1)))
    && (forall k {:trigger Published(base, s, k)} | Floor(base) <= k <= n :: Published(base, s, k))
    && (forall g {:trigger SealedAt(base, n, g)} | g in s.store.sealed :: SealedAt(base, n, g))
  }

  ghost predicate PublisherInv(base: Base, s: State, p: nat) {
    ChosenAt(base, |s.flips|, PublisherOf(s, p)) && HoldsNext(base, |s.flips|, s, PublisherOf(s, p))
  }

  ghost predicate AtMostOneHolds(s: State) {
    forall p, q :: p != q ==> !(PublisherOf(s, p).Holding? && PublisherOf(s, q).Holding?)
  }

  /** What every step of default publishers keeps. */
  ghost predicate Inv(base: Base, s: State) {
    && StoreInv(base, s)
    && (forall p {:trigger PublisherInv(base, s, p)} :: PublisherInv(base, s, p))
    && AtMostOneHolds(s)
  }

  lemma StartInv(base: Base, s: State)
    requires Starts(base, s)
    ensures Inv(base, s)
  {
    forall k | Floor(base) <= k <= 0
      ensures Published(base, s, k)
    {
    }
    forall g | g in s.store.sealed
      ensures SealedAt(base, 0, g)
    {
      assert g == GenOf(base, 0);
    }
  }

  // ----- one step -----

  /** A generation that is free to seal is the next one, and nobody holds it. */
  lemma FreeIsNext(base: Base, s: State, p: nat)
    requires Inv(base, s) && PublisherOf(s, p).Chosen? && PublisherOf(s, p).gen !in s.store.sealed
    ensures var n := |s.flips|;
            PublisherOf(s, p) == Chosen(GenOf(base, n + 1), PointerAfter(base, n))
            && n + 2 <= U64_LIMIT + Floor(base)
    ensures forall q :: !PublisherOf(s, q).Holding?
  {
    var n := |s.flips|;
    assert PublisherInv(base, s, p);
    var k :| 0 <= k <= n && PublisherOf(s, p).seen == PointerAfter(base, k)
             && PublisherOf(s, p).gen == GenOf(base, k + 1);
    assert k < n ==> Published(base, s, k + 1);
    assert Floor(base) <= n ==> Published(base, s, Floor(base));
    GenOfWraps(base, Floor(base));
    forall q
      ensures !PublisherOf(s, q).Holding?
    {
      assert PublisherInv(base, s, q);
    }
  }

  /** Sealing keeps what is published and adds the next position at most. */
  lemma SealStep(base: Base, s: State, t: State, image: Bytes)
    requires StoreInv(base, s) && t.flips == s.flips && t.store.current == s.store.current
    requires t.store.sealed == s.store.sealed[GenOf(base, |s.flips| + 1) := image]
    ensures StoreInv(base, t)
  {
    var n := |s.flips|;
    forall k | Floor(base) <= k <= n
      ensures Published(base, t, k)
    {
      assert Published(base, s, k);
    }
    forall g | g in t.store.sealed
      ensures SealedAt(base, n, g)
    {
      if g in s.store.sealed {
        assert SealedAt(base, n, g);
      } else {
        assert g == GenOf(base, n + 1);
      }
    }
  }

  /** A flip by the holder moves the pointer to the next position. */
  lemma FlipStep(base: Base, s: State, t: State)
    requires StoreInv(base, s) && t.store.sealed == s.store.sealed
    requires var n := |s.flips|;
             n + 2 <= U64_LIMIT + Floor(base) && GenOf(base, n + 1) in s.store.sealed
             && t.store.current == Some(GenOf(base, n + 1))
             && t.flips == s.flips + [(PointerAfter(base, n), GenOf(base, n + 1))]
    ensures StoreInv(base, t)
  {
    var n := |s.flips|;
    forall k | Floor(base) <= k <= n + 1
      ensures Published(base, t, k)
    {
      if k <= n {
        assert Published(base, s, k);
      }
    }
    forall g | g in t.store.sealed
      ensures SealedAt(base, n + 1, g)
    {
      assert SealedAt(base, n, g);
    }
  }

  lemma SameStore(base: Base, s: State, t: State)
    requires StoreInv(base, s) && t.flips == s.flips
    requires t.store.sealed == s.store.sealed && t.store.current == s.store.current
    ensures StoreInv(base, t)
  {
    forall k | Floor(base) <= k <= |s.flips|
      ensures Published(base, t, k)
    {
      assert Published(base, s, k);
    }
    forall g | g in t.store.sealed
      ensures SealedAt(base, |t.flips|, g)
    {
      assert SealedAt(base, |s.flips|, g);
    }
  }

  lemma StoreStep(base: Base, s: State, a: Action)
    requires Inv(base, s) && DefaultAction(a)
    ensures StoreInv(base, Step(s, a))
  {
    var t := Step(s, a);
    if a.Flip? && PublisherOf(s, a.p).Holding? {
      assert PublisherInv(base, s, a.p);
      FlipStep(base, s, t);
    } else if a.SealChosen? && t.store.sealed != s.store.sealed {
      FreeIsNext(base, s, a.p);
      SealStep(base, s, t, a.image.value);
    } else {
      SameStore(base, s, t);
    }
  }

  lemma PublisherStep(base: Base, s: State, a: Action, q: nat)
    requires Inv(base, s) && DefaultAction(a)
    ensures PublisherInv(base, Step(s, a), q)
  {
    assert PublisherInv(base, s, q);
    var n, t := |s.flips|, Step(s, a);
    if a.ReadCurrent? && a.p == q {
      NextIs(base, n);
    } else if a.SealChosen? && a.p == q && PublisherOf(t, q).Holding? && PublisherOf(s, q).Chosen? {
      FreeIsNext(base, s, q);
    } else if a.Flip? && PublisherOf(s, a.p).Holding? {
      assert PublisherInv(base, s, a.p);
      assert q != a.p ==> !PublisherOf(s, q).Holding?;
    }
  }

  lemma OneHolderStep(base: Base, s: State, a: Action)
    requires Inv(base, s) && DefaultAction(a)
    ensures AtMostOneHolds(Step(s, a))
  {
    var t := Step(s, a);
    if a.SealChosen? && PublisherOf(s, a.p).Chosen? && PublisherOf(s, a.p).gen !in s.store.sealed {
      FreeIsNext(base, s, a.p);
      assert forall q :: q != a.p ==> PublisherOf(t, q) == PublisherOf(s, q);
    } else {
      assert forall q :: PublisherOf(t, q).Holding? ==> PublisherOf(s, q).Holding?;
    }
  }

  lemma InvStep(base: Base, s: State, a: Action)
    requires Inv(base, s) && DefaultAction(a)
    ensures Inv(base, Step(s, a))
  {
    StoreStep(base, s, a);
    OneHolderStep(base, s, a);
    forall q
      ensures PublisherInv(base, Step(s, a), q)
    {
      PublisherStep(base, s, a, q);
    }
  }

  // ----- whole runs -----

  lemma {:induction false} RunInv(base: Base, s: State, actions: seq<Action>)
    requires Inv(base, s) && DefaultRun(actions)
    ensures Inv(base, Run(s, actions))
    decreases |actions|
  {
    if actions != [] {
      assert DefaultAction(actions[0]);
      InvStep(base, s, actions[0]);
      assert forall i :: 0 <= i < |actions[1..]| ==> actions[1..][i] == actions[i + 1];
      RunInv(base, Step(s, actions[0]), actions[1..]);
    }
  }

  /**
   Default publishers over every interleaving: the accepted publishes take CURRENT through the
   generations after the start one by one, none is won twice, and CURRENT names a sealed one.
   */
  lemma DefaultPublishersCount(base: Base, s: State, actions: seq<Action>)
    requires Starts(base, s) && DefaultRun(actions)
    ensures var t := Run(s, actions);
            var n := |t.flips|;
            (forall i :: 0 <= i < n ==> t.flips[i].1 == GenOf(base, i + 1))
            && (forall i, j :: 0 <= i < j < n ==> t.flips[i].1 != t.flips[j].1)
            && t.store.current == PointerAfter(base, n)
            && (t.store.current.Some? ==> t.store.current.value in t.store.sealed)
  {
    StartInv(base, s);
    RunInv(base, s, actions);
    var t := Run(s, actions);
    forall i, j | 0 <= i < j < |t.flips|
      ensures t.flips[i].1 != t.flips[j].1
    {
      if t.flips[i].1 == t.flips[j].1 {
        GenOfInjective(base, i + 1, j + 1);
      }
    }
    if t.store.current.Some? {
      assert Published(base, t, |t.flips|);
    }
  }

  /** From an empty store the generations are 1, 2, 3, ... */
  lemma EmptyStoreCounts(s: State, actions: seq<Action>)
    requires Starts(Empty, s) && DefaultRun(actions)
    ensures var t := Run(s, actions);
            |t.flips| < U64_LIMIT ==>
              (forall i :: 0 <= i < |t.flips| ==> t.flips[i].1 == i + 1)
              && t.store.current == if |t.flips| == 0 then None else Some(|t.flips|)
  {
    DefaultPublishersCount(Empty, s, actions);
    var t := Run(s, actions);
    if |t.flips| < U64_LIMIT {
      forall i | 0 <= i < |t.flips|
        ensures t.flips[i].1 == i + 1
      {
        assert GenOf(Empty, i + 1) == i + 1;
      }
    }
  }

  /** Among default publishers the conditional publish is never rejected: losers fail at the seal. */
  lemma HolderWins(base: Base, s: State, p: nat)
    requires Inv(base, s) && PublisherOf(s, p).Holding?
    ensures Step(s, Flip(p)).store.current == Some(PublisherOf(s, p).gen)
    ensures |Step(s, Flip(p)).flips| == |s.flips| + 1
  {
    assert PublisherInv(base, s, p);
  }

  // ----- when default publishing stops -----

  /** The next generation is sealed and its publisher is gone. */
  ghost predicate Blocked(base: Base, s: State) {
    && Inv(base, s)
    && GenOf(base, |s.flips| + 1) in s.store.sealed
    && forall p :: !PublisherOf(s, p).Holding?
  }

  lemma BlockedStep(base: Base, s: State, a: Action)
    requires Blocked(base, s) && DefaultAction(a)
    ensures Blocked(base, Step(s, a)) && Step(s, a).flips == s.flips
    ensures Step(s, a).store.current == s.store.current
  {
    InvStep(base, s, a);
    if a.SealChosen? && PublisherOf(s, a.p).Chosen? && PublisherOf(s, a.p).gen !in s.store.sealed {
      FreeIsNext(base, s, a.p);
    } else {
      assert forall q :: PublisherOf(Step(s, a), q).Holding? ==> PublisherOf(s, q).Holding?;
    }
  }

  /** An abandoned seal of the next generation stops every later default publish. */
  lemma {:induction false} BlockedForever(base: Base, s: State, actions: seq<Action>)
    requires Blocked(base, s) && DefaultRun(actions)
    ensures Run(s, actions).flips == s.flips && Run(s, actions).store.current == s.store.current
    decreases |actions|
  {
    if actions != [] {
      assert DefaultAction(actions[0]);
      BlockedStep(base, s, actions[0]);
      assert forall i :: 0 <= i < |actions[1..]| ==> actions[1..][i] == actions[i + 1];
      BlockedForever(base, Step(s, actions[0]), actions[1..]);
    }
  }

  /** Otherwise a publish can still succeed: by a holder, or by anyone idle who runs alone. */
  lemma NotBlockedProgress(base: Base, s: State, p: nat, image: Bytes)
    requires Inv(base, s) && !Blocked(base, s) && PublisherOf(s, p).Idle?
    ensures exists actions :: DefaultRun(actions) && |Run(s, actions).flips| == |s.flips| + 1
  {
    var n := |s.flips|;
    if exists q :: PublisherOf(s, q).Holding? {
      var q :| PublisherOf(s, q).Holding?;
      HolderWins(base, s, q);
      assert Run(s, [Flip(q)]) == Run(Step(s, Flip(q)), []);
      assert DefaultRun([Flip(q)]);
    } else {
      NextIs(base, n);
      var s1 := Step(s, ReadCurrent(p));
      var s2 := Step(s1, SealChosen(p, Some(image)));
      assert PublisherOf(s2, p) == Holding(GenOf(base, n + 1), s.store.current);
      var s3 := Step(s2, Flip(p));
      assert |s3.flips| == n + 1;
      var actions := [ReadCurrent(p), SealChosen(p, Some(image)), Flip(p)];
      RunOfThree(s, actions[0], actions[1], actions[2]);
      assert DefaultRun(actions);
    }
  }

  lemma SealedThenGone(base: Base, s: State, p: nat, image: Bytes)
    requires Inv(base, s) && !Blocked(base, s)
    requires PublisherOf(s, p).Idle? && forall q :: !PublisherOf(s, q).Holding?
    ensures var t := Step(Step(Step(s, ReadCurrent(p)), SealChosen(p, Some(image))), Abandon(p));
            t.flips == s.flips && GenOf(base, |s.flips| + 1) in t.store.sealed
            && forall q :: !PublisherOf(t, q).Holding?
  {
    var s1 := Step(s, ReadCurrent(p));
    var s2 := Step(s1, SealChosen(p, Some(image)));
    NextIs(base, |s.flips|);
    assert PublisherOf(s1, p) == Chosen(GenOf(base, |s.flips| + 1), s.store.current);
    assert forall q :: q != p ==> PublisherOf(s1, q) == PublisherOf(s, q) == PublisherOf(s2, q);
    assert forall q :: q != p ==> PublisherOf(Step(s2, Abandon(p)), q) == PublisherOf(s2, q);
  }

  /** The state is reachable: one publisher that seals the next generation and gives up is enough. */
  lemma AbandonedSealBlocks(base: Base, s: State, p: nat, image: Bytes)
    requires Inv(base, s) && !Blocked(base, s)
    requires PublisherOf(s, p).Idle? && forall q :: !PublisherOf(s, q).Holding?
    ensures Blocked(base, Run(s, [ReadCurrent(p), SealChosen(p, Some(image)), Abandon(p)]))
  {
    SealedThenGone(base, s, p, image);
    RunOfThree(s, ReadCurrent(p), SealChosen(p, Some(image)), Abandon(p));
    RunInv(base, s, [ReadCurrent(p), SealChosen(p, Some(image)), Abandon(p)]);
  }

  /** A new store that is blocked after three calls of one publisher, and stays blocked. */
  lemma NewStoreBlocks(s: State, image: Bytes, later: seq<Action>)
    requires Starts(Empty, s) && DefaultRun(later)
    ensures var t := Run(s, [ReadCurrent(0), SealChosen(0, Some(image)), Abandon(0)]);
            t.store.current == None && 1 in t.store.sealed && Run(t, later).store.current == None
  {
    StartInv(Empty, s);
    AbandonedSealBlocks(Empty, s, 0, image);
    BlockedForever(Empty, Run(s, [ReadCurrent(0), SealChosen(0, Some(image)), Abandon(0)]), later);
    RunOfThree(s, ReadCurrent(0), SealChosen(0, Some(image)), Abandon(0));
  }

  lemma RunOfThree(s: State, a: Action, b: Action, c: Action)
    ensures Run(s, [a, b, c]) == Step(Step(Step(s, a), b), c)
  {
    assert [a, b, c][1..] == [b, c] && [b, c][1..] == [c] && [c][1..] == [];
    assert Run(s, [a, b, c]) == Run(Step(s, a), [b, c]);
    assert Run(Step(s, a), [b, c]) == Run(Step(Step(s, a), b), [c]);
    assert Run(Step(Step(s, a), b), [c]) == Run(Step(Step(Step(s, a), b), c), []);
  }
}
