/** The store wrappers a Python caller sees, each run without interference. */
module PackageStores {
  import opened Wrappers
  import opened ReadPlans
  import opened StoreRuns
  import DefaultPublishers

  datatype StoreError = PartCollision | SealRejected | CasRejected | NoSuchGeneration

  /** What the crate makes of staged parts; `None` when parts are missing or their claims overlap. */
  type Merge = (map<(string, string), Bytes>, seq<string>) -> Option<Bytes>

  /** What a whole `publish` leaves in the store when nobody else acts: sealed and current, or untouched. */
  function PublishAlone(store: Store, gen: nat, image: Option<Bytes>): Option<Store> {
    if image.None? || gen in store.sealed then None
    else Some(Store(store.checksSeal, store.staged, store.sealed[gen := image.value], Some(gen)))
  }

  class PackageStore {
    const merge: Merge
    const checksSeal: bool
    var staged: map<(string, string), Bytes>
    var sealed: map<nat, Bytes>
    var current: Option<nat>

    function View(): Store
      reads this
    {
      Store(checksSeal, staged, sealed, current)
    }

    constructor (merge: Merge, checksSeal: bool)
      ensures View() == Store(checksSeal, map[], map[], None) && this.merge == merge
    {
      this.merge := merge;
      this.checksSeal := checksSeal;
      staged := map[];
      sealed := map[];
      current := None;
    }

    /** Stage one part under its session; a second part under the same ids is refused. */
    method Ingest(session: string, part: string, bytes: Bytes) returns (r: Result<string, StoreError>)
      modifies this
      ensures match StagePart(old(View()), session, part, bytes)
              case None => r == Err(PartCollision) && View() == old(View())
              case Some(store) => r == Ok(part) && View() == store
    {
      if (session, part) in staged {
        return Err(PartCollision);
      }
      staged := staged[(session, part) := bytes];
      return Ok(part);
    }

    method SealParts(gen: nat, parts: seq<string>) returns (r: Result<nat, StoreError>)
      modifies this
      ensures match SealGeneration(old(View()), gen, old(merge(staged, parts)))
              case None => r == Err(SealRejected) && View() == old(View())
              case Some(store) => r == Ok(gen) && View() == store
    {
      var image := merge(staged, parts);
      if image.None? || gen in sealed {
        return Err(SealRejected);
      }
      sealed := sealed[gen := image.value];
      return Ok(gen);
    }

    method CasPublish(gen: nat, expected: Option<nat>) returns (r: Result<(), StoreError>)
      modifies this
      ensures match PublishGeneration(old(View()), gen, expected)
              case None => r == Err(CasRejected) && View() == old(View())
              case Some(store) => r == Ok(()) && View() == store
    {
      if current != expected || (checksSeal && gen !in sealed) {
        return Err(CasRejected);
      }
      current := Some(gen);
      return Ok(());
    }

    /** Choose a generation if none is given, seal the parts, flip CURRENT from what it was. */
    method Publish(generation: Option<nat>, parts: seq<string>) returns (r: Result<nat, StoreError>)
      modifies this
      ensures var gen := if generation.Some? then generation.value else NextGeneration(old(current));
              match PublishAlone(old(View()), gen, old(merge(staged, parts)))
              case None => r == Err(SealRejected) && View() == old(View())
              case Some(store) => r == Ok(gen) && View() == store
    {
      var gen := if generation.Some? then generation.value else NextGeneration(current);
      var expected := current;
      var sealedAs := SealParts(gen, parts);
      if sealedAs.Err? {
        return Err(sealedAs.error);
      }
      var flipped := CasPublish(gen, expected);
      r := Err(CasRejected);
      if flipped.Ok? {
        r := Ok(gen);
      }
    }

    /** Pin CURRENT or a given generation and copy its image. */
    method Open(pin: Option<nat>) returns (r: Result<Handle, StoreError>)
      ensures r.Ok? <==> var g := if pin.Some? then pin else current; g.Some? && g.value in sealed
      ensures r.Ok? ==> r.value.Opened? && (pin.Some? ==> r.value.gen == pin.value)
      ensures r.Ok? && pin.None? ==> current == Some(r.value.gen)
      ensures r.Ok? ==> r.value.gen in sealed && r.value.bytes == sealed[r.value.gen]
    {
      var pinned := if pin.Some? then pin else current;
      if pinned.None? || pinned.value !in sealed {
        return Err(NoSuchGeneration);
      }
      return Ok(Opened(pinned.value, sealed[pinned.value]));
    }
  }

  /** A memory store with the current generation of a package and nothing else. */
  method FromPackage(package: PackageStore) returns (r: Result<PackageStore, StoreError>)
    ensures r.Ok? <==> package.current.Some? && package.current.value in package.sealed
    ensures r.Ok? ==> fresh(r.value)
    ensures r.Ok? ==>
      var g := package.current.value;
      r.value.View() == Store(package.checksSeal, map[], map[g := package.sealed[g]], Some(g))
  {
    if package.current.None? || package.current.value !in package.sealed {
      return Err(NoSuchGeneration);
    }
    var gen := package.current.value;
    var packed := package.sealed[gen];
    var memory := new PackageStore(package.merge, package.checksSeal);
    memory.sealed := memory.sealed[gen := packed];
    var published := memory.CasPublish(gen, None);
    return if published.Ok? then Ok(memory) else Err(CasRejected);
  }

  /** The state of a store nobody is using yet. */
  function Quiet(store: Store): State {
    State(store, map[], map[], [])
  }

  /** The store that `FromPackage` leaves, before anyone uses it. */
  function SeededStore(checksSeal: bool, gen: nat, image: Bytes): State {
    Quiet(Store(checksSeal, map[], map[gen := image], Some(gen)))
  }

  /**
   A seeded store counts on: over every run of default publishers the accepted publishes take
   the generations after the seeded one in turn, and CURRENT is the last of them.
   */
  lemma SeededStoreCounts(checksSeal: bool, gen: nat, image: Bytes, actions: seq<Action>)
    requires gen < U64_LIMIT && DefaultPublishers.DefaultRun(actions)
    ensures var t := Run(SeededStore(checksSeal, gen, image), actions);
            (forall i :: 0 <= i < |t.flips| ==> t.flips[i].1 == (gen + i + 1) % U64_LIMIT)
            && t.store.current == Some((gen + |t.flips|) % U64_LIMIT)
            && t.store.current.value in t.store.sealed
  {
    DefaultPublishers.DefaultPublishersCount(
      DefaultPublishers.Seeded(gen, image), SeededStore(checksSeal, gen, image), actions);
  }

  /**
   A publish is its steps: reading CURRENT, sealing and flipping, taken by one publisher in a
   row, leave exactly what `Publish` leaves, and nothing at all when the seal is refused.
   */
  lemma PublishIsItsSteps(s: State, p: nat, image: Option<Bytes>)
    requires PublisherOf(s, p).Idle?
    ensures var t := Run(s, [ReadCurrent(p), SealChosen(p, image), Flip(p)]);
            match PublishAlone(s.store, NextGeneration(s.store.current), image)
            case None => t.store == s.store && t.flips == s.flips
            case Some(store) => t.store == store && |t.flips| == |s.flips| + 1
  {
    DefaultPublishers.RunOfThree(s, ReadCurrent(p), SealChosen(p, image), Flip(p));
    var s1 := Step(s, ReadCurrent(p));
    var s2 := Step(s1, SealChosen(p, image));
    assert PublisherOf(s1, p) == Chosen(NextGeneration(s.store.current), s.store.current);
    if image.None? || NextGeneration(s.store.current) in s.store.sealed {
      assert PublisherOf(s2, p) == Idle;
    } else {
      assert PublisherOf(s2, p) == Holding(NextGeneration(s.store.current), s.store.current);
    }
  }

  /**
   Opening a generation of the package, at any later moment of any run, gives the bytes that
   the memory store seeded now gives for it.
   */
  lemma SeededBytesAgree(s: State, actions: seq<Action>, gen: nat)
    requires s.store.current == Some(gen) && gen in s.store.sealed
    ensures gen in Run(s, actions).store.sealed
    ensures Run(s, actions).store.sealed[gen]
         == SeededStore(s.store.checksSeal, gen, s.store.sealed[gen]).store.sealed[gen]
  {
    RunKeeps(s, actions);
  }
}
