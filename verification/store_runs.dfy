/**
 A package store shared by publishers and readers, one step at a time.

 The store primitives belong to the tetration crate. Four facts about them are built into
 `Step` and nothing else: a staged part is never replaced, a sealed generation is never sealed
 again, a conditional publish succeeds only when `expected` is the live pointer, and the image
 of a sealed generation is whatever merging the parts produced (the steps carry it, or `None`
 when merging is refused). Whether a conditional publish also looks at the seal is left open:
 `checksSeal` says it, and the lemmas hold for both.
 */
module StoreRuns {
  import opened Wrappers
  import opened ReadPlans

  /** Where one default-generation `publish` call is. */
  datatype Publisher =
    | Idle
    | Chosen(gen: nat, seen: Option<nat>)      // read CURRENT, picked the next id
    | Holding(gen: nat, expected: Option<nat>) // sealed `gen`, about to flip CURRENT

  /** Where one `open` call is: pinned a generation, then copied its bytes. */
  datatype Handle = Pinned(gen: nat) | Opened(gen: nat, bytes: Bytes)

  datatype Store = Store(
    checksSeal: bool,
    staged: map<(string, string), Bytes>,
    sealed: map<nat, Bytes>,
    current: Option<nat>)

  /** `flips` lists the accepted conditional publishes: what was expected, what was written. */
  datatype State = State(
    store: Store,
    publishers: map<nat, Publisher>,
    handles: map<nat, Handle>,
    flips: seq<(Option<nat>, nat)>)

  datatype Action =
    | Stage(session: string, part: string, bytes: Bytes)
    | ReadCurrent(p: nat)
    | SealChosen(p: nat, image: Option<Bytes>)
    | ReadExpected(p: nat)
    | Flip(p: nat)
    | Abandon(p: nat)
    | Seal(gen: nat, image: Option<Bytes>)
    | CasPublish(gen: nat, expected: Option<nat>)
    | PinCurrent(h: nat)
    | PinExplicit(h: nat, gen: nat)
    | CopyBytes(h: nat)

  // ----- the store primitives -----

  /** One past the pointer, or 1 when it is unset; `u64` addition of a release build. */
  function NextGeneration(current: Option<nat>): nat {
    if current.None? then 1 else (current.value + 1) % U64_LIMIT
  }

  function StagePart(store: Store, session: string, part: string, bytes: Bytes): Option<Store> {
    if (session, part) in store.staged then None
    else Some(store.(staged := store.staged[(session, part) := bytes]))
  }

  function SealGeneration(store: Store, gen: nat, image: Option<Bytes>): Option<Store> {
    if image.None? || gen in store.sealed then None
    else Some(store.(sealed := store.sealed[gen := image.value]))
  }

  function PublishGeneration(store: Store, gen: nat, expected: Option<nat>): Option<Store> {
    if store.current != expected || (store.checksSeal && gen !in store.sealed) then None
    else Some(store.(current := Some(gen)))
  }

  // ----- steps -----

  function PublisherOf(s: State, p: nat): Publisher {
    if p in s.publishers then s.publishers[p] else Idle
  }

  function TryFlip(s: State, gen: nat, expected: Option<nat>): State {
    match PublishGeneration(s.store, gen, expected)
    case None => s
    case Some(store) => s.(store := store, flips := s.flips + [(expected, gen)])
  }

  function Step(s: State, a: Action): State {
    match a
    case Stage(session, part, bytes) =>
      (match StagePart(s.store, session, part, bytes)
       case None => s
       case Some(store) => s.(store := store))
    case ReadCurrent(p) =>
      if PublisherOf(s, p).Idle? then
        s.(publishers := s.publishers[p := Chosen(NextGeneration(s.store.current), s.store.current)])
      else s
    case SealChosen(p, image) =>
      (match PublisherOf(s, p)
       case Chosen(gen, seen) =>
         (match SealGeneration(s.store, gen, image)
          case None => s.(publishers := s.publishers[p := Idle])
          case Some(store) => s.(store := store, publishers := s.publishers[p := Holding(gen, seen)]))
       case _ => s)
    case ReadExpected(p) =>
      (match PublisherOf(s, p)
       case Holding(gen, _) => s.(publishers := s.publishers[p := Holding(gen, s.store.current)])
       case _ => s)
    case Flip(p) =>
      (match PublisherOf(s, p)
       case Holding(gen, expected) => TryFlip(s.(publishers := s.publishers[p := Idle]), gen, expected)
       case _ => s)
    case Abandon(p) => s.(publishers := s.publishers[p := Idle])
    case Seal(gen, image) =>
      (match SealGeneration(s.store, gen, image)
       case None => s
       case Some(store) => s.(store := store))
    case CasPublish(gen, expected) => TryFlip(s, gen, expected)
    case PinCurrent(h) =>
      if h !in s.handles && s.store.current.Some? && s.store.current.value in s.store.sealed then
        s.(handles := s.handles[h := Pinned(s.store.current.value)])
      else s
    case PinExplicit(h, gen) =>
      if h !in s.handles && gen in s.store.sealed then s.(handles := s.handles[h := Pinned(gen)]) else s
    case CopyBytes(h) =>
      if h in s.handles && s.handles[h].Pinned? && s.handles[h].gen in s.store.sealed then
        s.(handles := s.handles[h := Opened(s.handles[h].gen, s.store.sealed[s.handles[h].gen])])
      else s
  }

  function Run(s: State, actions: seq<Action>): State
    decreases |actions|
  {
    if actions == [] then s else Run(Step(s, actions[0]), actions[1..])
  }

  // ----- every run, whatever the callers do -----

  /** Staged parts are kept. */
  ghost predicate KeepsParts(s: State, t: State) {
    forall id | id in s.store.staged :: id in t.store.staged && t.store.staged[id] == s.store.staged[id]
  }

  /** Sealed images are kept. */
  ghost predicate KeepsImages(s: State, t: State) {
    forall g | g in s.store.sealed :: g in t.store.sealed && t.store.sealed[g] == s.store.sealed[g]
  }

  /** Open handles are kept, with their generation and bytes. */
  ghost predicate KeepsHandles(s: State, t: State) {
    forall h | h in s.handles ::
      h in t.handles && t.handles[h].gen == s.handles[h].gen
      && (s.handles[h].Opened? ==> t.handles[h] == s.handles[h])
  }

  lemma StepKeeps(s: State, a: Action)
    ensures KeepsParts(s, Step(s, a)) && KeepsImages(s, Step(s, a)) && KeepsHandles(s, Step(s, a))
    ensures Step(s, a).store.checksSeal == s.store.checksSeal
  {
  }

  /** Whatever interleaving follows, staged parts, sealed images and open handles stay what they are. */
  lemma {:induction false} RunKeeps(s: State, actions: seq<Action>)
    ensures KeepsParts(s, Run(s, actions))
    ensures KeepsImages(s, Run(s, actions)) && KeepsHandles(s, Run(s, actions))
    decreases |actions|
  {
    if actions != [] {
      StepKeeps(s, actions[0]);
      RunKeeps(Step(s, actions[0]), actions[1..]);
    }
  }

  /** An open handle holds exactly the sealed image of its generation. */
  ghost predicate HandlesFaithful(s: State) {
    forall h | h in s.handles ::
      s.handles[h].gen in s.store.sealed
      && (s.handles[h].Opened? ==> s.handles[h].bytes == s.store.sealed[s.handles[h].gen])
  }

  lemma StepFaithful(s: State, a: Action)
    requires HandlesFaithful(s)
    ensures HandlesFaithful(Step(s, a))
  {
    StepKeeps(s, a);
  }

  /** Pin and copy are two steps, yet the bytes are those of the pinned generation in every run. */
  lemma {:induction false} RunFaithful(s: State, actions: seq<Action>)
    requires HandlesFaithful(s)
    ensures HandlesFaithful(Run(s, actions))
    decreases |actions|
  {
    if actions != [] {
      StepFaithful(s, actions[0]);
      RunFaithful(Step(s, actions[0]), actions[1..]);
    }
  }

  /** The pointer after the first `n` flips. */
  function PointerAt(start: Option<nat>, flips: seq<(Option<nat>, nat)>, n: nat): Option<nat>
    requires n <= |flips|
  {
    if n == 0 then start else Some(flips[n - 1].1)
  }

  /** The accepted flips form one chain: each expected what the one before had written. */
  ghost predicate Chain(start: Option<nat>, flips: seq<(Option<nat>, nat)>, current: Option<nat>) {
    && (forall i {:trigger PointerAt(start, flips, i)} | 0 <= i < |flips| :: flips[i].0 == PointerAt(start, flips, i))
    && current == PointerAt(start, flips, |flips|)
  }

  lemma ChainGrows(start: Option<nat>, flips: seq<(Option<nat>, nat)>, current: Option<nat>, gen: nat)
    requires Chain(start, flips, current)
    ensures Chain(start, flips + [(current, gen)], Some(gen))
  {
    var now := flips + [(current, gen)];
    forall i | 0 <= i < |now|
      ensures now[i].0 == PointerAt(start, now, i)
    {
      assert PointerAt(start, now, i) == PointerAt(start, flips, i);
    }
  }

  lemma StepChains(start: Option<nat>, s: State, a: Action)
    requires Chain(start, s.flips, s.store.current)
    ensures Chain(start, Step(s, a).flips, Step(s, a).store.current)
  {
    if Step(s, a).flips != s.flips {
      ChainGrows(start, s.flips, s.store.current, Step(s, a).store.current.value);
    }
  }

  /** No update of CURRENT is lost: over every run the pointer moves along one chain of flips. */
  lemma {:induction false} RunChains(start: Option<nat>, s: State, actions: seq<Action>)
    requires Chain(start, s.flips, s.store.current)
    ensures Chain(start, Run(s, actions).flips, Run(s, actions).store.current)
    decreases |actions|
  {
    if actions != [] {
      StepChains(start, s, actions[0]);
      RunChains(start, Step(s, actions[0]), actions[1..]);
    }
  }

  ghost predicate CurrentSealed(s: State) {
    s.store.current.Some? ==> s.store.current.value in s.store.sealed
  }

  /** Publishers that hold a generation have sealed it. */
  ghost predicate HoldersSealed(s: State) {
    forall p | p in s.publishers && s.publishers[p].Holding? :: s.publishers[p].gen in s.store.sealed
  }

  /** Not a raw conditional publish of an unsealed generation on a store that does not look at the seal. */
  ghost predicate Guarded(s: State, a: Action) {
    a.CasPublish? && a.expected == s.store.current && !s.store.checksSeal ==> a.gen in s.store.sealed
  }

  /** Exactly the unguarded raw publish makes CURRENT name a generation that is not sealed. */
  lemma CurrentSealedStep(s: State, a: Action)
    requires CurrentSealed(s) && HoldersSealed(s)
    ensures CurrentSealed(Step(s, a)) <==> Guarded(s, a)
    ensures HoldersSealed(Step(s, a))
  {
  }

  /** On a store that does not look at the seal, one raw publish is enough. */
  lemma UnsealedPublish(s: State, gen: nat)
    requires s.store.current == None && s.store.sealed == map[] && !s.store.checksSeal
    ensures Run(s, [CasPublish(gen, None)]).store.current == Some(gen)
    ensures !CurrentSealed(Run(s, [CasPublish(gen, None)]))
  {
    assert Run(s, [CasPublish(gen, None)]) == Run(Step(s, CasPublish(gen, None)), []);
  }

  ghost predicate AllGuarded(s: State, actions: seq<Action>)
    decreases |actions|
  {
    actions == [] || (Guarded(s, actions[0]) && AllGuarded(Step(s, actions[0]), actions[1..]))
  }

  /** While every raw publish is guarded, CURRENT names a sealed generation, so it can be opened. */
  lemma {:induction false} RunCurrentSealed(s: State, actions: seq<Action>)
    requires CurrentSealed(s) && HoldersSealed(s) && AllGuarded(s, actions)
    ensures CurrentSealed(Run(s, actions)) && HoldersSealed(Run(s, actions))
    decreases |actions|
  {
    if actions != [] {
      CurrentSealedStep(s, actions[0]);
      RunCurrentSealed(Step(s, actions[0]), actions[1..]);
    }
  }
}
