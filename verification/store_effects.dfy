/** What each action on a store does, field by field. */
module StoreEffects {
  import opened Wrappers
  import opened ReadPlans
  import opened StoreRuns

  /** A stage leaves the bytes of a new part; the part of an id already staged stays what it is. */
  lemma StageEffect(s: State, session: string, part: string, bytes: Bytes)
    ensures var t := Step(s, Stage(session, part, bytes));
            var id := (session, part);
            t == s.(store := t.store)
            && t.store == s.store.(staged := t.store.staged)
            && id in t.store.staged
            && t.store.staged[id] == (if id in s.store.staged then s.store.staged[id] else bytes)
            && forall other :: other != id ==>
                 (other in t.store.staged <==> other in s.store.staged)
                 && (other in s.store.staged ==> t.store.staged[other] == s.store.staged[other])
  {
  }

  /** A seal leaves the merged image as the generation's, once. */
  lemma SealEffect(s: State, gen: nat, image: Option<Bytes>)
    ensures var t := Step(s, Seal(gen, image));
            t == s.(store := t.store)
            && t.store == s.store.(sealed := t.store.sealed)
            && (gen in t.store.sealed <==> gen in s.store.sealed || image.Some?)
            && (gen in t.store.sealed ==>
                  t.store.sealed[gen] == if gen in s.store.sealed then s.store.sealed[gen] else image.value)
            && forall other :: other != gen ==>
                 (other in t.store.sealed <==> other in s.store.sealed)
                 && (other in s.store.sealed ==> t.store.sealed[other] == s.store.sealed[other])
  {
  }

  /** A conditional publish moves CURRENT exactly when it is what was expected, and changes nothing else. */
  lemma CasEffect(s: State, gen: nat, expected: Option<nat>)
    ensures var t := Step(s, CasPublish(gen, expected));
            var moved := s.store.current == expected && (s.store.checksSeal ==> gen in s.store.sealed);
            t == if moved then s.(store := s.store.(current := Some(gen)), flips := s.flips + [(expected, gen)]) else s
  {
  }

  /** A pin takes the generation it asks for, if that is sealed; CURRENT's when it asks for CURRENT. */
  lemma PinEffect(s: State, h: nat, gen: nat)
    ensures Step(s, PinExplicit(h, gen))
         == if h !in s.handles && gen in s.store.sealed then s.(handles := s.handles[h := Pinned(gen)]) else s
    ensures Step(s, PinCurrent(h))
         == if s.store.current.None? then s else Step(s, PinExplicit(h, s.store.current.value))
  {
  }

  /** Pinning a sealed generation and copying, in a row, opens exactly that generation with its bytes. */
  lemma OpenEffect(s: State, h: nat, gen: nat)
    requires h !in s.handles && gen in s.store.sealed
    ensures Run(s, [PinExplicit(h, gen), CopyBytes(h)])
         == s.(handles := s.handles[h := Opened(gen, s.store.sealed[gen])])
  {
    var pinned := Step(s, PinExplicit(h, gen));
    assert [PinExplicit(h, gen), CopyBytes(h)][1..] == [CopyBytes(h)] && [CopyBytes(h)][1..] == [];
    assert Run(pinned, [CopyBytes(h)]) == Run(Step(pinned, CopyBytes(h)), []);
    assert pinned.handles[h := Opened(gen, s.store.sealed[gen])] == s.handles[h := Opened(gen, s.store.sealed[gen])];
  }

  /** An idle publisher that reads CURRENT chooses the next generation, 1 on a new store. */
  lemma ChooseEffect(s: State, p: nat)
    requires p !in s.publishers || s.publishers[p].Idle?
    ensures Step(s, ReadCurrent(p))
         == s.(publishers := s.publishers[p :=
                 Chosen(if s.store.current.None? then 1 else (s.store.current.value + 1) % 0x1_0000_0000_0000_0000,
                        s.store.current)])
  {
  }

  /** A publisher seals the generation it chose, or gives up when that is sealed or the parts do not merge. */
  lemma SealChosenEffect(s: State, p: nat, gen: nat, seen: Option<nat>, image: Option<Bytes>)
    requires p in s.publishers && s.publishers[p] == Chosen(gen, seen)
    ensures Step(s, SealChosen(p, image))
         == if image.Some? && gen !in s.store.sealed then
              s.(store := s.store.(sealed := s.store.sealed[gen := image.value]),
                 publishers := s.publishers[p := Holding(gen, seen)])
            else s.(publishers := s.publishers[p := Idle])
  {
  }

  /** A publisher that has sealed flips CURRENT from what it expects; then it is done. */
  lemma FlipEffect(s: State, p: nat, gen: nat, expected: Option<nat>)
    requires p in s.publishers && s.publishers[p] == Holding(gen, expected)
    ensures Step(s, Flip(p)) == Step(s.(publishers := s.publishers[p := Idle]), CasPublish(gen, expected))
    ensures Step(s, ReadExpected(p)) == s.(publishers := s.publishers[p := Holding(gen, s.store.current)])
  {
  }

  /** Once sealed, a generation's image is what the first seal left, in every later state. */
  lemma SealedOnce(s: State, gen: nat, image: Bytes, later: seq<Action>)
    requires gen !in s.store.sealed
    ensures var t := Run(Step(s, Seal(gen, Some(image))), later);
            gen in t.store.sealed && t.store.sealed[gen] == image
  {
    RunKeeps(Step(s, Seal(gen, Some(image))), later);
  }

  /** A staged part has the bytes of its first stage in every later state. */
  lemma StagedOnce(s: State, session: string, part: string, bytes: Bytes, later: seq<Action>)
    requires (session, part) !in s.store.staged
    ensures var t := Run(Step(s, Stage(session, part, bytes)), later);
            (session, part) in t.store.staged && t.store.staged[(session, part)] == bytes
  {
    RunKeeps(Step(s, Stage(session, part, bytes)), later);
  }
}
