/** The chained registry updates are sequential, and keep ids and ports distinct. */
module InstanceRegistryProofs {
  import opened JsStrings
  import opened InstanceRegistry

  // ------------------------------------------------------------ the promise chain

  lemma SameMutations(a: seq<Call>, b: seq<Call>, n: nat)
    requires n <= |a| && n <= |b| && forall i :: 0 <= i < n ==> a[i].mutation == b[i].mutation
    ensures Mutations(a)[..n] == Mutations(b)[..n]
  {}

  lemma {:induction false} CallKeepsChain(initial: Registry, s: State, mutation: Mutation, done: nat)
    requires Chained(initial, s, done)
    ensures Chained(initial, Do(s, Update(mutation)), done)
  {
    hide Effect, Sequential, Mutations;
    var s' := Do(s, Update(mutation));
    forall i | 0 <= i <= done
      ensures Mutations(s'.calls)[..i] == Mutations(s.calls)[..i]
    {
      SameMutations(s'.calls, s.calls, i);
    }
  }

  lemma StartKeepsChain(initial: Registry, s: State, index: nat, done: nat)
    requires Chained(initial, s, done)
    ensures Chained(initial, Do(s, Start(index)), done)
  {
    hide Effect, Sequential, Mutations;
    var s' := Do(s, Start(index));
    forall i | 0 <= i <= done
      ensures Mutations(s'.calls)[..i] == Mutations(s.calls)[..i]
    {
      SameMutations(s'.calls, s.calls, i);
    }
  }

  lemma FinishKeepsChain(initial: Registry, s: State, index: nat, done: nat)
    requires Chained(initial, s, done)
    ensures Chained(initial, Do(s, Finish(index)),
                    if index == done && done < |s.calls| && s.calls[done].Running? then done + 1 else done)
  {
    hide Effect, Mutations;
    var s' := Do(s, Finish(index));
    forall i | 0 <= i <= |s.calls|
      ensures Mutations(s'.calls)[..i] == Mutations(s.calls)[..i]
    {
      SameMutations(s'.calls, s.calls, i);
    }
    if index == done && done < |s.calls| && s.calls[done].Running? {
      var m := Mutations(s.calls)[..done + 1];
      assert m[..done] == Mutations(s.calls)[..done];
      assert m[done] == s.calls[done].mutation by { MutationAt(s.calls, done); }
      assert Sequential(initial, m) == Effect(Sequential(initial, m[..done]), m[done]).0;
    }
    hide Sequential;
  }

  lemma MutationAt(calls: seq<Call>, i: nat)
    requires i < |calls|
    ensures Mutations(calls)[i] == calls[i].mutation
  {}

  lemma {:induction false} RunKeepsChain(initial: Registry, s: State, schedule: seq<Action>, done: nat)
    returns (last: nat)
    requires Chained(initial, s, done)
    ensures Chained(initial, Run(s, schedule), last)
    decreases |schedule|
  {
    hide Do, Chained;
    if schedule == [] {
      last := done;
    } else {
      var next := done;
      match schedule[0] {
        case Update(mutation) => CallKeepsChain(initial, s, mutation, done);
        case Start(index) => StartKeepsChain(initial, s, index, done);
        case Finish(index) =>
          FinishKeepsChain(initial, s, index, done);
          next := if index == done && done < |s.calls| && s.calls[done].Running? then done + 1 else done;
      }
      last := RunKeepsChain(initial, Do(s, schedule[0]), schedule[1..], next);
    }
  }

  // ------------------------------------------------------------ main results

  /**
   Under every interleaving, some number of calls have settled, they are the
   first ones in call order, and the registry and their results are those of
   running them one after another.
   */
  lemma UpdatesAreSequential(initial: Registry, schedule: seq<Action>) returns (done: nat)
    ensures var s := Run(State(initial, []), schedule);
            && done <= |s.calls|
            && (forall i :: 0 <= i < |s.calls| ==> (s.calls[i].Settled? <==> i < done))
            && s.registry == Sequential(initial, Mutations(s.calls)[..done])
            && (forall i :: 0 <= i < done ==>
                  s.calls[i].result == Effect(Sequential(initial, Mutations(s.calls)[..i]), s.calls[i].mutation).1)
  {
    hide Run, Effect, Sequential;
    ChainStarts(initial);
    done := RunKeepsChain(initial, State(initial, []), schedule, 0);
  }

  lemma ChainStarts(initial: Registry)
    ensures Chained(initial, State(initial, []), 0)
  {}

  /** A call that is not settled can always be brought to its end: nothing in front of it blocks the chain. */
  lemma NothingBlocksTheChain(initial: Registry, s: State, done: nat)
    requires Chained(initial, s, done) && done < |s.calls|
    ensures var next := Do(Do(s, Start(done)), Finish(done));
            Chained(initial, next, done + 1) && |next.calls| == |s.calls|
            && forall i :: 0 <= i < |s.calls| ==> next.calls[i].mutation == s.calls[i].mutation
  {
    hide Effect, Sequential, Mutations;
    StartKeepsChain(initial, s, done, done);
    FinishKeepsChain(initial, Do(s, Start(done)), done, done);
  }

  /** Rejections lose nothing: when the chain runs to its end, every mutation has had its turn. */
  lemma {:induction false} EveryCallSettles(initial: Registry, s: State, done: nat)
    requires Chained(initial, s, done)
    ensures var last := Run(s, Rest(done, |s.calls|));
            && |last.calls| == |s.calls| && (forall i :: 0 <= i < |s.calls| ==> last.calls[i].Settled?)
            && last.registry == Sequential(initial, Mutations(s.calls))
    decreases |s.calls| - done
  {
    hide Effect, Sequential, Do;
    if done < |s.calls| {
      NothingBlocksTheChain(initial, s, done);
      var next := Do(Do(s, Start(done)), Finish(done));
      EveryCallSettles(initial, next, done + 1);
      var rest := Rest(done + 1, |s.calls|);
      TwoSteps(s, done, rest);
      SameMutations(next.calls, s.calls, |s.calls|);
      assert Mutations(next.calls)[..|s.calls|] == Mutations(next.calls);
    }
    assert Mutations(s.calls)[..|s.calls|] == Mutations(s.calls);
  }

  lemma TwoSteps(s: State, index: nat, rest: seq<Action>)
    ensures Run(s, [Start(index), Finish(index)] + rest) == Run(Do(Do(s, Start(index)), Finish(index)), rest)
  {
    hide Do;
    var all := [Start(index), Finish(index)] + rest;
    assert all[1..] == [Finish(index)] + rest && all[1..][1..] == rest;
  }

  // ------------------------------------------------------------ ids and ports

  lemma {:induction false} FindIsThere(registry: Registry, id: JsString)
    ensures Find(registry, id).Some? ==> exists i :: 0 <= i < |registry| && registry[i].id == id
    decreases |registry|
  {
    if registry != [] && registry[0].id != id {
      FindIsThere(registry[1..], id);
      if Find(registry, id).Some? {
        var i :| 0 <= i < |registry[1..]| && registry[1..][i].id == id;
        assert registry[i + 1].id == id;
      }
    }
  }

  /** Saving keeps the ports distinct exactly when the saved id occurs once. */
  lemma SaveKeepsPortsExactly(registry: Registry, m: Mutation)
    requires m.Save? && DistinctPorts(registry) && SaveAllowed(registry, m) && m.persisted
    ensures DistinctPorts(Effect(registry, m).0) <==> OccursOnce(registry, m.id)
  {
    hide Find;
    var after := Saved(registry, m.id, m.wanted.value);
    if !OccursOnce(registry, m.id) {
      var i, j :| 0 <= i < |registry| && 0 <= j < |registry| && registry[i].id == m.id && registry[j].id == m.id && i != j;
      assert after[i].settings.port == after[j].settings.port;
    } else {
      forall i, j | 0 <= i < j < |after|
        ensures after[i].settings.port != after[j].settings.port
      {
        assert registry[i].id == m.id ==> registry[j].id != m.id;
      }
    }
  }

  lemma {:induction false} WithoutKeeps(registry: Registry, id: JsString)
    ensures forall instance :: instance in Without(registry, id) <==> instance in registry && instance.id != id
    decreases |registry|
  {
    if registry != [] {
      WithoutKeeps(registry[1..], id);
      assert registry == [registry[0]] + registry[1..];
    }
  }

  lemma ConsIsDistinct(first: Instance, rest: Registry)
    requires DistinctIds(rest) && DistinctPorts(rest)
    requires forall other :: other in rest ==> other.id != first.id && other.settings.port != first.settings.port
    ensures DistinctIds([first] + rest) && DistinctPorts([first] + rest)
  {
    assert forall i :: 1 <= i < |[first] + rest| ==> ([first] + rest)[i] == rest[i - 1];
  }

  lemma TailIsDistinct(registry: Registry)
    requires DistinctIds(registry) && DistinctPorts(registry) && registry != []
    ensures DistinctIds(registry[1..]) && DistinctPorts(registry[1..])
    ensures forall other :: other in registry[1..] ==> other.id != registry[0].id && other.settings.port != registry[0].settings.port
  {}

  lemma {:induction false} WithoutKeepsDistinct(registry: Registry, id: JsString)
    requires DistinctIds(registry) && DistinctPorts(registry)
    ensures DistinctIds(Without(registry, id)) && DistinctPorts(Without(registry, id))
    decreases |registry|
  {
    hide DistinctIds, DistinctPorts;
    if registry == [] {
      assert Without(registry, id) == registry;
    } else {
      var first, rest := registry[0], registry[1..];
      TailIsDistinct(registry);
      WithoutKeepsDistinct(rest, id);
      WithoutKeeps(rest, id);
      if first.id != id {
        ConsIsDistinct(first, Without(rest, id));
      } else {
        assert [] + Without(rest, id) == Without(rest, id);
      }
    }
  }

  lemma SavedIds(registry: Registry, id: JsString, settings: Settings)
    ensures DistinctIds(registry) ==> DistinctIds(Saved(registry, id, settings))
    ensures forall instance :: instance in Saved(registry, id, settings) ==>
              exists before :: before in registry && before.id == instance.id
  {
    var after := Saved(registry, id, settings);
    forall instance | instance in after
      ensures exists before :: before in registry && before.id == instance.id
    {
      var i :| 0 <= i < |after| && after[i] == instance;
      assert registry[i] in registry;
    }
  }

  lemma EffectKeepsDistinct(registry: Registry, m: Mutation)
    requires DistinctIds(registry) && DistinctPorts(registry)
    requires m.Create? ==> !HasId(registry, m.id)
    ensures DistinctIds(Effect(registry, m).0) && DistinctPorts(Effect(registry, m).0)
    ensures forall instance :: instance in Effect(registry, m).0 ==>
              (exists before :: before in registry && before.id == instance.id) || (m.Create? && m.id == instance.id)
  {
    hide Find;
    match m
    case Create(id, settings, _, _, _) =>
    case Save(id, settings, _, _, _, persisted) =>
      if SaveAllowed(registry, m) && persisted {
        SaveKeepsPortsExactly(registry, m);
        SavedIds(registry, id, settings.value);
      }
    case Remove(id, _, _, _) =>
      WithoutKeeps(registry, id);
      WithoutKeepsDistinct(registry, id);
  }

  lemma {:induction false} SequentialKeepsDistinct(initial: Registry, mutations: seq<Mutation>)
    requires DistinctIds(initial) && DistinctPorts(initial) && FreshIds(initial, mutations)
    ensures var r := Sequential(initial, mutations);
            DistinctIds(r) && DistinctPorts(r) && KnownIds(initial, mutations, r)
    decreases |mutations|
  {
    hide Effect;
    if mutations == [] {
      forall instance | instance in initial
        ensures HasId(initial, instance.id)
      {
        var i :| 0 <= i < |initial| && initial[i] == instance;
      }
    } else {
      var last := |mutations| - 1;
      var m, before := mutations[last], mutations[..last];
      SequentialKeepsDistinct(initial, before);
      var r := Sequential(initial, before);
      if m.Create? {
        forall i | 0 <= i < |r|
          ensures r[i].id != m.id
        {
          assert r[i] in r;
          assert forall k :: 0 <= k < |before| ==> before[k] == mutations[k];
        }
      }
      EffectKeepsDistinct(r, m);
      assert forall x :: x in before ==> x in mutations;
      assert m in mutations;
    }
  }

  /** Every reachable registry has distinct ids and gateway ports when the first one has, and new ids are fresh. */
  lemma PortsStayDistinct(initial: Registry, schedule: seq<Action>)
    requires DistinctIds(initial) && DistinctPorts(initial)
    requires FreshIds(initial, Mutations(Run(State(initial, []), schedule).calls))
    ensures DistinctPorts(Run(State(initial, []), schedule).registry)
  {
    hide Run, Sequential, Effect;
    var done := UpdatesAreSequential(initial, schedule);
    var all := Mutations(Run(State(initial, []), schedule).calls);
    var first := all[..done];
    assert forall i :: 0 <= i < |first| ==> first[i] == all[i];
    SequentialKeepsDistinct(initial, first);
  }

  lemma {:induction false} FindFirst(registry: Registry, i: nat)
    requires i < |registry|
    ensures var found := Find(registry, registry[i].id);
            found.Some? && found.value in registry && found.value.id == registry[i].id
    decreases |registry|
  {
    if registry[0].id != registry[i].id {
      FindFirst(registry[1..], i - 1);
      assert registry == [registry[0]] + registry[1..];
    }
  }

  /** Saving an instance of a repeated id with the port it has. */
  lemma RepeatedIdSharesPort(registry: Registry, i: nat, j: nat) returns (m: Mutation)
    requires DistinctPorts(registry) && i < j < |registry| && registry[i].id == registry[j].id
    ensures m.Save? && !DistinctPorts(Effect(registry, m).0)
  {
    hide Find;
    FindFirst(registry, i);
    var id := registry[i].id;
    var found := Find(registry, id).value;
    m := Save(id, Some(found.settings), true, true, true, true);
    var k :| 0 <= k < |registry| && registry[k] == found;
    assert !OtherHasPort(registry, id, found.settings.port);
    SaveKeepsPortsExactly(registry, m);
  }

  lemma OneUpdate(initial: Registry, m: Mutation)
    ensures var s := Run(State(initial, []), [Update(m), Start(0), Finish(0)]);
            s.registry == Effect(initial, m).0 && Mutations(s.calls) == [m]
  {
    hide Effect;
    var s1 := Do(State(initial, []), Update(m));
    var s2 := Do(s1, Start(0));
    var s3 := Do(s2, Finish(0));
    var schedule := [Update(m), Start(0), Finish(0)];
    assert schedule[1..] == [Start(0), Finish(0)] && [Start(0), Finish(0)][1..] == [Finish(0)] && [Finish(0)][1..] == [];
    assert Run(s2, [Finish(0)]) == s3;
    assert Run(s1, [Start(0), Finish(0)]) == s3;
  }

  lemma SaveIsFresh(initial: Registry, m: Mutation)
    requires m.Save?
    ensures FreshIds(initial, [m])
  {}

  ghost predicate KeepsPorts(initial: Registry, schedule: seq<Action>) {
    var s := Run(State(initial, []), schedule);
    FreshIds(initial, Mutations(s.calls)) ==> DistinctPorts(s.registry)
  }

  /**
   From distinct ports, every schedule whose new ids are fresh keeps the ports
   distinct, if and only if the initial ids are distinct.
   */
  lemma PortsStayDistinctExactly(initial: Registry)
    requires DistinctPorts(initial)
    ensures (forall schedule :: KeepsPorts(initial, schedule)) <==> DistinctIds(initial)
  {
    hide Run, Effect;
    if DistinctIds(initial) {
      forall schedule
        ensures KeepsPorts(initial, schedule)
      {
        if FreshIds(initial, Mutations(Run(State(initial, []), schedule).calls)) {
          PortsStayDistinct(initial, schedule);
        }
      }
    } else {
      var i, j :| 0 <= i < j < |initial| && initial[i].id == initial[j].id;
      var m := RepeatedIdSharesPort(initial, i, j);
      OneUpdate(initial, m);
      SaveIsFresh(initial, m);
      assert !KeepsPorts(initial, [Update(m), Start(0), Finish(0)]);
    }
  }

  // ------------------------------------------------------------ what each mutation does

  /** The first entry with an ID. */
  ghost predicate FirstWith(registry: Registry, id: JsString, i: nat) {
    i < |registry| && registry[i].id == id && forall j :: 0 <= j < i ==> registry[j].id != id
  }

  lemma {:induction false} FindIsFirst(registry: Registry, id: JsString) returns (i: nat)
    ensures if Find(registry, id).Some? then FirstWith(registry, id, i) && Find(registry, id).value == registry[i]
            else forall j :: 0 <= j < |registry| ==> registry[j].id != id
    decreases |registry|
  {
    i := 0;
    if registry != [] && registry[0].id != id {
      var rest := registry[1..];
      var j := FindIsFirst(rest, id);
      i := j + 1;
      assert forall k :: 0 < k < |registry| ==> registry[k] == rest[k - 1];
    }
  }

  /** A creation adds its instance behind the others, unless its port is taken or a step fails. */
  lemma CreateExactly(registry: Registry, m: Mutation)
    requires m.Create?
    ensures var (after, result) := Effect(registry, m);
            var works := m.portFree && m.homeReady && m.persisted
                         && forall i :: 0 <= i < |registry| ==> registry[i].settings.port != m.settings.port;
            && (result == Fulfilled <==> works)
            && after == if works then registry + [Instance(m.id, m.settings)] else registry
  {}

  /**
   A save gives every entry with its ID the wanted settings, unless the ID is
   unknown, the settings are refused, another ID has the port, a new port is
   taken on the machine, or a step fails.
   */
  lemma SaveExactly(registry: Registry, m: Mutation, first: nat)
    requires m.Save? && (FirstWith(registry, m.id, first) || forall i :: 0 <= i < |registry| ==> registry[i].id != m.id)
    ensures var (after, result) := Effect(registry, m);
            var works := FirstWith(registry, m.id, first) && m.wanted.Some?
                         && m.envReady && m.envWritten && m.persisted
                         && (forall i :: 0 <= i < |registry| && registry[i].settings.port == m.wanted.value.port ==>
                             registry[i].id == m.id)
                         && (m.portFree || registry[first].settings.port == m.wanted.value.port);
            && (result == Fulfilled <==> works)
            && (!works ==> after == registry)
            && (works ==> |after| == |registry| && forall i :: 0 <= i < |registry| ==>
                after[i] == if registry[i].id == m.id then Instance(m.id, m.wanted.value) else registry[i])
  {
    hide Find;
    var i := FindIsFirst(registry, m.id);
  }

  /** A removal keeps the other entries in their order, and fails behind it when the directory cannot be removed. */
  lemma RemoveExactly(registry: Registry, m: Mutation)
    requires m.Remove?
    ensures var (after, result) := Effect(registry, m);
            var removes := m.stopped && m.persisted && exists i :: 0 <= i < |registry| && registry[i].id == m.id;
            && (result == Fulfilled <==> removes && m.homeRemoved)
            && after == if removes then Without(registry, m.id) else registry
  {
    hide Find, Without;
    var i := FindIsFirst(registry, m.id);
  }

  lemma WithoutFirst(first: Instance, rest: Registry, id: JsString)
    ensures Without([first] + rest, id) == if first.id == id then Without(rest, id) else [first] + Without(rest, id)
  {
    assert ([first] + rest)[1..] == rest;
    assert [] + Without(rest, id) == Without(rest, id);
  }

  /** Removal goes entry by entry. */
  lemma {:induction false} WithoutConcat(a: Registry, b: Registry, id: JsString)
    ensures Without(a + b, id) == Without(a, id) + Without(b, id)
    decreases |a|
  {
    hide Without;
    if a == [] {
      assert a + b == b;
      assert Without([], id) == [] by { NothingWithout(id); }
    } else {
      var first, rest := a[0], a[1..];
      assert a == [first] + rest && a + b == [first] + (rest + b);
      WithoutFirst(first, rest, id);
      WithoutFirst(first, rest + b, id);
      WithoutConcat(rest, b, id);
      Associates([first], Without(rest, id), Without(b, id));
    }
  }

  lemma Associates(a: Registry, b: Registry, c: Registry)
    ensures a + (b + c) == (a + b) + c
  {}

  lemma NothingWithout(id: JsString)
    ensures Without([], id) == []
  {}

  lemma WithoutOne(instance: Instance, id: JsString)
    ensures Without([instance], id) == if instance.id == id then [] else [instance]
  {
    assert [instance][1..] == [];
  }
}
