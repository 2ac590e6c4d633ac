/** The binder's plugin chain: what its plugins hold for a pod while the pod is being bound. */
module BinderPlugins {

  type Uid = string

  /** The plugins that PreFilter told to skip. */
  datatype PodState = PodState(skip: set<string>)

  /** The state map of one chain member, and what its wrapped plugins hold for each pod. */
  datatype Books = Books(states: map<Uid, PodState>, held: map<Uid, set<string>>)

  function Held(b: Books, uid: Uid): set<string> {
    if uid in b.held then b.held[uid] else {}
  }

  /** Nothing is recorded and nothing is held for the pod. */
  predicate Clean(b: Books, uid: Uid) {
    uid !in b.states && Held(b, uid) == {}
  }

  /** PreBind succeeded: the pod has an entry, and every plugin that is relevant and was not skipped
      holds its allocation. */
  predicate Open(b: Books, uid: Uid, relevant: set<string>, names: seq<string>) {
    uid in b.states && Held(b, uid) == (set n | n in names && n in relevant) - b.states[uid].skip
  }

  /** Nothing changed for any other pod. */
  ghost predicate OnlyFor(b: Books, b': Books, uid: Uid) {
    && (forall u: Uid :: u != uid ==> (u in b'.states <==> u in b.states) && Held(b', u) == Held(b, u))
    && (forall u <- b.states.Keys :: u != uid ==> b'.states[u] == b.states[u])
  }

  // ---------------------------------------------------------------- runs of calls

  datatype Event = PreBound(uid: Uid) | PreBindFailed(uid: Uid) | PostBound(uid: Uid) | RolledBack(uid: Uid)

  /** What a call does to the books of a chain member. */
  ghost predicate Follows(b: Books, e: Event, relevant: set<string>, names: seq<string>, b': Books) {
    OnlyFor(b, b', e.uid) &&
    match e
    case PreBound(uid) => Open(b', uid, relevant, names)
    case PreBindFailed(uid) => b'.states == b.states && Held(b', uid) == {}
    case PostBound(uid) => uid !in b'.states && Held(b', uid) == Held(b, uid)
    case RolledBack(uid) => Clean(b', uid)
  }

  datatype Stage = Idle | Binding | Bound

  function StageOf(events: seq<Event>, uid: Uid): Stage {
    if events == [] then Idle
    else
      var e := events[|events| - 1];
      if e.uid != uid then StageOf(events[..|events| - 1], uid)
      else match e
        case PreBound(_) => Binding
        case PostBound(_) => Bound
        case PreBindFailed(_) => Idle
        case RolledBack(_) => Idle
  }

  /** The order in which the binder makes its calls for one pod. */
  predicate InOrder(e: Event, stage: Stage) {
    match e
    case PreBound(_) => stage.Idle?
    case PreBindFailed(_) => stage.Idle?
    case PostBound(_) => stage.Binding?
    case RolledBack(_) => !stage.Bound?
  }

  /** Calls for any number of pods, interleaved in any way. */
  ghost predicate Trace(bs: seq<Books>, events: seq<Event>, relevant: map<Uid, set<string>>, names: seq<string>) {
    && |bs| == |events| + 1 && bs[0] == Books(map[], map[])
    && forall i :: 0 <= i < |events| ==>
         && events[i].uid in relevant && InOrder(events[i], StageOf(events[..i], events[i].uid))
         && Follows(bs[i], events[i], relevant[events[i].uid], names, bs[i + 1])
  }

  /** At every point of every trace a pod has an entry exactly between a successful PreBind and its
      PostBind or Rollback; in between the plugins hold exactly what PreBind allocated, and nothing is
      held for a pod that is neither being bound nor bound. */
  lemma {:induction false} EntryExactlyWhileBinding(
    bs: seq<Books>, events: seq<Event>, relevant: map<Uid, set<string>>, names: seq<string>, uid: Uid, k: nat)
    requires Trace(bs, events, relevant, names) && k < |bs| && uid in relevant
    ensures uid in bs[k].states <==> StageOf(events[..k], uid).Binding?
    ensures StageOf(events[..k], uid).Binding? ==> Open(bs[k], uid, relevant[uid], names)
    ensures StageOf(events[..k], uid).Idle? ==> Clean(bs[k], uid)
  {
    if k > 0 {
      EntryExactlyWhileBinding(bs, events, relevant, names, uid, k - 1);
      assert events[..k][..k - 1] == events[..k - 1];
      assert Follows(bs[k - 1], events[k - 1], relevant[events[k - 1].uid], names, bs[k]);
    }
  }

  // ---------------------------------------------------------------- one member of the chain

  class K8sPlugins {
    const names: seq<string>
    var states: map<Uid, PodState>
    var held: map<Uid, set<string>>

    constructor (names: seq<string>)
      ensures this.names == names && Now() == Books(map[], map[])
    {
      this.names, states, held := names, map[], map[];
    }

    ghost function Now(): (b: Books)
      reads this
    {
      Books(states, held)
    }

    ghost predicate Distinct() {
      forall i, j :: 0 <= i < j < |names| ==> names[i] != names[j]
    }

    method Allocate(n: string, uid: Uid) returns (ok: bool)
      modifies this`held
      ensures OnlyFor(old(Now()), Now(), uid)
      ensures Held(Now(), uid) == if ok then Held(old(Now()), uid) + {n} else Held(old(Now()), uid)
    {
      ok := *;
      if ok {
        held := held[uid := (if uid in held then held[uid] else {}) + {n}];
      }
    }

    /** Releasing what is not held does nothing. */
    method UnAllocate(n: string, uid: Uid)
      modifies this`held
      ensures OnlyFor(old(Now()), Now(), uid) && Held(Now(), uid) == Held(old(Now()), uid) - {n}
    {
      if uid in held {
        held := held[uid := held[uid] - {n}];
      }
    }

    /** bindPluginWrapper. Every call to the plugin may fail; a failed Bind gives its allocation back. */
    method BindPlugin(n: string, uid: Uid, relevant: set<string>) returns (ok: bool, skip: bool)
      requires n !in Held(Now(), uid)
      modifies this`held
      ensures OnlyFor(old(Now()), Now(), uid)
      ensures Held(Now(), uid) ==
        if ok && n in relevant && !skip then Held(old(Now()), uid) + {n} else Held(old(Now()), uid)
    {
      ok, skip := true, false;
      if n !in relevant {
        return;
      }
      ok := *;
      if !ok {
        return;
      }
      skip := *;
      if skip {
        return;
      }
      ok := *;
      if !ok {
        return;
      }
      ok := Allocate(n, uid);
      if !ok {
        return;
      }
      ok := *;
      if !ok {
        UnAllocate(n, uid);
      }
    }

    method PreBind(uid: Uid, relevant: set<string>) returns (ok: bool)
      requires Distinct() && Held(Now(), uid) == {}
      modifies this`states, this`held
      ensures Follows(old(Now()), if ok then PreBound(uid) else PreBindFailed(uid), relevant, names, Now())
    {
      var skipped: set<string> := {};
      var index := 0;
      while index < |names|
        invariant 0 <= index <= |names| && states == old(states) && OnlyFor(old(Now()), Now(), uid)
        invariant Held(Now(), uid) == (set n | n in names[..index] && n in relevant) - skipped
        invariant forall n <- skipped :: n in names[..index]
      {
        var skip;
        assert names[..index + 1] == names[..index] + [names[index]];
        ok, skip := BindPlugin(names[index], uid, relevant);
        if skip {
          skipped := skipped + {names[index]};
        }
        if !ok {
          var i := 0;
          while i < index
            invariant 0 <= i <= index && states == old(states) && OnlyFor(old(Now()), Now(), uid)
            invariant forall n <- Held(Now(), uid) :: n in names[i..index]
          {
            UnAllocate(names[i], uid);
            i := i + 1;
          }
          return;
        }
        index := index + 1;
      }
      assert names[..|names|] == names;
      states := states[uid := PodState(skipped)];
      ok := true;
    }

    /** The entry goes; what the plugins hold stays with the bound pod. */
    method PostBind(uid: Uid)
      modifies this`states
      ensures Follows(old(Now()), PostBound(uid), {}, names, Now())
    {
      states := states - {uid};
    }

    method Rollback(uid: Uid, relevant: set<string>)
      requires Distinct() && (Clean(Now(), uid) || Open(Now(), uid, relevant, names))
      modifies this`states, this`held
      ensures Follows(old(Now()), RolledBack(uid), relevant, names, Now())
    {
      if uid !in states {
        return;
      }
      var podState := states[uid];
      states := states - {uid};
      var i := 0;
      while i < |names|
        invariant 0 <= i <= |names| && uid !in states && OnlyFor(old(Now()), Now(), uid)
        invariant Held(Now(), uid) == (set n | n in names[i..] && n in relevant) - podState.skip
      {
        if names[i] in relevant && names[i] !in podState.skip {
          UnAllocate(names[i], uid);
        }
        i := i + 1;
      }
    }
  }

  // ---------------------------------------------------------------- calls made in order are a trace

  /** A chain member from its creation on, with the calls that were made and the books they left. */
  class Recorded {
    const plugins: K8sPlugins
    const relevant: map<Uid, set<string>>
    ghost var events: seq<Event>
    ghost var books: seq<Books>

    ghost predicate Valid()
      reads this, plugins
    {
      plugins.Distinct() && Trace(books, events, relevant, plugins.names) && books[|events|] == plugins.Now()
    }

    constructor (names: seq<string>, relevant: map<Uid, set<string>>)
      requires forall i, j :: 0 <= i < j < |names| ==> names[i] != names[j]
      ensures Valid() && events == [] && fresh(plugins) && this.relevant == relevant && plugins.names == names
    {
      plugins := new K8sPlugins(names);
      this.relevant, events := relevant, [];
      new;
      books := [plugins.Now()];
    }

    /** The last call is written down. */
    ghost method Write(e: Event)
      requires plugins.Distinct() && Trace(books, events, relevant, plugins.names) && e.uid in relevant
      requires InOrder(e, StageOf(events, e.uid))
      requires Follows(books[|events|], e, relevant[e.uid], plugins.names, plugins.Now())
      modifies this
      ensures Valid() && events == old(events) + [e] && books == old(books) + [plugins.Now()]
    {
      hide Follows, InOrder;
      ghost var n := |events|;
      assert (events + [e])[..n] == events;
      assert forall i :: 0 <= i < n ==> (events + [e])[..i] == events[..i];
      events, books := events + [e], books + [plugins.Now()];
    }

    ghost method BooksOf(uid: Uid)
      requires Valid() && uid in relevant
      ensures StageOf(events, uid).Binding? ==> Open(plugins.Now(), uid, relevant[uid], plugins.names)
      ensures StageOf(events, uid).Idle? ==> Clean(plugins.Now(), uid)
    {
      EntryExactlyWhileBinding(books, events, relevant, plugins.names, uid, |events|);
      assert events[..|events|] == events;
    }

    method PreBind(uid: Uid) returns (ok: bool)
      requires Valid() && uid in relevant && StageOf(events, uid).Idle?
      modifies this, plugins
      ensures Valid() && events == old(events) + [if ok then PreBound(uid) else PreBindFailed(uid)]
    {
      BooksOf(uid);
      ok := plugins.PreBind(uid, relevant[uid]);
      Write(if ok then PreBound(uid) else PreBindFailed(uid));
    }

    method PostBind(uid: Uid)
      requires Valid() && uid in relevant && StageOf(events, uid).Binding?
      modifies this, plugins
      ensures Valid() && events == old(events) + [PostBound(uid)]
    {
      plugins.PostBind(uid);
      Write(PostBound(uid));
    }

    method Rollback(uid: Uid)
      requires Valid() && uid in relevant && !StageOf(events, uid).Bound?
      modifies this, plugins
      ensures Valid() && events == old(events) + [RolledBack(uid)]
    {
      BooksOf(uid);
      plugins.Rollback(uid, relevant[uid]);
      Write(RolledBack(uid));
    }
  }

  lemma Unheld(b: Books, uid: Uid)
    requires Clean(b, uid)
    ensures Held(b, uid) == {}
  {
  }

  lemma StillClean(b: Books, b': Books, uid: Uid, relevant: set<string>, names: seq<string>)
    requires Clean(b, uid) && Follows(b, PreBindFailed(uid), relevant, names, b')
    ensures Clean(b', uid)
  {
  }

  lemma Reflexive(uid: Uid)
    ensures forall b: Books :: OnlyFor(b, b, uid)
  {
  }

  // ---------------------------------------------------------------- the chain

  /** The binder's list of plugins. */
  class Chain {
    const plugins: seq<K8sPlugins>

    ghost predicate Valid()
      reads this, set i | 0 <= i < |plugins| :: plugins[i]
    {
      && (forall i, j :: 0 <= i < j < |plugins| ==> plugins[i] != plugins[j])
      && (forall i :: 0 <= i < |plugins| ==> plugins[i].Distinct())
    }

    /** Every member is clean for the pod, from `from` on. */
    ghost predicate AllClean(uid: Uid, from: nat)
      reads this, set i | 0 <= i < |plugins| :: plugins[i]
    {
      forall i :: from <= i < |plugins| ==> Clean(plugins[i].Now(), uid)
    }

    ghost predicate AllOpen(uid: Uid, relevant: set<string>, to: nat)
      reads this, set i | 0 <= i < |plugins| :: plugins[i]
      requires to <= |plugins|
    {
      forall i :: 0 <= i < to ==> Open(plugins[i].Now(), uid, relevant, plugins[i].names)
    }

    twostate predicate OthersUntouched(uid: Uid)
      reads this, set i | 0 <= i < |plugins| :: plugins[i]
    {
      forall i :: 0 <= i < |plugins| ==> OnlyFor(old(plugins[i].Now()), plugins[i].Now(), uid)
    }

    twostate predicate Untouched(from: nat)
      reads this, set i | 0 <= i < |plugins| :: plugins[i]
    {
      forall i :: from <= i < |plugins| ==> plugins[i].Now() == old(plugins[i].Now())
    }

    /** BinderPlugins.PreBind: stops at the first failure, and says where. */
    method PreBind(uid: Uid, relevant: set<string>) returns (ok: bool, ghost reached: nat)
      requires Valid() && AllClean(uid, 0)
      modifies set i | 0 <= i < |plugins| :: plugins[i]
      ensures OthersUntouched(uid) && reached <= |plugins| && (ok ==> reached == |plugins|)
      ensures AllOpen(uid, relevant, reached) && AllClean(uid, reached)
    {
      hide OnlyFor, Open, Clean, Held;
      Reflexive(uid);
      var i := 0;
      while i < |plugins|
        invariant 0 <= i <= |plugins| && Untouched(i)
        invariant forall j :: 0 <= j < i ==> OnlyFor(old(plugins[j].Now()), plugins[j].Now(), uid)
        invariant AllOpen(uid, relevant, i) && AllClean(uid, i)
      {
        Unheld(plugins[i].Now(), uid);
        ok := plugins[i].PreBind(uid, relevant);
        if !ok {
          StillClean(old(plugins[i].Now()), plugins[i].Now(), uid, relevant, plugins[i].names);
          reached := i;
          return;
        }
        i := i + 1;
      }
      ok, reached := true, i;
    }

    /** Every member holds what is relevant to it and what it did not skip. */
    ghost predicate AllHold(uid: Uid, relevant: set<string>, skipped: seq<set<string>>)
      reads this, set i | 0 <= i < |plugins| :: plugins[i]
    {
      |skipped| == |plugins| && forall i :: 0 <= i < |plugins| ==>
        Held(plugins[i].Now(), uid) == (set n | n in plugins[i].names && n in relevant) - skipped[i]
    }

    ghost predicate NoEntry(uid: Uid)
      reads this, set i | 0 <= i < |plugins| :: plugins[i]
    {
      forall i :: 0 <= i < |plugins| ==> uid !in plugins[i].states
    }

    /** No member keeps an entry, and every member holds what it held. */
    method PostBind(uid: Uid)
      requires Valid()
      modifies set i | 0 <= i < |plugins| :: plugins[i]
      ensures OthersUntouched(uid) && NoEntry(uid)
      ensures forall i :: 0 <= i < |plugins| ==> Held(plugins[i].Now(), uid) == old(Held(plugins[i].Now(), uid))
    {
      hide OnlyFor, Held;
      var i := 0;
      while i < |plugins|
        invariant 0 <= i <= |plugins| && Untouched(i)
        invariant forall j :: 0 <= j < i ==> OnlyFor(old(plugins[j].Now()), plugins[j].Now(), uid)
        invariant forall j :: 0 <= j < i ==> uid !in plugins[j].states
        invariant forall j :: 0 <= j < i ==> Held(plugins[j].Now(), uid) == old(Held(plugins[j].Now(), uid))
      {
        plugins[i].PostBind(uid);
        i := i + 1;
      }
    }

    /** BinderPlugins.Rollback: every member is asked, whatever the others said. */
    method Rollback(uid: Uid, relevant: set<string>, ghost reached: nat)
      requires Valid() && reached <= |plugins| && AllOpen(uid, relevant, reached) && AllClean(uid, reached)
      modifies set i | 0 <= i < |plugins| :: plugins[i]
      ensures OthersUntouched(uid) && AllClean(uid, 0)
    {
      hide OnlyFor, Open, Clean, Held;
      var i := 0;
      while i < |plugins|
        invariant 0 <= i <= |plugins| && Untouched(i)
        invariant forall j :: 0 <= j < i ==> OnlyFor(old(plugins[j].Now()), plugins[j].Now(), uid)
        invariant forall j :: 0 <= j < i ==> Clean(plugins[j].Now(), uid)
      {
        plugins[i].Rollback(uid, relevant);
        i := i + 1;
      }
    }

    /** What the open members skipped. */
    ghost method Skips(uid: Uid, relevant: set<string>) returns (skipped: seq<set<string>>)
      requires AllOpen(uid, relevant, |plugins|)
      ensures AllHold(uid, relevant, skipped)
    {
      skipped := [];
      for i := 0 to |plugins|
        invariant |skipped| == i && forall j :: 0 <= j < i ==> skipped[j] == plugins[j].states[uid].skip
      {
        skipped := skipped + [plugins[i].states[uid].skip];
      }
    }

    /** The end of a successful Bind. */
    method Finish(uid: Uid, relevant: set<string>) returns (ghost skipped: seq<set<string>>)
      requires Valid() && AllOpen(uid, relevant, |plugins|)
      modifies set i | 0 <= i < |plugins| :: plugins[i]
      ensures OthersUntouched(uid) && NoEntry(uid) && AllHold(uid, relevant, skipped)
    {
      hide Held, Open, OnlyFor;
      skipped := Skips(uid, relevant);
      PostBind(uid);
    }

    /** Bind, from the moment its reservations are made or have failed. */
    method Bind(uid: Uid, relevant: set<string>) returns (ok: bool, ghost reached: nat, ghost skipped: seq<set<string>>)
      requires Valid() && AllClean(uid, 0)
      modifies set i | 0 <= i < |plugins| :: plugins[i]
      ensures OthersUntouched(uid) && reached <= |plugins|
      ensures ok ==> NoEntry(uid) && AllHold(uid, relevant, skipped)
      ensures !ok ==> AllOpen(uid, relevant, reached) && AllClean(uid, reached)
    {
      hide Held, Open, Clean;
      reached, skipped := 0, [];
      ok := *;
      if !ok {
        return;
      }
      ok, reached := PreBind(uid, relevant);
      if !ok {
        return;
      }
      ok := *;
      if !ok {
        return;
      }
      skipped := Finish(uid, relevant);
    }

    /** The part of Reconcile that binds: after a failure and its rollback no plugin holds anything for
        the pod, whichever call failed; after a success no entry is left and every plugin that is relevant
        and was not skipped holds its allocation. Other pods see nothing of it. */
    method BindOrRollBack(uid: Uid, relevant: set<string>) returns (ok: bool, ghost skipped: seq<set<string>>)
      requires Valid() && AllClean(uid, 0)
      modifies set i | 0 <= i < |plugins| :: plugins[i]
      ensures OthersUntouched(uid)
      ensures !ok ==> AllClean(uid, 0)
      ensures ok ==> NoEntry(uid) && AllHold(uid, relevant, skipped)
    {
      ghost var reached;
      ok, reached, skipped := Bind(uid, relevant);
      if !ok {
        Rollback(uid, relevant, reached);
      }
    }
  }
}
