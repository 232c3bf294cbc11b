/** Finding the control block of the current SPDK thread: a global registry keyed by thread
    address, and one cached entry per reactor keyed by thread id. */
module TcbCache {

  /** A thread structure at some address; ids are never used twice, addresses may be. */
  datatype Thread = Thread(id: nat, running: bool)

  /** A control block: `num` tells blocks apart, `owner` is the id of the thread it was made on. */
  datatype Tcb = Tcb(num: nat, owner: nat)

  /** What one reactor remembers; id 0 means nothing. */
  datatype Cached = Cached(id: nat, tcb: Tcb)

  datatype State = State(threads: map<nat, Thread>, nextId: nat, registry: map<nat, Tcb>, nextTcb: nat,
                         cache: map<nat, Cached>)

  datatype Action =
    | Create(addr: nat)
    | Current(reactor: nat, addr: nat)
    | Exit(addr: nat)
    | Shutdown(addr: nat)
    | Destroy(addr: nat)

  predicate Enabled(s: State, a: Action) {
    match a
    case Create(addr) => addr !in s.threads
    case Current(_, addr) => addr in s.threads
    case Exit(addr) => addr in s.threads && s.threads[addr].running
    case Shutdown(addr) => addr in s.threads && !s.threads[addr].running && addr in s.registry
    // SPDK keeps a thread while it has a poller, and a block's poller is unregistered in shutdown.
    case Destroy(addr) => addr in s.threads && !s.threads[addr].running && addr !in s.registry
  }

  function Lookup(s: State, addr: nat): (Tcb, State)
    requires addr in s.threads
  {
    if addr in s.registry then (s.registry[addr], s)
    else
      var tcb := Tcb(s.nextTcb, s.threads[addr].id);
      (tcb, s.(registry := s.registry[addr := tcb], nextTcb := s.nextTcb + 1))
  }

  /** The block the code gets for the thread at `addr` when it runs on `reactor`. */
  function CurrentTcb(s: State, reactor: nat, addr: nat): (Tcb, State)
    requires addr in s.threads
  {
    var id := s.threads[addr].id;
    if reactor in s.cache && s.cache[reactor].id == id then (s.cache[reactor].tcb, s)
    else
      var (tcb, found) := Lookup(s, addr);
      (tcb, found.(cache := found.cache[reactor := Cached(id, tcb)]))
  }

  function Next(s: State, a: Action): State
    requires Enabled(s, a)
  {
    match a
    case Create(addr) => s.(threads := s.threads[addr := Thread(s.nextId, true)], nextId := s.nextId + 1)
    case Current(reactor, addr) => CurrentTcb(s, reactor, addr).1
    case Exit(addr) => s.(threads := s.threads[addr := s.threads[addr].(running := false)])
    case Shutdown(addr) => s.(registry := s.registry - {addr})
    case Destroy(addr) => s.(threads := s.threads - {addr})
  }

  const START := State(map[], 1, map[], 0, map[])

  ghost predicate IsRun(run: seq<State>, acts: seq<Action>) {
    && |run| == |acts| + 1 && run[0] == START
    && forall i | 0 <= i < |acts| :: Enabled(run[i], acts[i]) && run[i + 1] == Next(run[i], acts[i])
  }

  ghost predicate IdsUnique(s: State) {
    && s.nextId > 0
    && (forall x | x in s.threads :: 0 < s.threads[x].id < s.nextId)
    && (forall x, y | x in s.threads && y in s.threads && x != y :: s.threads[x].id != s.threads[y].id)
    && (forall r | r in s.cache :: 0 < s.cache[r].id < s.nextId)
  }

  /** A registered block was made on the thread now at its address, and serves no other. */
  ghost predicate Registered(s: State) {
    && (forall x | x in s.registry :: x in s.threads && s.registry[x].owner == s.threads[x].id
                                      && s.registry[x].num < s.nextTcb)
    && (forall x, y | x in s.registry && y in s.registry && x != y :: s.registry[x].num != s.registry[y].num)
  }

  /** Whatever a reactor remembers of a running thread is what is registered for it. */
  ghost predicate CacheTrue(s: State) {
    forall r, x | r in s.cache && x in s.threads && s.threads[x].running && s.threads[x].id == s.cache[r].id ::
      x in s.registry && s.registry[x] == s.cache[r].tcb
  }

  ghost predicate Good(s: State) { IdsUnique(s) && Registered(s) && CacheTrue(s) }

  lemma {:induction false} StepIds(s: State, a: Action)
    requires IdsUnique(s) && Enabled(s, a)
    ensures IdsUnique(Next(s, a))
  {
  }

  lemma {:induction false} StepRegistered(s: State, a: Action)
    requires Registered(s) && Enabled(s, a)
    ensures Registered(Next(s, a))
  {
  }

  lemma {:induction false} StepCache(s: State, a: Action)
    requires Good(s) && Enabled(s, a)
    ensures CacheTrue(Next(s, a))
  {
    match a
    case Create(addr) =>
    case Current(reactor, addr) => CurrentCache(s, reactor, addr);
    case Exit(addr) =>
    case Shutdown(addr) =>
    case Destroy(addr) =>
  }

  lemma {:induction false} CurrentCache(s: State, reactor: nat, addr: nat)
    requires Good(s) && addr in s.threads
    ensures CacheTrue(CurrentTcb(s, reactor, addr).1)
  {
  }

  lemma {:induction false} StepGood(s: State, a: Action)
    requires Good(s) && Enabled(s, a)
    ensures Good(Next(s, a))
  {
    hide Next, IdsUnique, Registered, CacheTrue;
    StepIds(s, a);
    StepRegistered(s, a);
    StepCache(s, a);
  }

  lemma {:induction false} RunGood(run: seq<State>, acts: seq<Action>, n: nat)
    requires IsRun(run, acts) && n < |run|
    ensures Good(run[n])
    decreases n
  {
    hide Next, Enabled, Good;
    if n == 0 {
      assert Good(START) by { StartGood(); }
    } else {
      RunGood(run, acts, n - 1);
      StepGood(run[n - 1], acts[n - 1]);
    }
  }

  lemma {:induction false} StartGood()
    ensures Good(START)
  {
  }

  /** Across thread creation, migration between reactors, exit, shutdown and address reuse: on
      whatever reactor a running thread asks, it gets the block registered for it, which was
      made on it; and it gets a new one only if none is registered. */
  lemma {:induction false} CachedIsRegistered(run: seq<State>, acts: seq<Action>, n: nat, reactor: nat, addr: nat)
    requires IsRun(run, acts) && n < |run| && addr in run[n].threads && run[n].threads[addr].running
    ensures var (tcb, after) := CurrentTcb(run[n], reactor, addr);
            && tcb == Lookup(run[n], addr).0
            && addr in after.registry && after.registry[addr] == tcb && tcb.owner == run[n].threads[addr].id
  {
    hide Next, Enabled;
    RunGood(run, acts, n);
  }

  lemma {:induction false} StepKeepsTcb(s: State, a: Action, addr: nat)
    requires Good(s) && Enabled(s, a) && addr in s.registry && s.threads[addr].running
    ensures addr in Next(s, a).registry && Next(s, a).registry[addr] == s.registry[addr]
    ensures addr in Next(s, a).threads && Next(s, a).threads[addr].id == s.threads[addr].id
  {
  }

  /** A thread has one block from its first use of it until it stops running. */
  lemma {:induction false} OneTcbPerThread(run: seq<State>, acts: seq<Action>, m: nat, n: nat, addr: nat)
    requires IsRun(run, acts) && m <= n < |run| && addr in run[m].registry && addr in run[m].threads
    requires forall i | m <= i < n :: addr in run[i].threads && run[i].threads[addr].running
    ensures addr in run[n].registry && run[n].registry[addr] == run[m].registry[addr]
    decreases n
  {
    hide Next, Enabled;
    if m < n {
      OneTcbPerThread(run, acts, m, n - 1, addr);
      RunGood(run, acts, n - 1);
      StepKeepsTcb(run[n - 1], acts[n - 1], addr);
    }
  }

  /** Reactor r remembers the thread at an address. */
  predicate Remembers(s: State, r: nat, addr: nat) {
    r in s.cache && addr in s.threads && s.cache[r].id == s.threads[addr].id
  }

  /** The thread was shut down while reactor r already remembered what it still remembers. */
  ghost predicate ShutWhileRemembered(run: seq<State>, acts: seq<Action>, n: nat, r: nat, addr: nat)
    requires IsRun(run, acts) && n < |run|
  {
    && Remembers(run[n], r, addr)
    && exists i :: 0 <= i < n && acts[i] == Shutdown(addr) && r in run[i].cache && run[i].cache[r] == run[n].cache[r]
  }

  /** Blocks are numbered as they are made. */
  ghost predicate CacheOld(s: State) {
    forall r | r in s.cache :: s.cache[r].tcb.num < s.nextTcb
  }

  lemma {:induction false} StepOld(s: State, a: Action)
    requires Good(s) && CacheOld(s) && Enabled(s, a)
    ensures CacheOld(Next(s, a)) && s.nextTcb <= Next(s, a).nextTcb
  {
  }

  lemma {:induction false} RunOld(run: seq<State>, acts: seq<Action>, n: nat)
    requires IsRun(run, acts) && n < |run|
    ensures CacheOld(run[n])
    decreases n
  {
    hide Next, Enabled;
    if n > 0 {
      RunOld(run, acts, n - 1);
      RunGood(run, acts, n - 1);
      StepOld(run[n - 1], acts[n - 1]);
    }
  }

  lemma {:induction false} StepRegistry(s: State, a: Action, addr: nat)
    requires Enabled(s, a) && addr in Next(s, a).registry
    ensures (addr in s.registry && Next(s, a).registry[addr] == s.registry[addr])
            || (addr !in s.registry && Next(s, a).registry[addr].num == s.nextTcb)
    ensures a != Shutdown(addr) && s.nextTcb <= Next(s, a).nextTcb
  {
  }

  /** Whatever is registered at an address after a shutdown there is newer. */
  lemma {:induction false} NewerAfterShutdown(run: seq<State>, acts: seq<Action>, i: nat, n: nat, addr: nat)
    requires IsRun(run, acts) && i < n < |run| && acts[i] == Shutdown(addr)
    ensures run[i].nextTcb <= run[n].nextTcb
    ensures addr in run[n].registry ==> run[n].registry[addr].num >= run[i].nextTcb
    decreases n
  {
    hide Enabled;
    if i < n - 1 {
      hide Next;
      NewerAfterShutdown(run, acts, i, n - 1, addr);
      RunOld(run, acts, n - 1);
      RunGood(run, acts, n - 1);
      StepOld(run[n - 1], acts[n - 1]);
      if addr in run[n].registry { StepRegistry(run[n - 1], acts[n - 1], addr); }
    }
  }

  /** One step of a reactor's memory of a thread: it is fresh and true, or as it was. */
  lemma {:induction false} StepRemembers(s: State, a: Action, r: nat, addr: nat)
    requires Good(s) && Enabled(s, a) && Remembers(Next(s, a), r, addr)
    ensures var s' := Next(s, a);
            || (addr in s'.registry && s'.registry[addr] == s'.cache[r].tcb)
            || (Remembers(s, r, addr) && s'.cache[r] == s.cache[r])
  {
  }

  lemma {:induction false} StepStays(s: State, a: Action, addr: nat)
    requires Good(s) && Enabled(s, a) && addr in s.registry && a != Shutdown(addr)
    ensures addr in Next(s, a).registry && Next(s, a).registry[addr] == s.registry[addr]
  {
  }

  /** What a reactor remembers is registered, unless the thread was shut down since. */
  lemma {:induction false} RememberedIsRegistered(run: seq<State>, acts: seq<Action>, n: nat, r: nat, addr: nat)
    requires IsRun(run, acts) && n < |run| && Remembers(run[n], r, addr) && !ShutWhileRemembered(run, acts, n, r, addr)
    ensures addr in run[n].registry && run[n].registry[addr] == run[n].cache[r].tcb
    decreases n
  {
    if n > 0 {
      hide Next, Enabled;
      var s, a := run[n - 1], acts[n - 1];
      RunGood(run, acts, n - 1);
      StepRemembers(s, a, r, addr);
      if !(addr in run[n].registry && run[n].registry[addr] == run[n].cache[r].tcb) {
        assert a != Shutdown(addr);
        RememberedIsRegistered(run, acts, n - 1, r, addr);
        StepStays(s, a, addr);
      }
    }
  }

  /** For every thread, running or not, in every run: what reactor r answers is the registered
      block, or a new one if none is registered, exactly if the thread was not shut down while r
      remembered it. */
  lemma {:induction false} AnswerRightIff(run: seq<State>, acts: seq<Action>, n: nat, r: nat, addr: nat)
    requires IsRun(run, acts) && n < |run| && addr in run[n].threads
    ensures CurrentTcb(run[n], r, addr).0 == Lookup(run[n], addr).0 <==> !ShutWhileRemembered(run, acts, n, r, addr)
  {
    hide Next, Enabled;
    RunOld(run, acts, n);
    if ShutWhileRemembered(run, acts, n, r, addr) {
      var i :| 0 <= i < n && acts[i] == Shutdown(addr) && r in run[i].cache && run[i].cache[r] == run[n].cache[r];
      RunOld(run, acts, i);
      NewerAfterShutdown(run, acts, i, n, addr);
    } else if Remembers(run[n], r, addr) {
      RememberedIsRegistered(run, acts, n, r, addr);
    }
  }

  /** Once a thread has shut down, a reactor that still remembers it answers with a block that
      is no longer registered: the guarantee needs the thread to be running. */
  lemma {:induction false} StaleAfterShutdown() returns (run: seq<State>, acts: seq<Action>)
    ensures |run| == 5 && IsRun(run, acts) && 7 in run[4].threads && !run[4].threads[7].running
    ensures CurrentTcb(run[4], 0, 7).0 != Lookup(run[4], 7).0
  {
    acts := [Create(7), Current(0, 7), Exit(7), Shutdown(7)];
    var s1 := Next(START, Create(7));
    var s2 := Next(s1, Current(0, 7));
    var s3 := Next(s2, Exit(7));
    var s4 := Next(s3, Shutdown(7));
    assert s2.cache[0] == Cached(1, Tcb(0, 1)) && s2.nextTcb == 1;
    run := [START, s1, s2, s3, s4];
  }

  /** A thread, after it has exited, been shut down if it had a block, and been destroyed. */
  function Gone(s: State, addr: nat): (now: State)
    requires addr in s.threads
    ensures addr !in now.threads && addr !in now.registry && now.nextId == s.nextId && now.nextTcb == s.nextTcb
  {
    var exited := if s.threads[addr].running then Next(s, Exit(addr)) else s;
    var unregistered := if addr in exited.registry then Next(exited, Shutdown(addr)) else exited;
    Next(unregistered, Destroy(addr))
  }

  /** Addresses are used again: any thread can go and another be created in its place, and whatever
      a reactor remembers, the new thread gets a block of its own, never given out before. */
  lemma {:induction false} ReusedAddress(run: seq<State>, acts: seq<Action>, n: nat, reactor: nat, addr: nat)
    requires IsRun(run, acts) && n < |run| && addr in run[n].threads
    ensures Enabled(Gone(run[n], addr), Create(addr))
    ensures var reused := Next(Gone(run[n], addr), Create(addr));
            && Enabled(reused, Current(reactor, addr))
            && CurrentTcb(reused, reactor, addr).0 == Tcb(run[n].nextTcb, run[n].nextId)
            && forall r | r in run[n].cache :: run[n].cache[r].tcb.num < run[n].nextTcb
  {
    RunGood(run, acts, n);
    RunOld(run, acts, n);
    hide IsRun, Registered, CacheTrue;
  }

  /** The registry and the reactors' caches in place. */
  class Runtime {
    var threads: map<nat, Thread>
    var nextId: nat
    var registry: map<nat, Tcb>
    var nextTcb: nat
    var cache: map<nat, Cached>

    ghost function Now(): State
      reads this
    {
      State(threads, nextId, registry, nextTcb, cache)
    }

    method TcbFromRegistry(addr: nat) returns (tcb: Tcb)
      requires addr in threads
      modifies this`registry, this`nextTcb
      ensures (tcb, Now()) == Lookup(old(Now()), addr)
      ensures if addr in old(registry) then tcb == old(registry)[addr] && registry == old(registry)
              else tcb == Tcb(old(nextTcb), threads[addr].id) && registry == old(registry)[addr := tcb]
    {
      if addr in registry {
        return registry[addr];
      }
      tcb := Tcb(nextTcb, threads[addr].id);
      registry := registry[addr := tcb];
      nextTcb := nextTcb + 1;
    }

    method CurrentSlow(reactor: nat, addr: nat) returns (tcb: Tcb)
      requires addr in threads
      modifies this
      ensures tcb == Lookup(old(Now()), addr).0
      ensures Now() == Lookup(old(Now()), addr).1.(
                         cache := old(cache)[reactor := Cached(old(threads)[addr].id, tcb)])
    {
      tcb := TcbFromRegistry(addr);
      cache := cache[reactor := Cached(threads[addr].id, tcb)];
    }

    method Current(reactor: nat, addr: nat) returns (tcb: Tcb)
      requires addr in threads
      modifies this
      ensures (tcb, Now()) == CurrentTcb(old(Now()), reactor, addr)
      ensures old(Good(Now())) && threads[addr].running ==> addr in registry && tcb == registry[addr]
    {
      if reactor in cache && cache[reactor].id == threads[addr].id {
        tcb := cache[reactor].tcb;
      } else {
        tcb := CurrentSlow(reactor, addr);
      }
    }

    method Shutdown(addr: nat)
      requires Enabled(Now(), Action.Shutdown(addr))
      modifies this`registry
      ensures Now() == Next(old(Now()), Action.Shutdown(addr)) && registry == old(registry) - {addr}
    {
      registry := registry - {addr};
    }
  }
}
