/**
 The stores of active and inactive peers and the locked sections of the peer manager,
 with the goroutines they leave behind: exit handlers of connections and cool-down timers.
 */
module Peers {
  import opened Words

  datatype Addr = Addr(identity: string, host: string)

  /** A connection to a peer; two connections to one peer share its identity. */
  datatype Client = Client(conn: nat, addr: Addr)

  function Id(c: Client): string {
    c.addr.identity
  }

  // ----- active peers -----

  /** Peers and pids are kept together, each peer has an exit handler waiting, and a
      handler whose pid is recorded is the handler of the connection recorded. */
  ghost predicate Recorded(store: map<string, Client>, pid: map<string, nat>, handlers: map<nat, Client>,
                           shutdown: bool)
  {
    && store.Keys == pid.Keys
    && 0 !in handlers
    && (forall k <- store :: Id(store[k]) == k && pid[k] != 0)
    && (forall k <- store :: if pid[k] in handlers then handlers[pid[k]] == store[k] else shutdown)
    && (forall j <- store, k <- store :: pid[j] == pid[k] ==> j == k)
  }

  lemma RecordedAdd(store: map<string, Client>, pid: map<string, nat>, handlers: map<nat, Client>, shutdown: bool,
                    c: Client, p: nat)
    requires Recorded(store, pid, handlers, shutdown)
    requires p != 0 && p !in handlers && forall k <- pid :: pid[k] != p
    ensures Recorded(store[Id(c) := c], pid[Id(c) := p], handlers[p := c], shutdown)
    ensures Id(c) in store ==> Id(store[Id(c)]) == Id(c)
  {
    var s, q, h := store[Id(c) := c], pid[Id(c) := p], handlers[p := c];
    assert s.Keys == q.Keys;
    forall k | k in s ensures Id(s[k]) == k && q[k] != 0 && if q[k] in h then h[q[k]] == s[k] else shutdown {
      if k != Id(c) { assert k in store; }
    }
    forall j, k | j in s && k in s && q[j] == q[k] ensures j == k {
      assert j != Id(c) ==> j in store && pid[j] != p;
      assert k != Id(c) ==> k in store && pid[k] != p;
    }
  }

  class ActivePeerStore {
    const canClose: bool
    var store: map<string, Client>
    var pid: map<string, nat>
    var handlers: map<nat, Client>    // exit handlers still waiting, by their pid
    var closed: set<nat>              // connections whose close channel is closed
    var shutdown: bool

    constructor (canClose: bool)
      ensures Valid() && store == map[] && handlers == map[] && closed == {} && !shutdown && this.canClose == canClose
    {
      this.canClose := canClose;
      store, pid, handlers, closed, shutdown := map[], map[], map[], {}, false;
    }

    ghost predicate Valid()
      reads this
    {
      Recorded(store, pid, handlers, shutdown)
    }

    /** A pid no connection or handler has. */
    predicate Fresh(p: nat)
      reads this
    {
      p != 0 && p !in handlers && forall k <- pid :: pid[k] != p
    }

    predicate Contains(a: Addr)
      reads this
    {
      a.identity in store
    }

    /** A fresh connection replaces a closed one; against a live one it is turned away. */
    method Add(c: Client, p: nat)
      requires Valid() && Fresh(p)
      modifies this`store, this`pid, this`handlers, this`closed
      ensures Valid()
      ensures old(Id(c) in store && store[Id(c)].conn !in closed) ==>
                && store == old(store) && pid == old(pid) && handlers == old(handlers)
                && closed == old(closed) + if canClose then {c.conn} else {}
      ensures old(Id(c) !in store || store[Id(c)].conn in closed) ==>
                && store == old(store)[Id(c) := c] && pid == old(pid)[Id(c) := p]
                && handlers == old(handlers)[p := c] && closed == old(closed)
    {
      hide Recorded;
      RecordedAdd(store, pid, handlers, shutdown, c, p);
      if Id(c) in store {
        var stale := store[Id(c)];
        if stale.conn in closed {
          store := store - {Id(stale)};
          pid := pid - {Id(stale)};
          assert store[Id(c) := c] == old(store)[Id(c) := c] && pid[Id(c) := p] == old(pid)[Id(c) := p];
        } else {
          if canClose {
            closed := closed + {c.conn};
          }
          return;
        }
      }
      store := store[Id(c) := c];
      pid := pid[Id(c) := p];
      handlers := handlers[p := c];
    }

    /** The exit handler runs once its connection is closed: it removes that connection if it
        is still the one recorded, and never another. */
    method OnExit(p: nat)
      requires Valid() && p in handlers && handlers[p].conn in closed
      modifies this`store, this`pid, this`handlers
      ensures Valid() && handlers == old(handlers) - {p}
      ensures var c := old(handlers[p]);
              if old(Id(c) in pid && pid[Id(c)] == p)
              then
                && old(Id(c) in store && store[Id(c)] == c)
                && store == old(store) - {Id(c)} && pid == old(pid) - {Id(c)}
              else store == old(store) && pid == old(pid)
    {
      var c := handlers[p];
      if Id(c) in pid && pid[Id(c)] == p {
        store := store - {Id(c)};
        pid := pid - {Id(c)};
      }
      handlers := handlers - {p};
    }

    /** On shutdown the handler closes its connection, if it may, and leaves the store alone. */
    method OnShutdown(p: nat)
      requires Valid() && p in handlers && shutdown
      modifies this`handlers, this`closed
      ensures Valid() && handlers == old(handlers) - {p}
      ensures closed == old(closed) + if canClose then {old(handlers[p]).conn} else {}
    {
      var c := handlers[p];
      if canClose {
        closed := closed + {c.conn};
      }
      handlers := handlers - {p};
    }

    method Close()
      requires Valid()
      modifies this`shutdown
      ensures Valid() && shutdown
    {
      shutdown := true;
    }

    method Del(a: Addr)
      requires Valid()
      modifies this`store, this`pid, this`closed
      ensures Valid() && store == old(store) - {a.identity} && pid == old(pid) - {a.identity}
      ensures closed == old(closed) +
                if canClose && old(a.identity in store) then {old(store[a.identity].conn)} else {}
    {
      if a.identity in store {
        if canClose {
          closed := closed + {store[a.identity].conn};
        }
        store := store - {a.identity};
        pid := pid - {a.identity};
      }
    }
  }

  // ----- inactive peers -----

  class InactivePeerStore {
    var store: map<string, Addr>
    var cooldown: map<string, nat>
    var timers: multiset<(string, nat)>    // cool-down timers still running

    constructor ()
      ensures Valid() && store == map[] && cooldown == map[]
    {
      store, cooldown, timers := map[], map[], multiset{};
    }

    /** No peer is both listed and cooling down, and every cool-down entry has exactly one
        timer running, with its own pid; there are no other timers. */
    ghost predicate Valid()
      reads this
    {
      && store.Keys !! cooldown.Keys
      && (forall k <- store :: store[k].identity == k)
      && (forall k: string, p: nat :: timers[(k, p)] == if k in cooldown && cooldown[k] == p then 1 else 0)
    }

    method Add(a: Addr)
      requires Valid()
      modifies this`store
      ensures Valid()
      ensures store == if a.identity in cooldown then old(store) else old(store)[a.identity := a]
    {
      if a.identity !in cooldown {
        store := store[a.identity := a];
      }
    }

    method Backoff(k: string, p: nat)
      requires Valid() && k !in store && k !in cooldown
      modifies this`cooldown, this`timers
      ensures Valid() && cooldown == old(cooldown)[k := p]
    {
      cooldown := cooldown[k := p];
      timers := timers + multiset{(k, p)};
    }

    method Del(a: Addr, p: nat)
      requires Valid()
      modifies this
      ensures Valid() && store == old(store) - {a.identity}
      ensures cooldown == if old(a.identity in store) then old(cooldown)[a.identity := p] else old(cooldown)
    {
      if a.identity in store {
        store := store - {a.identity};
        Backoff(a.identity, p);
      }
    }

    /** Takes out some peer, whichever the random index picks. */
    method RandomPop(p: nat) returns (a: Option<Addr>)
      requires Valid()
      modifies this
      ensures Valid()
      ensures a.None? <==> old(store) == map[]
      ensures a.None? ==> unchanged(this)
      ensures a.Some? ==>
                var k := a.value.identity;
                && k in old(store) && old(store)[k] == a.value
                && store == old(store) - {k} && cooldown == old(cooldown)[k := p]
    {
      if store == map[] {
        return None;
      }
      var k :| k in store;
      a := Some(store[k]);
      store := store - {k};
      Backoff(k, p);
    }

    /** A timer ends exactly its own cool-down. */
    method TimerFires(k: string, p: nat)
      requires Valid() && (k, p) in timers
      modifies this`cooldown, this`timers
      ensures Valid() && k in old(cooldown) && cooldown == old(cooldown) - {k}
    {
      timers := timers - multiset{(k, p)};
      if k in cooldown && cooldown[k] == p {
        cooldown := cooldown - {k};
      }
    }
  }

  // ----- the manager -----

  /** Who holds the manager's lock, and how far into the section: nobody; a connection just
      added to the active peers; or an address just looked up among them. */
  datatype Lock = Free | Adding(client: Client) | Looked(addr: Addr, found: bool)

  datatype Event =
    | Connect(client: Client, p: nat)    // handleP2P takes the lock and adds the connection
    | Connected(p: nat)                  // and drops the peer from the inactive ones
    | Offer(addr: Addr)                  // an address is learnt: lock, look it up
    | Offered                            // and list it unless it was found
    | Dial(p: nat)                       // dialInactive pops a peer
    | Timer(k: string, p: nat)
    | Hangup(conn: nat)                  // a connection closes
    | Exit(p: nat)
    | Shutdown
    | ExitOnShutdown(p: nat)

  class PeerManager {
    const active: ActivePeerStore
    const inactive: InactivePeerStore
    var lock: Lock

    constructor ()
      ensures Safe() && lock == Free && active.store == map[] && inactive.store == map[]
    {
      active := new ActivePeerStore(true);
      inactive := new InactivePeerStore();
      lock := Free;
    }

    /** While the lock is free no peer is both active and inactive; inside a section the only
        exception is the peer being added, and a peer not found is still not active. */
    ghost predicate Safe()
      reads this, active, inactive
    {
      && active.Valid() && inactive.Valid()
      && match lock
         case Free => active.store.Keys !! inactive.store.Keys
         case Adding(c) => active.store.Keys * inactive.store.Keys <= {Id(c)}
         case Looked(a, found) =>
           active.store.Keys !! inactive.store.Keys && (!found ==> a.identity !in active.store)
    }

    predicate Enabled(e: Event)
      reads this, active, inactive
    {
      match e
      case Connect(_, p) => lock == Free && active.Fresh(p)
      case Connected(_) => lock.Adding?
      case Offer(_) => lock == Free
      case Offered => lock.Looked?
      case Dial(_) => true
      case Timer(k, p) => (k, p) in inactive.timers
      case Hangup(_) => true
      case Exit(p) => p in active.handlers && active.handlers[p].conn in active.closed
      case Shutdown => true
      case ExitOnShutdown(p) => p in active.handlers && active.shutdown
    }

    // ----- the locked sections, each in two halves -----

    /** handleP2P under the lock: the connection joins the active peers. */
    method BeginP2P(c: Client, p: nat)
      requires Safe() && lock == Free && active.Fresh(p)
      modifies this, active
      ensures Safe() && lock == Adding(c) && Id(c) in active.store
      ensures active.store == if old(Id(c) in active.store && active.store[Id(c)].conn !in active.closed)
                              then old(active.store) else old(active.store)[Id(c) := c]
      ensures active.shutdown == old(active.shutdown)
    {
      hide Recorded;
      active.Add(c, p);
      lock := Adding(c);
    }

    /** Then the peer leaves the inactive ones, and cools down if it was among them. */
    method EndP2P(p: nat)
      requires Safe() && lock.Adding?
      modifies this, inactive
      ensures Safe() && lock == Free
      ensures var k := Id(old(lock).client);
              && inactive.store == old(inactive.store) - {k}
              && inactive.cooldown ==
                   if k in old(inactive.store) then old(inactive.cooldown)[k := p] else old(inactive.cooldown)
    {
      hide Recorded;
      inactive.Del(lock.client.addr, p);
      lock := Free;
    }

    /** An address learnt from a peer, a boot node or an incoming discovery call is looked up. */
    method BeginOffer(a: Addr)
      requires Safe() && lock == Free
      modifies this
      ensures Safe() && lock == Looked(a, a.identity in active.store)
    {
      lock := Looked(a, active.Contains(a));
    }

    /** Then it is listed, unless its peer was active or is cooling down. */
    method EndOffer()
      requires Safe() && lock.Looked?
      modifies this, inactive
      ensures Safe() && lock == Free && inactive.cooldown == old(inactive.cooldown)
      ensures var a := old(lock).addr;
              inactive.store == if old(lock).found || a.identity in inactive.cooldown then old(inactive.store)
                                else old(inactive.store)[a.identity := a]
    {
      hide Recorded;
      if !lock.found {
        inactive.Add(lock.addr);
      }
      lock := Free;
    }

    /** What a step does to the lock and the stores; nothing it does not name changes. */
    twostate predicate Takes(e: Event)
      reads this, active, inactive
    {
      match e
      case Connect(c, p) =>
        var live := Id(c) in old(active.store) && old(active.store)[Id(c)].conn !in old(active.closed);
        && lock == Adding(c) && SameInactive() && active.shutdown == old(active.shutdown)
        && active.store == if live then old(active.store) else old(active.store)[Id(c) := c]
      case Connected(p) =>
        old(lock).Adding? && var k := Id(old(lock).client);
        && lock == Free && SameActive() && inactive.store == old(inactive.store) - {k}
        && inactive.cooldown ==
             if k in old(inactive.store) then old(inactive.cooldown)[k := p] else old(inactive.cooldown)
      case Offer(a) => lock == Looked(a, a.identity in active.store) && SameActive() && SameInactive()
      case Offered =>
        old(lock).Looked? && var a := old(lock).addr;
        && lock == Free && SameActive() && inactive.cooldown == old(inactive.cooldown)
        && inactive.store == if old(lock).found || a.identity in inactive.cooldown then old(inactive.store)
                             else old(inactive.store)[a.identity := a]
      case Dial(p) =>
        && lock == old(lock) && SameActive()
        && if old(inactive.store) == map[] then SameInactive()
           else exists k :: k in old(inactive.store) && inactive.store == old(inactive.store) - {k}
                            && inactive.cooldown == old(inactive.cooldown)[k := p]
      case Timer(k, p) =>
        && lock == old(lock) && SameActive() && inactive.store == old(inactive.store)
        && inactive.cooldown == old(inactive.cooldown) - {k}
      case Hangup(conn) =>
        && lock == old(lock) && SameInactive() && active.closed == old(active.closed) + {conn}
        && active.store == old(active.store) && active.handlers == old(active.handlers)
      case Exit(p) =>
        && lock == old(lock) && SameInactive() && active.handlers == old(active.handlers) - {p}
        && p in old(active.handlers) && var k := Id(old(active.handlers)[p]);
        active.store == if k in old(active.pid) && old(active.pid)[k] == p then old(active.store) - {k}
                        else old(active.store)
      case Shutdown => lock == old(lock) && SameInactive() && active.shutdown && active.store == old(active.store)
      case ExitOnShutdown(p) =>
        && lock == old(lock) && SameInactive() && active.handlers == old(active.handlers) - {p}
        && active.store == old(active.store)
    }

    twostate predicate SameActive()
      reads this, active
    {
      && active.store == old(active.store) && active.pid == old(active.pid) && active.handlers == old(active.handlers)
      && active.closed == old(active.closed) && active.shutdown == old(active.shutdown)
    }

    twostate predicate SameInactive()
      reads this, inactive
    {
      && inactive.store == old(inactive.store) && inactive.cooldown == old(inactive.cooldown)
      && inactive.timers == old(inactive.timers)
    }

    /** Every step, whichever goroutine takes it, keeps the stores safe. */
    method Step(e: Event)
      requires Safe() && Enabled(e)
      modifies this, active, inactive
      ensures Safe() && Takes(e)
    {
      hide Recorded;
      match e {
        case Connect(c, p) => BeginP2P(c, p);
        case Connected(p) => EndP2P(p);
        case Offer(a) => BeginOffer(a);
        case Offered => EndOffer();
        case Dial(p) =>
          var a := inactive.RandomPop(p);
        case Timer(k, p) => inactive.TimerFires(k, p);
        case Hangup(conn) => active.closed := active.closed + {conn};
        case Exit(p) => active.OnExit(p);
        case Shutdown => active.Close();
        case ExitOnShutdown(p) => active.OnShutdown(p);
      }
    }

    /** Any schedule of the goroutines; steps that are not enabled do not happen. */
    method Run(events: seq<Event>)
      requires Safe()
      modifies this, active, inactive
      ensures Safe()
      ensures lock == Free ==> active.store.Keys !! inactive.store.Keys
      ensures inactive.store.Keys !! inactive.cooldown.Keys && active.store.Keys == active.pid.Keys
    {
      for i := 0 to |events|
        invariant Safe()
      {
        if Enabled(events[i]) {
          Step(events[i]);
        }
      }
    }
  }
}
