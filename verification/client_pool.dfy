/** The reference-counted pool of clients (worker/client_pool/pool.py).  One lock serialises the three
    operations, so each is a single step. */
module ClientPools {
  import opened Wrappers

  /** A registered client, named by the order of its creation, and its reference count. */
  datatype Managed = Managed(client: nat, refcount: int)

  /** What the database says of an account and its proxy. */
  datatype Lookup = NoAccount | BannedOrRetired | NoProxyBound | ProxyGone | Ready

  /** What the outside world answers during one `get`: the stored rows and the proxy setting, whether
      the client could be built, whether it is connected already, and whether connecting succeeds. */
  datatype World = World(account: Lookup, allowNoProxy: bool, builds: bool, connected: bool, connects: bool)

  datatype Error = AccountUnavailable | ProxyMisconfigured | BuildFailed | ConnectFailed

  datatype Reply = Got(client: nat) | Failed(error: Error)

  /** One successful `get` that has not been released. */
  datatype Hold = Hold(account: int, client: nat)

  /** `disconnects` counts the disconnect calls per client; `holds` are the outstanding holds, by the
      serial number of the `get` that gave them. */
  datatype Pool = Pool(clients: map<int, Managed>, created: nat, disconnects: multiset<nat>,
                       gets: nat, holds: map<nat, Hold>)

  const EMPTY := Pool(map[], 0, multiset{}, 0, map[])

  // ---------------------------------------------------------------- the operations

  /** Why no client can be created, if so. */
  function CreateError(w: World): Option<Error> {
    match w.account
    case NoAccount | BannedOrRetired => Some(AccountUnavailable)
    case NoProxyBound | ProxyGone =>
      if !w.allowNoProxy then Some(ProxyMisconfigured) else if w.builds then None else Some(BuildFailed)
    case Ready => if w.builds then None else Some(BuildFailed)
  }

  function Obtained(p: Pool, account: int, w: World): (Pool, Reply) {
    if account in p.clients then
      // The reference taken before a failed connect is given back.
      if w.connected || w.connects then
        var m := p.clients[account];
        (p.(clients := p.clients[account := Managed(m.client, m.refcount + 1)],
            gets := p.gets + 1, holds := p.holds[p.gets := Hold(account, m.client)]),
         Got(m.client))
      else if p.clients[account].refcount <= 0 then
        (p.(clients := p.clients - {account}, disconnects := p.disconnects + multiset{p.clients[account].client}),
         Failed(ConnectFailed))
      else (p, Failed(ConnectFailed))
    else
      var error := CreateError(w);
      if error.Some? then (p, Failed(error.value))
      else
        var c := p.created;
        if w.connected || w.connects then
          (p.(clients := p.clients[account := Managed(c, 1)], created := c + 1,
              gets := p.gets + 1, holds := p.holds[p.gets := Hold(account, c)]),
           Got(c))
        else (p.(created := c + 1, disconnects := p.disconnects + multiset{c}), Failed(ConnectFailed))
  }

  /** The caller has not released what `get` number t gave it, and it was this account. */
  predicate Holds(p: Pool, t: nat, account: int) {
    t in p.holds && p.holds[t].account == account
  }

  /** A release of the account by the caller of `get` number t.  The code looks at the account only. */
  function Released(p: Pool, account: int, t: nat): Pool {
    var q := if Holds(p, t, account) then p.(holds := p.holds - {t}) else p;
    if account !in p.clients then q
    else
      var m := p.clients[account];
      if m.refcount - 1 <= 0 then
        q.(clients := p.clients - {account}, disconnects := p.disconnects + multiset{m.client})
      else q.(clients := p.clients[account := Managed(m.client, m.refcount - 1)])
  }

  function Registered(clients: map<int, Managed>): set<nat> {
    set a | a in clients :: clients[a].client
  }

  /** Shutting down, when the clients `done` were told to disconnect.  It voids every hold. */
  function Closed(p: Pool, done: set<nat>): Pool {
    p.(clients := map[], disconnects := p.disconnects + multiset(done), holds := map[])
  }

  // ---------------------------------------------------------------- accounting for clients

  predicate Distinct(clients: map<int, Managed>) {
    forall a, b :: a in clients && b in clients && clients[a].client == clients[b].client ==> a == b
  }

  /** Every client ever created is registered and was never disconnected, or is not registered and was
      disconnected exactly once; different accounts have different clients. */
  ghost predicate Accounted(p: Pool) {
    && Distinct(p.clients)
    && (forall a :: a in p.clients ==> p.clients[a].client < p.created && p.clients[a].refcount >= 1)
    && (forall c: nat :: p.disconnects[c] == if c < p.created && c !in Registered(p.clients) then 1 else 0)
  }

  /** The holds on an account. */
  function HoldsOn(holds: map<nat, Hold>, account: int): set<nat> {
    set t | t in holds && holds[t].account == account
  }

  /** Reference counts are the numbers of holds, and what a caller holds is still registered. */
  ghost predicate Matches(p: Pool) {
    && (forall a :: a in p.clients ==> p.clients[a].refcount == |HoldsOn(p.holds, a)|)
    && (forall t :: t in p.holds ==>
          t < p.gets && p.holds[t].account in p.clients &&
          p.clients[p.holds[t].account].client == p.holds[t].client)
  }

  lemma RegisteredAdd(clients: map<int, Managed>, account: int, m: Managed)
    requires account !in clients
    ensures Registered(clients[account := m]) == Registered(clients) + {m.client}
  {
    var after := clients[account := m];
    forall c | c in Registered(clients) + {m.client}
      ensures c in Registered(after)
    {
      if c == m.client {
        assert after[account].client == c;
      } else {
        var a :| a in clients && clients[a].client == c;
        assert after[a].client == c;
      }
    }
  }

  lemma RegisteredSame(clients: map<int, Managed>, account: int, m: Managed)
    requires account in clients && clients[account].client == m.client
    ensures Registered(clients[account := m]) == Registered(clients)
  {
    var after := clients[account := m];
    forall c
      ensures c in Registered(clients) <==> c in Registered(after)
    {
      if a :| a in clients && clients[a].client == c {
        assert after[a].client == c;
      }
      if a :| a in after && after[a].client == c {
        assert clients[a].client == c;
      }
    }
  }

  lemma RegisteredRemove(clients: map<int, Managed>, account: int)
    requires account in clients && Distinct(clients)
    ensures Registered(clients - {account}) == Registered(clients) - {clients[account].client}
  {
    var after := clients - {account};
    forall c
      ensures c in Registered(after) <==> c in Registered(clients) && c != clients[account].client
    {
      if a :| a in clients && clients[a].client == c && c != clients[account].client {
        assert after[a].client == c;
      }
      if a :| a in after && after[a].client == c {
        assert clients[a].client == c;
      }
    }
  }

  lemma ObtainKeepsAccounts(p: Pool, account: int, w: World)
    requires Accounted(p)
    ensures Accounted(Obtained(p, account, w).0)
  {
    hide Registered;
    var q := Obtained(p, account, w).0;
    if account in p.clients {
      var m := p.clients[account];
      RegisteredSame(p.clients, account, Managed(m.client, m.refcount + 1));
    } else if q.created != p.created {
      RegisteredAdd(p.clients, account, Managed(p.created, 1));
      UnborrowedIsNew(p);
    }
  }

  lemma UnborrowedIsNew(p: Pool)
    requires Accounted(p)
    ensures p.created !in Registered(p.clients)
  {
  }

  lemma RemovalKeepsAccounts(p: Pool, q: Pool, account: int)
    requires Accounted(p) && account in p.clients
    requires q.clients == p.clients - {account} && q.created == p.created
    requires q.disconnects == p.disconnects + multiset{p.clients[account].client}
    ensures Accounted(q)
  {
    hide Registered;
    RegisteredRemove(p.clients, account);
    InRegistered(p.clients, account);
  }

  /** Any release at all keeps the accounts. */
  lemma ReleaseKeepsAccounts(p: Pool, account: int, t: nat)
    requires Accounted(p)
    ensures Accounted(Released(p, account, t))
  {
    hide Registered;
    var q := Released(p, account, t);
    if account in p.clients {
      var m := p.clients[account];
      if m.refcount - 1 <= 0 {
        RemovalKeepsAccounts(p, q, account);
      } else {
        RegisteredSame(p.clients, account, Managed(m.client, m.refcount - 1));
      }
    }
  }

  lemma InRegistered(clients: map<int, Managed>, account: int)
    requires account in clients
    ensures clients[account].client in Registered(clients)
  {
  }

  /** Shutting down keeps the accounts exactly when it reaches every registered client. */
  lemma CloseExact(p: Pool, done: set<nat>)
    requires Accounted(p) && done <= Registered(p.clients)
    ensures Accounted(Closed(p, done)) <==> done == Registered(p.clients)
  {
    hide Registered;
    NothingRegistered();
    var q := Closed(p, done);
    if done != Registered(p.clients) {
      var c :| c in Registered(p.clients) && c !in done;
      RegisteredMeans(p.clients, c);
      assert q.disconnects[c] == 0 && c < q.created;
    } else {
      forall c: nat
        ensures q.disconnects[c] == if c < q.created && c !in Registered(q.clients) then 1 else 0
      {
        RegisteredMeans(p.clients, c);
      }
    }
  }

  lemma {:induction false} RegisteredSize(clients: map<int, Managed>)
    requires Distinct(clients)
    ensures |Registered(clients)| == |clients|
    decreases |clients|
  {
    hide Registered;
    if clients.Keys == {} {
      assert clients == map[];
      NothingRegistered();
    } else {
      NotEmpty(clients.Keys);
      var account :| account in clients.Keys;
      var rest := clients - {account};
      assert rest.Keys == clients.Keys - {account};
      RegisteredRemove(clients, account);
      InRegistered(clients, account);
      RegisteredSize(rest);
    }
  }

  lemma SubsetSize(a: set<nat>, b: set<nat>)
    requires a <= b
    ensures a == b <==> |a| == |b|
  {
    assert b == a + (b - a);
    assert |b| == |a| + |b - a|;
  }

  /** A shutdown whose first raising disconnect is at place `brokenAt` keeps every client accounted for
      exactly when that is the last client or later. */
  lemma ShutdownExact(p: Pool, done: set<nat>, brokenAt: Option<nat>)
    requires Accounted(p) && done <= Registered(p.clients)
    requires |done| == if brokenAt.Some? && brokenAt.value < |p.clients| then brokenAt.value + 1 else |p.clients|
    ensures Accounted(Closed(p, done)) <==> brokenAt.None? || brokenAt.value + 1 >= |p.clients|
  {
    CloseExact(p, done);
    RegisteredSize(p.clients);
    hide Registered, Accounted;
    SubsetSize(done, Registered(p.clients));
  }

  lemma NothingRegistered()
    ensures Registered(map[]) == {}
  {
  }

  lemma RegisteredMeans(clients: map<int, Managed>, c: nat)
    ensures c in Registered(clients) <==> exists a :: a in clients && clients[a].client == c
  {
  }

  /** A successful `get` hands out the account's registered client, connected, and takes one more
      reference; any failure leaves the registry as it was, and no other account is ever touched. */
  lemma GetMeans(p: Pool, account: int, w: World)
    requires Accounted(p)
    ensures var (q, r) := Obtained(p, account, w);
            && q.clients - {account} == p.clients - {account}
            && (r.Failed? ==> q.clients == p.clients && q.holds == p.holds)
            && (r.Got? ==>
                  && (w.connected || w.connects) && Holds(q, p.gets, account)
                  && account in q.clients && q.clients[account].client == r.client == q.holds[p.gets].client
                  && q.clients[account].refcount ==
                     1 + (if account in p.clients then p.clients[account].refcount else 0)
                  && (account in p.clients ==> r.client == p.clients[account].client)
                  && (account !in p.clients ==> r.client !in Registered(p.clients) && p.disconnects[r.client] == 0))
  {
    hide Registered;
    UnborrowedIsNew(p);
    var q := Obtained(p, account, w).0;
    assert q.clients - {account} == p.clients - {account};
  }

  /** When the account has no client yet, one is created exactly when the account exists and is neither banned
      nor retired, it has a proxy or direct connections are allowed, and the client can be built.  Each refusal
      has its own error and leaves the pool as it was. */
  lemma CreationExact(p: Pool, account: int, w: World)
    requires account !in p.clients
    ensures var (q, r) := Obtained(p, account, w);
            var usable := w.account != NoAccount && w.account != BannedOrRetired;
            var allowed := w.account == Ready || w.allowNoProxy;
            && (r == Failed(AccountUnavailable) <==> !usable)
            && (r == Failed(ProxyMisconfigured) <==> usable && !allowed)
            && (r == Failed(BuildFailed) <==> usable && allowed && !w.builds)
            && (r == Failed(ConnectFailed) <==> usable && allowed && w.builds && !w.connected && !w.connects)
            && (r.Got? <==> usable && allowed && w.builds && (w.connected || w.connects))
            && q.created == (if usable && allowed && w.builds then p.created + 1 else p.created)
            && (!(usable && allowed && w.builds) ==> q == p)
  {
  }

  /** The account's status is looked at only when a client is created: an account that is missing, banned or
      retired is refused for it exactly when it has no client in the pool, and a registered client is handed
      out whenever it is or gets connected, whatever has become of the account. */
  lemma UnavailableExact(p: Pool, account: int, w: World)
    ensures var (q, r) := Obtained(p, account, w);
            && (w.account in {NoAccount, BannedOrRetired} ==>
                  (r == Failed(AccountUnavailable) <==> account !in p.clients))
            && (account in p.clients ==>
                  q.created == p.created && r == if w.connected || w.connects then Got(p.clients[account].client)
                                                 else Failed(ConnectFailed))
  {
  }

  // ---------------------------------------------------------------- reference counts

  lemma HoldAdded(holds: map<nat, Hold>, t: nat, h: Hold, a: int)
    requires t !in holds
    ensures |HoldsOn(holds[t := h], a)| == |HoldsOn(holds, a)| + if h.account == a then 1 else 0
  {
    var after := HoldsOn(holds[t := h], a);
    if h.account == a {
      assert after == HoldsOn(holds, a) + {t};
    } else {
      assert after == HoldsOn(holds, a);
    }
  }

  lemma HoldRemoved(holds: map<nat, Hold>, t: nat, a: int)
    requires t in holds
    ensures |HoldsOn(holds - {t}, a)| == |HoldsOn(holds, a)| - if holds[t].account == a then 1 else 0
  {
    if holds[t].account == a {
      assert HoldsOn(holds - {t}, a) == HoldsOn(holds, a) - {t};
    } else {
      assert HoldsOn(holds - {t}, a) == HoldsOn(holds, a);
    }
  }

  lemma SomeHold(holds: map<nat, Hold>, a: int)
    ensures |HoldsOn(holds, a)| > 0 <==> exists t :: t in holds && holds[t].account == a
  {
    if t :| t in holds && holds[t].account == a {
      assert t in HoldsOn(holds, a);
    }
    if HoldsOn(holds, a) != {} {
      var t :| t in HoldsOn(holds, a);
    }
  }

  lemma ObtainKeepsCounts(p: Pool, account: int, w: World)
    requires Accounted(p) && Matches(p)
    ensures Matches(Obtained(p, account, w).0)
  {
    hide Registered, HoldsOn, Distinct;
    var q := Obtained(p, account, w).0;
    if q.gets != p.gets {
      var h := q.holds[p.gets];
      SomeHold(p.holds, account);
      forall a | a in q.clients
        ensures q.clients[a].refcount == |HoldsOn(q.holds, a)|
      {
        HoldAdded(p.holds, p.gets, h, a);
      }
    }
  }

  lemma HonestRelease(p: Pool, account: int, t: nat)
    requires Accounted(p) && Matches(p) && Holds(p, t, account)
    ensures Matches(Released(p, account, t))
  {
    hide Registered, HoldsOn, Distinct;
    var q := Released(p, account, t);
    HoldRemoved(p.holds, t, account);
    SomeHold(q.holds, account);
    forall a | a in q.clients
      ensures q.clients[a].refcount == |HoldsOn(q.holds, a)|
    {
      HoldRemoved(p.holds, t, a);
    }
  }

  /** A release keeps the counts right exactly when the account has no client or the caller still
      holds it. */
  lemma ReleaseExact(p: Pool, account: int, t: nat)
    requires Accounted(p) && Matches(p)
    ensures Matches(Released(p, account, t)) <==> account !in p.clients || Holds(p, t, account)
  {
    hide Registered, HoldsOn, Distinct;
    var q := Released(p, account, t);
    if Holds(p, t, account) {
      HonestRelease(p, account, t);
    } else if account in p.clients {
      var m := p.clients[account];
      SomeHold(p.holds, account);
      if m.refcount > 1 {
        assert q.clients[account].refcount != |HoldsOn(q.holds, account)|;
      } else {
        var u :| u in p.holds && p.holds[u].account == account;
        assert u in q.holds && q.holds[u].account !in q.clients;
      }
    }
  }

  /** While the counts are right, a caller's client is registered and was never disconnected. */
  lemma HeldClientIsLive(p: Pool, t: nat)
    requires Accounted(p) && Matches(p) && t in p.holds
    ensures var h := p.holds[t];
            h.account in p.clients && p.clients[h.account].client == h.client && p.disconnects[h.client] == 0
  {
    InRegistered(p.clients, p.holds[t].account);
  }

  // ---------------------------------------------------------------- runs

  datatype Op = Get(account: int, world: World) | Release(account: int, ticket: nat) | CloseAll(done: set<nat>)

  function Step(p: Pool, op: Op): Pool {
    match op
    case Get(account, w) => Obtained(p, account, w).0
    case Release(account, t) => Released(p, account, t)
    case CloseAll(done) => Closed(p, done * Registered(p.clients))
  }

  function Run(p: Pool, ops: seq<Op>): Pool {
    if ops == [] then p else Step(Run(p, ops[..|ops| - 1]), ops[|ops| - 1])
  }

  /** Every shutdown in the run reached all the clients there were. */
  predicate Complete(p: Pool, ops: seq<Op>) {
    ops != [] ==>
      var front := ops[..|ops| - 1];
      var op := ops[|ops| - 1];
      Complete(p, front) && (op.CloseAll? ==> op.done >= Registered(Run(p, front).clients))
  }

  /** Every release in the run was by a caller that still held the account. */
  predicate Honest(p: Pool, ops: seq<Op>) {
    ops != [] ==>
      var front := ops[..|ops| - 1];
      var op := ops[|ops| - 1];
      Honest(p, front) && (op.Release? ==> Holds(Run(p, front), op.ticket, op.account))
  }

  /** Whatever callers release, every client is accounted for after any run of complete shutdowns. */
  lemma {:induction false} RunAccounted(ops: seq<Op>)
    requires Complete(EMPTY, ops)
    ensures Accounted(Run(EMPTY, ops))
  {
    hide Accounted, Obtained, Released, Closed, Registered;
    if ops == [] {
      EmptyAccounted();
    } else {
      var p := Run(EMPTY, ops[..|ops| - 1]);
      RunAccounted(ops[..|ops| - 1]);
      match ops[|ops| - 1]
      case Get(account, w) => ObtainKeepsAccounts(p, account, w);
      case Release(account, t) => ReleaseKeepsAccounts(p, account, t);
      case CloseAll(done) =>
        assert done * Registered(p.clients) == Registered(p.clients);
        CloseExact(p, Registered(p.clients));
    }
  }

  lemma EmptyAccounted()
    ensures Accounted(EMPTY) && Matches(EMPTY)
  {
  }

  /** When moreover only holders release, each count is the number of holders, and at least one. */
  lemma {:induction false} RunMatches(ops: seq<Op>)
    requires Complete(EMPTY, ops) && Honest(EMPTY, ops)
    ensures Matches(Run(EMPTY, ops))
    ensures forall a :: a in Run(EMPTY, ops).clients ==> Run(EMPTY, ops).clients[a].refcount >= 1
  {
    RunAccounted(ops);
    AtLeastOne(Run(EMPTY, ops));
    hide Accounted, Matches, Obtained, Released, Registered;
    if ops == [] {
      EmptyAccounted();
    } else {
      var p := Run(EMPTY, ops[..|ops| - 1]);
      RunAccounted(ops[..|ops| - 1]);
      RunMatches(ops[..|ops| - 1]);
      match ops[|ops| - 1]
      case Get(account, w) => ObtainKeepsCounts(p, account, w);
      case Release(account, t) => ReleaseExact(p, account, t);
      case CloseAll(done) => ClosedMatches(p, done * Registered(p.clients));
    }
  }

  lemma AtLeastOne(p: Pool)
    requires Accounted(p)
    ensures forall a :: a in p.clients ==> p.clients[a].refcount >= 1
  {
  }

  lemma ClosedMatches(p: Pool, done: set<nat>)
    ensures Matches(Closed(p, done))
  {
  }

  /** Two callers share a client; one releases twice; the other still holds a client that is no longer
      registered and was disconnected. */
  lemma DoubleReleaseStrands(account: int, w: World)
    requires w.account == Ready && w.builds && w.connects
    ensures var p := Run(EMPTY, [Get(account, w), Get(account, w), Release(account, 0), Release(account, 0)]);
            Holds(p, 1, account) && account !in p.clients && p.disconnects[p.holds[1].client] == 1
  {
    var ops := [Get(account, w), Get(account, w), Release(account, 0), Release(account, 0)];
    assert ops[..3][..2] == ops[..2] && ops[..2][..1] == ops[..1] && ops[..1][..0] == [];
    assert Run(EMPTY, []) == EMPTY;
    assert Run(EMPTY, ops[..1]) == Step(EMPTY, ops[0]);
    assert Run(EMPTY, ops[..2]) == Step(Run(EMPTY, ops[..1]), ops[1]);
    assert Run(EMPTY, ops[..3]) == Step(Run(EMPTY, ops[..2]), ops[2]);
    assert Run(EMPTY, ops) == Step(Run(EMPTY, ops[..3]), ops[3]);
  }

  // ---------------------------------------------------------------- the pool

  class ClientPool {
    var clients: map<int, Managed>
    var created: nat
    ghost var disconnects: multiset<nat>
    ghost var gets: nat
    ghost var holds: map<nat, Hold>

    ghost function State(): Pool
      reads this
    {
      Pool(clients, created, disconnects, gets, holds)
    }

    constructor ()
      ensures State() == EMPTY
    {
      clients, created, disconnects, gets, holds := map[], 0, multiset{}, 0, map[];
    }

    method Disconnect(client: nat)
      modifies this`disconnects
      ensures disconnects == old(disconnects) + multiset{client}
    {
      disconnects := disconnects + multiset{client};
    }

    /** `_create_client`. */
    method CreateClient(w: World) returns (r: Reply)
      modifies this`created
      ensures r == if CreateError(w).Some? then Failed(CreateError(w).value) else Got(old(created))
      ensures created == if r.Got? then old(created) + 1 else old(created)
    {
      if w.account == NoAccount || w.account == BannedOrRetired {
        return Failed(AccountUnavailable);
      }
      if !w.allowNoProxy {
        if w.account == NoProxyBound || w.account == ProxyGone {
          return Failed(ProxyMisconfigured);
        }
      }
      if !w.builds {
        return Failed(BuildFailed);
      }
      created := created + 1;
      return Got(created - 1);
    }

    /** `get`. */
    method Get(account: int, w: World) returns (r: Reply)
      modifies this
      ensures (State(), r) == Obtained(old(State()), account, w)
    {
      if account in clients {
        clients := clients[account := Managed(clients[account].client, clients[account].refcount + 1)];
      } else {
        var made := CreateClient(w);
        if made.Failed? {
          return made;
        }
        clients := clients[account := Managed(made.client, 1)];
      }
      var client := clients[account].client;
      if !w.connected {
        if !w.connects {
          clients := clients[account := Managed(client, clients[account].refcount - 1)];
          if clients[account].refcount <= 0 {
            clients := clients - {account};
            Disconnect(client);
          }
          assert account !in old(clients) ==> clients == old(clients);
          assert account in old(clients) && old(clients)[account].refcount > 0 ==> clients == old(clients);
          assert account in old(clients) && old(clients)[account].refcount <= 0 ==>
              clients == old(clients) - {account};
          return Failed(ConnectFailed);
        }
      }
      gets, holds := gets + 1, holds[gets := Hold(account, client)];
      return Got(client);
    }

    /** `release`, by the caller of `get` number t. */
    method Release(account: int, ghost t: nat)
      modifies this
      ensures State() == Released(old(State()), account, t)
    {
      if Holds(State(), t, account) {
        holds := holds - {t};
      }
      if account !in clients {
        return;
      }
      var m := Managed(clients[account].client, clients[account].refcount - 1);
      clients := clients[account := m];
      if m.refcount <= 0 {
        clients := clients - {account};
        Disconnect(m.client);
        assert clients == old(clients) - {account};
      }
    }

    /** `close_all`: the registry is emptied first; a disconnect that raises ends the shutdown, so the
        clients after it are never told.  `brokenAt` is the position of the first that raises. */
    method CloseAll(brokenAt: Option<nat>) returns (raised: bool, ghost done: set<nat>)
      requires Accounted(State())
      modifies this
      ensures done <= Registered(old(clients))
      ensures State() == Closed(old(State()), done)
      ensures raised <==> brokenAt.Some? && brokenAt.value < |old(clients)|
      ensures |done| == if raised then brokenAt.value + 1 else |old(clients)|
      ensures !raised ==> done == Registered(old(clients))
      ensures Accounted(State()) <==> brokenAt.None? || brokenAt.value + 1 >= |old(clients)|
    {
      ghost var before := State();
      AccountsDistinct(State());
      var registry := clients;
      clients := map[];
      holds := map[];
      raised, done := DisconnectAll(registry, brokenAt);
      ShutdownExact(before, done, brokenAt);
    }

    /** The loop of `close_all`. */
    method DisconnectAll(registry: map<int, Managed>, brokenAt: Option<nat>)
      returns (raised: bool, ghost done: set<nat>)
      requires Distinct(registry)
      modifies this`disconnects
      ensures done <= Registered(registry)
      ensures disconnects == old(disconnects) + multiset(done)
      ensures raised <==> brokenAt.Some? && brokenAt.value < |registry|
      ensures |done| == if raised then brokenAt.value + 1 else |registry|
      ensures !raised ==> done == Registered(registry)
    {
      hide Registered, Told, Distinct;
      done := {};
      var todo := registry.Keys;
      var steps := 0;
      NoneTold(registry);
      while todo != {}
        invariant Told(registry, todo, done, steps)
        invariant disconnects == old(disconnects) + multiset(done)
        invariant brokenAt.Some? ==> brokenAt.value >= steps
        decreases |todo|
      {
        NotEmpty(todo);
        var account :| account in todo;
        TellOne(registry, todo, done, steps, account);
        var client := registry[account].client;
        Disconnect(client);
        done, todo, steps := done + {client}, todo - {account}, steps + 1;
        if brokenAt == Some(steps - 1) {
          ToldMeans(registry, todo, done, steps);
          return true, done;
        }
      }
      ToldMeans(registry, todo, done, steps);
      return false, done;
    }
  }

  /** `done` are the clients of the accounts that are no longer to do. */
  ghost predicate Told(registry: map<int, Managed>, todo: set<int>, done: set<nat>, steps: nat) {
    && todo <= registry.Keys
    && steps + |todo| == |registry.Keys|
    && |done| == steps
    && forall c :: c in done <==> exists a :: a in registry && a !in todo && registry[a].client == c
  }

  lemma AccountsDistinct(p: Pool)
    requires Accounted(p)
    ensures Distinct(p.clients)
  {
  }

  lemma NoneTold(registry: map<int, Managed>)
    ensures Told(registry, registry.Keys, {}, 0)
  {
  }

  lemma TellOne(registry: map<int, Managed>, todo: set<int>, done: set<nat>, steps: nat, account: int)
    requires Distinct(registry) && Told(registry, todo, done, steps) && account in todo
    ensures account in registry && |todo - {account}| < |todo|
    ensures var client := registry[account].client;
            && Told(registry, todo - {account}, done + {client}, steps + 1)
            && multiset(done + {client}) == multiset(done) + multiset{client}
  {
    assert registry[account].client !in done;
  }

  lemma ToldMeans(registry: map<int, Managed>, todo: set<int>, done: set<nat>, steps: nat)
    requires Told(registry, todo, done, steps)
    ensures done <= Registered(registry) && |done| == steps
    ensures todo == {} ==> done == Registered(registry) && steps == |registry|
    ensures steps <= |registry|
  {
  }

  lemma NotEmpty(todo: set<int>)
    requires todo != {}
    ensures exists a :: a in todo
  {
    assert (forall a :: a !in todo) ==> todo == {};
  }
}
