/** Runs of a server just started that end badly: all TUN names are held and the next session gets one
    of them once more; or a session is stuck and keeps its client's lock. */
module ServerRuns {
  import opened Options
  import opened TunnelServer
  import PrefixManager
  import TunIds
  import TunnelSession
  import TunnelRelease

  const Narrow := PrefixManager.Range(0, 5)

  lemma NarrowIs(i: PrefixManager.uint64)
    ensures Narrow.Valid() && (Narrow.Contains(i) <==> i < 32)
  {
    assert PrefixManager.Pow2(5) == 32;
  }

  function ClientId(i: nat): Id { TunIds.TunName(i) }

  /** The first `n` clients have the first `n` prefixes. */
  ghost predicate FirstPrefixes(m: map<Id, string>, n: nat)
    requires n <= 17
  {
    && (forall id :: id in m ==> exists i: nat :: i < n && id == ClientId(i))
    && (forall p :: p in m.Values <==> exists i: nat :: i < n && p == PrefixManager.Render(i))
  }

  /** Sessions of the first `n` clients, all running, with the first `n` numbers. */
  ghost predicate Crowd(s: Server, n: nat)
    requires n <= 17
  {
    && (forall c: Sid :: c in s.conns <==> c < n)
    && (forall id :: id in s.table ==> exists i: nat :: i < n && id == ClientId(i))
    && (forall m: Mutex :: m in s.mutexes <==> m < n)
    && (forall k: int :: k in s.names <==> 0 <= k < n)
    && s.tableLock == None
    && FirstPrefixes(s.book.prefixes, n)
  }

  lemma NewClient(m: map<Id, string>, n: nat)
    requires n <= 16 && FirstPrefixes(m, n)
    ensures ClientId(n) !in m && PrefixManager.Render(n) !in m.Values
  {
    if ClientId(n) in m {
      var i: nat :| i < n && ClientId(n) == ClientId(i);
      TunIds.NamesDiffer(i, n);
    }
    if PrefixManager.Render(n) in m.Values {
      var i: nat :| i < n && PrefixManager.Render(n) == PrefixManager.Render(i);
      PrefixManager.RenderInjective(i, n);
    }
  }

  /** The next client gets the next prefix. */
  lemma NextPrefix(b: PrefixManager.Book, n: nat)
    requires n <= 16 && PrefixManager.BookInv(Narrow, b) && FirstPrefixes(b.prefixes, n)
    ensures var (c, p) := PrefixManager.DoGet(Narrow, b, ClientId(n));
            p == Some(PrefixManager.Render(n)) && FirstPrefixes(c.prefixes, n + 1)
  {
    hide PrefixManager.DoGet, PrefixManager.Render;
    NewClient(b.prefixes, n);
    NarrowIs(n);
    PrefixManager.Allocates(Narrow, b, ClientId(n));
    var (c, p) := PrefixManager.DoGet(Narrow, b, ClientId(n));
    assert p.Some?;
    var i: PrefixManager.uint64 :|
      && Narrow.Contains(i) && p.value == PrefixManager.Render(i) && PrefixManager.Render(i) !in b.prefixes.Values
      && forall j: PrefixManager.uint64 :: Narrow.Contains(j) && j < i ==> PrefixManager.Render(j) in b.prefixes.Values;
    NarrowIs(i);
    assert i == n;
    MorePrefixes(b.prefixes, n);
  }

  lemma MorePrefixes(m: map<Id, string>, n: nat)
    requires n <= 16 && FirstPrefixes(m, n) && ClientId(n) !in m
    ensures FirstPrefixes(m[ClientId(n) := PrefixManager.Render(n)], n + 1)
  {
    hide PrefixManager.Render, TunIds.TunName;
    var id, p := ClientId(n), PrefixManager.Render(n);
    var more := m[id := p];
    forall q ensures q in more.Values <==> q in m.Values || q == p {
      if q in m.Values {
        var k :| k in m && m[k] == q;
        assert more[k] == q;
      }
      assert more[id] == p;
    }
  }

  // ---- One more client

  lemma TakesTable(s0: Server, s: Server, n: nat) returns (t: Server)
    requires ServerInv(Narrow, s) && Reaches(Narrow, s0, s) && n !in s.conns && s.tableLock == None
    ensures ServerInv(Narrow, t) && Reaches(Narrow, s0, t)
    ensures t == s.(conns := s.conns[n := Locking(ClientId(n), Inside)], tableLock := Some(n))
  {
    hide ClientId, ServerInv, Reaches, TunnelSession.Enabled, TunnelSession.Step, PrefixManager.DoGet, TunIds.FirstFree;
    t := Then(s0, s, n, Connect);
    t := Then(s0, t, n, Identify(ClientId(n)));
    t := Then(s0, t, n, TakeTable);
  }

  /** From the first sighting of a client to holding its lock. */
  lemma TakesLock(s0: Server, s: Server, n: nat) returns (t: Server)
    requires ServerInv(Narrow, s) && Reaches(Narrow, s0, s)
    requires n !in s.conns && n !in s.mutexes && ClientId(n) !in s.table && s.tableLock == None
    ensures ServerInv(Narrow, t) && Reaches(Narrow, s0, t)
    ensures t == s.(conns := s.conns[n := Locked(ClientId(n))], table := s.table[ClientId(n) := n],
                    mutexes := s.mutexes[n := Some(n)])
  {
    hide ClientId, ServerInv, Reaches, TunnelSession.Enabled, TunnelSession.Step, PrefixManager.DoGet, TunIds.FirstFree;
    t := TakesTable(s0, s, n);
    t := Then(s0, t, n, LookUp(n));
    t := Then(s0, t, n, LeaveTable);
    t := Then(s0, t, n, TakeMutex);
  }

  lemma Then(s0: Server, s: Server, c: Sid, e: Event) returns (t: Server)
    requires ServerInv(Narrow, s) && Reaches(Narrow, s0, s) && Enabled(Narrow, s, c, e) && NameFree(s, e)
    ensures ServerInv(Narrow, t) && Reaches(Narrow, s0, t) && t == Step(Narrow, s, c, e)
  {
    hide Enabled, NameFree, Step, ServerInv, Reaches;
    ReachesThen(Narrow, s0, s, c, e);
    t := Step(Narrow, s, c, e);
  }

  lemma PrefixSteps(s: Server, n: nat)
    requires n <= 16 && n in s.conns && s.conns[n] == Locked(ClientId(n))
    requires PrefixManager.DoGet(Narrow, s.book, ClientId(n)).1 == Some(PrefixManager.Render(n))
    ensures Enabled(Narrow, s, n, GetPrefix)
    ensures var t := Step(Narrow, s, n, GetPrefix);
            && Enabled(Narrow, t, n, SendPrefix(true))
            && Step(Narrow, t, n, SendPrefix(true)) ==
               s.(conns := s.conns[n := WantsName(ClientId(n), PrefixManager.Render(n))],
                  book := PrefixManager.DoGet(Narrow, s.book, ClientId(n)).0)
  {
    hide ClientId, PrefixManager.Render, PrefixManager.DoGet;
  }

  /** Then it gets its prefix and is about to ask for a name. */
  lemma TakesPrefix(s0: Server, s: Server, n: nat) returns (t: Server)
    requires n <= 16 && ServerInv(Narrow, s) && Reaches(Narrow, s0, s)
    requires n in s.conns && s.conns[n] == Locked(ClientId(n)) && FirstPrefixes(s.book.prefixes, n)
    ensures ServerInv(Narrow, t) && Reaches(Narrow, s0, t)
    ensures t == s.(conns := s.conns[n := WantsName(ClientId(n), PrefixManager.Render(n))], book := t.book)
    ensures FirstPrefixes(t.book.prefixes, n + 1)
  {
    NextPrefix(s.book, n);
    PrefixSteps(s, n);
    hide *;
    t := Then(s0, s, n, GetPrefix);
    t := Then(s0, t, n, SendPrefix(true));
  }

  lemma NameSteps(s: Server, n: nat)
    requires n < 16 && n in s.conns && s.conns[n].WantsName? && forall k: int :: k in s.names <==> 0 <= k < n
    ensures Enabled(Narrow, s, n, GetName) && NameFree(s, GetName)
    ensures var t := Step(Narrow, s, n, GetName);
            && Enabled(Narrow, t, n, OpenTun)
            && Step(Narrow, t, n, OpenTun) ==
               s.(conns := s.conns[n := Running(s.conns[n].id, s.conns[n].prefix, n, TunnelSession.Begin)],
                  names := s.names[n := n])
  {
    assert n !in s.names.Keys;
    hide TunIds.FirstFree;
    assert TunIds.FirstFree(s.names.Keys, 0) == n;
  }

  /** Then a name, and the session runs. */
  lemma TakesName(s0: Server, s: Server, n: nat) returns (t: Server)
    requires n < 16 && ServerInv(Narrow, s) && Reaches(Narrow, s0, s)
    requires n in s.conns && s.conns[n].WantsName? && forall k: int :: k in s.names <==> 0 <= k < n
    ensures ServerInv(Narrow, t) && Reaches(Narrow, s0, t)
    ensures t == s.(conns := s.conns[n := Running(s.conns[n].id, s.conns[n].prefix, n, TunnelSession.Begin)],
                    names := s.names[n := n])
  {
    NameSteps(s, n);
    hide *;
    t := Then(s0, s, n, GetName);
    t := Then(s0, t, n, OpenTun);
  }

  // ---- All seventeen

  lemma CrowdIsNew(s: Server, n: nat)
    requires n <= 16 && Crowd(s, n)
    ensures n !in s.conns && n !in s.mutexes && ClientId(n) !in s.table && s.tableLock == None
    ensures FirstPrefixes(s.book.prefixes, n)
  {
    if ClientId(n) in s.table {
      var i: nat :| i < n && ClientId(n) == ClientId(i);
      TunIds.NamesDiffer(i, n);
    }
  }

  /** The next client comes as far as asking for a name. */
  lemma NextClient(s0: Server, s: Server, n: nat) returns (t: Server)
    requires n <= 16 && Crowd(s, n) && ServerInv(Narrow, s) && Reaches(Narrow, s0, s)
    ensures ServerInv(Narrow, t) && Reaches(Narrow, s0, t)
    ensures n in t.conns && t.conns[n] == WantsName(ClientId(n), PrefixManager.Render(n)) && t.names == s.names
    ensures t.conns.Keys == s.conns.Keys + {n} && t.table.Keys == s.table.Keys + {ClientId(n)}
    ensures t.mutexes.Keys == s.mutexes.Keys + {n} && t.tableLock == None && FirstPrefixes(t.book.prefixes, n + 1)
  {
    CrowdIsNew(s, n);
    hide *;
    var u := TakesLock(s0, s, n);
    t := TakesPrefix(s0, u, n);
    UpdateKeys(s.conns, n, u.conns[n]);
    UpdateKeys(u.conns, n, t.conns[n]);
    UpdateKeys(s.table, ClientId(n), n);
    UpdateKeys(s.mutexes, n, Some(n));
  }

  lemma UpdateKeys<K, V>(m: map<K, V>, k: K, v: V)
    ensures m[k := v].Keys == m.Keys + {k}
  {
  }

  lemma CrowdGrows(s0: Server, s: Server, n: nat) returns (t: Server)
    requires n < 16 && Crowd(s, n) && ServerInv(Narrow, s) && Reaches(Narrow, s0, s)
    ensures Crowd(t, n + 1) && ServerInv(Narrow, t) && Reaches(Narrow, s0, t)
  {
    hide ClientId, FirstPrefixes, Reaches, ServerInv;
    var u := NextClient(s0, s, n);
    t := TakesName(s0, u, n);
  }

  lemma {:induction false} CrowdOf(n: nat) returns (s: Server)
    requires n <= 16
    ensures Crowd(s, n) && ServerInv(Narrow, s) && Reaches(Narrow, Idle, s)
  {
    if n == 0 {
      NarrowIs(0);
      s := Idle;
      assert Possible(Narrow, Idle, []) && Run(Narrow, Idle, []) == Idle;
    } else {
      s := CrowdOf(n - 1);
      s := CrowdGrows(Idle, s, n - 1);
    }
  }

  /** A connection whose name, once it has asked, is held by another one too. */
  ghost predicate Collides(s: Server, c: Sid) {
    && Enabled(Narrow, s, c, GetName)
    && var t := Step(Narrow, s, c, GetName);
       OwnsName(t, c, 0) && exists d :: d != c && OwnsName(t, d, 0)
  }

  lemma AllNamesHeld(names: map<int, Sid>)
    requires forall k: int :: k in names <==> 0 <= k < 16
    ensures TunIds.Full(names.Keys)
  {
  }

  lemma SeventeenthAsks() returns (t: Server)
    ensures ServerInv(Narrow, t) && Reaches(Narrow, Idle, t) && TunIds.Full(t.names.Keys)
    ensures 16 in t.conns && t.conns[16].WantsName?
  {
    var s := CrowdOf(16);
    hide ServerInv, Reaches, FirstPrefixes, ClientId, PrefixManager.Render;
    AllNamesHeld(s.names);
    t := NextClient(Idle, s, 16);
  }

  lemma AskingCollides(s: Server, c: Sid)
    requires ServerInv(Narrow, s) && TunIds.Full(s.names.Keys) && c in s.conns && s.conns[c].WantsName?
    ensures Collides(s, c)
  {
    assert Enabled(Narrow, s, c, GetName);
    assert c in Step(Narrow, s, c, GetName).conns;
    FullNamesCollide(Narrow, s, c);
    hide Step, Enabled, ServerInv;
  }

  /** It does happen: from a server just started there is a run after which the next session gets the
      name of another one. */
  lemma NamesCanCollide()
    ensures exists s, c :: Reaches(Narrow, Idle, s) && Collides(s, c)
  {
    NarrowIs(0);
    var s := SeventeenthAsks();
    AskingCollides(s, 16);
    hide Reaches, Collides;
  }

  // ---- A stuck session

  lemma InnerStep(s: Server, c: Sid, e: TunnelSession.Event)
    requires c in s.conns && s.conns[c].Running? && TunnelSession.Enabled(s.conns[c].session, e) && !e.HandlerUnsets?
    ensures Enabled(Narrow, s, c, Inner(e)) && NameFree(s, Inner(e))
    ensures Step(Narrow, s, c, Inner(e)) ==
            s.(conns := s.conns[c := s.conns[c].(session := TunnelSession.Step(s.conns[c].session, e))])
  {
    hide TunnelSession.Enabled, TunnelSession.Step;
  }

  /** Any run of a session before its name is released is a run of the server. */
  lemma {:induction false} InnerRun(s0: Server, s: Server, c: Sid, es: seq<TunnelSession.Event>) returns (t: Server)
    requires ServerInv(Narrow, s) && Reaches(Narrow, s0, s) && c in s.conns && s.conns[c].Running?
    requires TunnelSession.Possible(s.conns[c].session, es) && TunnelSession.HandlerUnsets !in es
    ensures ServerInv(Narrow, t) && Reaches(Narrow, s0, t)
    ensures t == s.(conns := s.conns[c := s.conns[c].(session := TunnelSession.Run(s.conns[c].session, es))])
    decreases |es|
  {
    if es == [] {
      t := s;
      assert s.conns == s.conns[c := s.conns[c]];
    } else {
      SessionRunSplits(s.conns[c].session, es);
      InnerStep(s, c, es[0]);
      hide *;
      var u := Then(s0, s, c, Inner(es[0]));
      t := InnerRun(s0, u, c, es[1..]);
      UpdateTwice(s.conns, c, u.conns[c], t.conns[c]);
    }
  }

  lemma SessionRunSplits(session: TunnelSession.Session, es: seq<TunnelSession.Event>)
    requires es != [] && TunnelSession.Possible(session, es)
    ensures TunnelSession.Enabled(session, es[0])
    ensures var next := TunnelSession.Step(session, es[0]);
            && TunnelSession.Possible(next, es[1..])
            && TunnelSession.Run(session, es) == TunnelSession.Run(next, es[1..])
  {
    hide TunnelSession.Enabled, TunnelSession.Step;
  }

  lemma UpdateTwice<K, V>(m: map<K, V>, k: K, v: V, w: V)
    ensures m[k := v][k := w] == m[k := w]
  {
  }

  /** From a server just started a session can get stuck, and then keeps its client's lock for good. */
  lemma SessionCanGetStuck()
    ensures exists s :: Reaches(Narrow, Idle, s) && ServerInv(Narrow, s) && TunnelRelease.StuckAt(s, 0, ClientId(0))
  {
    NarrowIs(0);
    var s := CrowdOf(0);
    var t := NextClient(Idle, s, 0);
    var u := TakesName(Idle, t, 0);
    hide ServerInv, Reaches, TunnelSession.SessionInv;
    TunnelSession.GetsStuck();
    var v := InnerRun(Idle, u, 0, TunnelSession.WayToStuck);
    assert TunnelRelease.StuckAt(v, 0, ClientId(0));
  }
}
