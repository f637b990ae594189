/** The tunnel server as a concurrent system: any number of connections, each a handler
    with its goroutines, sharing the lazily grown table of client locks, the prefix
    allocator and the TUN numbers. Every step of every connection is one transition. */
module TunnelServer {
  import opened Options
  import PrefixManager
  import TunIds
  import opened TunnelSession

  type Id = string
  type Sid = nat       // a connection
  type Mutex = nat     // the address of a client's lock

  /** Where a connection stands. `Locking` and `Unlocking` are the inner steps of lockClient and unlockClient. */
  datatype Conn =
    | Greeting
    | Locking(id: Id, at: TableStep)
    | Locked(id: Id)
    | HasPrefix(id: Id, prefix: string)
    | WantsName(id: Id, prefix: string)
    | Opening(id: Id, prefix: string, name: nat)   // before tuntap.Open, whose failure ends the program
    | Running(id: Id, prefix: string, name: nat, session: Session)
    | Unlocking(id: Id, at: TableStep)
    | Over

  datatype TableStep =
    | Outside                 // before the table's own lock
    | Inside                  // holding it, before the lookup
    | LookedUp(mutex: Mutex)  // holding it, after the lookup
    | Left(mutex: Mutex)      // after it, before the client's mutex

  /** `names` tells for each TUN number in use which connection holds it. */
  datatype Server = Server(
    conns: map<Sid, Conn>,
    table: map<Id, Mutex>,
    tableLock: Option<Sid>,
    mutexes: map<Mutex, Option<Sid>>,
    book: PrefixManager.Book,
    names: map<int, Sid>)

  datatype Event =
    | Connect
    | Identify(id: Id)         // the client's identifier has arrived
    | Disconnect               // before it has
    | TakeTable
    | LookUp(addr: Mutex)      // the address of the new lock, should one be made
    | LeaveTable
    | TakeMutex
    | GetPrefix
    | SendPrefix(ok: bool)
    | GetName
    | OpenTun
    | Inner(e: TunnelSession.Event)
    | StartUnlock
    | ReleaseMutex

  /** The place in lockClient or unlockClient, for a connection in one of them. */
  predicate InTable(k: Conn) { k.Locking? || k.Unlocking? }

  function Move(k: Conn, at: TableStep): Conn
    requires InTable(k)
  {
    if k.Locking? then Locking(k.id, at) else Unlocking(k.id, at)
  }

  predicate Enabled(r: PrefixManager.Range, s: Server, c: Sid, e: Event)
    requires r.Valid()
  {
    if c !in s.conns then e.Connect?
    else
      var k := s.conns[c];
      match e
      case Connect => false
      case Identify(_) => k.Greeting?
      case Disconnect => k.Greeting?
      case TakeTable => InTable(k) && k.at.Outside? && s.tableLock.None?
      case LookUp(addr) =>
        InTable(k) && k.at.Inside? && if k.id in s.table then true else k.Locking? && addr !in s.mutexes
      case LeaveTable => InTable(k) && k.at.LookedUp?
      case TakeMutex => k.Locking? && k.at.Left? && k.at.mutex in s.mutexes && s.mutexes[k.at.mutex].None?
      case GetPrefix => k.Locked? && PrefixManager.DoGet(r, s.book, k.id).1.Some?  // otherwise the program ends
      case SendPrefix(_) => k.HasPrefix?
      case GetName => k.WantsName?
      case OpenTun => k.Opening?
      case Inner(i) => k.Running? && TunnelSession.Enabled(k.session, i)
      case StartUnlock => k.Running? && k.session.handler.Finished?
      case ReleaseMutex => k.Unlocking? && k.at.Left? && k.at.mutex in s.mutexes
  }

  function Set(s: Server, c: Sid, k: Conn): Server {
    s.(conns := s.conns[c := k])
  }

  function Step(r: PrefixManager.Range, s: Server, c: Sid, e: Event): Server
    requires r.Valid() && Enabled(r, s, c, e)
  {
    if e.Connect? then Set(s, c, Greeting)
    else
      var k := s.conns[c];
      match e
      case Identify(id) => Set(s, c, Locking(id, Outside))
      case Disconnect => Set(s, c, Over)
      case TakeTable => Set(s, c, Move(k, Inside)).(tableLock := Some(c))
      case LookUp(addr) =>
        if k.id in s.table then Set(s, c, Move(k, LookedUp(s.table[k.id])))
        else Set(s, c, Move(k, LookedUp(addr))).(table := s.table[k.id := addr], mutexes := s.mutexes[addr := None])
      case LeaveTable => Set(s, c, Move(k, TableStep.Left(k.at.mutex))).(tableLock := None)
      case TakeMutex => Set(s, c, Locked(k.id)).(mutexes := s.mutexes[k.at.mutex := Some(c)])
      case GetPrefix =>
        var (book, p) := PrefixManager.DoGet(r, s.book, k.id);
        Set(s, c, HasPrefix(k.id, p.value)).(book := book)
      case SendPrefix(ok) => Set(s, c, if ok then WantsName(k.id, k.prefix) else Unlocking(k.id, Outside))
      case GetName =>
        var n := TunIds.FirstFree(s.names.Keys, TunIds.TUN_ID_MIN);
        Set(s, c, Opening(k.id, k.prefix, n)).(names := s.names[n := c])
      case OpenTun => Set(s, c, Running(k.id, k.prefix, k.name, Begin))
      case Inner(i) =>
        var t := Set(s, c, k.(session := TunnelSession.Step(k.session, i)));
        if i.HandlerUnsets? then t.(names := s.names - {k.name}) else t
      case StartUnlock => Set(s, c, Unlocking(k.id, Outside))
      case ReleaseMutex => Set(s, c, Over).(mutexes := s.mutexes[k.at.mutex := None])
      case Connect => s
  }

  const Idle := Server(map[], map[], None, map[], PrefixManager.Book(map[], map[], ""), map[])

  // ---- What every step of every connection keeps

  /** Between the acquisition of its client's lock and its release. */
  predicate Holds(k: Conn) {
    k.Locked? || GotPrefix(k) || k.Unlocking?
  }

  /** Between getting its prefix and the end of its session. */
  predicate GotPrefix(k: Conn) {
    k.HasPrefix? || k.WantsName? || k.Opening? || k.Running?
  }

  predicate HoldsTable(k: Conn) {
    InTable(k) && (k.at.Inside? || k.at.LookedUp?)
  }

  predicate HoldsName(k: Conn) {
    k.Opening? || (k.Running? && !k.session.handler.Finished?)
  }

  /** The mutex a connection has looked up is its client's, in the table and among the mutexes. */
  predicate KnowsMutex(s: Server, k: Conn) {
    InTable(k) && (k.at.LookedUp? || k.at.Left?) ==>
      k.id in s.table && s.table[k.id] == k.at.mutex && k.at.mutex in s.mutexes
  }

  /** A connection holding its client's lock is recorded as the holder. */
  predicate HasMutex(s: Server, c: Sid, k: Conn) {
    Holds(k) ==> k.id in s.table && s.table[k.id] in s.mutexes && s.mutexes[s.table[k.id]] == Some(c)
  }

  predicate HasAssignment(s: Server, k: Conn) {
    GotPrefix(k) ==> k.id in s.book.prefixes && s.book.prefixes[k.id] == k.prefix
  }

  predicate HasName(s: Server, c: Sid, k: Conn) {
    && (HoldsName(k) ==> k.name in s.names && s.names[k.name] == c)
    && (k.Running? ==> SessionInv(k.session))
  }

  predicate ConnOk(s: Server, c: Sid, k: Conn) {
    && (HoldsTable(k) ==> s.tableLock == Some(c))
    && KnowsMutex(s, k) && HasMutex(s, c, k) && HasAssignment(s, k) && HasName(s, c, k)
  }

  predicate TableOk(s: Server) {
    && (forall a :: a in s.table ==> s.table[a] in s.mutexes)
    && (forall a, b :: a in s.table && b in s.table && s.table[a] == s.table[b] ==> a == b)
  }

  /** Whatever is recorded as held is held by that connection. */
  predicate OwnersOk(s: Server) {
    && (s.tableLock.Some? ==> s.tableLock.value in s.conns && HoldsTable(s.conns[s.tableLock.value]))
    && (forall m :: m in s.mutexes && s.mutexes[m].Some? ==> OwnsMutex(s, s.mutexes[m].value, m))
    && (forall n :: n in s.names ==> OwnsName(s, s.names[n], n))
  }

  predicate OwnsMutex(s: Server, c: Sid, m: Mutex) {
    c in s.conns && Holds(s.conns[c]) && s.conns[c].id in s.table && s.table[s.conns[c].id] == m
  }

  predicate OwnsName(s: Server, c: Sid, n: int) {
    c in s.conns && HoldsName(s.conns[c]) && s.conns[c].name == n
  }

  ghost predicate ServerInv(r: PrefixManager.Range, s: Server) {
    && TableOk(s) && OwnersOk(s)
    && PrefixManager.BookInv(r, s.book)
    && forall c :: c in s.conns ==> ConnOk(s, c, s.conns[c])
  }

  /** Whenever a TUN name is taken, fewer than sixteen are held. */
  predicate NameFree(s: Server, e: Event) {
    e.GetName? ==> !TunIds.Full(s.names.Keys)
  }

  /** What another connection's step may change without touching this one. */
  predicate Untouched(s: Server, t: Server, d: Sid, k: Conn) {
    && (s.tableLock == Some(d) ==> t.tableLock == Some(d))
    && (forall a :: a in s.table ==> a in t.table && t.table[a] == s.table[a])
    && (forall m :: m in s.mutexes ==> m in t.mutexes && (s.mutexes[m] == Some(d) ==> t.mutexes[m] == Some(d)))
    && (forall a :: a in s.book.prefixes ==> a in t.book.prefixes && t.book.prefixes[a] == s.book.prefixes[a])
    && (forall n :: n in s.names && s.names[n] == d ==> n in t.names && t.names[n] == d)
  }

  lemma UntouchedStaysOk(s: Server, t: Server, d: Sid, k: Conn)
    requires ConnOk(s, d, k) && Untouched(s, t, d, k)
    ensures ConnOk(t, d, k)
  {
  }

  lemma LocksUntouched(r: PrefixManager.Range, s: Server, c: Sid, e: Event, d: Sid)
    requires ServerInv(r, s) && Enabled(r, s, c, e) && d != c
    ensures var t := Step(r, s, c, e);
            && (s.tableLock == Some(d) ==> t.tableLock == Some(d))
            && (forall m :: m in s.mutexes ==> m in t.mutexes && (s.mutexes[m] == Some(d) ==> t.mutexes[m] == Some(d)))
  {
    hide PrefixManager.DoGet, PrefixManager.BookInv, TunIds.FirstFree, TunnelSession.Step, SessionInv;
    if c in s.conns { assert ConnOk(s, c, s.conns[c]); }
  }

  lemma TableOnlyGrows(r: PrefixManager.Range, s: Server, c: Sid, e: Event)
    requires r.Valid() && Enabled(r, s, c, e)
    ensures var t := Step(r, s, c, e); forall a :: a in s.table ==> a in t.table && t.table[a] == s.table[a]
  {
    hide PrefixManager.DoGet, TunIds.FirstFree, TunnelSession.Step, TunnelSession.Enabled;
  }

  lemma BookUnchanged(r: PrefixManager.Range, s: Server, c: Sid, e: Event)
    requires r.Valid() && Enabled(r, s, c, e) && !e.GetPrefix?
    ensures Step(r, s, c, e).book == s.book
  {
    hide PrefixManager.DoGet, TunIds.FirstFree, TunnelSession.Step, TunnelSession.Enabled;
  }

  lemma BookAfterGet(r: PrefixManager.Range, s: Server, c: Sid)
    requires r.Valid() && Enabled(r, s, c, GetPrefix)
    ensures c in s.conns && s.conns[c].Locked?
    ensures Step(r, s, c, GetPrefix).book == PrefixManager.DoGet(r, s.book, s.conns[c].id).0
  {
    hide PrefixManager.DoGet;
  }

  lemma PrefixesOnlyGrow(r: PrefixManager.Range, s: Server, c: Sid, e: Event)
    requires PrefixManager.BookInv(r, s.book) && Enabled(r, s, c, e)
    ensures var p, q := s.book.prefixes, Step(r, s, c, e).book.prefixes; forall a :: a in p ==> a in q && q[a] == p[a]
  {
    if e.GetPrefix? { BookAfterGet(r, s, c); } else { BookUnchanged(r, s, c, e); }
    hide Step, Enabled, PrefixManager.DoGet;
    if e.GetPrefix? { PrefixManager.Allocates(r, s.book, s.conns[c].id); }
  }

  lemma NamesUntouched(r: PrefixManager.Range, s: Server, c: Sid, e: Event, d: Sid)
    requires r.Valid() && Enabled(r, s, c, e) && NameFree(s, e) && d != c
    requires c in s.conns ==> HasName(s, c, s.conns[c])
    ensures var t := Step(r, s, c, e); forall n :: n in s.names && s.names[n] == d ==> n in t.names && t.names[n] == d
  {
    if e.GetName? { TunIds.NewNameIsFresh(s.names.Keys); }
    hide PrefixManager.DoGet, TunIds.FirstFree, TunnelSession.Step, SessionInv;
  }

  lemma UntouchedWhen(s: Server, t: Server, d: Sid, k: Conn)
    requires s.tableLock == Some(d) ==> t.tableLock == Some(d)
    requires forall a :: a in s.table ==> a in t.table && t.table[a] == s.table[a]
    requires forall m :: m in s.mutexes ==> m in t.mutexes && (s.mutexes[m] == Some(d) ==> t.mutexes[m] == Some(d))
    requires forall a :: a in s.book.prefixes ==> a in t.book.prefixes && t.book.prefixes[a] == s.book.prefixes[a]
    requires forall n :: n in s.names && s.names[n] == d ==> n in t.names && t.names[n] == d
    ensures Untouched(s, t, d, k)
  {
  }

  lemma OthersUntouched(r: PrefixManager.Range, s: Server, c: Sid, e: Event, d: Sid)
    requires ServerInv(r, s) && Enabled(r, s, c, e) && NameFree(s, e)
    requires d != c && d in s.conns
    ensures Untouched(s, Step(r, s, c, e), d, s.conns[d])
  {
    if c in s.conns { assert HasName(s, c, s.conns[c]) by { assert ConnOk(s, c, s.conns[c]); } }
    assert PrefixManager.BookInv(r, s.book) && r.Valid();
    hide *;
    LocksUntouched(r, s, c, e, d);
    TableOnlyGrows(r, s, c, e);
    PrefixesOnlyGrow(r, s, c, e);
    NamesUntouched(r, s, c, e, d);
    UntouchedWhen(s, Step(r, s, c, e), d, s.conns[d]);
  }

  lemma TableStaysOk(r: PrefixManager.Range, s: Server, c: Sid, e: Event)
    requires ServerInv(r, s) && Enabled(r, s, c, e)
    ensures TableOk(Step(r, s, c, e))
  {
    hide PrefixManager.DoGet, TunIds.FirstFree, TunnelSession.Step, SessionInv;
  }

  lemma BookStaysOk(r: PrefixManager.Range, s: Server, c: Sid, e: Event)
    requires PrefixManager.BookInv(r, s.book) && Enabled(r, s, c, e)
    ensures PrefixManager.BookInv(r, Step(r, s, c, e).book)
  {
    if e.GetPrefix? { BookAfterGet(r, s, c); } else { BookUnchanged(r, s, c, e); }
    hide Step, Enabled, PrefixManager.DoGet, PrefixManager.BookInv;
    if e.GetPrefix? { PrefixManager.GetKeeps(r, s.book, s.conns[c].id); }
  }

  predicate TableEvent(e: Event) {
    e.TakeTable? || e.LookUp? || e.LeaveTable? || e.TakeMutex? || e.ReleaseMutex?
  }

  lemma MoverInTable(r: PrefixManager.Range, s: Server, c: Sid, e: Event)
    requires r.Valid() && TableOk(s) && (c in s.conns ==> ConnOk(s, c, s.conns[c]))
    requires Enabled(r, s, c, e) && TableEvent(e)
    ensures var t := Step(r, s, c, e); ConnOk(t, c, t.conns[c])
  {
    if e.LookUp? {
      MoverLooksUp(r, s, c, e);
    } else {
      hide PrefixManager.DoGet, TunIds.FirstFree, TunnelSession.Step, TunnelSession.Enabled, SessionInv;
    }
  }

  lemma MoverLooksUp(r: PrefixManager.Range, s: Server, c: Sid, e: Event)
    requires r.Valid() && TableOk(s) && c in s.conns && ConnOk(s, c, s.conns[c])
    requires Enabled(r, s, c, e) && e.LookUp?
    ensures var t := Step(r, s, c, e); ConnOk(t, c, t.conns[c])
  {
    hide PrefixManager.DoGet, TunIds.FirstFree, TunnelSession.Step, TunnelSession.Enabled, SessionInv;
  }

  lemma InnerKeeps(r: PrefixManager.Range, s: Server, c: Sid, e: TunnelSession.Event)
    requires r.Valid() && c in s.conns && ConnOk(s, c, s.conns[c]) && Enabled(r, s, c, Inner(e))
    ensures var t := Step(r, s, c, Inner(e)); ConnOk(t, c, t.conns[c])
  {
    SessionStepKeeps(s.conns[c].session, e);
    hide PrefixManager.DoGet, TunIds.FirstFree;
  }

  lemma MoverInSession(r: PrefixManager.Range, s: Server, c: Sid, e: Event)
    requires r.Valid() && (c in s.conns ==> ConnOk(s, c, s.conns[c]))
    requires Enabled(r, s, c, e) && !TableEvent(e) && !e.GetPrefix?
    ensures var t := Step(r, s, c, e); ConnOk(t, c, t.conns[c])
  {
    if e.Inner? { InnerKeeps(r, s, c, e.e); }
    hide PrefixManager.DoGet, TunIds.FirstFree, TunnelSession.Step, TunnelSession.Enabled;
  }

  lemma MoverGetsPrefix(r: PrefixManager.Range, s: Server, c: Sid)
    requires PrefixManager.BookInv(r, s.book) && (c in s.conns ==> ConnOk(s, c, s.conns[c]))
    requires Enabled(r, s, c, GetPrefix)
    ensures var t := Step(r, s, c, GetPrefix); ConnOk(t, c, t.conns[c])
  {
  }

  lemma MoverStaysOk(r: PrefixManager.Range, s: Server, c: Sid, e: Event)
    requires ServerInv(r, s) && Enabled(r, s, c, e)
    ensures var t := Step(r, s, c, e); ConnOk(t, c, t.conns[c])
  {
    if c in s.conns { assert ConnOk(s, c, s.conns[c]); }
    if TableEvent(e) {
      MoverInTable(r, s, c, e);
    } else if e.GetPrefix? {
      MoverGetsPrefix(r, s, c);
    } else {
      MoverInSession(r, s, c, e);
    }
  }

  lemma TableOwnerStays(r: PrefixManager.Range, s: Server, c: Sid, e: Event)
    requires r.Valid() && OwnersOk(s) && Enabled(r, s, c, e)
    requires c in s.conns ==> ConnOk(s, c, s.conns[c])
    ensures var t := Step(r, s, c, e);
            t.tableLock.Some? ==> t.tableLock.value in t.conns && HoldsTable(t.conns[t.tableLock.value])
  {
    hide PrefixManager.DoGet, TunIds.FirstFree, TunnelSession.Step, SessionInv;
  }

  lemma MutexOwnerStays(r: PrefixManager.Range, s: Server, c: Sid, e: Event, m: Mutex)
    requires r.Valid() && OwnersOk(s) && Enabled(r, s, c, e)
    requires c in s.conns ==> ConnOk(s, c, s.conns[c])
    requires var t := Step(r, s, c, e); m in t.mutexes && t.mutexes[m].Some?
    ensures var t := Step(r, s, c, e); OwnsMutex(t, t.mutexes[m].value, m)
  {
    hide PrefixManager.DoGet, TunIds.FirstFree, TunnelSession.Step, SessionInv;
    if m in s.mutexes && s.mutexes[m].Some? { assert OwnsMutex(s, s.mutexes[m].value, m); }
  }

  lemma OldNameStays(r: PrefixManager.Range, s: Server, c: Sid, e: Event, n: int)
    requires r.Valid() && Enabled(r, s, c, e) && !e.GetName?
    requires n in s.names && OwnsName(s, s.names[n], n) && n in Step(r, s, c, e).names
    ensures var t := Step(r, s, c, e); OwnsName(t, t.names[n], n)
  {
    hide PrefixManager.DoGet, TunIds.FirstFree;
  }

  lemma NameOwnerStays(r: PrefixManager.Range, s: Server, c: Sid, e: Event, n: int)
    requires r.Valid() && OwnersOk(s) && Enabled(r, s, c, e) && NameFree(s, e)
    requires n in Step(r, s, c, e).names
    ensures var t := Step(r, s, c, e); OwnsName(t, t.names[n], n)
  {
    if n in s.names { assert OwnsName(s, s.names[n], n); }
    if e.GetName? {
      TunIds.NewNameIsFresh(s.names.Keys);
    } else {
      OldNameStays(r, s, c, e, n);
    }
    hide PrefixManager.DoGet, TunIds.FirstFree, TunnelSession.Step, TunnelSession.Enabled;
  }

  lemma OwnersStayOk(r: PrefixManager.Range, s: Server, c: Sid, e: Event)
    requires ServerInv(r, s) && Enabled(r, s, c, e) && NameFree(s, e)
    ensures OwnersOk(Step(r, s, c, e))
  {
    var t := Step(r, s, c, e);
    if c in s.conns { assert ConnOk(s, c, s.conns[c]); }
    TableOwnerStays(r, s, c, e);
    forall m | m in t.mutexes && t.mutexes[m].Some? ensures OwnsMutex(t, t.mutexes[m].value, m) {
      MutexOwnerStays(r, s, c, e, m);
    }
    forall n | n in t.names ensures OwnsName(t, t.names[n], n) {
      NameOwnerStays(r, s, c, e, n);
    }
  }

  lemma ServerStepKeeps(r: PrefixManager.Range, s: Server, c: Sid, e: Event)
    requires ServerInv(r, s) && Enabled(r, s, c, e) && NameFree(s, e)
    ensures ServerInv(r, Step(r, s, c, e))
  {
    var t := Step(r, s, c, e);
    TableStaysOk(r, s, c, e);
    BookStaysOk(r, s, c, e);
    OwnersStayOk(r, s, c, e);
    forall d | d in t.conns ensures ConnOk(t, d, t.conns[d]) {
      if d == c {
        MoverStaysOk(r, s, c, e);
      } else {
        assert t.conns[d] == s.conns[d];
        OthersUntouched(r, s, c, e, d);
        UntouchedStaysOk(s, t, d, s.conns[d]);
      }
    }
  }

  // ---- Runs

  datatype Action = Action(conn: Sid, event: Event)

  predicate Possible(r: PrefixManager.Range, s: Server, run: seq<Action>)
    requires r.Valid()
    decreases |run|
  {
    run == [] ||
    (Enabled(r, s, run[0].conn, run[0].event) && NameFree(s, run[0].event)
     && Possible(r, Step(r, s, run[0].conn, run[0].event), run[1..]))
  }

  function Run(r: PrefixManager.Range, s: Server, run: seq<Action>): Server
    requires r.Valid() && Possible(r, s, run)
    decreases |run|
  {
    if run == [] then s else Run(r, Step(r, s, run[0].conn, run[0].event), run[1..])
  }

  ghost predicate Reaches(r: PrefixManager.Range, s: Server, t: Server)
    requires r.Valid()
  {
    exists run :: Possible(r, s, run) && Run(r, s, run) == t
  }

  lemma {:induction false} RunThen(r: PrefixManager.Range, s: Server, run: seq<Action>, a: Action)
    requires r.Valid() && Possible(r, s, run)
    requires Enabled(r, Run(r, s, run), a.conn, a.event) && NameFree(Run(r, s, run), a.event)
    ensures Possible(r, s, run + [a])
    ensures Run(r, s, run + [a]) == Step(r, Run(r, s, run), a.conn, a.event)
    decreases |run|
  {
    hide Enabled, NameFree, Step;
    if run == [] {
      assert [a][1..] == [];
    } else {
      RunThen(r, Step(r, s, run[0].conn, run[0].event), run[1..], a);
      assert (run + [a])[1..] == run[1..] + [a];
    }
  }

  lemma ReachesThen(r: PrefixManager.Range, s: Server, t: Server, c: Sid, e: Event)
    requires ServerInv(r, t) && Reaches(r, s, t) && Enabled(r, t, c, e) && NameFree(t, e)
    ensures Reaches(r, s, Step(r, t, c, e)) && ServerInv(r, Step(r, t, c, e))
  {
    assert r.Valid();
    hide Enabled, NameFree, Step, ServerInv, Run, Possible;
    var run :| Possible(r, s, run) && Run(r, s, run) == t;
    RunThen(r, s, run, Action(c, e));
    ServerStepKeeps(r, t, c, e);
  }

  lemma {:induction false} ServerRunKeeps(r: PrefixManager.Range, s: Server, run: seq<Action>)
    requires ServerInv(r, s) && Possible(r, s, run)
    ensures ServerInv(r, Run(r, s, run))
    decreases |run|
  {
    if run != [] {
      ServerStepKeeps(r, s, run[0].conn, run[0].event);
      ServerRunKeeps(r, Step(r, s, run[0].conn, run[0].event), run[1..]);
    }
  }

  /** The server just started, with the assignments of a file. */
  predicate Started(s: Server) {
    s.conns == map[] && s.table == map[] && s.tableLock == None && s.mutexes == map[] && s.names == map[]
  }

  /** Over all interleavings of any number of connections: two different connections between lock and
      unlock are of different clients, with different prefixes if they have them, and with
      different TUN numbers while they hold them. */
  lemma SessionsIsolated(r: PrefixManager.Range, s: Server, run: seq<Action>, c: Sid, d: Sid)
    requires Started(s) && PrefixManager.BookInv(r, s.book) && Possible(r, s, run)
    requires var t := Run(r, s, run); c != d && c in t.conns && d in t.conns
    ensures var t := Run(r, s, run);
            var a, b := t.conns[c], t.conns[d];
            && (Holds(a) && Holds(b) ==> a.id != b.id)
            && (GotPrefix(a) && GotPrefix(b) ==> a.prefix != b.prefix)
            && (HoldsName(a) && HoldsName(b) ==> a.name != b.name)
            && !(HoldsTable(a) && HoldsTable(b))
  {
    ServerRunKeeps(r, s, run);
    var t := Run(r, s, run);
    assert ConnOk(t, c, t.conns[c]) && ConnOk(t, d, t.conns[d]);
  }

  /** A TUN name is released, and a client unlocked after a session, only when that session's TUN
      interface is closed and its goroutines have ended. */
  lemma ReleasedAfterClose(r: PrefixManager.Range, s: Server, run: seq<Action>, c: Sid, e: Event)
    requires Started(s) && PrefixManager.BookInv(r, s.book) && Possible(r, s, run)
    requires Enabled(r, Run(r, s, run), c, e)
    requires e == StartUnlock || e == Inner(HandlerUnsets)
    ensures var k := Run(r, s, run).conns[c];
            k.Running? && k.session.closed && k.session.tun.TunDone? && k.session.tcp.TcpDone?
  {
    ServerRunKeeps(r, s, run);
    var t := Run(r, s, run);
    if c in t.conns { assert ConnOk(t, c, t.conns[c]); }
    hide Run, Possible, ServerInv, Enabled, Started;
    ClosedAtRelease(r, t, c, e);
  }

  lemma ClosedAtRelease(r: PrefixManager.Range, s: Server, c: Sid, e: Event)
    requires r.Valid() && (c in s.conns ==> HasName(s, c, s.conns[c]))
    requires Enabled(r, s, c, e) && (e == StartUnlock || e == Inner(HandlerUnsets))
    ensures c in s.conns
    ensures var k := s.conns[c]; k.Running? && k.session.closed && k.session.tun.TunDone? && k.session.tcp.TcpDone?
  {
  }

  /** A connection waiting for its client's lock can take it exactly when no other connection of that
      client is between lock and unlock. */
  lemma LockFreeExactly(r: PrefixManager.Range, s: Server, run: seq<Action>, c: Sid)
    requires Started(s) && PrefixManager.BookInv(r, s.book) && Possible(r, s, run)
    requires var t := Run(r, s, run); c in t.conns && t.conns[c].Locking? && t.conns[c].at.Left?
    ensures var t := Run(r, s, run);
            Enabled(r, t, c, TakeMutex) <==>
            !exists d :: d in t.conns && Holds(t.conns[d]) && t.conns[d].id == t.conns[c].id
  {
    ServerRunKeeps(r, s, run);
    var t := Run(r, s, run);
    var m := t.conns[c].at.mutex;
    assert ConnOk(t, c, t.conns[c]);
    if t.mutexes[m].Some? {
      assert OwnsMutex(t, t.mutexes[m].value, m);
    } else {
      forall d | d in t.conns && Holds(t.conns[d]) ensures t.conns[d].id != t.conns[c].id {
        assert ConnOk(t, d, t.conns[d]);
      }
    }
  }

  /** The TUN numbers in use are exactly those of the sessions that have not ended. */
  lemma NamesInUseExactly(r: PrefixManager.Range, s: Server, run: seq<Action>)
    requires Started(s) && PrefixManager.BookInv(r, s.book) && Possible(r, s, run)
    ensures var t := Run(r, s, run);
            forall n :: n in t.names <==> exists c :: OwnsName(t, c, n)
  {
    ServerRunKeeps(r, s, run);
    var t := Run(r, s, run);
    forall n ensures n in t.names <==> exists c :: OwnsName(t, c, n) {
      if n in t.names { assert OwnsName(t, t.names[n], n); }
      forall c | OwnsName(t, c, n) ensures n in t.names { assert ConnOk(t, c, t.conns[c]); }
    }
  }

  lemma NumberZeroTwice(r: PrefixManager.Range, s: Server, c: Sid, d: Sid)
    requires r.Valid() && TunIds.Full(s.names.Keys) && Enabled(r, s, c, GetName)
    requires OwnsName(s, d, 0) && d != c
    ensures var t := Step(r, s, c, GetName);
            HoldsName(t.conns[c]) && t.conns[c].name == 0 && OwnsName(t, d, 0)
  {
  }

  /** With all sixteen names held, the next session gets the number 0 that another one holds. */
  lemma FullNamesCollide(r: PrefixManager.Range, s: Server, c: Sid)
    requires ServerInv(r, s) && TunIds.Full(s.names.Keys) && Enabled(r, s, c, GetName)
    ensures var t := Step(r, s, c, GetName);
            HoldsName(t.conns[c]) && t.conns[c].name == 0 && exists d :: d != c && OwnsName(t, d, 0)
  {
    assert 0 in s.names.Keys;
    var d := s.names[0];
    assert OwnsName(s, d, 0);
    hide Step, ServerInv;
    NumberZeroTwice(r, s, c, d);
  }
}
