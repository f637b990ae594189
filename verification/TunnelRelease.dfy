/** When a client whose connection is gone can be served again: its lock is given back, whatever
    the other connections are doing, exactly when its session is not stuck. */
module TunnelRelease {
  import opened Options
  import opened TunnelServer
  import PrefixManager
  import TunIds
  import TS = TunnelSession

  /** The disconnect has been noticed and the session is not stuck, or it has ended. */
  predicate Leaving(k: Conn) {
    k.Unlocking? || (k.Running? && TS.TearingDown(k.session) && !TS.Stuck(k.session))
  }

  /** How many steps of its own a leaving connection may still make. */
  function OwnSteps(k: Conn): nat {
    match k
    case Running(_, _, _, session) => 5 + TS.Left(session)
    case Unlocking(_, at) => (match at case Outside => 4 case Inside => 3 case LookedUp(_) => 2 case Left(_) => 1)
    case _ => 0
  }

  /** How many steps the holder of the table's lock makes before it gives it back. */
  function TableSteps(s: Server): nat {
    if s.tableLock == None || s.tableLock.value !in s.conns then 0
    else
      var k := s.conns[s.tableLock.value];
      if !HoldsTable(k) then 0 else if k.at.Inside? then 2 else 1
  }

  function Distance(s: Server, c: Sid): nat
    requires c in s.conns
  {
    var own := OwnSteps(s.conns[c]);
    3 * own + if own > 3 then TableSteps(s) else 0
  }

  /** The lock of a client that has been seen is free. */
  predicate Free(s: Server, id: Id) {
    id in s.table && s.table[id] in s.mutexes && s.mutexes[s.table[id]] == None
  }

  /** Connection `c` has come nearer to its end, or has ended and given its client's lock back. */
  predicate Nearer(s: Server, t: Server, c: Sid) {
    && c in s.conns && Leaving(s.conns[c]) && c in t.conns
    && ((t.conns[c].Over? && Free(t, s.conns[c].id))
        || (Leaving(t.conns[c]) && t.conns[c].id == s.conns[c].id && Distance(t, c) < Distance(s, c)))
  }

  /** A step of the holder of the table's lock. */
  lemma HolderStep(r: PrefixManager.Range, s: Server, c: Sid) returns (d: Sid, e: Event)
    requires ServerInv(r, s) && c in s.conns && Leaving(s.conns[c]) && OwnSteps(s.conns[c]) == 4
    requires s.tableLock != None
    ensures d == s.tableLock.value && Enabled(r, s, d, e) && NameFree(s, e) && Nearer(s, Step(r, s, d, e), c)
  {
    hide PrefixManager.DoGet, PrefixManager.BookInv, TS.Step, TS.SessionInv, TS.Left;
    d := s.tableLock.value;
    var k := s.conns[d];
    if k.at.Inside? {
      var addr := Unused(s.mutexes.Keys);
      assert ConnOk(s, d, k);
      e := LookUp(addr);
    } else {
      e := LeaveTable;
    }
  }

  lemma {:induction false} Unused(keys: set<nat>) returns (n: nat)
    ensures forall k :: k in keys ==> k < n
    decreases |keys|
  {
    if keys == {} {
      n := 0;
    } else {
      var k :| k in keys;
      n := Unused(keys - {k});
      if n <= k { n := k + 1; }
      assert keys == (keys - {k}) + {k};
    }
  }

  /** A step of its own on the way out of unlockClient. */
  lemma UnlockStep(r: PrefixManager.Range, s: Server, c: Sid) returns (e: Event)
    requires ServerInv(r, s) && c in s.conns && s.conns[c].Unlocking?
    requires s.conns[c].at.Outside? ==> s.tableLock == None
    ensures Enabled(r, s, c, e) && NameFree(s, e) && Nearer(s, Step(r, s, c, e), c)
  {
    hide PrefixManager.DoGet, PrefixManager.BookInv, TS.Step, TS.SessionInv, TS.Left;
    var k := s.conns[c];
    assert ConnOk(s, c, k);
    e := if k.at.Outside? then TakeTable else if k.at.Inside? then LookUp(0)
         else if k.at.LookedUp? then LeaveTable else ReleaseMutex;
  }

  /** A step of the session's teardown. */
  lemma TeardownNearer(r: PrefixManager.Range, s: Server, c: Sid, e: TS.Event)
    requires r.Valid() && c in s.conns && s.conns[c].Running? && Leaving(s.conns[c])
    requires TS.Enabled(s.conns[c].session, e)
    requires var t := TS.Step(s.conns[c].session, e);
             TS.TearingDown(t) && !TS.Stuck(t) && TS.Left(t) < TS.Left(s.conns[c].session)
    ensures Enabled(r, s, c, Inner(e)) && Nearer(s, Step(r, s, c, Inner(e)), c)
  {
    hide PrefixManager.DoGet, TS.Step, TS.Enabled, TS.Stuck, TS.TearingDown, TS.Left;
  }

  lemma SessionStep(r: PrefixManager.Range, s: Server, c: Sid) returns (e: Event)
    requires ServerInv(r, s) && c in s.conns && s.conns[c].Running? && Leaving(s.conns[c])
    ensures Enabled(r, s, c, e) && NameFree(s, e) && Nearer(s, Step(r, s, c, e), c)
  {
    var k := s.conns[c];
    assert ConnOk(s, c, k);
    hide PrefixManager.DoGet, PrefixManager.BookInv, TS.Step, TS.Enabled, TS.Left;
    if k.session.handler.Finished? {
      e := StartUnlock;
    } else {
      var inner := TS.TeardownStep(k.session);
      hide Step, Enabled, Nearer, ServerInv;
      TeardownNearer(r, s, c, inner);
      e := Inner(inner);
    }
  }

  lemma NextStep(r: PrefixManager.Range, s: Server, c: Sid) returns (d: Sid, e: Event)
    requires ServerInv(r, s) && c in s.conns && Leaving(s.conns[c])
    ensures Enabled(r, s, d, e) && NameFree(s, e) && Nearer(s, Step(r, s, d, e), c)
  {
    var k := s.conns[c];
    if k.Unlocking? && k.at.Outside? && s.tableLock != None {
      d, e := HolderStep(r, s, c);
    } else {
      d := c;
      if k.Unlocking? { e := UnlockStep(r, s, c); } else { e := SessionStep(r, s, c); }
    }
  }

  predicate Ends(r: PrefixManager.Range, s: Server, c: Sid, run: seq<Action>)
    requires r.Valid()
  {
    && c in s.conns && Possible(r, s, run)
    && var t := Run(r, s, run);
       c in t.conns && t.conns[c].Over? && (s.conns[c].Running? || s.conns[c].Unlocking? ==> Free(t, s.conns[c].id))
  }

  /** From wherever the other connections are, a leaving connection can come to its end. */
  lemma CanRelease(r: PrefixManager.Range, s: Server, c: Sid) returns (run: seq<Action>)
    requires ServerInv(r, s) && c in s.conns && Leaving(s.conns[c])
    ensures Ends(r, s, c, run)
    decreases Distance(s, c)
  {
    var d, e := NextStep(r, s, c);
    var t := Step(r, s, d, e);
    ServerStepKeeps(r, s, d, e);
    assert r.Valid();
    hide Step, Enabled, NameFree, ServerInv, Free, Distance;
    var rest := [];
    if !t.conns[c].Over? { rest := CanRelease(r, t, c); }
    assert Possible(r, t, rest) && Run(r, t, rest).conns[c].Over?;
    run := [Action(d, e)] + rest;
    assert run[1..] == rest;
  }

  predicate StuckAt(s: Server, c: Sid, id: Id) {
    c in s.conns && s.conns[c].Running? && s.conns[c].id == id && TS.Stuck(s.conns[c].session)
  }

  lemma OthersConnStays(r: PrefixManager.Range, s: Server, c: Sid, d: Sid, e: Event)
    requires r.Valid() && c in s.conns && d != c && Enabled(r, s, d, e)
    ensures var t := Step(r, s, d, e); c in t.conns && t.conns[c] == s.conns[c]
  {
    hide PrefixManager.DoGet, TunIds.FirstFree, TS.Step, TS.Enabled;
  }

  lemma StuckOwnStep(r: PrefixManager.Range, s: Server, c: Sid, id: Id, e: Event)
    requires ServerInv(r, s) && StuckAt(s, c, id) && Enabled(r, s, c, e)
    ensures StuckAt(Step(r, s, c, e), c, id)
  {
    assert TS.SessionInv(s.conns[c].session) by { assert ConnOk(s, c, s.conns[c]); }
    StuckHasInnerSteps(r, s, c, e);
    hide Step, ServerInv, TS.Step, TS.SessionInv;
    TS.StuckStep(s.conns[c].session, e.e);
    InnerOwnStep(r, s, c, e.e);
  }

  lemma StuckHasInnerSteps(r: PrefixManager.Range, s: Server, c: Sid, e: Event)
    requires r.Valid() && c in s.conns && s.conns[c].Running? && Enabled(r, s, c, e)
    requires TS.SessionInv(s.conns[c].session) && TS.Stuck(s.conns[c].session)
    ensures e.Inner? && TS.Enabled(s.conns[c].session, e.e)
  {
    hide TS.Enabled;
  }

  lemma StuckStep(r: PrefixManager.Range, s: Server, c: Sid, id: Id, d: Sid, e: Event)
    requires ServerInv(r, s) && StuckAt(s, c, id) && Enabled(r, s, d, e)
    ensures StuckAt(Step(r, s, d, e), c, id)
  {
    if d == c { StuckOwnStep(r, s, c, id, e); } else { OthersConnStays(r, s, c, d, e); }
    hide Step, Enabled, ServerInv;
  }

  /** A stuck session keeps its client's lock for good, and no other connection of that client gets it. */
  lemma {:induction false} StuckKeepsLock(r: PrefixManager.Range, s: Server, c: Sid, id: Id, run: seq<Action>)
    requires ServerInv(r, s) && StuckAt(s, c, id) && Possible(r, s, run)
    ensures var t := Run(r, s, run);
            StuckAt(t, c, id) && id in t.table && t.table[id] in t.mutexes && t.mutexes[t.table[id]] == Some(c)
    decreases |run|
  {
    if run == [] {
      assert ConnOk(s, c, s.conns[c]);
    } else {
      StuckStep(r, s, c, id, run[0].conn, run[0].event);
      ServerStepKeeps(r, s, run[0].conn, run[0].event);
      hide Step, Enabled, NameFree, ServerInv, StuckAt;
      StuckKeepsLock(r, Step(r, s, run[0].conn, run[0].event), c, id, run[1..]);
    }
  }

  /** After the disconnect has been noticed, a session can end and its client's lock come free again
      exactly when it is not stuck. */
  lemma ReleasableExactly(r: PrefixManager.Range, s: Server, c: Sid)
    requires ServerInv(r, s) && c in s.conns && s.conns[c].Running? && TS.TearingDown(s.conns[c].session)
    ensures (exists run :: Ends(r, s, c, run)) <==> !TS.Stuck(s.conns[c].session)
  {
    var id := s.conns[c].id;
    if TS.Stuck(s.conns[c].session) {
      forall run | Possible(r, s, run) ensures !Ends(r, s, c, run) { StuckKeepsLock(r, s, c, id, run); }
    } else {
      var run := CanRelease(r, s, c);
    }
  }

  // ---- A client that is gone early

  /** A connection stays its client's from its identification to its end, keeps the prefix it was given and, while it
      holds one, its number; and its steps change no other connection. */
  lemma StaysItself(r: PrefixManager.Range, s: Server, c: Sid, e: Event)
    requires r.Valid() && c in s.conns && Enabled(r, s, c, e)
    ensures var k, l := s.conns[c], Step(r, s, c, e).conns[c];
            && (k.Greeting? ==> l == if e.Identify? then Locking(e.id, Outside) else Over)
            && (!k.Greeting? && !l.Over? ==> l.id == k.id)
            && (GotPrefix(k) && GotPrefix(l) ==> l.prefix == k.prefix)
            && (HoldsName(k) && HoldsName(l) ==> l.name == k.name)
            && (l.Over? ==> k.Greeting? || k.Unlocking?)
    ensures forall d :: d != c && d in s.conns ==> Step(r, s, c, e).conns[d] == s.conns[d]
  {
    hide PrefixManager.DoGet, TunIds.FirstFree, TS.Step, TS.Enabled;
  }

  /** A client gone before it identified itself leaves nothing behind. */
  lemma UnknownLeavesNothing(r: PrefixManager.Range, s: Server, c: Sid)
    requires r.Valid() && Enabled(r, s, c, Disconnect)
    ensures Step(r, s, c, Disconnect) == s.(conns := s.conns[c := Over])
  {
  }

  /** One that cannot be sent its prefix gets no name, keeps its assignment, and its lock can come free. */
  lemma UnsentReleases(r: PrefixManager.Range, s: Server, c: Sid) returns (run: seq<Action>)
    requires ServerInv(r, s) && Enabled(r, s, c, SendPrefix(false))
    ensures var t := Step(r, s, c, SendPrefix(false));
            && t.conns[c] == Unlocking(s.conns[c].id, Outside) && t.names == s.names && t.book == s.book
            && Ends(r, t, c, run) && Free(Run(r, t, run), s.conns[c].id)
  {
    ServerStepKeeps(r, s, c, SendPrefix(false));
    run := CanRelease(r, Step(r, s, c, SendPrefix(false)), c);
  }

  // ---- The end comes in every run

  /** The quit is in the channel of a session that is not stuck, or the session has ended. */
  predicate GoingOut(k: Conn) {
    k.Unlocking? || (k.Running? && TS.QuitPut(k.session) && !TS.Stuck(k.session))
  }

  /** How many steps of a run are those of one connection. */
  function Own(run: seq<Action>, c: Sid): nat {
    if run == [] then 0 else (if run[0].conn == c then 1 else 0) + Own(run[1..], c)
  }

  lemma OwnStep(r: PrefixManager.Range, s: Server, c: Sid, e: Event)
    requires ServerInv(r, s) && c in s.conns && GoingOut(s.conns[c]) && Enabled(r, s, c, e)
    ensures var t := Step(r, s, c, e);
            && c in t.conns && (t.conns[c].Over? || GoingOut(t.conns[c]))
            && OwnSteps(t.conns[c]) < OwnSteps(s.conns[c])
  {
    assert ConnOk(s, c, s.conns[c]);
    if e.Inner? {
      TS.EveryStepNearer(s.conns[c].session, e.e);
      InnerOwnStep(r, s, c, e.e);
    }
    hide PrefixManager.DoGet, PrefixManager.BookInv, TunIds.FirstFree, ServerInv;
    hide TS.Step, TS.Enabled, TS.Left, TS.Stuck;
  }

  lemma InnerOwnStep(r: PrefixManager.Range, s: Server, c: Sid, e: TS.Event)
    requires r.Valid() && c in s.conns && s.conns[c].Running? && Enabled(r, s, c, Inner(e))
    ensures var t := Step(r, s, c, Inner(e));
            c in t.conns && t.conns[c] == s.conns[c].(session := TS.Step(s.conns[c].session, e))
  {
    hide TS.Step, TS.Enabled;
  }

  lemma OverIsOver(r: PrefixManager.Range, s: Server, c: Sid, e: Event)
    requires r.Valid() && c in s.conns && s.conns[c].Over?
    ensures !Enabled(r, s, c, e)
  {
  }

  /** In every run a connection on its way out makes at most `OwnSteps` steps of its own, and stays on it
      until it is over. */
  lemma {:induction false} OwnStepsBounded(r: PrefixManager.Range, s: Server, c: Sid, run: seq<Action>)
    requires ServerInv(r, s) && Possible(r, s, run)
    requires c in s.conns && (s.conns[c].Over? || GoingOut(s.conns[c]))
    ensures var t := Run(r, s, run);
            && ServerInv(r, t) && c in t.conns && (t.conns[c].Over? || GoingOut(t.conns[c]))
            && Own(run, c) + OwnSteps(t.conns[c]) <= OwnSteps(s.conns[c])
    decreases |run|
  {
    if run != [] {
      var d, e := run[0].conn, run[0].event;
      ServerStepKeeps(r, s, d, e);
      if d != c {
        OthersConnStays(r, s, c, d, e);
      } else if s.conns[c].Over? {
        OverIsOver(r, s, c, e);
      } else {
        OwnStep(r, s, c, e);
      }
      hide Step, Enabled, NameFree, ServerInv, GoingOut, OwnSteps;
      OwnStepsBounded(r, Step(r, s, d, e), c, run[1..]);
    }
  }

  /** Nothing but the table's lock in other hands can hold it up, and their holder can always go on. */
  lemma OnlyTheTableWaits(r: PrefixManager.Range, s: Server, c: Sid) returns (d: Sid, e: Event)
    requires ServerInv(r, s) && c in s.conns && GoingOut(s.conns[c])
    ensures Enabled(r, s, d, e) && NameFree(s, e)
    ensures d == c || (s.conns[c] == Unlocking(s.conns[c].id, Outside) && s.tableLock == Some(d))
  {
    var k := s.conns[c];
    if k.Unlocking? && k.at.Outside? && s.tableLock != None {
      d, e := HolderStep(r, s, c);
    } else {
      d := c;
      if k.Unlocking? { e := UnlockStep(r, s, c); } else { e := SessionStep(r, s, c); }
    }
  }

  predicate FreeAfter(r: PrefixManager.Range, s: Server, run: seq<Action>, i: nat)
    requires r.Valid()
  {
    i <= |run| && Possible(r, s, run[..i]) && Run(r, s, run[..i]).tableLock == None
  }

  lemma FreeNow(r: PrefixManager.Range, s: Server, run: seq<Action>)
    requires r.Valid() && s.tableLock == None
    ensures FreeAfter(r, s, run, 0)
  {
    assert run[..0] == [];
  }

  lemma FreeLater(r: PrefixManager.Range, s: Server, run: seq<Action>, i: nat)
    requires r.Valid() && run != [] && Possible(r, s, run)
    requires FreeAfter(r, Step(r, s, run[0].conn, run[0].event), run[1..], i)
    ensures FreeAfter(r, s, run, i + 1)
  {
    assert Enabled(r, s, run[0].conn, run[0].event) && NameFree(s, run[0].event);
    hide Enabled, NameFree, Step;
    var start := run[..i + 1];
    assert start[1..] == run[1..][..i] && start[0] == run[0];
  }

  lemma TableStep(r: PrefixManager.Range, s: Server, h: Sid, d: Sid, e: Event)
    requires ServerInv(r, s) && s.tableLock == Some(h) && Enabled(r, s, d, e)
    ensures var t := Step(r, s, d, e);
            if d != h then t.tableLock == Some(h) && TableSteps(t) == TableSteps(s)
            else t.tableLock == None || (t.tableLock == Some(h) && TableSteps(t) < TableSteps(s))
  {
    if d != h {
      LocksUntouched(r, s, d, e, h);
      OthersConnStays(r, s, h, d, e);
      hide Step, Enabled, ServerInv;
    } else {
      HolderSteps(r, s, h, e);
    }
  }

  lemma HolderSteps(r: PrefixManager.Range, s: Server, h: Sid, e: Event)
    requires ServerInv(r, s) && s.tableLock == Some(h) && Enabled(r, s, h, e)
    ensures var t := Step(r, s, h, e);
            t.tableLock == None || (t.tableLock == Some(h) && TableSteps(t) < TableSteps(s))
  {
    assert h in s.conns && HoldsTable(s.conns[h]);
    hide PrefixManager.DoGet, PrefixManager.BookInv, TunIds.FirstFree, TS.Step, TS.Enabled, ServerInv;
  }

  /** The holder of the table's lock gives it back within its next two steps, in every run. */
  lemma {:induction false} TableComesFree(r: PrefixManager.Range, s: Server, h: Sid, run: seq<Action>)
    requires ServerInv(r, s) && Possible(r, s, run) && s.tableLock == Some(h) && Own(run, h) >= TableSteps(s)
    ensures TableSteps(s) <= 2 && exists i :: FreeAfter(r, s, run, i)
    decreases |run|
  {
    assert h in s.conns && HoldsTable(s.conns[h]) && r.Valid();
    if run != [] {
      var d, e := run[0].conn, run[0].event;
      ServerStepKeeps(r, s, d, e);
      TableStep(r, s, h, d, e);
      var t := Step(r, s, d, e);
      hide Step, Enabled, NameFree, ServerInv, TableSteps, FreeAfter;
      var i: nat := 0;
      if t.tableLock == None {
        FreeNow(r, t, run[1..]);
      } else {
        TableComesFree(r, t, h, run[1..]);
        i :| FreeAfter(r, t, run[1..], i);
      }
      FreeLater(r, s, run, i);
    }
  }
}
