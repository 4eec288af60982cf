/** The life of an accepted connection. Its user object is owned by the descriptor table, by the list the monitor
    thread works through, by the threads that happen to use it, and by whoever else keeps it; the last owner to
    let go destroys it, and only then is the descriptor's number free to be handed out again. */
module Lifecycle {
  import opened Tally

  type Fd = nat
  type User = nat

  /** Where the I/O thread is. */
  datatype Io =
    | Ready
    | Accepted(fd: Fd)
    | Created(u: User)     // initialised and monitored, in no table yet
    | Mapped(u: User)      // in the descriptor table, not yet in the list
    | Using(u: User)

  /** Where the monitor thread is. */
  datatype Mon = Free | Popped(u: User) | Checked(u: User)

  datatype Server = Server(
    maxConnections: nat,
    next: User,
    fdOf: map<User, Fd>,
    open: set<Fd>,             // descriptors the system has given out
    fd2user: map<Fd, User>,
    users: seq<User>,          // the monitor's list
    closed: set<User>,
    dead: set<User>,           // destroyed
    kept: set<User>,           // owned by someone else
    io: Io,
    mon: Mon,
    notified: seq<User>)       // every onDisconnect

  function Start(maxConnections: nat): Server {
    Server(maxConnections, 0, map[], {}, map[], [], {}, {}, {}, Ready, Free, [])
  }

  datatype Event =
    | Accept(fd: Fd) | Refuse | Create | InsertMap | PushList | FindUser(fd: Fd) | IoDone
    | CloseFd(fd: Fd)                                // an I/O error
    | MonPop | MonExpire(expired: bool) | MonFinish
    | Keep(u: User) | LetGo(u: User) | Destroy(u: User)

  // ---- steps ------------------------------------------------------------------------------------

  /** `closeUser`: whoever the table has under that number. */
  function CloseUser(s: Server, fd: Fd): Server {
    if fd in s.fd2user && s.fd2user[fd] !in s.closed
    then s.(closed := s.closed + {s.fd2user[fd]}, fd2user := s.fd2user - {fd})
    else s
  }

  function StepIo(s: Server, e: Event): Server {
    match e
    case Accept(fd) => if s.io == Ready && fd !in s.open then s.(io := Accepted(fd), open := s.open + {fd}) else s
    case Refuse => if s.io.Accepted? then s.(io := Ready, open := s.open - {s.io.fd}) else s
    case Create =>
      if s.io.Accepted? && |s.fd2user| < s.maxConnections
      then s.(io := Created(s.next), next := s.next + 1, fdOf := s.fdOf[s.next := s.io.fd]) else s
    case InsertMap =>
      if s.io.Created? && s.io.u in s.fdOf
          then s.(io := Mapped(s.io.u), fd2user := s.fd2user[s.fdOf[s.io.u] := s.io.u]) else s
    case PushList => if s.io.Mapped? then s.(io := Using(s.io.u), users := s.users + [s.io.u]) else s
    case FindUser(fd) => if s.io == Ready && fd in s.fd2user then s.(io := Using(s.fd2user[fd])) else s
    case IoDone => if s.io.Using? then s.(io := Ready) else s
    case _ => s
  }

  function StepMon(s: Server, e: Event): Server {
    match e
    case MonPop => if s.mon == Free && s.users != [] then s.(mon := Popped(s.users[0]), users := s.users[1..]) else s
    case MonExpire(expired) =>
      if s.mon.Popped? && s.mon.u in s.fdOf
      then (if expired then CloseUser(s, s.fdOf[s.mon.u]) else s).(mon := Checked(s.mon.u)) else s
    case MonFinish =>
      if !s.mon.Checked? then s
      else if s.mon.u in s.closed then s.(mon := Free, notified := s.notified + [s.mon.u])
      else s.(mon := Free, users := s.users + [s.mon.u])
    case _ => s
  }

  predicate HeldByIo(s: Server, u: User) { !s.io.Ready? && !s.io.Accepted? && s.io.u == u }
  predicate HeldByMon(s: Server, u: User) { !s.mon.Free? && s.mon.u == u }

  predicate Unowned(s: Server, u: User) {
    u !in s.fd2user.Values && u !in s.users && !HeldByIo(s, u) && !HeldByMon(s, u) && u !in s.kept
  }

  function StepOwner(s: Server, e: Event): Server {
    match e
    case Keep(u) => if u in s.fdOf && u !in s.dead then s.(kept := s.kept + {u}) else s
    case LetGo(u) => s.(kept := s.kept - {u})
    case Destroy(u) =>
      if u in s.fdOf && u !in s.dead && Unowned(s, u) then s.(dead := s.dead + {u}, open := s.open - {s.fdOf[u]}) else s
    case _ => s
  }

  function Step(s: Server, e: Event): Server {
    match e
    case CloseFd(fd) => CloseUser(s, fd)
    case MonPop | MonExpire(_) | MonFinish => StepMon(s, e)
    case Keep(_) | LetGo(_) | Destroy(_) => StepOwner(s, e)
    case _ => StepIo(s, e)
  }

  function Run(s: Server, es: seq<Event>): Server
    decreases |es|
  {
    if es == [] then s else Run(Step(s, es[0]), es[1..])
  }

  // ---- invariants -------------------------------------------------------------------------------

  function Times(xs: seq<User>, u: User): nat {
    if xs == [] then 0 else One(xs[0] == u) + Times(xs[1..], u)
  }

  lemma {:induction false} TimesSnoc(xs: seq<User>, x: User, u: User)
    ensures Times(xs + [x], u) == Times(xs, u) + One(x == u)
  {
    if xs == [] {
      assert xs + [x] == [x] && [x][1..] == [];
    } else {
      assert (xs + [x])[1..] == xs[1..] + [x];
      TimesSnoc(xs[1..], x, u);
    }
  }

  lemma {:induction false} TimesIn(xs: seq<User>, u: User)
    ensures Times(xs, u) > 0 <==> u in xs
  {
    if xs != [] {
      TimesIn(xs[1..], u);
      assert u in xs <==> u == xs[0] || u in xs[1..];
    }
  }

  /** Where the duty to tell user `u` of its disconnection is: with the thread creating it, in the list, with the
      monitor, or done. */
  function Duty(s: Server, u: User): nat {
    One(s.io == Created(u) || s.io == Mapped(u)) + Times(s.users, u) + One(HeldByMon(s, u)) + Times(s.notified, u)
  }

  predicate OneDuty(s: Server, u: User) {
    && Duty(s, u) == One(u < s.next)
    && (u in s.fdOf <==> u < s.next)
    && (Times(s.notified, u) > 0 ==> u in s.closed)
    && (u in s.dead ==> Times(s.notified, u) == 1)
    && (HeldByIo(s, u) ==> u < s.next && u !in s.dead)
    && (u in s.closed || u in s.kept || u in s.dead ==> u < s.next)
    && (u in s.kept ==> u !in s.dead)
  }

  predicate Alive(s: Server, u: User) { u in s.fdOf && u !in s.dead }

  /** A live user's descriptor is open and its own. */
  ghost predicate OwnFd(s: Server) {
    && (forall u :: Alive(s, u) ==> s.fdOf[u] in s.open)
    && (forall u, v :: Alive(s, u) && Alive(s, v) && s.fdOf[u] == s.fdOf[v] ==> u == v)
    && (s.io.Accepted? ==> s.io.fd in s.open && forall u :: Alive(s, u) ==> s.fdOf[u] != s.io.fd)
  }

  /** The table holds exactly the users that are set up and not closed, each under its own number. */
  ghost predicate Tabled(s: Server) {
    && (forall fd :: fd in s.fd2user ==>
          && Alive(s, s.fd2user[fd]) && s.fdOf[s.fd2user[fd]] == fd
          && s.fd2user[fd] !in s.closed && s.io != Created(s.fd2user[fd]))
    && (forall u :: Alive(s, u) && u !in s.closed && s.io != Created(u) ==>
          s.fdOf[u] in s.fd2user && s.fd2user[s.fdOf[u]] == u)
    && (s.io.Created? ==> s.io.u !in s.closed)
  }

  /** Only the I/O thread adds to the table, so the limit it checked still holds when it does. */
  predicate Limited(s: Server) {
    |s.fd2user| <= s.maxConnections && (s.io.Created? ==> |s.fd2user| < s.maxConnections)
  }

  ghost predicate Inv(s: Server) {
    (forall u :: OneDuty(s, u)) && OwnFd(s) && Tabled(s) && Limited(s)
  }

  lemma LimitedClose(s: Server, fd: Fd)
    requires Limited(s)
    ensures Limited(CloseUser(s, fd))
  {
    assert (s.fd2user - {fd}).Keys == s.fd2user.Keys - {fd};
  }

  lemma LimitedInsert(s: Server)
    requires Limited(s)
    ensures Limited(StepIo(s, InsertMap))
  {
    if s.io.Created? && s.io.u in s.fdOf {
      assert s.fd2user[s.fdOf[s.io.u] := s.io.u].Keys == s.fd2user.Keys + {s.fdOf[s.io.u]};
    }
  }

  lemma LimitedMon(s: Server, e: Event)
    requires Limited(s)
    ensures Limited(StepMon(s, e))
  {
    if e.MonExpire? && s.mon.Popped? && s.mon.u in s.fdOf {
      LimitedClose(s, s.fdOf[s.mon.u]);
    }
  }

  lemma LimitedStep(s: Server, e: Event)
    requires Limited(s)
    ensures Limited(Step(s, e))
  {
    match e
    case CloseFd(fd) => LimitedClose(s, fd);
    case MonPop | MonExpire(_) | MonFinish => LimitedMon(s, e);
    case InsertMap => LimitedInsert(s);
    case _ =>
  }

  lemma SameLimit(s: Server, e: Event)
    ensures Step(s, e).maxConnections == s.maxConnections
  {
  }

  lemma DutyIo(s: Server, e: Event, u: User)
    requires OneDuty(s, u) && Tabled(s)
    ensures OneDuty(StepIo(s, e), u)
  {
    if e.PushList? && s.io.Mapped? {
      TimesSnoc(s.users, s.io.u, u);
    }
  }

  lemma DutyMon(s: Server, e: Event, u: User)
    requires OneDuty(s, u) && Tabled(s)
    ensures OneDuty(StepMon(s, e), u)
  {
    if e.MonFinish? && s.mon.Checked? {
      TimesSnoc(s.users, s.mon.u, u);
      TimesSnoc(s.notified, s.mon.u, u);
    }
  }

  lemma DutyOwner(s: Server, e: Event, u: User)
    requires OneDuty(s, u)
    ensures OneDuty(StepOwner(s, e), u)
  {
    TimesIn(s.users, u);
  }

  lemma DutyStep(s: Server, e: Event, u: User)
    requires OneDuty(s, u) && Tabled(s)
    ensures OneDuty(Step(s, e), u)
  {
    match e
    case CloseFd(fd) =>
    case MonPop | MonExpire(_) | MonFinish => DutyMon(s, e, u);
    case Keep(_) | LetGo(_) | Destroy(_) => DutyOwner(s, e, u);
    case _ => DutyIo(s, e, u);
  }

  /** The parts of the state the table and the descriptors depend on. */
  predicate SameTables(s: Server, t: Server) {
    && t.next == s.next && t.fdOf == s.fdOf && t.open == s.open && t.fd2user == s.fd2user
    && t.closed == s.closed && t.dead == s.dead
    && (t.io == s.io || (!t.io.Accepted? && !t.io.Created? && !s.io.Created?))
  }

  lemma TablesSame(s: Server, t: Server)
    requires OwnFd(s) && Tabled(s) && SameTables(s, t)
    ensures OwnFd(t) && Tabled(t)
  {
  }

  lemma TablesClose(s: Server, fd: Fd)
    requires OwnFd(s) && Tabled(s)
    ensures OwnFd(CloseUser(s, fd)) && Tabled(CloseUser(s, fd))
  {
  }

  lemma TablesAccept(s: Server, fd: Fd)
    requires OwnFd(s) && Tabled(s)
    ensures OwnFd(StepIo(s, Accept(fd))) && Tabled(StepIo(s, Accept(fd)))
    ensures OwnFd(StepIo(s, Refuse)) && Tabled(StepIo(s, Refuse))
  {
  }

  lemma TablesIo(s: Server, e: Event)
    requires Inv(s)
    ensures OwnFd(StepIo(s, e)) && Tabled(StepIo(s, e))
  {
    assert OneDuty(s, s.next);
    match e
    case Accept(fd) => TablesAccept(s, fd);
    case Refuse => TablesAccept(s, 0);
    case Create => TablesCreate(s);
    case InsertMap => TablesInsert(s);
    case _ => TablesSame(s, StepIo(s, e));
  }

  lemma TablesCreate(s: Server)
    requires OwnFd(s) && Tabled(s) && OneDuty(s, s.next)
    ensures OwnFd(StepIo(s, Create)) && Tabled(StepIo(s, Create))
  {
    if s.io.Accepted? && |s.fd2user| < s.maxConnections {
      var t := StepIo(s, Create);
      forall u | Alive(t, u) && u != s.next
        ensures Alive(s, u) && t.fdOf[u] == s.fdOf[u]
      {
      }
    }
  }

  lemma TablesInsert(s: Server)
    requires Inv(s)
    ensures OwnFd(StepIo(s, InsertMap)) && Tabled(StepIo(s, InsertMap))
  {
    if s.io.Created? {
      assert OneDuty(s, s.io.u);
      assert Alive(s, s.io.u);
    }
  }

  lemma TablesOwner(s: Server, e: Event)
    requires OwnFd(s) && Tabled(s)
    ensures OwnFd(StepOwner(s, e)) && Tabled(StepOwner(s, e))
  {
    if e.Destroy? && Alive(s, e.u) && Unowned(s, e.u) {
      var t := StepOwner(s, e);
      forall fd | fd in t.fd2user
        ensures Alive(t, t.fd2user[fd])
      {
        assert s.fd2user[fd] in s.fd2user.Values;
      }
    }
  }

  lemma TablesMon(s: Server, e: Event)
    requires OwnFd(s) && Tabled(s)
    ensures OwnFd(StepMon(s, e)) && Tabled(StepMon(s, e))
  {
    if e.MonExpire? && s.mon.Popped? && s.mon.u in s.fdOf && e.expired {
      var t := CloseUser(s, s.fdOf[s.mon.u]);
      TablesClose(s, s.fdOf[s.mon.u]);
      TablesSame(t, StepMon(s, e));
    } else {
      TablesSame(s, StepMon(s, e));
    }
  }

  lemma StepKeepsInv(s: Server, e: Event)
    requires Inv(s)
    ensures Inv(Step(s, e))
  {
    forall u
      ensures OneDuty(Step(s, e), u)
    {
      DutyStep(s, e, u);
    }
    LimitedStep(s, e);
    match e
    case CloseFd(fd) => TablesClose(s, fd);
    case MonPop | MonExpire(_) | MonFinish => TablesMon(s, e);
    case Keep(_) | LetGo(_) | Destroy(_) => TablesOwner(s, e);
    case _ => TablesIo(s, e);
  }

  lemma {:induction false} RunKeepsInv(s: Server, es: seq<Event>)
    requires Inv(s)
    ensures Inv(Run(s, es)) && Run(s, es).maxConnections == s.maxConnections
    decreases |es|
  {
    if es != [] {
      StepKeepsInv(s, es[0]);
      SameLimit(s, es[0]);
      RunKeepsInv(Step(s, es[0]), es[1..]);
    }
  }

  lemma StartInv(max: nat)
    ensures Inv(Start(max))
  {
    assert forall u :: OneDuty(Start(max), u);
  }

  // ---- what follows for every run ---------------------------------------------------------------

  /** Each user is told of its disconnection at most once; until then it is in exactly one place on the way
      there, and it is not destroyed before. */
  lemma NotifiedOnce(max: nat, es: seq<Event>, u: User)
    ensures var s := Run(Start(max), es);
            && Times(s.notified, u) <= 1
            && (u < s.next && Times(s.notified, u) == 0 ==>
                  One(s.io == Created(u) || s.io == Mapped(u)) + Times(s.users, u) + One(HeldByMon(s, u)) == 1)
            && (u in s.dead ==> Times(s.notified, u) == 1)
  {
    StartInv(max);
    RunKeepsInv(Start(max), es);
    assert OneDuty(Run(Start(max), es), u);
  }

  /** ... and only when it is closed and no longer in the descriptor table, so that no reader can find it. */
  lemma NotifiedAfterClose(max: nat, es: seq<Event>, e: Event, u: User)
    ensures var s := Run(Start(max), es);
            Times(Step(s, e).notified, u) > Times(s.notified, u) ==>
              && e.MonFinish? && s.mon == Checked(u) && u in s.closed
              && forall fd :: fd in s.fd2user ==> s.fd2user[fd] != u
  {
    StartInv(max);
    RunKeepsInv(Start(max), es);
    var s := Run(Start(max), es);
    if e.MonFinish? && s.mon.Checked? {
      TimesSnoc(s.notified, s.mon.u, u);
    }
    OtherStepsDoNotNotify(s, e);
  }

  lemma OtherStepsDoNotNotify(s: Server, e: Event)
    ensures !e.MonFinish? ==> Step(s, e).notified == s.notified
  {
  }

  /** The monitor closes an expired user by descriptor number, and the number never leads it to anybody else:
      no other user is closed and no other entry of the table is touched. */
  lemma ExpiryClosesItsOwn(max: nat, es: seq<Event>, expired: bool)
    ensures var s := Run(Start(max), es);
            s.mon.Popped? ==>
              var t := Step(s, MonExpire(expired));
              && t.closed <= s.closed + {s.mon.u}
              && (forall fd :: fd in s.fd2user && s.fd2user[fd] != s.mon.u ==>
                    fd in t.fd2user && t.fd2user[fd] == s.fd2user[fd])
              && (expired ==> s.mon.u in t.closed)
  {
    StartInv(max);
    RunKeepsInv(Start(max), es);
    var s := Run(Start(max), es);
    if s.mon.Popped? {
      assert OneDuty(s, s.mon.u);
      assert Alive(s, s.mon.u);
    }
  }

  /** Live users have different descriptors, entering a new one never displaces another, and the table stays
      within the connection limit. */
  lemma DescriptorsAreDistinct(max: nat, es: seq<Event>)
    ensures var s := Run(Start(max), es);
            && (forall u, v :: Alive(s, u) && Alive(s, v) && u != v ==> s.fdOf[u] != s.fdOf[v])
            && (s.io.Created? ==> s.io.u in s.fdOf && s.fdOf[s.io.u] !in s.fd2user)
            && |s.fd2user| <= max
  {
    StartInv(max);
    RunKeepsInv(Start(max), es);
    var s := Run(Start(max), es);
    if s.io.Created? {
      assert OneDuty(s, s.io.u);
      assert Alive(s, s.io.u);
    }
  }

  // ---- who is closed, and why -------------------------------------------------------------------

  /** The two ways to be closed: an I/O error under the number the table has the user under, and expiry in the monitor's
      hands. */
  predicate Closes(s: Server, e: Event, u: User) {
    || (e.CloseFd? && e.fd in s.fd2user && s.fd2user[e.fd] == u)
    || (e == MonExpire(true) && s.mon == Popped(u))
  }

  lemma ClosedByStep(s: Server, e: Event, u: User)
    requires Inv(s)
    ensures u in Step(s, e).closed <==> u in s.closed || Closes(s, e, u)
  {
    if e.MonExpire? && s.mon.Popped? {
      assert OneDuty(s, s.mon.u);
      assert Alive(s, s.mon.u);
    }
  }

  /** Over every run a user is closed if and only if one of the two happened to it. */
  lemma {:induction false} ClosedExactly(s: Server, es: seq<Event>, u: User)
    requires Inv(s)
    ensures u in Run(s, es).closed <==> u in s.closed || exists i :: 0 <= i < |es| && Closes(Run(s, es[..i]), es[i], u)
    decreases |es|
  {
    if es != [] {
      var t, rest := Step(s, es[0]), es[1..];
      ClosedByStep(s, es[0], u);
      StepKeepsInv(s, es[0]);
      ClosedExactly(t, rest, u);
      forall i | 0 <= i < |rest|
        ensures Run(s, es[..i + 1]) == Run(t, rest[..i]) && es[i + 1] == rest[i]
      {
        assert es[..i + 1][0] == es[0] && es[..i + 1][1..] == rest[..i];
      }
      assert Run(s, es[..0]) == s;
      if i :| 0 <= i < |es| && Closes(Run(s, es[..i]), es[i], u) {
        assert i > 0 ==> Closes(Run(t, rest[..i - 1]), rest[i - 1], u);
      }
      if i :| 0 <= i < |rest| && Closes(Run(t, rest[..i]), rest[i], u) {
        assert Closes(Run(s, es[..i + 1]), es[i + 1], u);
      }
    }
  }

  /** A user stays in the descriptor table, under its number, until it is closed. */
  lemma ServedUntilClosed(s: Server, e: Event, fd: Fd)
    requires Inv(s) && fd in s.fd2user
    ensures var t := Step(s, e); var u := s.fd2user[fd];
            if Closes(s, e, u) then fd !in t.fd2user else fd in t.fd2user && t.fd2user[fd] == u
  {
    var u := s.fd2user[fd];
    assert Alive(s, u);
    if e.MonExpire? && s.mon.Popped? {
      assert OneDuty(s, s.mon.u);
      assert Alive(s, s.mon.u);
    }
    if e.InsertMap? && s.io.Created? {
      assert OneDuty(s, s.io.u);
      assert Alive(s, s.io.u);
    }
  }

  /** The monitor tells exactly the closed users it finishes with. */
  lemma NotifiedExactly(s: Server, e: Event, u: User)
    ensures Times(Step(s, e).notified, u)
         == Times(s.notified, u) + One(e == MonFinish && s.mon == Checked(u) && u in s.closed)
  {
    if e.MonFinish? && s.mon.Checked? {
      TimesSnoc(s.notified, s.mon.u, u);
    }
    OtherStepsDoNotNotify(s, e);
  }

  /** A user is destroyed only by its last owner letting go. */
  lemma DestroyedExactly(s: Server, e: Event, u: User)
    requires Alive(s, u)
    ensures u in Step(s, e).dead <==>
            && e == Destroy(u) && u !in s.users && u !in s.kept && (forall fd :: fd in s.fd2user ==> s.fd2user[fd] != u)
            && (s.mon == Free || s.mon.u != u) && (s.io == Ready || s.io.Accepted? || s.io.u != u)
  {
    if e == Destroy(u) {
      assert u in s.fd2user.Values <==> exists fd :: fd in s.fd2user && s.fd2user[fd] == u;
    }
  }

  // ---- events that have gone stale --------------------------------------------------------------

  /** A user keeps its descriptor, and a dead one stays dead. */
  lemma FdKept(s: Server, e: Event, u: User)
    requires OneDuty(s, s.next) && u in s.fdOf
    ensures u in Step(s, e).fdOf && Step(s, e).fdOf[u] == s.fdOf[u] && (u in s.dead ==> u in Step(s, e).dead)
  {
  }

  lemma {:induction false} FdKeptRun(s: Server, es: seq<Event>, u: User)
    requires Inv(s) && u in s.fdOf
    ensures Inv(Run(s, es)) && u in Run(s, es).fdOf && Run(s, es).fdOf[u] == s.fdOf[u]
    decreases |es|
  {
    if es != [] {
      assert OneDuty(s, s.next);
      FdKept(s, es[0], u);
      StepKeepsInv(s, es[0]);
      FdKeptRun(Step(s, es[0]), es[1..], u);
    }
  }

  /** An event the poller reported when number `fd` meant user `u`, and which is served later, by number: the close hits
      another user if and only if `u` has been destroyed since and the number is in the table again. While anyone still
      holds `u`, it closes `u` or nobody. */
  lemma IoCloseExactly(max: nat, before: seq<Event>, fd: Fd, during: seq<Event>)
    requires fd in Run(Start(max), before).fd2user
    ensures var s := Run(Start(max), before); var u := s.fd2user[fd]; var t := Run(s, during);
            && ((exists v :: v != u && v in CloseUser(t, fd).closed && v !in t.closed)
                <==> u in t.dead && fd in t.fd2user)
            && (u !in t.dead ==> CloseUser(t, fd).closed <= t.closed + {u})
  {
    StartInv(max);
    RunKeepsInv(Start(max), before);
    var s := Run(Start(max), before);
    var u := s.fd2user[fd];
    FdKeptRun(s, during, u);
    var t := Run(s, during);
    if fd in t.fd2user {
      var v := t.fd2user[fd];
      assert Alive(t, v) && t.fdOf[v] == fd && v !in t.closed;
      assert u !in t.dead ==> Alive(t, u);
    }
  }

  /** A connection accepted on number `fd` and served once. */
  const ACCEPT: seq<Event> := [Create, InsertMap, PushList, IoDone]
  const EXPIRE: seq<Event> := [MonPop, MonExpire(true), MonFinish, Destroy(0)]

  function Serving(fd: Fd): Server {
    Server(8, 1, map[0 := fd], {fd}, map[fd := 0], [0], {}, {}, {}, Ready, Free, [])
  }

  function Expired(fd: Fd): Server {
    Server(8, 1, map[0 := fd], {}, map[], [], {0}, {0}, {}, Ready, Free, [0])
  }

  function Reused(fd: Fd): Server {
    Server(8, 2, map[0 := fd, 1 := fd], {fd}, map[fd := 1], [1], {0}, {0}, {}, Ready, Free, [0])
  }

  lemma FourSteps(s: Server, a: Event, b: Event, c: Event, d: Event)
    ensures Run(s, [a, b, c, d]) == Step(Step(Step(Step(s, a), b), c), d)
  {
    assert [a, b, c, d][1..] == [b, c, d] && [b, c, d][1..] == [c, d] && [c, d][1..] == [d] && [d][1..] == [];
    var s1, s2, s3 := Step(s, a), Step(Step(s, a), b), Step(Step(Step(s, a), b), c);
    assert Run(s, [a, b, c, d]) == Run(s1, [b, c, d]);
    assert Run(s1, [b, c, d]) == Run(s2, [c, d]);
    assert Run(s2, [c, d]) == Run(s3, [d]);
    assert Run(s3, [d]) == Run(Step(s3, d), []);
  }

  function Incoming(fd: Fd): Server {
    Server(8, 0, map[], {fd}, map[], [], {}, {}, {}, Accepted(fd), Free, [])
  }

  lemma Entered(fd: Fd)
    ensures Step(Step(Incoming(fd), Create), InsertMap) == Serving(fd).(io := Mapped(0), users := [])
  {
    assert Step(Incoming(fd), Create) == Incoming(fd).(io := Created(0), next := 1, fdOf := map[0 := fd]);
  }

  lemma Listed(fd: Fd)
    ensures Step(Step(Serving(fd).(io := Mapped(0), users := []), PushList), IoDone) == Serving(fd)
  {
  }

  lemma FirstAccepted(fd: Fd)
    ensures Run(Incoming(fd), ACCEPT) == Serving(fd)
  {
    FourSteps(Incoming(fd), Create, InsertMap, PushList, IoDone);
    Entered(fd);
    Listed(fd);
  }

  function Closing(fd: Fd): Server {
    Serving(fd).(mon := Checked(0), users := [], closed := {0}, fd2user := map[])
  }

  lemma ClosedByMonitor(fd: Fd)
    ensures Step(Step(Serving(fd), MonPop), MonExpire(true)) == Closing(fd)
  {
    var s := Serving(fd).(mon := Popped(0), users := []);
    assert Step(Serving(fd), MonPop) == s;
    assert CloseUser(s, fd).fd2user == map[];
  }

  lemma DestroyedLast(fd: Fd)
    ensures Step(Closing(fd).(mon := Free, notified := [0]), Destroy(0)) == Expired(fd)
  {
    var s := Closing(fd).(mon := Free, notified := [0]);
    assert Unowned(s, 0);
    assert {fd} - {fd} == {};
  }

  lemma ThenExpired(fd: Fd)
    ensures Run(Serving(fd), EXPIRE) == Expired(fd)
  {
    FourSteps(Serving(fd), MonPop, MonExpire(true), MonFinish, Destroy(0));
    ClosedByMonitor(fd);
    assert Step(Closing(fd), MonFinish) == Closing(fd).(mon := Free, notified := [0]);
    DestroyedLast(fd);
  }

  lemma ThenReused(fd: Fd)
    ensures Run(Step(Expired(fd), Accept(fd)), ACCEPT) == Reused(fd)
  {
    var s := Step(Expired(fd), Accept(fd));
    FourSteps(s, Create, InsertMap, PushList, IoDone);
    var s2 := s.(io := Mapped(1), next := 2, fdOf := map[0 := fd, 1 := fd], fd2user := map[fd := 1]);
    assert Step(Step(s, Create), InsertMap) == s2;
  }

  /** It does happen: user 0 expires and is destroyed while an error for its number waits to be served, the number is
      accepted again, and the error then closes user 1. */
  lemma StaleEventClosesAnother(fd: Fd)
    ensures var s := Run(Step(Start(8), Accept(fd)), ACCEPT);
            var t := Run(Step(Run(s, EXPIRE), Accept(fd)), ACCEPT);
            && s.fd2user == map[fd := 0]
            && 1 !in t.closed && 1 in Step(t, CloseFd(fd)).closed
  {
    assert Step(Start(8), Accept(fd)) == Incoming(fd);
    FirstAccepted(fd);
    ThenExpired(fd);
    ThenReused(fd);
  }

  // ---- the code as it runs ----------------------------------------------------------------------

  class SockServer {
    var fd2user: map<Fd, User>
    var users: seq<User>
    var closedUsers: set<User>
    var notified: seq<User>
    ghost var rest: Server     // everything else the machine knows

    ghost function Now(): Server
      reads this
    {
      rest.(fd2user := fd2user, users := users, closed := closedUsers, notified := notified)
    }

    constructor (max: nat)
      ensures Now() == Start(max)
    {
      fd2user, users, closedUsers, notified := map[], [], {}, [];
      rest := Start(max);
    }

    /** The two insertions at the end of `createUser`. */
    method EnterUser(fd: Fd, u: User)
      requires Now().io == Created(u) && u in Now().fdOf && Now().fdOf[u] == fd
      modifies this
      ensures fd2user == old(fd2user)[fd := u] && users == old(users) + [u]
      ensures closedUsers == old(closedUsers) && notified == old(notified)
      ensures Now() == Step(Step(old(Now()), InsertMap), PushList)
    {
      fd2user := fd2user[fd := u];
      users := users + [u];
      rest := rest.(io := Using(u));
    }

    /** 0: closed now; 1: was closed already; -1: nobody under that number. */
    method CloseByFd(fd: Fd) returns (rc: int)
      modifies this`fd2user, this`closedUsers
      ensures rc == if fd !in old(fd2user) then -1 else if old(fd2user)[fd] in old(closedUsers) then 1 else 0
      ensures rc == 0 ==> fd2user == old(fd2user) - {fd} && closedUsers == old(closedUsers) + {old(fd2user)[fd]}
      ensures rc != 0 ==> fd2user == old(fd2user) && closedUsers == old(closedUsers)
      ensures Now() == Step(old(Now()), CloseFd(fd))
    {
      rc := -1;
      if fd in fd2user {
        var u := fd2user[fd];
        if u !in closedUsers {
          closedUsers := closedUsers + {u};
          fd2user := fd2user - {fd};
          rc := 0;
        } else {
          rc := 1;
        }
      }
    }

    /** One turn of the monitor's loop when nothing interferes. `fdOf` is the user's own record of its
        descriptor and `expired` what its heartbeat says. */
    method MonitorTurn(fdOf: map<User, Fd>, expired: bool)
      requires Now().mon == Free && fdOf == Now().fdOf
      requires users != [] ==> users[0] in fdOf
      modifies this
      ensures !expired || old(users) == [] ==> fd2user == old(fd2user) && closedUsers == old(closedUsers)
      ensures expired && old(users) != [] ==>
                var fd := fdOf[old(users)[0]];
                if fd in old(fd2user) && old(fd2user)[fd] !in old(closedUsers)
                then fd2user == old(fd2user) - {fd} && closedUsers == old(closedUsers) + {old(fd2user)[fd]}
                else fd2user == old(fd2user) && closedUsers == old(closedUsers)
      ensures old(users) == [] ==> users == [] && notified == old(notified)
      ensures old(users) != [] ==>
                var u, rest := old(users)[0], old(users)[1..];
                if u in closedUsers then users == rest && notified == old(notified) + [u]
                else users == rest + [u] && notified == old(notified)
      ensures Now() == Step(Step(Step(old(Now()), MonPop), MonExpire(expired)), MonFinish)
    {
      if |users| == 0 {
        return;
      }
      var u := users[0];
      users := users[1..];
      if expired {
        var _ := CloseByFd(fdOf[u]);
      }
      if u in closedUsers {
        notified := notified + [u];
      } else {
        users := users + [u];
      }
    }
  }
}
