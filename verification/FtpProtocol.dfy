/** The server thread, the client threads and ftpvita_fini as an interleaved transition
    system over the client list and its mutex. */
module FtpProtocol {
  import opened ClientTable

  /** Where a client thread is. Free to run from New only after sceKernelStartThread. */
  datatype Pc = New | Receiving | WantsDelete | HoldsListed | HoldsUnlinked | Closing | Freed

  datatype Thread = Thread(node: Ptr, pc: Pc, aborted: bool)

  datatype ServerPc =
    | Accepting
    | Made(c: Ptr, t: Tid)      // before client_list_add locks
    | Linking(c: Ptr, t: Tid)   // holds the mutex, not linked yet
    | Linked(c: Ptr, t: Tid)    // holds the mutex
    | Starting(c: Ptr, t: Tid)
    | Ended

  datatype FiniPc =
    | Idle
    | AwaitsServer
    | WantsLock
    | Cursor(it: Ptr)
    | Aborting(it: Ptr, t: Tid, next: Ptr)  // has aborted the control socket
    | Joining(t: Tid, next: Ptr)
    | Released
    | Finished

  datatype Owner = Nobody | ByServer | ByClient(t: Tid) | ByFini

  /** used holds every thread id handed out so far; ids are not handed out twice. */
  datatype State = State(
    table: Table, threads: map<Tid, Thread>, used: set<Tid>,
    server: ServerPc, socketClosed: bool, fini: FiniPc, mutex: Owner)

  datatype Event =
    | Accept(c: Ptr, t: Tid, prev: Ptr, next: Ptr)  // malloc leaves prev and next arbitrary
    | AddLock | AddLink | AddUnlock | Start
    | AcceptFails
    | Command(t: Tid)           // recv returned data; the command is dispatched
    | Disconnected(t: Tid)      // recv returned 0 or an error
    | Interrupted(t: Tid)       // recv returned EINTR
    | DeleteLock(t: Tid) | DeleteUnlink(t: Tid) | DeleteUnlock(t: Tid)
    | Free(t: Tid)
    | Exit(t: Tid)
    | CloseServer | ServerJoined
    | FiniLock
    | FiniAbort                // reads next and thid and aborts the control socket
    | FiniRead(last: bool)     // reads a field of the data connection, and may abort its sockets
    | FiniJoined | FiniUnlock | FiniReset

  const INIT: State := State(Table(map[], NULL, 0), map[], {}, Accepting, false, Idle, Nobody)

  predicate At(s: State, t: Tid, pc: Pc) {
    t in s.threads && s.threads[t].pc == pc
  }

  predicate Enabled(s: State, e: Event) {
    match e
    case Accept(c, t, _, _) => s.server.Accepting? && !s.socketClosed && c != NULL && c !in s.table.mem && t !in s.used
    case AddLock => s.server.Made? && s.mutex.Nobody?
    case AddLink => s.server.Linking?
    case AddUnlock => s.server.Linked?
    case Start => s.server.Starting?
    case AcceptFails => s.server.Accepting?
    case Command(t) => At(s, t, Receiving)
    case Disconnected(t) => At(s, t, Receiving)
    case Interrupted(t) => At(s, t, Receiving) && s.threads[t].aborted
    case DeleteLock(t) => At(s, t, WantsDelete) && s.mutex.Nobody?
    case DeleteUnlink(t) => At(s, t, HoldsListed)
    case DeleteUnlock(t) => At(s, t, HoldsUnlinked)
    case Free(t) => At(s, t, Closing)
    case Exit(t) => At(s, t, Freed)
    case CloseServer => s.fini.Idle?
    case ServerJoined => s.fini.AwaitsServer? && s.server.Ended?
    case FiniLock => s.fini.WantsLock? && s.mutex.Nobody?
    case FiniAbort => s.fini.Cursor? && s.fini.it != NULL
    case FiniRead(_) => s.fini.Aborting?
    case FiniJoined => s.fini.Joining? && s.fini.t !in s.threads
    case FiniUnlock => s.fini.Cursor? && s.fini.it == NULL
    case FiniReset => s.fini.Released?
  }

  function SetPc(s: State, t: Tid, pc: Pc): State {
    if t in s.threads then s.(threads := s.threads[t := s.threads[t].(pc := pc)]) else s
  }

  function NodeOf(s: State, t: Tid): Ptr {
    if t in s.threads then s.threads[t].node else NULL
  }

  function Abort(s: State, t: Tid): State {
    if t in s.threads then s.(threads := s.threads[t := s.threads[t].(aborted := true)]) else s
  }

  function Apply(s: State, e: Event): State
    requires Enabled(s, e)
  {
    match e
    case Accept(c, t, prev, next) =>
      s.(table := s.table.(mem := s.table.mem[c := Client(prev, next, t)]),
         threads := s.threads[t := Thread(c, New, false)], used := s.used + {t}, server := Made(c, t))
    case AddLock => s.(server := Linking(s.server.c, s.server.t), mutex := ByServer)
    case AddLink => s.(server := Linked(s.server.c, s.server.t), table := LinkFront(s.table, s.server.c))
    case AddUnlock => s.(server := Starting(s.server.c, s.server.t), mutex := Nobody)
    case Start => SetPc(s, s.server.t, Receiving).(server := Accepting)
    case AcceptFails => s.(server := Ended)
    case Command(t) => s
    case Disconnected(t) => SetPc(s, t, WantsDelete)
    case Interrupted(t) => SetPc(s, t, Closing)
    case DeleteLock(t) => SetPc(s, t, HoldsListed).(mutex := ByClient(t))
    case DeleteUnlink(t) => SetPc(s, t, HoldsUnlinked).(table := Unlink(s.table, NodeOf(s, t)))
    case DeleteUnlock(t) => SetPc(s, t, Closing).(mutex := Nobody)
    case Free(t) => SetPc(s, t, Freed).(table := s.table.(mem := s.table.mem - {NodeOf(s, t)}))
    case Exit(t) => s.(threads := s.threads - {t})
    case CloseServer => s.(socketClosed := true, fini := AwaitsServer)
    case ServerJoined => s.(fini := WantsLock)
    case FiniLock => s.(fini := Cursor(s.table.head), mutex := ByFini)
    case FiniAbort =>
      var n := Load(s.table.mem, s.fini.it);
      Abort(s, n.thid).(fini := Aborting(s.fini.it, n.thid, n.next))
    case FiniRead(last) => if last then s.(fini := Joining(s.fini.t, s.fini.next)) else s
    case FiniJoined => s.(fini := Cursor(s.fini.next))
    case FiniUnlock => s.(fini := Released, mutex := Nobody)
    case FiniReset => s.(fini := Finished, table := Table(s.table.mem, NULL, 0))
  }

  /** The nodes whose memory a step reads, writes or frees. */
  function Touched(s: State, e: Event): set<Ptr>
    requires Enabled(s, e)
  {
    match e
    case AddLink => {s.server.c} + (if s.table.head == NULL then {} else {s.table.head})
    case Command(t) => {NodeOf(s, t)}
    case Disconnected(t) => {NodeOf(s, t)}
    case Interrupted(t) => {NodeOf(s, t)}
    case DeleteLock(t) => {NodeOf(s, t)}
    case DeleteUnlock(t) => {NodeOf(s, t)}
    case DeleteUnlink(t) =>
      var c := NodeOf(s, t);
      var n := Load(s.table.mem, c);
      {c} + (if n.prev == NULL then {} else {n.prev}) + (if n.next == NULL then {} else {n.next})
    case Free(t) => {NodeOf(s, t)}
    case FiniAbort => {s.fini.it}
    case FiniRead(_) => {s.fini.it}
    case _ => {}
  }

  // ---------------------------------------------------------------------------
  // The invariant
  // ---------------------------------------------------------------------------

  /** Shutdown has not yet taken the mutex. */
  predicate BeforeFini(s: State) {
    s.fini.Idle? || s.fini.AwaitsServer? || s.fini.WantsLock?
  }

  /** Shutdown has the mutex and has not come to the end of the list. */
  predicate Walking(s: State) {
    s.fini.Cursor? || s.fini.Aborting? || s.fini.Joining?
  }

  /** rest lists the nodes that are linked and that the shutdown cursor has not passed. */
  predicate ListOk(s: State, rest: seq<Ptr>) {
    match s.fini
    case Cursor(it) => Chain(s.table.mem, rest) && it == First(rest)
    case Aborting(_, t, next) => Chain(s.table.mem, rest) && next == First(rest) && t in s.used
    case Joining(_, next) => Chain(s.table.mem, rest) && next == First(rest)
    case Released => rest == []
    case Finished => rest == [] && IsList(s.table, [])
    case _ => IsList(s.table, rest)
  }

  /** Shutdown aborts or joins client t. */
  predicate Ends(s: State, t: Tid) {
    (s.fini.Aborting? || s.fini.Joining?) && s.fini.t == t
  }

  predicate Active(pc: Pc) {
    pc == Receiving || pc == WantsDelete || pc == HoldsListed
  }

  /** The server is between making client c with thread t and starting it. */
  predicate Serving(s: State, c: Ptr, t: Tid) {
    s.server == Made(c, t) || s.server == Linking(c, t) || s.server == Linked(c, t) || s.server == Starting(c, t)
  }

  /** A thread's node is its own until it frees it; a thread in its loop or about to unlink
      is listed, or is the one that shutdown ends, which has been aborted; inside
      client_list_delete it has the mutex. */
  predicate ThreadOk(s: State, rest: seq<Ptr>, t: Tid)
    requires t in s.threads
  {
    var th := s.threads[t];
    && t in s.used
    && (!th.pc.Freed? ==> th.node != NULL && th.node in s.table.mem && s.table.mem[th.node].thid == t)
    && (Active(th.pc) ==> th.node in rest || Ends(s, t))
    && (Ends(s, t) ==> th.aborted && (s.fini.Aborting? ==> th.node == s.fini.it))
    && (th.pc.New? ==> !th.aborted && Serving(s, th.node, t))
    && (th.pc.HoldsListed? || th.pc.HoldsUnlinked? ==> s.mutex == ByClient(t))
  }

  /** No node is without its thread: nothing leaks. The node that shutdown reads is, if it is
      still there, the node of the client that it ends. */
  predicate NodeOk(s: State, p: Ptr)
    requires p in s.table.mem
  {
    var t := s.table.mem[p].thid;
    && t in s.threads && s.threads[t].node == p && !s.threads[t].pc.Freed?
    && (s.fini.Aborting? && s.fini.it == p ==> s.fini.t == t)
  }

  /** The threads of the remaining nodes run undisturbed. */
  predicate RestOk(s: State, p: Ptr) {
    p in s.table.mem && s.table.mem[p].thid in s.threads &&
    var t := s.table.mem[p].thid;
    var th := s.threads[t];
    !th.aborted && (Active(th.pc) || (th.pc.New? && (s.server == Linked(p, t) || s.server == Starting(p, t))))
  }

  /** The client the server is working on; and the server is gone before shutdown locks. */
  predicate ServerOk(s: State, rest: seq<Ptr>) {
    match s.server
    case Accepting => BeforeLock(s)
    case Made(c, t) => BeforeLock(s) && At(s, t, New) && s.threads[t].node == c && c !in rest
    case Linking(c, t) => BeforeLock(s) && At(s, t, New) && s.threads[t].node == c && c !in rest && s.mutex.ByServer?
    case Linked(c, t) => BeforeLock(s) && At(s, t, New) && s.threads[t].node == c && c in rest && s.mutex.ByServer?
    case Starting(c, t) => BeforeLock(s) && At(s, t, New) && s.threads[t].node == c && c in rest
    case Ended => true
  }

  predicate BeforeLock(s: State) {
    s.fini.Idle? || s.fini.AwaitsServer?
  }

  /** The mutex has one holder, and whoever is inside holds it. */
  predicate MutexOk(s: State) {
    match s.mutex
    case ByServer => s.server.Linking? || s.server.Linked?
    case ByFini => Walking(s)
    case ByClient(t) => (At(s, t, HoldsListed) || At(s, t, HoldsUnlinked)) && BeforeFini(s)
    case Nobody => !Walking(s)
  }

  predicate Inv(s: State, rest: seq<Ptr>) {
    && ListOk(s, rest)
    && (forall t | t in s.threads :: ThreadOk(s, rest, t))
    && (forall p | p in s.table.mem :: NodeOk(s, p))
    && (forall p | p in rest :: RestOk(s, p))
    && ServerOk(s, rest)
    && MutexOk(s)
  }

  // ---------------------------------------------------------------------------
  // Every step keeps the invariant
  // ---------------------------------------------------------------------------

  lemma AcceptStep(s: State, e: Event, rest: seq<Ptr>)
    requires e.Accept? && Inv(s, rest) && Enabled(s, e)
    ensures Inv(Apply(s, e), rest)
  {
    hide IsList, Chain, NodeOk;
    var s' := Apply(s, e);
    AcceptKeepsNodes(s, e, rest);
    assert forall p | p in rest :: RestOk(s, p) && p != e.c;
    KeptList(s, s', rest);
    forall t | t in s'.threads ensures ThreadOk(s', rest, t) {
      if t != e.t { assert ThreadOk(s, rest, t); }
    }
  }

  lemma AcceptKeepsNodes(s: State, e: Event, rest: seq<Ptr>)
    requires e.Accept? && Inv(s, rest) && Enabled(s, e)
    ensures forall p | p in Apply(s, e).table.mem :: NodeOk(Apply(s, e), p)
  {
    hide ListOk, RestOk, MutexOk;
    forall p | p in Apply(s, e).table.mem ensures NodeOk(Apply(s, e), p) {
      if p != e.c {
        assert NodeOk(s, p);
        assert ThreadOk(s, rest, s.table.mem[p].thid);
      }
    }
  }

  lemma ServerSteps(s: State, e: Event, rest: seq<Ptr>)
    requires Inv(s, rest) && Enabled(s, e)
    requires e.AddLock? || e.AddUnlock? || e.Start? || e.AcceptFails?
    ensures Inv(Apply(s, e), rest)
  {
    hide IsList, Chain, ThreadOk, NodeOk, RestOk;
    ServerThreads(s, e, rest);
    ServerNodes(s, e, rest);
  }

  lemma ServerThreads(s: State, e: Event, rest: seq<Ptr>)
    requires Inv(s, rest) && Enabled(s, e)
    requires e.AddLock? || e.AddUnlock? || e.Start? || e.AcceptFails?
    ensures forall t | t in Apply(s, e).threads :: ThreadOk(Apply(s, e), rest, t)
  {
    hide ListOk, NodeOk, RestOk;
    forall t | t in s.threads ensures ThreadOk(Apply(s, e), rest, t) { assert ThreadOk(s, rest, t); }
  }

  lemma ServerNodes(s: State, e: Event, rest: seq<Ptr>)
    requires Inv(s, rest) && Enabled(s, e)
    requires e.AddLock? || e.AddUnlock? || e.Start? || e.AcceptFails?
    ensures forall p | p in Apply(s, e).table.mem :: NodeOk(Apply(s, e), p)
    ensures forall p | p in rest :: RestOk(Apply(s, e), p)
  {
    hide ListOk, ThreadOk, MutexOk;
    forall p | p in s.table.mem ensures NodeOk(Apply(s, e), p) { assert NodeOk(s, p); }
    forall p | p in rest ensures RestOk(Apply(s, e), p) { assert RestOk(s, p) && NodeOk(s, p); }
  }

  /** Nodes outside the list do not matter to it. */
  lemma KeptList(s: State, s': State, rest: seq<Ptr>)
    requires ListOk(s, rest) && s'.fini == s.fini
    requires s'.table.head == s.table.head && s'.table.count == s.table.count && s.used <= s'.used
    requires forall p | p in rest && p in s.table.mem :: p in s'.table.mem && s'.table.mem[p] == s.table.mem[p]
    ensures ListOk(s', rest)
  {
    assert Chain(s.table.mem, rest) ==> Chain(s'.table.mem, rest) by {
      if Chain(s.table.mem, rest) {
        forall i | 0 <= i < |rest| ensures NextAt(s'.table.mem, rest, i) {
          assert NextAt(s.table.mem, rest, i) && rest[i] in rest;
        }
      }
    }
    if IsList(s.table, rest) {
      forall i | 0 <= i < |rest| ensures PrevAt(s'.table.mem, rest, i) {
        assert PrevAt(s.table.mem, rest, i) && rest[i] in rest;
      }
    }
  }

  lemma AddLinkStep(s: State, rest: seq<Ptr>)
    requires Inv(s, rest) && Enabled(s, AddLink)
    ensures Inv(Apply(s, AddLink), [s.server.c] + rest)
  {
    var c := s.server.c;
    var s' := Apply(s, AddLink);
    var rest' := [c] + rest;
    LinkFrontAdds(s.table, c, rest);
    hide LinkFront, IsList;
    forall t | t in s'.threads ensures ThreadOk(s', rest', t) {
      assert ThreadOk(s, rest, t);
    }
    forall p | p in s'.table.mem ensures NodeOk(s', p) {
      assert NodeOk(s, p);
    }
    forall p | p in rest' ensures RestOk(s', p) {
      if p in rest { assert RestOk(s, p); }
    }
  }

  lemma CommandStep(s: State, e: Event, rest: seq<Ptr>)
    requires e.Command? && Inv(s, rest) && Enabled(s, e)
    ensures Inv(Apply(s, e), rest)
  {
    hide Inv;
  }

  /** Thread t moves on to pc and may take or release the mutex; nothing else changes. */
  predicate Moves(s: State, s': State, t: Tid, pc: Pc, rest: seq<Ptr>) {
    && t in s.threads && !s.threads[t].pc.New? && !s.threads[t].pc.Freed? && !pc.New? && !pc.Freed?
    && (s.threads[t].node in rest ==> Active(pc))
    && s' == SetPc(s, t, pc).(mutex := s'.mutex)
    && (s'.mutex == s.mutex || s.mutex == Nobody || s.mutex == ByClient(t))
  }

  lemma ThreadMoves(s: State, s': State, t: Tid, pc: Pc, rest: seq<Ptr>)
    requires Inv(s, rest) && Moves(s, s', t, pc, rest) && ThreadOk(s', rest, t) && MutexOk(s')
    ensures Inv(s', rest)
  {
    hide IsList, Chain, MutexOk, ThreadOk, NodeOk, RestOk;
    MovesThreads(s, s', t, pc, rest);
    MovesNodes(s, s', t, pc, rest);
  }

  lemma MovesThreads(s: State, s': State, t: Tid, pc: Pc, rest: seq<Ptr>)
    requires Inv(s, rest) && Moves(s, s', t, pc, rest) && ThreadOk(s', rest, t)
    ensures forall u | u in s'.threads :: ThreadOk(s', rest, u)
  {
    hide ListOk, NodeOk, RestOk, ServerOk, MutexOk;
    forall u | u in s'.threads ensures ThreadOk(s', rest, u) {
      if u != t { assert ThreadOk(s, rest, u); }
    }
  }

  lemma MovesNodes(s: State, s': State, t: Tid, pc: Pc, rest: seq<Ptr>)
    requires Inv(s, rest) && Moves(s, s', t, pc, rest)
    ensures forall p | p in s'.table.mem :: NodeOk(s', p)
    ensures forall p | p in rest :: RestOk(s', p)
  {
    hide ListOk, ThreadOk, ServerOk, MutexOk;
    forall p | p in s'.table.mem ensures NodeOk(s', p) { assert NodeOk(s, p); }
    forall p | p in rest ensures RestOk(s', p) { assert RestOk(s, p) && NodeOk(s, p); }
  }

  lemma DisconnectedStep(s: State, t: Tid, rest: seq<Ptr>)
    requires Inv(s, rest) && Enabled(s, Disconnected(t))
    ensures Inv(Apply(s, Disconnected(t)), rest)
  {
    hide ListOk, NodeOk, RestOk;
    assert ThreadOk(s, rest, t);
    ThreadMoves(s, Apply(s, Disconnected(t)), t, WantsDelete, rest);
  }

  lemma InterruptedStep(s: State, t: Tid, rest: seq<Ptr>)
    requires Inv(s, rest) && Enabled(s, Interrupted(t))
    ensures Inv(Apply(s, Interrupted(t)), rest)
  {
    hide ListOk, NodeOk;
    assert ThreadOk(s, rest, t);
    assert forall p | p in rest :: RestOk(s, p);
    ThreadMoves(s, Apply(s, Interrupted(t)), t, Closing, rest);
  }

  lemma DeleteLockStep(s: State, t: Tid, rest: seq<Ptr>)
    requires Inv(s, rest) && Enabled(s, DeleteLock(t))
    ensures Inv(Apply(s, DeleteLock(t)), rest)
  {
    hide IsList, Chain, NodeOk, RestOk;
    assert ThreadOk(s, rest, t);
    ThreadMoves(s, Apply(s, DeleteLock(t)), t, HoldsListed, rest);
  }

  lemma DeleteUnlockStep(s: State, t: Tid, rest: seq<Ptr>)
    requires Inv(s, rest) && Enabled(s, DeleteUnlock(t))
    ensures Inv(Apply(s, DeleteUnlock(t)), rest)
  {
    hide ListOk, NodeOk;
    assert ThreadOk(s, rest, t);
    assert forall p | p in rest :: RestOk(s, p);
    ThreadMoves(s, Apply(s, DeleteUnlock(t)), t, Closing, rest);
  }

  lemma ExitStep(s: State, t: Tid, rest: seq<Ptr>)
    requires Inv(s, rest) && Enabled(s, Exit(t))
    ensures Inv(Apply(s, Exit(t)), rest)
  {}

  lemma FreeStep(s: State, t: Tid, rest: seq<Ptr>)
    requires Inv(s, rest) && Enabled(s, Free(t))
    ensures Inv(Apply(s, Free(t)), rest)
  {
    hide ListOk, NodeOk, RestOk, ThreadOk;
    NotAmongRest(s, t, rest);
    KeptList(s, Apply(s, Free(t)), rest);
    FreeThreads(s, t, rest);
    FreeNodes(s, t, rest);
  }

  lemma FreeThreads(s: State, t: Tid, rest: seq<Ptr>)
    requires Inv(s, rest) && Enabled(s, Free(t))
    ensures forall u | u in Apply(s, Free(t)).threads :: ThreadOk(Apply(s, Free(t)), rest, u)
  {
    hide ListOk, NodeOk, RestOk, ServerOk, MutexOk;
    forall u | u in Apply(s, Free(t)).threads ensures ThreadOk(Apply(s, Free(t)), rest, u) {
      assert ThreadOk(s, rest, u) && ThreadOk(s, rest, t);
    }
  }

  lemma FreeNodes(s: State, t: Tid, rest: seq<Ptr>)
    requires Inv(s, rest) && Enabled(s, Free(t))
    ensures var s' := Apply(s, Free(t));
            && (forall p | p in s'.table.mem :: NodeOk(s', p))
            && (forall p | p in rest :: RestOk(s', p))
  {
    hide ListOk, ThreadOk, ServerOk, MutexOk;
    var s' := Apply(s, Free(t));
    NotAmongRest(s, t, rest);
    forall p | p in s'.table.mem ensures NodeOk(s', p) { assert NodeOk(s, p); }
    forall p | p in rest ensures RestOk(s', p) { assert RestOk(s, p); }
  }

  /** The node a closing thread frees is no node of the remaining list. */
  lemma NotAmongRest(s: State, t: Tid, rest: seq<Ptr>)
    requires Inv(s, rest) && Enabled(s, Free(t))
    ensures NodeOf(s, t) !in rest
  {
    hide ListOk, ServerOk, MutexOk;
    assert ThreadOk(s, rest, t);
    assert forall p | p in rest :: RestOk(s, p) && NodeOk(s, p);
  }

  /** A thread about to unlink is in the list, and shutdown has not begun to walk it. */
  lemma UnlinkPosition(s: State, t: Tid, rest: seq<Ptr>) returns (k: nat)
    requires Inv(s, rest) && Enabled(s, DeleteUnlink(t))
    ensures k < |rest| && rest[k] == s.threads[t].node && BeforeFini(s) && IsList(s.table, rest)
  {
    assert ThreadOk(s, rest, t);
    k :| 0 <= k < |rest| && rest[k] == s.threads[t].node;
  }

  lemma UnlinkStep(s: State, t: Tid, rest: seq<Ptr>) returns (k: nat)
    requires Inv(s, rest) && Enabled(s, DeleteUnlink(t))
    ensures k < |rest| && rest[k] == s.threads[t].node && BeforeFini(s)
    ensures Inv(Apply(s, DeleteUnlink(t)), Without(rest, k))
  {
    hide Unlink, IsList, Without, ThreadOk, NodeOk, RestOk;
    k := UnlinkPosition(s, t, rest);
    UnlinkRemoves(s.table, rest, k);
    UnlinkThreads(s, t, rest, k);
    UnlinkNodes(s, t, rest, k);
    UnlinkServer(s, t, rest, k);
  }

  lemma UnlinkThreads(s: State, t: Tid, rest: seq<Ptr>, k: nat)
    requires Inv(s, rest) && Enabled(s, DeleteUnlink(t)) && BeforeFini(s)
    requires k < |rest| && rest[k] == s.threads[t].node
    ensures var s' := Apply(s, DeleteUnlink(t));
            forall u | u in s'.threads :: ThreadOk(s', Without(rest, k), u)
  {
    hide Unlink, IsList, ServerOk;
    var s' := Apply(s, DeleteUnlink(t));
    ListDistinct(s.table, rest);
    WithoutMembers(rest, k);
    UnlinkRemoves(s.table, rest, k);
    forall u | u in s'.threads ensures ThreadOk(s', Without(rest, k), u) {
      assert ThreadOk(s, rest, u) && ThreadOk(s, rest, t);
    }
  }

  lemma UnlinkNodes(s: State, t: Tid, rest: seq<Ptr>, k: nat)
    requires Inv(s, rest) && Enabled(s, DeleteUnlink(t)) && BeforeFini(s)
    requires k < |rest| && rest[k] == s.threads[t].node
    ensures var s' := Apply(s, DeleteUnlink(t));
            && (forall p | p in s'.table.mem :: NodeOk(s', p))
            && (forall p | p in Without(rest, k) :: RestOk(s', p))
  {
    hide Unlink, IsList, ThreadOk, ServerOk;
    var s' := Apply(s, DeleteUnlink(t));
    ListDistinct(s.table, rest);
    WithoutMembers(rest, k);
    UnlinkRemoves(s.table, rest, k);
    forall p | p in s'.table.mem ensures NodeOk(s', p) {
      assert NodeOk(s, p);
    }
    forall p | p in Without(rest, k) ensures RestOk(s', p) {
      assert RestOk(s, p) && NodeOk(s, p);
    }
  }

  lemma UnlinkServer(s: State, t: Tid, rest: seq<Ptr>, k: nat)
    requires Inv(s, rest) && Enabled(s, DeleteUnlink(t)) && BeforeFini(s)
    requires k < |rest| && rest[k] == s.threads[t].node
    ensures ServerOk(Apply(s, DeleteUnlink(t)), Without(rest, k))
  {
    hide Unlink, IsList, RestOk, NodeOk;
    ListDistinct(s.table, rest);
    WithoutMembers(rest, k);
    assert ThreadOk(s, rest, t);
    if !s.server.Ended? && !s.server.Accepting? { assert ThreadOk(s, rest, s.server.t); }
  }

  lemma ListDistinct(t: Table, ns: seq<Ptr>)
    requires IsList(t, ns)
    ensures Distinct(ns)
  {}

  lemma WithoutMembers(ns: seq<Ptr>, k: nat)
    requires k < |ns| && Distinct(ns)
    ensures forall p :: p in Without(ns, k) <==> p in ns && p != ns[k]
  {
    forall p | p in ns && p != ns[k] ensures p in Without(ns, k) {
      var i :| 0 <= i < |ns| && ns[i] == p;
      assert Without(ns, k)[if i < k then i else i - 1] == p;
    }
  }

  lemma FiniSteps(s: State, e: Event, rest: seq<Ptr>)
    requires Inv(s, rest) && Enabled(s, e)
    requires e.CloseServer? || e.ServerJoined? || e.FiniLock? || e.FiniRead? || e.FiniJoined? || e.FiniUnlock? ||
             e.FiniReset?
    ensures Inv(Apply(s, e), rest)
  {
    hide ThreadOk, NodeOk, RestOk;
    if e.FiniUnlock? { EmptyAtNull(s, rest); }
    FiniThreads(s, e, rest);
    FiniNodes(s, e, rest);
  }

  lemma FiniThreads(s: State, e: Event, rest: seq<Ptr>)
    requires Inv(s, rest) && Enabled(s, e)
    requires e.CloseServer? || e.ServerJoined? || e.FiniLock? || e.FiniRead? || e.FiniJoined? || e.FiniUnlock? ||
             e.FiniReset?
    ensures forall t | t in Apply(s, e).threads :: ThreadOk(Apply(s, e), rest, t)
  {
    hide ListOk, NodeOk, RestOk, ServerOk;
    forall t | t in s.threads ensures ThreadOk(Apply(s, e), rest, t) { assert ThreadOk(s, rest, t); }
  }

  lemma FiniNodes(s: State, e: Event, rest: seq<Ptr>)
    requires Inv(s, rest) && Enabled(s, e)
    requires e.CloseServer? || e.ServerJoined? || e.FiniLock? || e.FiniRead? || e.FiniJoined? || e.FiniUnlock? ||
             e.FiniReset?
    ensures var s' := Apply(s, e);
            && (forall p | p in s'.table.mem :: NodeOk(s', p))
            && (forall p | p in rest :: RestOk(s', p))
  {
    hide ListOk, ThreadOk, ServerOk, MutexOk;
    forall p | p in s.table.mem ensures NodeOk(Apply(s, e), p) { assert NodeOk(s, p); }
    forall p | p in rest ensures RestOk(Apply(s, e), p) { assert RestOk(s, p); }
  }

  lemma EmptyAtNull(s: State, rest: seq<Ptr>)
    requires Inv(s, rest) && s.fini == Cursor(NULL)
    ensures rest == []
  {
    FirstNullIff(s.table.mem, rest);
  }

  lemma AbortStep(s: State, rest: seq<Ptr>)
    requires Inv(s, rest) && Enabled(s, FiniAbort)
    ensures |rest| > 0 && s.fini.it == rest[0] && Inv(Apply(s, FiniAbort), rest[1..])
  {
    var s' := Apply(s, FiniAbort);
    var it, rest' := rest[0], rest[1..];
    assert NextAt(s.table.mem, rest, 0) && it in rest && RestOk(s, it) && NodeOk(s, it);
    forall i | 0 <= i < |rest'| ensures NextAt(s'.table.mem, rest', i) {
      assert NextAt(s.table.mem, rest, i + 1);
    }
    forall u | u in s'.threads ensures ThreadOk(s', rest', u) {
      assert ThreadOk(s, rest, u);
    }
    forall p | p in rest' ensures RestOk(s', p) {
      assert p in rest && RestOk(s, p) && NodeOk(s, p) && p != it;
    }
  }

  lemma {:induction false} StepKeepsInv(s: State, e: Event, rest: seq<Ptr>) returns (rest': seq<Ptr>)
    requires Inv(s, rest) && Enabled(s, e)
    ensures Inv(Apply(s, e), rest')
  {
    hide Inv, Apply;
    rest' := rest;
    match e
    case Accept(_, _, _, _) => AcceptStep(s, e, rest);
    case AddLock => ServerSteps(s, e, rest);
    case AddLink =>
      AddLinkStep(s, rest);
      rest' := [s.server.c] + rest;
    case AddUnlock => ServerSteps(s, e, rest);
    case Start => ServerSteps(s, e, rest);
    case AcceptFails => ServerSteps(s, e, rest);
    case Command(_) => CommandStep(s, e, rest);
    case Disconnected(t) => DisconnectedStep(s, t, rest);
    case Interrupted(t) => InterruptedStep(s, t, rest);
    case DeleteLock(t) => DeleteLockStep(s, t, rest);
    case DeleteUnlink(t) =>
      var k := UnlinkStep(s, t, rest);
      rest' := Without(rest, k);
    case DeleteUnlock(t) => DeleteUnlockStep(s, t, rest);
    case Free(t) => FreeStep(s, t, rest);
    case Exit(t) => ExitStep(s, t, rest);
    case CloseServer => FiniSteps(s, e, rest);
    case ServerJoined => FiniSteps(s, e, rest);
    case FiniLock => FiniSteps(s, e, rest);
    case FiniAbort =>
      AbortStep(s, rest);
      rest' := rest[1..];
    case FiniRead(_) => FiniSteps(s, e, rest);
    case FiniJoined => FiniSteps(s, e, rest);
    case FiniUnlock => FiniSteps(s, e, rest);
    case FiniReset => FiniSteps(s, e, rest);
  }

  // ---------------------------------------------------------------------------
  // Runs
  // ---------------------------------------------------------------------------

  /** es is an interleaving the threads can produce. */
  predicate Legal(es: seq<Event>)
    decreases |es|, 0
  {
    es == [] || (Legal(es[..|es| - 1]) && Enabled(After(es[..|es| - 1]), es[|es| - 1]))
  }

  function After(es: seq<Event>): State
    requires Legal(es)
    decreases |es|, 1
  {
    if es == [] then INIT else Apply(After(es[..|es| - 1]), es[|es| - 1])
  }

  lemma InitInv()
    ensures Inv(INIT, [])
  {}

  lemma {:induction false} RunKeepsInv(es: seq<Event>) returns (rest: seq<Ptr>)
    requires Legal(es)
    ensures Inv(After(es), rest)
    decreases |es|
  {
    hide Inv, Apply, Enabled;
    if es == [] {
      InitInv();
      rest := [];
    } else {
      var r := RunKeepsInv(es[..|es| - 1]);
      rest := StepKeepsInv(After(es[..|es| - 1]), es[|es| - 1], r);
    }
  }

  /** Before shutdown takes over, whenever nobody or anybody holds the mutex, the client list
      is a well-formed acyclic doubly linked list and number_clients is its length. */
  lemma {:induction false} ListWellFormed(es: seq<Event>) returns (ns: seq<Ptr>)
    requires Legal(es) && BeforeFini(After(es))
    ensures IsList(After(es).table, ns)
  {
    ns := RunKeepsInv(es);
  }

  /** A step leaves every node alone that is not among those it touches. */
  lemma {:induction false} WritesTouchedOnly(s: State, e: Event, p: Ptr)
    requires Enabled(s, e) && p in s.table.mem && p !in Touched(s, e)
    ensures p in Apply(s, e).table.mem && Apply(s, e).table.mem[p] == s.table.mem[p]
  {}

  /** The same nodes at the same addresses. */
  ghost predicate SameAt(mem: map<Ptr, Client>, mem': map<Ptr, Client>, ps: set<Ptr>) {
    forall p | p in ps :: (p in mem <==> p in mem') && (p in mem ==> p in mem' && mem[p] == mem'[p])
  }

  /** And what it does depends on no other node: from memories that agree on those it does the
      same. */
  lemma {:induction false} ReadsTouchedOnly(s: State, mem: map<Ptr, Client>, e: Event)
    requires Enabled(s, e) && !e.Accept? && SameAt(s.table.mem, mem, Touched(s, e))
    ensures var s' := s.(table := s.table.(mem := mem));
            && Enabled(s', e)
            && var t, t' := Apply(s, e), Apply(s', e);
            && t' == t.(table := t.table.(mem := t'.table.mem))
            && SameAt(t.table.mem, t'.table.mem, Touched(s, e))
  {
    hide LinkFront, Unlink, SameAt;
    var s' := s.(table := s.table.(mem := mem));
    match e
    case FiniAbort => LoadsSame(s.table.mem, mem, Touched(s, e), s.fini.it);
    case DeleteUnlink(t) => UnlinkReads(s.table, mem, NodeOf(s, t), Touched(s, e));
    case AddLink => LinkReads(s.table, mem, s.server.c, Touched(s, e));
    case Free(t) => FreeReads(s.table.mem, mem, NodeOf(s, t), Touched(s, e));
    case _ =>
  }

  lemma LoadsSame(mem: map<Ptr, Client>, mem': map<Ptr, Client>, ps: set<Ptr>, p: Ptr)
    requires SameAt(mem, mem', ps) && p in ps
    ensures Load(mem, p) == Load(mem', p)
  {}

  lemma FreeReads(mem: map<Ptr, Client>, mem': map<Ptr, Client>, p: Ptr, ps: set<Ptr>)
    requires SameAt(mem, mem', ps)
    ensures SameAt(mem - {p}, mem' - {p}, ps)
  {}

  lemma LinkReads(t: Table, mem: map<Ptr, Client>, c: Ptr, ps: set<Ptr>)
    requires SameAt(t.mem, mem, ps)
    ensures var u, u' := LinkFront(t, c), LinkFront(t.(mem := mem), c);
            u.head == u'.head && u.count == u'.count && SameAt(u.mem, u'.mem, ps)
  {}

  lemma UnlinkReads(t: Table, mem: map<Ptr, Client>, c: Ptr, ps: set<Ptr>)
    requires SameAt(t.mem, mem, ps) && c in ps
    ensures var u, u' := Unlink(t, c), Unlink(t.(mem := mem), c);
            u.head == u'.head && u.count == u'.count && SameAt(u.mem, u'.mem, ps)
  {
    LoadsSame(t.mem, mem, ps, c);
  }

  /** The thread existed and has freed its node. */
  predicate Gone(s: State, t: Tid) {
    t in s.used && (t in s.threads ==> s.threads[t].pc.Freed?)
  }

  lemma TouchesAllocated(s: State, rest: seq<Ptr>, e: Event)
    requires Inv(s, rest) && Enabled(s, e) && !e.FiniRead?
    ensures Touched(s, e) <= s.table.mem.Keys
  {
    match e
    case AddLink =>
      if rest != [] { assert NextAt(s.table.mem, rest, 0); }
      assert ThreadOk(s, rest, s.server.t);
    case DeleteUnlink(t) =>
      var k := UnlinkPosition(s, t, rest);
      assert NextAt(s.table.mem, rest, k) && PrevAt(s.table.mem, rest, k);
      if k > 0 { assert NextAt(s.table.mem, rest, k - 1); }
      if k + 1 < |rest| { assert NextAt(s.table.mem, rest, k + 1); }
    case FiniAbort =>
      if rest != [] { assert NextAt(s.table.mem, rest, 0); }
    case Command(t) => assert ThreadOk(s, rest, t);
    case Disconnected(t) => assert ThreadOk(s, rest, t);
    case Interrupted(t) => assert ThreadOk(s, rest, t);
    case DeleteLock(t) => assert ThreadOk(s, rest, t);
    case DeleteUnlock(t) => assert ThreadOk(s, rest, t);
    case Free(t) => assert ThreadOk(s, rest, t);
    case _ =>
  }

  /** What shutdown reads after the abort is there unless the client is gone. */
  lemma ReadsAllocated(s: State, rest: seq<Ptr>, last: bool)
    requires Inv(s, rest) && Enabled(s, FiniRead(last))
    ensures Touched(s, FiniRead(last)) <= s.table.mem.Keys <==> !Gone(s, s.fini.t)
  {
    hide Chain, RestOk, ServerOk, MutexOk;
    if s.fini.t in s.threads { assert ThreadOk(s, rest, s.fini.t); }
    if s.fini.it in s.table.mem { assert NodeOk(s, s.fini.it); }
  }

  lemma GoneStep(s: State, rest: seq<Ptr>, e: Event, t: Tid)
    requires Inv(s, rest) && Enabled(s, e)
    ensures Gone(Apply(s, e), t) <==> Gone(s, t) || e == Free(t)
  {
    hide Inv, LinkFront, Unlink;
    UsedAndNew(s, rest, t);
  }

  lemma UsedAndNew(s: State, rest: seq<Ptr>, t: Tid)
    requires Inv(s, rest)
    ensures t in s.threads ==> t in s.used
    ensures s.server.Starting? ==> At(s, s.server.t, New)
  {
    hide ListOk, NodeOk, RestOk, MutexOk;
    if t in s.threads { assert ThreadOk(s, rest, t); }
  }

  lemma NobodyGone(t: Tid)
    ensures !Gone(INIT, t)
  {}

  /** A thread is gone if and only if it has freed its node in the run. */
  lemma {:induction false} GoneIff(es: seq<Event>, t: Tid)
    requires Legal(es)
    ensures Gone(After(es), t) <==> Free(t) in es
    decreases |es|
  {
    hide Inv, Enabled, Apply, Gone;
    if es == [] {
      NobodyGone(t);
    } else {
      var n := |es| - 1;
      var rest := RunKeepsInv(es[..n]);
      GoneIff(es[..n], t);
      GoneStep(After(es[..n]), rest, es[n], t);
      assert es == es[..n] + [es[n]];
    }
  }

  /** A step touches memory that is not allocated in one case only: when shutdown, having aborted
      a client's control socket, reads the client's node again and the client has freed it. Every
      other step of every run is safe; so is the cursor's saved next. */
  lemma {:induction false} NoUseAfterFree(es: seq<Event>, e: Event)
    requires Legal(es) && Enabled(After(es), e)
    ensures Touched(After(es), e) <= After(es).table.mem.Keys <==>
            !(e.FiniRead? && Free(After(es).fini.t) in es)
  {
    hide Inv, Legal, After, Touched, Gone;
    var rest := RunKeepsInv(es);
    if e.FiniRead? {
      ReadsAllocated(After(es), rest, e.last);
      GoneIff(es, After(es).fini.t);
    } else {
      TouchesAllocated(After(es), rest, e);
    }
  }

  lemma FreedIsUnlisted(s: State, ns: seq<Ptr>, t: Tid)
    requires Inv(s, ns) && Enabled(s, Free(t)) && BeforeFini(s)
    ensures IsList(s.table, ns) && t in s.threads && s.threads[t].node !in ns
  {
    assert ThreadOk(s, ns, t);
    assert forall p | p in ns :: RestOk(s, p) && NodeOk(s, p);
  }

  /** Until shutdown walks the list, a node that is freed is not in it. */
  lemma {:induction false} FreedUnlistedBeforeShutdown(es: seq<Event>, t: Tid) returns (ns: seq<Ptr>)
    requires Legal(es) && Enabled(After(es), Free(t)) && BeforeFini(After(es))
    ensures IsList(After(es).table, ns) && t in After(es).threads && After(es).threads[t].node !in ns
  {
    hide *;
    ns := RunKeepsInv(es);
    FreedIsUnlisted(After(es), ns, t);
  }

  /** What a thread's place says about the past of the run. */
  predicate PastOk(s: State, t: Tid, unlinked: bool) {
    t in s.threads ==>
      && (s.threads[t].pc.HoldsUnlinked? ==> unlinked)
      && (s.threads[t].pc.Closing? || s.threads[t].pc.Freed? ==> s.threads[t].aborted || unlinked)
  }

  lemma PastStep(s: State, e: Event, t: Tid, unlinked: bool)
    requires Enabled(s, e) && PastOk(s, t, unlinked)
    ensures PastOk(Apply(s, e), t, unlinked || e == DeleteUnlink(t))
  {
    hide LinkFront, Unlink;
  }

  lemma {:induction false} PastOfRun(es: seq<Event>, t: Tid)
    requires Legal(es)
    ensures PastOk(After(es), t, DeleteUnlink(t) in es)
    decreases |es|
  {
    hide Enabled, Apply, PastOk;
    if es == [] {
      NoPast(t);
    } else {
      var n := |es| - 1;
      PastOfRun(es[..n], t);
      PastStep(After(es[..n]), es[n], t, DeleteUnlink(t) in es[..n]);
      assert es == es[..n] + [es[n]];
    }
  }

  lemma NoPast(t: Tid)
    ensures PastOk(INIT, t, false)
  {}

  /** In every run, shutdown included, a client frees itself only after it has taken itself off
      the list or was aborted: only aborted clients leave their node linked. */
  lemma {:induction false} OnlyAbortedLeaveLinked(es: seq<Event>, t: Tid)
    requires Legal(es) && Enabled(After(es), Free(t))
    ensures t in After(es).threads && (After(es).threads[t].aborted || DeleteUnlink(t) in es)
  {
    hide Legal, After;
    PastOfRun(es, t);
  }

  lemma JoinedNode(s: State, rest: seq<Ptr>)
    requires Inv(s, rest) && Enabled(s, FiniJoined)
    ensures forall p | p in s.table.mem :: s.table.mem[p].thid != s.fini.t
  {
    assert forall p | p in s.table.mem :: NodeOk(s, p);
  }

  /** The cursor has to be moved by the next saved before the join: when the join is over, the
      joined client's node has always been freed. */
  lemma {:induction false} JoinedIsFreed(es: seq<Event>)
    requires Legal(es) && Enabled(After(es), FiniJoined)
    ensures forall p | p in After(es).table.mem :: After(es).table.mem[p].thid != After(es).fini.t
  {
    hide Inv, Apply;
    var rest := RunKeepsInv(es);
    JoinedNode(After(es), rest);
  }

  /** The threads that no longer need the list. */
  predicate Leaving(s: State) {
    forall t | t in s.threads :: s.threads[t].pc.Closing? || s.threads[t].pc.Freed?
  }

  lemma LeavingAfterFini(s: State, rest: seq<Ptr>)
    requires Inv(s, rest) && (s.fini.Released? || s.fini.Finished?)
    ensures s.server.Ended? && s.mutex.Nobody? && Leaving(s)
  {
    forall t | t in s.threads ensures s.threads[t].pc.Closing? || s.threads[t].pc.Freed? {
      assert ThreadOk(s, rest, t);
    }
  }

  /** Once shutdown has let go of the mutex, no thread is left that would take it again or
      look at the list; so deleting the mutex and resetting the list is safe. */
  lemma {:induction false} NobodyAfterFini(es: seq<Event>)
    requires Legal(es) && (After(es).fini.Released? || After(es).fini.Finished?)
    ensures After(es).server.Ended? && After(es).mutex.Nobody? && Leaving(After(es))
  {
    hide *;
    var rest := RunKeepsInv(es);
    LeavingAfterFini(After(es), rest);
  }

  /** And when shutdown is over, client_list is the empty list. */
  lemma {:induction false} EmptyAfterFini(es: seq<Event>)
    requires Legal(es) && After(es).fini.Finished?
    ensures IsList(After(es).table, []) && After(es).table.head == NULL && After(es).table.count == 0
  {
    hide After, Legal;
    var rest := RunKeepsInv(es);
  }

  lemma ClosedStays(s: State, e: Event)
    requires Enabled(s, e)
    ensures Apply(s, e).socketClosed == (s.socketClosed || e == CloseServer)
  {
    hide LinkFront, Unlink;
  }

  lemma {:induction false} ClosedIff(es: seq<Event>)
    requires Legal(es)
    ensures After(es).socketClosed <==> CloseServer in es
    decreases |es|
  {
    hide Enabled, Apply;
    if es != [] {
      var n := |es| - 1;
      ClosedIff(es[..n]);
      ClosedStays(After(es[..n]), es[n]);
      assert es == es[..n] + [es[n]];
    }
  }

  /** Once the server socket is closed no client is accepted any more. */
  lemma {:induction false} NoAcceptAfterClose(es: seq<Event>, e: Event)
    requires Legal(es) && CloseServer in es && Enabled(After(es), e)
    ensures !e.Accept?
  {
    hide After, Legal;
    ClosedIff(es);
  }

  /** t has taken itself off the list, or is gone. */
  predicate Unlisted(s: State, t: Tid) {
    t in s.used && (t in s.threads ==> s.threads[t].pc in {HoldsUnlinked, Closing, Freed})
  }

  lemma UnlistedStays(s: State, rest: seq<Ptr>, e: Event, t: Tid)
    requires Inv(s, rest) && Unlisted(s, t) && Enabled(s, e)
    ensures Unlisted(Apply(s, e), t)
  {
    hide IsList, Chain, LinkFront, Unlink;
    if e.Start? { assert ServerOk(s, rest); }
  }

  lemma UnlistedNow(s: State, rest: seq<Ptr>, t: Tid)
    requires Inv(s, rest) && Enabled(s, DeleteUnlink(t))
    ensures Unlisted(Apply(s, DeleteUnlink(t)), t)
  {
    hide IsList, Chain, LinkFront, Unlink;
    assert ThreadOk(s, rest, t);
  }

  lemma {:induction false} UnlistedForGood(es: seq<Event>, i: nat, t: Tid)
    requires Legal(es) && i < |es| && es[i] == DeleteUnlink(t)
    ensures Unlisted(After(es), t)
    decreases |es|
  {
    hide Inv, Unlisted, Apply, Enabled;
    var n := |es| - 1;
    var before := es[..n];
    var rest := RunKeepsInv(before);
    if i < n {
      UnlistedForGood(before, i, t);
      UnlistedStays(After(before), rest, es[n], t);
    } else {
      UnlistedNow(After(before), rest, t);
    }
  }

  /** Each client is unlinked at most once. */
  lemma {:induction false} UnlinkedOnce(es: seq<Event>, i: nat, j: nat, t: Tid)
    requires Legal(es) && i < j < |es| && es[i] == DeleteUnlink(t)
    ensures es[j] != DeleteUnlink(t)
  {
    LegalPrefix(es, j);
    LegalPrefix(es, j + 1);
    assert es[..j + 1][..j] == es[..j];
    UnlistedForGood(es[..j], i, t);
  }

  lemma {:induction false} LegalPrefix(es: seq<Event>, k: nat)
    requires Legal(es) && k <= |es|
    ensures Legal(es[..k])
    decreases |es|
  {
    if k < |es| {
      LegalPrefix(es[..|es| - 1], k);
      assert es[..|es| - 1][..k] == es[..k];
    } else {
      assert es[..k] == es;
    }
  }

  lemma Extend(es: seq<Event>, e: Event)
    requires Legal(es) && Enabled(After(es), e)
    ensures Legal(es + [e]) && After(es + [e]) == Apply(After(es), e)
  {
    assert (es + [e])[..|es|] == es;
  }

  /** One client whose thread is at pc, and shutdown not begun. */
  function OneClient(pc: Pc): State {
    State(Table(map[1 := Client(NULL, NULL, 1)], 1, 1), map[1 := Thread(1, pc, false)], {1},
          Accepting, false, Idle, Nobody)
  }

  /** The same with shutdown just after the abort of the client's control socket. */
  function OneAborted(pc: Pc): State {
    OneClient(pc).(threads := map[1 := Thread(1, pc, true)], server := Ended, socketClosed := true,
                   fini := Aborting(1, 1, NULL), mutex := ByFini)
  }

  lemma ClientArrives() returns (es: seq<Event>)
    ensures Legal(es) && After(es) == OneClient(Receiving) && Accept(1, 1, 0, 0) in es
  {
    hide Legal, After;
    es := Begin();
    es := Then(es, Accept(1, 1, 0, 0));
    es := Then(es, AddLock);
    es := Then(es, AddLink);
    es := Then(es, AddUnlock);
    es := Then(es, Start);
  }

  lemma ShutdownBegins(es: seq<Event>, pc: Pc) returns (fs: seq<Event>)
    requires Legal(es) && After(es) == OneClient(pc)
    ensures Legal(fs) && es <= fs && After(fs) == OneAborted(pc)
  {
    hide Legal, After;
    fs := Then(es, CloseServer);
    fs := Then(fs, AcceptFails);
    fs := Then(fs, ServerJoined);
    fs := Then(fs, FiniLock);
    fs := Then(fs, FiniAbort);
  }

  lemma ShutdownEnds(es: seq<Event>) returns (fs: seq<Event>)
    requires Legal(es) && After(es) == OneAborted(Receiving)
    ensures Legal(fs) && es <= fs && After(fs).fini.Finished?
  {
    hide Legal, After;
    fs := Then(es, FiniRead(true));
    fs := Then(fs, Interrupted(1));
    fs := Then(fs, Free(1));
    fs := Then(fs, Exit(1));
    fs := Then(fs, FiniJoined);
    fs := Then(fs, FiniUnlock);
    fs := Then(fs, FiniReset);
  }

  /** A client connects, is started, and is aborted and freed by a shutdown that completes. */
  lemma {:induction false} ShutdownCompletes() returns (es: seq<Event>)
    ensures Legal(es) && After(es).fini.Finished? && Accept(1, 1, 0, 0) in es
  {
    hide *;
    var arrived := ClientArrives();
    var begun := ShutdownBegins(arrived, Receiving);
    es := ShutdownEnds(begun);
    assert arrived <= es;
  }

  /** The unsafe read happens: the client gets away between the abort and the read. */
  lemma {:induction false} ShutdownReadsFreed(last: bool) returns (es: seq<Event>)
    ensures Legal(es) && Enabled(After(es), FiniRead(last))
    ensures !(Touched(After(es), FiniRead(last)) <= After(es).table.mem.Keys)
  {
    hide Legal, After;
    var arrived := ClientArrives();
    es := ShutdownBegins(arrived, Receiving);
    es := Then(es, Interrupted(1));
    es := Then(es, Free(1));
  }

  lemma Begin() returns (es: seq<Event>)
    ensures Legal(es) && es == [] && After(es) == INIT
  {
    es := [];
  }

  lemma Then(es: seq<Event>, e: Event) returns (r: seq<Event>)
    requires Legal(es) && Enabled(After(es), e)
    ensures Legal(r) && r == es + [e] && After(r) == Apply(After(es), e)
  {
    Extend(es, e);
    r := es + [e];
  }

  // ---------------------------------------------------------------------------
  // Where shutdown can hang
  // ---------------------------------------------------------------------------

  /** No client waits for the mutex to delete itself from the list. */
  predicate NobodyWaits(s: State) {
    forall t | t in s.threads :: !s.threads[t].pc.WantsDelete?
  }

  /** Shutdown waits for t, which waits for the mutex that shutdown holds. */
  predicate Hangs(s: State, t: Tid) {
    s.fini.Joining? && s.fini.t == t && At(s, t, WantsDelete)
  }

  lemma WaiterStep(s: State, rest: seq<Ptr>, e: Event, t: Tid)
    requires Inv(s, rest) && Walking(s) && At(s, t, WantsDelete) && Enabled(s, e)
    ensures Walking(Apply(s, e)) && At(Apply(s, e), t, WantsDelete)
    ensures Hangs(s, t) ==> Hangs(Apply(s, e), t)
  {
    hide IsList, Chain, LinkFront, Unlink;
    assert s.mutex == ByFini && s.server.Ended?;
    assert ThreadOk(s, rest, t);
    if s.fini == Cursor(NULL) { EmptyAtNull(s, rest); }
  }

  /** A client that waits for the mutex while shutdown has it waits, and keeps shutdown from
      the end of the list, after every continuation of the run. */
  lemma {:induction false} WaiterForGood(es: seq<Event>, k: nat, t: Tid)
    requires Legal(es) && k <= |es|
    ensures Legal(es[..k])
    ensures Walking(After(es[..k])) && At(After(es[..k]), t, WantsDelete) ==>
              Walking(After(es)) && At(After(es), t, WantsDelete)
    ensures Hangs(After(es[..k]), t) ==> Hangs(After(es), t)
    decreases |es|
  {
    hide Inv, Hangs, Walking, At, Apply, Enabled;
    var n := |es| - 1;
    LegalPrefix(es, k);
    if k == |es| {
      assert es[..k] == es;
    } else {
      assert es[..n][..k] == es[..k];
      WaiterForGood(es[..n], k, t);
      HangsIsWaiting(After(es[..n]), t);
      HangsIsWaiting(After(es[..k]), t);
      if Walking(After(es[..n])) && At(After(es[..n]), t, WantsDelete) {
        var rest := RunKeepsInv(es[..n]);
        WaiterStep(After(es[..n]), rest, es[n], t);
      }
    }
  }

  lemma HangsIsWaiting(s: State, t: Tid)
    ensures Hangs(s, t) ==> Walking(s) && At(s, t, WantsDelete)
  {}

  /** Shutdown's own next step, or the one it waits for: the joined client is interrupted, frees
      its node and ends. */
  function NextMove(s: State): Event
    requires Walking(s)
  {
    match s.fini
    case Joining(t, _) =>
      if t !in s.threads then FiniJoined
      else if s.threads[t].pc.Closing? then Free(t)
      else if s.threads[t].pc.Freed? then Exit(t)
      else Interrupted(t)
    case Aborting(_, _, _) => FiniRead(true)
    case Cursor(it) => if it == NULL then FiniUnlock else FiniAbort
  }

  /** How far shutdown has to go with the client it ends. */
  function Left(s: State): nat
    requires Walking(s)
  {
    if s.fini.Cursor? then 0
    else if s.fini.Aborting? then 5
    else if s.fini.t !in s.threads then 1
    else if s.threads[s.fini.t].pc.Freed? then 2
    else if s.threads[s.fini.t].pc.Closing? then 3
    else 4
  }

  /** The step is possible unless the join hangs; a client can be interrupted because it was
      aborted. */
  lemma NextMoveEnabled(s: State, rest: seq<Ptr>)
    requires Inv(s, rest) && Walking(s) && (s.fini.Joining? ==> !Hangs(s, s.fini.t))
    ensures Enabled(s, NextMove(s)) && (NobodyWaits(s) ==> NobodyWaits(Apply(s, NextMove(s))))
    ensures s.fini.Cursor? ==> (s.fini.it == NULL <==> rest == [])
  {
    assert s.mutex == ByFini && s.server.Ended?;
    if s.fini.Joining? && s.fini.t in s.threads {
      assert ThreadOk(s, rest, s.fini.t);
      if s.threads[s.fini.t].node in rest { assert RestOk(s, s.threads[s.fini.t].node); }
    }
    if s.fini.Cursor? { FirstNullIff(s.table.mem, rest); }
  }

  /** It leads on: down the list at a new client, else towards the end of the join. */
  lemma NextMoveLeads(s: State, rest: seq<Ptr>) returns (rest': seq<Ptr>)
    requires Inv(s, rest) && Walking(s) && Enabled(s, NextMove(s))
    requires s.fini.Cursor? ==> rest != []
    ensures Inv(Apply(s, NextMove(s)), rest') && Walking(Apply(s, NextMove(s)))
    ensures s.fini.Cursor? ==> |rest'| < |rest|
    ensures !s.fini.Cursor? ==> rest' == rest && Left(Apply(s, NextMove(s))) < Left(s)
  {
    hide Inv, ListOk;
    rest' := rest;
    match NextMove(s)
    case Interrupted(t) => InterruptedStep(s, t, rest);
    case Free(t) => FreeStep(s, t, rest);
    case Exit(t) => ExitStep(s, t, rest);
    case FiniRead(last) => FiniSteps(s, FiniRead(last), rest);
    case FiniJoined => FiniSteps(s, FiniJoined, rest);
    case FiniAbort =>
      AbortStep(s, rest);
      rest' := rest[1..];
    case FiniUnlock => EmptyAtNull(s, rest);
  }

  /** The step brings the end of the join nearer. */
  predicate Nears(s: State, e: Event)
    requires Walking(s)
  {
    Enabled(s, e) && var s' := Apply(s, e); Walking(s') && Left(s') < Left(s)
  }

  /** While shutdown joins a client, some step brings the end of the join nearer if and only if
      the client is not waiting for the mutex. */
  lemma {:induction false} JoinMovesIff(es: seq<Event>)
    requires Legal(es) && After(es).fini.Joining?
    ensures var s := After(es);
            (exists e :: Nears(s, e)) <==> !Hangs(s, s.fini.t)
  {
    hide Inv, Legal, After, Apply, Enabled, NextMove, At;
    var rest := RunKeepsInv(es);
    var s := After(es);
    var t := s.fini.t;
    if Hangs(s, t) {
      HangsIsWaiting(s, t);
      forall e ensures !Nears(s, e) {
        if Enabled(s, e) {
          WaiterStep(s, rest, e, t);
          StillFar(s, Apply(s, e), t);
        }
      }
    } else {
      NextMoveEnabled(s, rest);
      var rest' := NextMoveLeads(s, rest);
      assert Nears(s, NextMove(s));
    }
  }

  lemma StillFar(s: State, s': State, t: Tid)
    requires Hangs(s, t) && Hangs(s', t)
    ensures Left(s') == Left(s)
  {}

  lemma NoHang(s: State)
    requires NobodyWaits(s)
    ensures s.fini.Joining? ==> !Hangs(s, s.fini.t)
  {}

  /** When nobody waits the run can be completed. */
  lemma {:induction false} Finish(es: seq<Event>, rest: seq<Ptr>) returns (fs: seq<Event>)
    requires Legal(es) && Inv(After(es), rest) && Walking(After(es)) && NobodyWaits(After(es))
    ensures Legal(fs) && es <= fs && After(fs).fini.Finished?
    decreases |rest|, Left(After(es))
  {
    hide Inv, Legal, After, Left, NobodyWaits, NextMove;
    var s := After(es);
    NoHang(s);
    NextMoveEnabled(s, rest);
    if s.fini == Cursor(NULL) {
      fs := Then(es, FiniUnlock);
      fs := Then(fs, FiniReset);
    } else {
      var rest' := NextMoveLeads(s, rest);
      var next := Then(es, NextMove(s));
      fs := Finish(next, rest');
    }
  }

  /** Once shutdown has the mutex it can still finish if and only if no client is waiting for
      the mutex to delete itself from the list. */
  lemma {:induction false} ShutdownCanFinishIff(es: seq<Event>)
    requires Legal(es) && Walking(After(es))
    ensures (exists fs :: Legal(fs) && es <= fs && After(fs).fini.Finished?) <==>
            forall t | t in After(es).threads :: !After(es).threads[t].pc.WantsDelete?
  {
    hide Inv, Legal, After;
    var rest := RunKeepsInv(es);
    if NobodyWaits(After(es)) {
      var fs := Finish(es, rest);
    } else {
      var t :| t in After(es).threads && After(es).threads[t].pc.WantsDelete?;
      forall fs | Legal(fs) && es <= fs ensures !After(fs).fini.Finished? {
        assert fs[..|es|] == es;
        WaiterForGood(fs, |es|, t);
      }
    }
  }

  /** In particular a join of a waiting client hangs in every continuation. */
  lemma {:induction false} HangsForGood(es: seq<Event>, k: nat, t: Tid)
    requires Legal(es) && k <= |es|
    ensures Legal(es[..k]) && (Hangs(After(es[..k]), t) ==> Hangs(After(es), t))
  {
    hide *;
    WaiterForGood(es, k, t);
  }

  /** It happens: a client disconnects just before shutdown takes the mutex. */
  lemma {:induction false} ShutdownCanHang() returns (es: seq<Event>)
    ensures Legal(es) && Hangs(After(es), 1)
  {
    hide Legal, After;
    var arrived := ClientArrives();
    var leaving := Then(arrived, Disconnected(1));
    es := ShutdownBegins(leaving, WantsDelete);
    es := Then(es, FiniRead(true));
  }
}
