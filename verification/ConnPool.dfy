/**
 The pool of upstream HTTP/1.1 connections (`_fib_insert`, `_fib_query`, `post_forward_*` and `process_msg` in
 beeline/src/bpf/base.bpf.c; the opening of connections in beeline/src/proxy.rs). Idle connections wait in one bounded
 queue per upstream address; a map from the proxy's side of a connection to a client routes the response back.
 */
module ConnPool {
  datatype Addr = Addr(ip: nat, port: nat)

  /** A socket, from the side that owns it: an upstream connection has the server's address as `local` and the proxy's
      as `remote`. */
  datatype Sock = Sock(local: Addr, remote: Addr)

  const QUEUE_CAPACITY := 8192

  /** `fib_upstream`, `fib_downstream` and `utrn_wait_list`; the upstream connections opened so far; and, for those with
      a request under way, whose request it is. */
  datatype Pool = Pool(queues: map<Addr, seq<Sock>>, fib: map<Addr, Sock>, waits: map<Sock, Addr>,
                       established: set<Sock>, busy: map<Sock, Sock>)

  /** `bpf_map_push_elem` with BPF_EXIST: a full queue loses its oldest entry. */
  function PushElem(q: seq<Sock>, u: Sock): seq<Sock>
  {
    (if |q| >= QUEUE_CAPACITY then q[1..] else q) + [u]
  }

  /** Makes an upstream connection available; false if there is no queue for its address. */
  function Reinsert(p: Pool, u: Sock): Pool
  {
    if u.local in p.queues then p.(queues := p.queues[u.local := PushElem(p.queues[u.local], u)]) else p
  }

  datatype Verdict = Redirected(to: Sock) | UTurn | Dropped

  /** A request from client d to `dest`; `reached` says whether the redirection to the socket worked. */
  function Request(p: Pool, d: Sock, dest: Addr, reached: bool): (Pool, Verdict)
  {
    if dest !in p.queues then (p, Dropped)
    else
      var q := p.queues[dest];
      if q == [] then (p.(waits := p.waits[d := dest]), UTurn)
      else
        var u := q[0];
        var p1 := p.(queues := p.queues[dest := q[1..]], fib := p.fib[u.remote := d]);
        if reached then (p1.(busy := p1.busy[u := d]), Redirected(u))
        else (p1.(waits := p1.waits[d := dest]), UTurn)
  }

  /** The response on connection u: routed by the proxy's side of it, which is free again afterwards; `reached` as for
      requests. */
  function Response(p: Pool, u: Sock, reached: bool): (Pool, Verdict)
  {
    var p1 := Reinsert(p.(busy := p.busy - {u}), u);
    if u.remote !in p.fib then (p1, Dropped)
    else if reached then (p1, Redirected(p.fib[u.remote]))
    else (p1.(waits := p1.waits[u := u.remote]), UTurn)
  }

  /** The control plane opens connection u for client d, which waits for its address, and sends the request on it. */
  function Open(p: Pool, d: Sock, u: Sock): Pool
  {
    p.(waits := p.waits - {d}, fib := p.fib[u.remote := d], established := p.established + {u}, busy := p.busy[u := d])
  }

  /** The least recently used route goes when the map is full. */
  function Evict(p: Pool, a: Addr): Pool
  {
    p.(fib := p.fib - {a})
  }

  datatype Step =
    | RequestStep(client: Sock, dest: Addr, reached: bool)
    | ResponseStep(conn: Sock, reached: bool)
    | OpenStep(client: Sock, conn: Sock)
    | EvictStep(addr: Addr)

  /** Upstreams answer each request once; the kernel never gives two connections the same address on the proxy's
      side. */
  predicate Possible(p: Pool, s: Step)
  {
    match s
    case RequestStep(_, _, _) => true
    case ResponseStep(u, _) => u in p.busy
    case OpenStep(d, u) =>
      && d in p.waits && p.waits[d] == u.local
      && forall v :: v in p.established ==> v.remote != u.remote
    case EvictStep(_) => true
  }

  function Next(p: Pool, s: Step): Pool
  {
    match s
    case RequestStep(d, dest, reached) => Request(p, d, dest, reached).0
    case ResponseStep(u, reached) => Response(p, u, reached).0
    case OpenStep(d, u) => Open(p, d, u)
    case EvictStep(a) => Evict(p, a)
  }

  /** What is in a queue: open connections to that address, none twice, none with a request under way. */
  predicate QueueOk(p: Pool, a: Addr, q: seq<Sock>)
  {
    && |q| <= QUEUE_CAPACITY
    && (forall i :: 0 <= i < |q| ==> q[i] in p.established && q[i].local == a && q[i] !in p.busy)
    && (forall i, j :: 0 <= i < j < |q| ==> q[i] != q[j])
  }

  predicate Apart(established: set<Sock>)
  {
    forall u, v :: u in established && v in established && u.remote == v.remote ==> u == v
  }

  /** The route of a connection with a request under way leads to the client of that request. */
  predicate RoutesOk(p: Pool)
  {
    forall u :: u in p.busy ==> u in p.established && (u.remote in p.fib ==> p.fib[u.remote] == p.busy[u])
  }

  predicate Inv(p: Pool)
  {
    && (forall a :: a in p.queues ==> QueueOk(p, a, p.queues[a]))
    && Apart(p.established)
    && RoutesOk(p)
  }

  /** Connections that change do not touch a queue they are not in. */
  lemma QueueKept(p: Pool, p1: Pool, a: Addr, q: seq<Sock>)
    requires QueueOk(p, a, q) && p.established <= p1.established
    requires forall i :: 0 <= i < |q| ==> q[i] !in p1.busy
    ensures QueueOk(p1, a, q)
  {
  }

  /** A request is dropped exactly when there is no queue for its destination, and redirected exactly when a connection
      is idle there and can be reached: to the one that waited longest, which no other request uses. Every other request
      makes a U-turn, and its client is noted with the destination. */
  lemma RequestKeeps(p: Pool, d: Sock, dest: Addr, reached: bool)
    requires Inv(p)
    ensures var (p1, v) := Request(p, d, dest, reached);
            && Inv(p1) && p1.established == p.established && p1.queues.Keys == p.queues.Keys
            && (v.Dropped? <==> dest !in p.queues)
            && (v.Redirected? <==> dest in p.queues && p.queues[dest] != [] && reached)
            && (v.Dropped? ==> p1 == p)
            && (v.UTurn? ==> p1.waits == p.waits[d := dest] && p1.busy == p.busy)
            && (v.Redirected? ==>
                  && v.to == p.queues[dest][0] && v.to.local == dest && v.to !in p.busy
                  && p1.busy == p.busy[v.to := d] && p1.fib == p.fib[v.to.remote := d] && p1.waits == p.waits)
            && (dest in p.queues && p.queues[dest] != [] ==> p.queues[dest] == [p.queues[dest][0]] + p1.queues[dest])
            && (forall a :: a in p.queues && (a != dest || p.queues[a] == []) ==> p1.queues[a] == p.queues[a])
  {
    hide QueueOk;
    var (p1, v) := Request(p, d, dest, reached);
    if dest in p.queues && p.queues[dest] != [] {
      var q := p.queues[dest];
      var u := q[0];
      HeadIdle(p, dest, q);
      forall a | a in p1.queues ensures QueueOk(p1, a, p1.queues[a]) {
        if a == dest {
          HeadTaken(p, p1, dest, q);
        } else {
          ElsewhereNot(p, a, p.queues[a], u);
          QueueKept(p, p1, a, p.queues[a]);
        }
      }
    } else {
      forall a | a in p1.queues ensures QueueOk(p1, a, p1.queues[a]) {
        QueueIdle(p, a, p.queues[a]);
        QueueKept(p, p1, a, p.queues[a]);
      }
    }
  }

  lemma HeadIdle(p: Pool, a: Addr, q: seq<Sock>)
    requires QueueOk(p, a, q) && q != []
    ensures q[0] in p.established && q[0].local == a && q[0] !in p.busy
  {
  }

  lemma HeadTaken(p: Pool, p1: Pool, a: Addr, q: seq<Sock>)
    requires QueueOk(p, a, q) && q != [] && p1.established == p.established
    requires forall u :: u in p1.busy ==> u in p.busy || u == q[0]
    ensures QueueOk(p1, a, q[1..])
  {
  }

  lemma QueueIdle(p: Pool, a: Addr, q: seq<Sock>)
    requires QueueOk(p, a, q)
    ensures forall i :: 0 <= i < |q| ==> q[i] !in p.busy
  {
  }

  lemma ElsewhereNot(p: Pool, a: Addr, q: seq<Sock>, u: Sock)
    requires QueueOk(p, a, q) && u.local != a
    ensures forall i :: 0 <= i < |q| ==> q[i] !in p.busy && q[i] != u
  {
  }

  /** The response goes to the client whose request is under way on the connection, if its route is still there; the
      connection is idle again, behind all that wait already, of which only the oldest goes when the queue is full. */
  lemma ResponseKeeps(p: Pool, u: Sock, reached: bool)
    requires Inv(p) && u in p.busy
    ensures var (p1, v) := Response(p, u, reached);
            && Inv(p1) && u !in p1.busy
            && v == (if u.remote !in p.fib then Dropped else if reached then Redirected(p.busy[u]) else UTurn)
            && p1 == p.(queues := p1.queues, waits := p1.waits, busy := p.busy - {u})
            && p1.waits == (if v.UTurn? then p.waits[u := u.remote] else p.waits)
            && p1.queues.Keys == p.queues.Keys
            && (forall a :: a in p.queues && a != u.local ==> p1.queues[a] == p.queues[a])
            && (u.local in p.queues ==>
                  var q := p.queues[u.local];
                  p1.queues[u.local] == (if |q| < QUEUE_CAPACITY then q else q[1..]) + [u])
  {
    hide QueueOk, Apart;
    var (p1, v) := Response(p, u, reached);
    assert u in p.established;
    forall a | a in p1.queues ensures QueueOk(p1, a, p1.queues[a]) {
      if a == u.local {
        Returned(p, p1, a, p.queues[a], u);
      } else {
        QueueIdle(p, a, p.queues[a]);
        QueueKept(p, p1, a, p.queues[a]);
      }
    }
  }

  lemma Returned(p: Pool, p1: Pool, a: Addr, q: seq<Sock>, u: Sock)
    requires QueueOk(p, a, q) && u in p.busy && u in p.established && u.local == a
    requires p1.established == p.established && p1.busy == p.busy - {u}
    ensures QueueOk(p1, a, PushElem(q, u))
  {
  }

  lemma OpenKeeps(p: Pool, d: Sock, u: Sock)
    requires Inv(p) && Possible(p, OpenStep(d, u))
    ensures var p1 := Open(p, d, u);
            && Inv(p1) && u !in p.busy && p1.busy == p.busy[u := d]
            && Response(p1, u, true).1 == Redirected(d) && d !in p1.waits
  {
    hide QueueOk;
    var p1 := Open(p, d, u);
    forall a | a in p1.queues ensures QueueOk(p1, a, p1.queues[a]) {
      NotQueued(p, a, p.queues[a], u);
      QueueKept(p, p1, a, p.queues[a]);
    }
    forall w | w in p1.busy && w != u ensures w.remote != u.remote {
      assert w in p.established;
    }
  }

  lemma NotQueued(p: Pool, a: Addr, q: seq<Sock>, u: Sock)
    requires QueueOk(p, a, q) && u !in p.established
    ensures forall i :: 0 <= i < |q| ==> q[i] !in p.busy && q[i] != u
  {
  }

  lemma NextKeeps(p: Pool, s: Step)
    requires Inv(p) && Possible(p, s)
    ensures Inv(Next(p, s))
  {
    hide Inv, Request, Response, Open;
    match s
    case RequestStep(d, dest, reached) => RequestKeeps(p, d, dest, reached);
    case ResponseStep(u, reached) => ResponseKeeps(p, u, reached);
    case OpenStep(d, u) => OpenKeeps(p, d, u);
    case EvictStep(a) => EvictKeeps(p, a);
  }

  lemma EvictKeeps(p: Pool, addr: Addr)
    requires Inv(p)
    ensures Inv(Evict(p, addr))
  {
    hide QueueOk;
    forall a | a in p.queues ensures QueueOk(Evict(p, addr), a, p.queues[a]) {
      QueueIdle(p, a, p.queues[a]);
      QueueKept(p, Evict(p, addr), a, p.queues[a]);
    }
  }

  predicate PossibleRun(p: Pool, ss: seq<Step>)
    decreases |ss|
  {
    ss != [] ==> Possible(p, ss[0]) && PossibleRun(Next(p, ss[0]), ss[1..])
  }

  function Run(p: Pool, ss: seq<Step>): Pool
    decreases |ss|
  {
    if ss == [] then p else Run(Next(p, ss[0]), ss[1..])
  }

  lemma {:induction false} RunKeeps(p: Pool, ss: seq<Step>)
    requires Inv(p) && PossibleRun(p, ss)
    ensures Inv(Run(p, ss))
    decreases |ss|
  {
    hide Inv, Next, Possible;
    if ss != [] {
      NextKeeps(p, ss[0]);
      RunKeeps(Next(p, ss[0]), ss[1..]);
    }
  }

  // ----- when a route is there

  /** Step s sets the route of address a. */
  predicate SetsRoute(p: Pool, s: Step, a: Addr)
  {
    match s
    case RequestStep(_, dest, _) => dest in p.queues && p.queues[dest] != [] && p.queues[dest][0].remote == a
    case OpenStep(_, u) => u.remote == a
    case _ => false
  }

  /** Whether the route of a was evicted in the run and not set again since; `was` says so of what came before. */
  predicate EvictedSince(p: Pool, ss: seq<Step>, a: Addr, was: bool)
    decreases |ss|
  {
    if ss == [] then was
    else
      EvictedSince(Next(p, ss[0]), ss[1..], a, if SetsRoute(p, ss[0], a) then false else was || ss[0] == EvictStep(a))
  }

  /** Some connection has this address on the proxy's side. */
  predicate InUse(p: Pool, a: Addr)
  {
    exists u :: u in p.established && u.remote == a
  }

  predicate RouteThere(p: Pool, a: Addr, evicted: bool)
  {
    a in p.fib <==> InUse(p, a) && !evicted
  }

  lemma RouteStep(p: Pool, s: Step, a: Addr, was: bool)
    requires Inv(p) && Possible(p, s) && RouteThere(p, a, was)
    ensures RouteThere(Next(p, s), a, if SetsRoute(p, s, a) then false else was || s == EvictStep(a))
  {
    hide QueueOk, Apart, RoutesOk, Response;
    var p1 := Next(p, s);
    match s
    case RequestStep(d, dest, reached) =>
      if dest in p.queues && p.queues[dest] != [] {
        HeadIdle(p, dest, p.queues[dest]);
      }
    case ResponseStep(u, reached) =>
      ResponseKeeps(p, u, reached);
    case OpenStep(d, u) =>
      assert u in p1.established;
      forall v | v in p.established ensures v in p1.established {
      }
    case EvictStep(b) =>
  }

  /** Over any run, the route of a connection is missing if and only if it was evicted since it was last set. */
  lemma {:induction false} RouteMissing(p: Pool, ss: seq<Step>, a: Addr, was: bool)
    requires Inv(p) && PossibleRun(p, ss) && RouteThere(p, a, was)
    ensures RouteThere(Run(p, ss), a, EvictedSince(p, ss, a, was))
    decreases |ss|
  {
    hide Inv, Next, Possible, RouteThere, SetsRoute;
    if ss != [] {
      NextKeeps(p, ss[0]);
      RouteStep(p, ss[0], a, was);
      RouteMissing(Next(p, ss[0]), ss[1..], a, if SetsRoute(p, ss[0], a) then false else was || ss[0] == EvictStep(a));
    }
  }

  lemma {:induction false} NeverEvicted(p: Pool, ss: seq<Step>, a: Addr)
    requires EvictStep(a) !in ss
    ensures !EvictedSince(p, ss, a, false)
    decreases |ss|
  {
    hide Next, SetsRoute;
    if ss != [] {
      assert ss[0] in ss;
      assert EvictStep(a) !in ss[1..];
      NeverEvicted(Next(p, ss[0]), ss[1..], a);
    }
  }

  function Start(addrs: set<Addr>): Pool
  {
    Pool(map a | a in addrs :: [], map[], map[], {}, map[])
  }

  /** From an empty pool, after any run: a connection is in a queue at most once and never while a request is under way
      on it; its route leads to the client of that request, and so does its response, unless the route was evicted since
      it was last set, and then the response is dropped. */
  lemma Safety(addrs: set<Addr>, ss: seq<Step>, u: Sock)
    requires PossibleRun(Start(addrs), ss)
    ensures var p := Run(Start(addrs), ss);
            && Inv(p)
            && (u in p.busy ==>
                  && (forall a :: a in p.queues ==> u !in p.queues[a])
                  && (u.remote in p.fib ==> p.fib[u.remote] == p.busy[u])
                  && (u.remote !in p.fib <==> EvictedSince(Start(addrs), ss, u.remote, false))
                  && Response(p, u, true).1 == if u.remote in p.fib then Redirected(p.busy[u]) else Dropped)
  {
    hide Run, PossibleRun, QueueOk, EvictedSince;
    var p0 := Start(addrs);
    EmptyQueues(addrs);
    RunKeeps(p0, ss);
    var p := Run(p0, ss);
    if u in p.busy {
      RouteMissing(p0, ss, u.remote, false);
      forall a | a in p.queues ensures u !in p.queues[a] {
        QueueIdle(p, a, p.queues[a]);
      }
    }
  }

  lemma EmptyQueues(addrs: set<Addr>)
    ensures Inv(Start(addrs))
  {
  }

  /** Without evictions, the route of every connection with a request under way names the client of that request. */
  lemma SafetyWithoutEviction(addrs: set<Addr>, ss: seq<Step>)
    requires PossibleRun(Start(addrs), ss) && forall i :: 0 <= i < |ss| ==> !ss[i].EvictStep?
    ensures var p := Run(Start(addrs), ss);
            forall u :: u in p.busy ==>
              u.remote in p.fib && p.fib[u.remote] == p.busy[u] && Response(p, u, true).1 == Redirected(p.busy[u])
  {
    hide Run, PossibleRun, EvictedSince, Inv, Response;
    var p := Run(Start(addrs), ss);
    forall u | u in p.busy
      ensures u.remote in p.fib && p.fib[u.remote] == p.busy[u] && Response(p, u, true).1 == Redirected(p.busy[u])
    {
      Safety(addrs, ss, u);
      NeverEvicted(Start(addrs), ss, u.remote);
    }
  }

  /** A client whose request makes a U-turn is served: the control plane can open any fresh connection u to the
      destination for it, the response on u goes to this client, and if no other connection is idle there, the next
      request to that destination is sent on u. */
  lemma UTurnServed(p: Pool, d: Sock, dest: Addr, reached: bool, u: Sock, next: Sock)
    requires Inv(p) && dest in p.queues && (p.queues[dest] == [] || !reached)
    requires u.local == dest && forall v :: v in p.established ==> v.remote != u.remote
    ensures PossibleRun(p, [RequestStep(d, dest, reached), OpenStep(d, u), ResponseStep(u, true)])
    ensures var p2 := Run(p, [RequestStep(d, dest, reached), OpenStep(d, u)]);
            Response(p2, u, true).1 == Redirected(d) && d !in p2.waits
    ensures var p3 := Run(p, [RequestStep(d, dest, reached), OpenStep(d, u), ResponseStep(u, true)]);
            && (p.queues[dest] == [] ==> Request(p3, next, dest, true).1 == Redirected(u))
            && dest in p3.queues && p3.queues[dest] == (if p.queues[dest] == [] then [] else p.queues[dest][1..]) + [u]
  {
    hide Inv, Request, Response, Open;
    var s0, s1, s2 := RequestStep(d, dest, reached), OpenStep(d, u), ResponseStep(u, true);
    RequestKeeps(p, d, dest, reached);
    var p1 := Next(p, s0);
    OpenKeeps(p1, d, u);
    var p2 := Next(p1, s1);
    ResponseKeeps(p2, u, true);
    var p3 := Next(p2, s2);
    Unroll2(p, s0, s1);
    Unroll3(p, s0, s1, s2);
    OpenQueues(p1, d, u);
    ShortQueue(p, dest);
    RequestKeeps(p3, next, dest, true);
  }

  lemma OpenQueues(p: Pool, d: Sock, u: Sock)
    ensures Open(p, d, u).queues == p.queues
  {
  }

  lemma ShortQueue(p: Pool, a: Addr)
    requires Inv(p) && a in p.queues
    ensures |p.queues[a]| <= QUEUE_CAPACITY
  {
  }

  lemma Unroll2(p: Pool, s0: Step, s1: Step)
    ensures Run(p, [s0, s1]) == Next(Next(p, s0), s1)
    ensures PossibleRun(p, [s0, s1]) <==> Possible(p, s0) && Possible(Next(p, s0), s1)
  {
    hide Next, Possible;
    var p1 := Next(p, s0);
    assert [s0, s1][1..] == [s1] && [s1][1..] == [];
    assert Run(p1, [s1]) == Next(p1, s1);
    assert PossibleRun(p1, [s1]) <==> Possible(p1, s1);
  }

  lemma Unroll3(p: Pool, s0: Step, s1: Step, s2: Step)
    ensures Run(p, [s0, s1, s2]) == Next(Next(Next(p, s0), s1), s2)
    ensures PossibleRun(p, [s0, s1, s2]) <==>
            Possible(p, s0) && Possible(Next(p, s0), s1) && Possible(Next(Next(p, s0), s1), s2)
  {
    hide Next, Possible;
    assert [s0, s1, s2][1..] == [s1, s2];
    Unroll2(Next(p, s0), s1, s2);
  }

  /** From an empty pool, every client reaches every address that has a queue, over any connection to it. */
  lemma ClientServed(addrs: set<Addr>, d: Sock, dest: Addr, reached: bool, u: Sock, next: Sock)
    requires dest in addrs && u.local == dest
    ensures PossibleRun(Start(addrs), [RequestStep(d, dest, reached), OpenStep(d, u), ResponseStep(u, true)])
    ensures Response(Run(Start(addrs), [RequestStep(d, dest, reached), OpenStep(d, u)]), u, true).1 == Redirected(d)
    ensures var p := Run(Start(addrs), [RequestStep(d, dest, reached), OpenStep(d, u), ResponseStep(u, true)]);
            Request(p, next, dest, true).1 == Redirected(u)
  {
    hide Inv, Request, Response, Run, PossibleRun;
    EmptyQueues(addrs);
    UTurnServed(Start(addrs), d, dest, reached, u, next);
  }

  // ----- the maps the data plane updates

  class Maps {
    var upstream: map<Addr, seq<Sock>>
    var downstream: map<Addr, Sock>
    var waitList: map<Sock, Addr>
    ghost var established: set<Sock>
    ghost var busy: map<Sock, Sock>

    ghost function Model(): Pool
      reads this
    {
      Pool(upstream, downstream, waitList, established, busy)
    }

    constructor (addrs: set<Addr>)
      ensures Model() == Start(addrs) && Inv(Model())
    {
      upstream, downstream, waitList := map a | a in addrs :: [], map[], map[];
      established, busy := {}, map[];
    }

    /** `_fib_insert` for an upstream connection; a missing queue is only logged. */
    method FibInsertUpstream(u: Sock) returns (ok: bool)
      modifies this`upstream
      ensures Model() == Reinsert(old(Model()), u) && ok == (u.local in old(upstream))
    {
      if u.local !in upstream {
        return false;
      }
      var q := upstream[u.local];
      if |q| >= QUEUE_CAPACITY {
        q := q[1..];
      }
      upstream := upstream[u.local := q + [u]];
      return true;
    }

    /** `_fib_query` towards an upstream address: the queue is popped. */
    method FibQueryUpstream(dest: Addr) returns (v: Verdict)
      modifies this`upstream
      ensures v.Dropped? <==> dest !in old(upstream)
      ensures v.UTurn? ==> old(upstream[dest]) == []
      ensures v.Redirected? ==> old(upstream[dest]) != [] && v.to == old(upstream[dest])[0]
      ensures upstream == if v.Redirected? then old(upstream)[dest := old(upstream[dest])[1..]] else old(upstream)
    {
      if dest !in upstream {
        return Dropped;
      }
      var q := upstream[dest];
      if q == [] {
        return UTurn;
      }
      upstream := upstream[dest := q[1..]];
      return Redirected(q[0]);
    }

    /** `process_msg` for a request of client d. */
    method ProcessRequest(d: Sock, dest: Addr, reached: bool) returns (v: Verdict)
      requires Inv(Model())
      modifies this
      ensures (Model(), v) == Request(old(Model()), d, dest, reached) && Inv(Model())
      ensures v.Dropped? <==> dest !in old(upstream)
      ensures v.Redirected? <==> dest in old(upstream) && old(upstream)[dest] != [] && reached
      ensures waitList == if v.UTurn? then old(waitList)[d := dest] else old(waitList)
    {
      hide Inv;
      RequestKeeps(Model(), d, dest, reached);
      v := FibQueryUpstream(dest);
      if v.Redirected? {
        // the route for the response is set before the redirection is tried
        downstream := downstream[v.to.remote := d];
        if reached {
          busy := busy[v.to := d];
        } else {
          v := UTurn;
        }
      }
      if v.UTurn? {
        waitList := waitList[d := dest];
      }
    }

    /** `process_msg` for the response on upstream connection u. */
    method ProcessResponse(u: Sock, reached: bool) returns (v: Verdict)
      requires Inv(Model()) && u in busy
      modifies this
      ensures (Model(), v) == Response(old(Model()), u, reached) && Inv(Model())
      ensures v.Redirected? ==> v.to == old(busy[u])
      ensures v.Redirected? <==> u.remote in old(downstream) && reached
      ensures waitList == if v.UTurn? then old(waitList)[u := u.remote] else old(waitList)
    {
      hide Inv;
      ResponseKeeps(Model(), u, reached);
      v := if u.remote in downstream then Redirected(downstream[u.remote]) else Dropped;
      busy := busy - {u};
      var _ := FibInsertUpstream(u);
      if v.Redirected? && !reached {
        v := UTurn;
        waitList := waitList[u := u.remote];
      }
    }
  }
}
