/** One-shot wake tickets (pcwake.py): reserved, redeemed in two separately locked halves,
    cancelled, evicted, queued per chat session and drained.

    `Store` is the module state together with the history of every wake id; `Do` performs one
    lock region of one call, so that every sequence of actions is an interleaving of any
    number of threads. `PcWake` is the code of the lock regions. */
module WakeTickets {

  import opened Options

  datatype WakeId = WakeId(hex: string)
  type Session = string
  type Time = real

  const MAX_PER_SESSION: nat := 50
  const MAX_TICKETS: nat := 200
  const TICKET_TTL: Time := 86400.0

  datatype Ticket = Ticket(session: Session, message: string, created: Time)

  datatype Wake = Wake(id: WakeId, message: string)

  /** Where a wake id is in its life. */
  datatype Place =
    | Held                            // a ticket
    | InFlight                        // between the two halves of redeem
    | Queued(session: Session)
    | Delivered(session: Session)
    | Withdrawn                       // cancelled
    | Expired                         // too old, or evicted by newer tickets
    | Dropped                         // pushed out of a full queue

  datatype Store = Store(
    tickets: map<WakeId, Ticket>,
    pending: map<Session, seq<Wake>>,
    redeemed: map<WakeId, Time>,
    cancelled: map<WakeId, Time>,
    inFlight: map<WakeId, (Session, string)>,   // locals of half-finished redeem calls
    place: map<WakeId, Place>,                  // every id ever issued
    log: map<Session, seq<Wake>>,               // every wake ever queued, in order
    delivered: map<Session, seq<Wake>>)         // every wake drained, in order

  const EMPTY: Store := Store(map[], map[], map[], map[], map[], map[], map[], map[])

  function Get<T>(m: map<Session, seq<T>>, s: Session): seq<T>
  {
    if s in m then m[s] else []
  }

  function Take(s: string, n: nat): string
  {
    if |s| <= n then s else s[..n]
  }

  /** A queue without the entries of one id. */
  function Without(q: seq<Wake>, id: WakeId): seq<Wake>
  {
    if q == [] then []
    else (if q[0].id == id then [] else [q[0]]) + Without(q[1..], id)
  }

  function Filtered(pending: map<Session, seq<Wake>>, id: WakeId): map<Session, seq<Wake>>
  {
    map q | q in pending :: Without(pending[q], id)
  }

  // ---------------------------------------------------------------- eviction

  /** What repeatedly removing an oldest entry while there are `limit` or more removes. */
  ghost predicate OldestFirst(times: map<WakeId, Time>, evicted: set<WakeId>, limit: nat)
  {
    && evicted <= times.Keys
    && |times| - |evicted| == (if |times| < limit then |times| else limit - 1)
    && NoneOlder(times, evicted, times.Keys - evicted)
  }

  function Created(tickets: map<WakeId, Ticket>): map<WakeId, Time>
  {
    map k | k in tickets :: tickets[k].created
  }

  method EvictOldest(times: map<WakeId, Time>, limit: nat) returns (evicted: set<WakeId>)
    requires limit > 0
    ensures OldestFirst(times, evicted, limit)
  {
    evicted := {};
    var rest := times.Keys;
    assert |times| == |rest|;
    while |rest| >= limit
      invariant evicted !! rest && evicted + rest == times.Keys && |evicted| + |rest| == |times|
      invariant if |times| < limit then evicted == {} else |rest| >= limit - 1
      invariant NoneOlder(times, evicted, rest)
      decreases |rest|
    {
      ghost var witnessed := OldestExists(times, rest);
      var oldest :| oldest in rest && forall k | k in rest :: times[oldest] <= times[k];
      evicted := evicted + {oldest};
      rest := rest - {oldest};
    }
  }

  ghost predicate NoneOlder(times: map<WakeId, Time>, evicted: set<WakeId>, rest: set<WakeId>)
    requires evicted <= times.Keys && rest <= times.Keys
  {
    forall e, k | e in evicted && k in rest :: times[e] <= times[k]
  }

  lemma AnyKey(keys: set<WakeId>) returns (k: WakeId)
    requires keys != {}
    ensures k in keys
  {
    k :| k in keys;
  }

  lemma {:induction false} OldestExists(times: map<WakeId, Time>, keys: set<WakeId>) returns (oldest: WakeId)
    requires keys <= times.Keys && keys != {}
    ensures oldest in keys && forall k | k in keys :: times[oldest] <= times[k]
    decreases |keys|
  {
    var first := AnyKey(keys);
    var rest := keys - {first};
    oldest := first;
    if rest != {} {
      var other := OldestExists(times, rest);
      if times[other] < times[first] {
        oldest := other;
      }
    }
    forall k | k in keys
      ensures times[oldest] <= times[k]
    {
      if k != first {
        assert k in rest;
      }
    }
  }

  lemma RemovedSize<T>(m: map<WakeId, T>, gone: set<WakeId>)
    requires gone <= m.Keys
    ensures |m - gone| == |m| - |gone|
  {
    assert (m - gone).Keys == m.Keys - gone;
    assert |m.Keys - gone| == |m.Keys| - |gone|;
  }

  // ---------------------------------------------------------------- lock regions as functions

  datatype Action =
    | Reserve(session: Session, message: string, now: Time, id: WakeId, evicted: set<WakeId>)
    | RedeemTake(id: WakeId, note: string, now: Time, evicted: set<WakeId>)
    | RedeemPut(id: WakeId)
    | Cancel(id: WakeId, now: Time, evicted: set<WakeId>)
    | Drain(session: Session)

  function Unexpired(tickets: map<WakeId, Ticket>, now: Time): map<WakeId, Ticket>
  {
    map k | k in tickets && !(now - tickets[k].created > TICKET_TTL) :: tickets[k]
  }

  /** Whether `cancel` finds anything to remove. */
  predicate Cancellable(s: Store, id: WakeId)
  {
    id in s.tickets || exists q | q in s.pending :: Without(s.pending[q], id) != s.pending[q]
  }

  /** Ids come from uuid4 and are new; evictions are those the code makes. */
  ghost predicate Enabled(s: Store, a: Action)
  {
    match a
    case Reserve(session, message, now, id, evicted) =>
      id !in s.place && OldestFirst(Created(Unexpired(s.tickets, now)), evicted, MAX_TICKETS)
    case RedeemTake(id, note, now, evicted) => id in s.tickets ==> OldestFirst(s.redeemed, evicted, MAX_TICKETS)
    case RedeemPut(id) => id in s.inFlight
    case Cancel(id, now, evicted) =>
      Cancellable(s, id) ==> OldestFirst(s.cancelled[id := now], evicted, MAX_TICKETS)
    case Drain(session) => true
  }

  function Note(message: string, note: string): string
  {
    message + if note == "" then "" else " — " + Take(note, 500)
  }

  function Moved(place: map<WakeId, Place>, ids: set<WakeId>, to: Place): map<WakeId, Place>
  {
    map k | k in place :: if k in ids then to else place[k]
  }

  function DoReserve(s: Store, session: Session, message: string, now: Time, id: WakeId, evicted: set<WakeId>): Store
  {
    if session == "" then s else
      var kept := Unexpired(s.tickets, now) - evicted;
      s.(tickets := kept[id := Ticket(session, Take(message, 500), now)],
         place := Moved(s.place, s.tickets.Keys - kept.Keys, Expired)[id := Held])
  }

  function DoTake(s: Store, id: WakeId, note: string, now: Time, evicted: set<WakeId>): Store
  {
    if id !in s.tickets then s else
      var t := s.tickets[id];
      s.(tickets := s.tickets - {id}, redeemed := (s.redeemed - evicted)[id := now],
         inFlight := s.inFlight[id := (t.session, Note(t.message, note))], place := s.place[id := InFlight])
  }

  function DoPut(s: Store, id: WakeId): Store
    requires id in s.inFlight
  {
    var (session, message) := s.inFlight[id];
    var wake := Wake(id, Take(message, 2000));
    var q := Get(s.pending, session);
    var full := |q| >= MAX_PER_SESSION;
    s.(inFlight := s.inFlight - {id},
       pending := s.pending[session := (if full then q[1..] else q) + [wake]],
       place := (if full then s.place[q[0].id := Dropped] else s.place)[id := Queued(session)],
       log := s.log[session := Get(s.log, session) + [wake]])
  }

  function DoCancel(s: Store, id: WakeId, now: Time, evicted: set<WakeId>): Store
  {
    if !Cancellable(s, id) then s else
      s.(tickets := s.tickets - {id}, pending := Filtered(s.pending, id),
         redeemed := s.redeemed - {id}, cancelled := s.cancelled[id := now] - evicted,
         place := s.place[id := Withdrawn])
  }

  function Ids(q: seq<Wake>): set<WakeId>
  {
    set i | 0 <= i < |q| :: q[i].id
  }

  function DoDrain(s: Store, session: Session): Store
  {
    var q := Get(s.pending, session);
    s.(pending := s.pending - {session}, place := Moved(s.place, Ids(q), Delivered(session)),
       delivered := s.delivered[session := Get(s.delivered, session) + q])
  }

  ghost function Do(s: Store, a: Action): Store
  {
    if !Enabled(s, a) then s else
      match a
      case Reserve(session, message, now, id, evicted) => DoReserve(s, session, message, now, id, evicted)
      case RedeemTake(id, note, now, evicted) => DoTake(s, id, note, now, evicted)
      case RedeemPut(id) => DoPut(s, id)
      case Cancel(id, now, evicted) => DoCancel(s, id, now, evicted)
      case Drain(session) => DoDrain(s, session)
  }

  ghost function DoAll(s: Store, actions: seq<Action>): Store
    decreases |actions|
  {
    if actions == [] then s else DoAll(Do(s, actions[0]), actions[1..])
  }

  // ---------------------------------------------------------------- invariant

  predicate Gone(place: map<WakeId, Place>, id: WakeId)
  {
    id in place && (place[id].Dropped? || place[id].Withdrawn?)
  }

  /** The wakes of one session's log that were neither dropped nor withdrawn. */
  function Live(log: seq<Wake>, place: map<WakeId, Place>): seq<Wake>
  {
    if log == [] then []
    else (if Gone(place, log[0].id) then [] else [log[0]]) + Live(log[1..], place)
  }

  ghost predicate Distinct(q: seq<Wake>)
  {
    forall i, j | 0 <= i < j < |q| :: q[i].id != q[j].id
  }

  /** All entries are at the given place. */
  ghost predicate AllAt(q: seq<Wake>, place: map<WakeId, Place>, p: Place)
  {
    forall i | 0 <= i < |q| :: q[i].id in place && place[q[i].id] == p
  }

  ghost predicate Settled(p: Place, x: Session)
  {
    p == Queued(x) || p == Delivered(x) || p == Dropped || p == Withdrawn
  }

  ghost predicate LoggedAt(q: seq<Wake>, place: map<WakeId, Place>, s: Session)
  {
    forall i | 0 <= i < |q| :: q[i].id in place && Settled(place[q[i].id], s)
  }

  /** One session: what it got and what awaits it, in the order queued, is all of the log that
      was neither dropped nor withdrawn. */
  ghost predicate Account(x: Session, log: seq<Wake>, got: seq<Wake>, q: seq<Wake>, place: map<WakeId, Place>)
  {
    && Live(log, place) == got + q
    && Distinct(log) && LoggedAt(log, place, x)
    && AllAt(got, place, Delivered(x)) && AllAt(q, place, Queued(x))
    && |q| <= MAX_PER_SESSION
  }

  ghost predicate SessionInv(s: Store, x: Session)
  {
    Account(x, Get(s.log, x), Get(s.delivered, x), Get(s.pending, x), s.place)
  }

  ghost predicate HeldInv(tickets: map<WakeId, Ticket>, place: map<WakeId, Place>)
  {
    && (forall k | k in tickets :: k in place && place[k] == Held && tickets[k].session != "")
    && (forall k | k in place && place[k] == Held :: k in tickets)
  }

  ghost predicate FlightInv(inFlight: map<WakeId, (Session, string)>, place: map<WakeId, Place>)
  {
    && (forall k | k in inFlight :: k in place && place[k] == InFlight && inFlight[k].0 != "")
    && (forall k | k in place && place[k] == InFlight :: k in inFlight)
  }

  ghost predicate RedeemedInv(redeemed: map<WakeId, Time>, place: map<WakeId, Place>)
  {
    forall k | k in redeemed :: k in place && place[k] != Held && place[k] != Withdrawn && place[k] != Expired
  }

  ghost predicate CancelledInv(cancelled: map<WakeId, Time>, place: map<WakeId, Place>)
  {
    forall k | k in cancelled :: k in place && place[k] == Withdrawn
  }

  /** Whatever is queued or delivered is in the log of that session. */
  ghost predicate LoggedInv(log: map<Session, seq<Wake>>, place: map<WakeId, Place>)
  {
    forall k, x | k in place && (place[k] == Queued(x) || place[k] == Delivered(x)) :: Mentions(Get(log, x), k)
  }

  ghost predicate Mentions(q: seq<Wake>, id: WakeId)
  {
    exists i :: 0 <= i < |q| && q[i].id == id
  }

  ghost predicate TablesInv(s: Store)
  {
    && HeldInv(s.tickets, s.place) && FlightInv(s.inFlight, s.place)
    && RedeemedInv(s.redeemed, s.place) && CancelledInv(s.cancelled, s.place) && LoggedInv(s.log, s.place)
  }

  ghost predicate SizesInv(s: Store)
  {
    |s.tickets| <= MAX_TICKETS && |s.redeemed| <= MAX_TICKETS && |s.cancelled| < MAX_TICKETS
  }

  ghost predicate SessionsInv(s: Store)
  {
    forall x :: SessionInv(s, x)
  }

  ghost predicate Inv(s: Store)
  {
    TablesInv(s) && SizesInv(s) && SessionsInv(s)
  }

  // ---------------------------------------------------------------- queues and logs

  lemma {:induction false} WithoutSplit(a: seq<Wake>, b: seq<Wake>, id: WakeId)
    ensures Without(a + b, id) == Without(a, id) + Without(b, id)
  {
    if a == [] {
      assert a + b == b;
    } else {
      assert (a + b)[1..] == a[1..] + b;
      WithoutSplit(a[1..], b, id);
    }
  }

  lemma {:induction false} WithoutAbsent(q: seq<Wake>, id: WakeId)
    requires id !in Ids(q)
    ensures Without(q, id) == q
  {
    if q != [] {
      assert q[0].id in Ids(q);
      assert forall i | 0 <= i < |q[1..]| :: q[1..][i].id == q[i + 1].id && q[i + 1].id in Ids(q);
      WithoutAbsent(q[1..], id);
    }
  }

  lemma {:induction false} WithoutKeeps(q: seq<Wake>, id: WakeId)
    ensures |Without(q, id)| <= |q|
    ensures forall i | 0 <= i < |Without(q, id)| :: Without(q, id)[i] in q && Without(q, id)[i].id != id
  {
    if q != [] {
      WithoutKeeps(q[1..], id);
    }
  }

  lemma WithoutChanges(q: seq<Wake>, id: WakeId)
    ensures Without(q, id) != q <==> id in Ids(q)
  {
    WithoutKeeps(q, id);
    if id !in Ids(q) {
      WithoutAbsent(q, id);
    } else {
      var i :| 0 <= i < |q| && q[i].id == id;
      assert q[i] in q && forall w | w in Without(q, id) :: w.id != id;
    }
  }

  // Taking one id out of the log's live part is taking it out of the queue.
  lemma {:induction false} LiveWithout(log: seq<Wake>, place: map<WakeId, Place>, id: WakeId, to: Place)
    requires to.Dropped? || to.Withdrawn?
    ensures Live(log, place[id := to]) == Without(Live(log, place), id)
  {
    if log != [] {
      LiveWithout(log[1..], place, id, to);
      var head := if Gone(place, log[0].id) then [] else [log[0]];
      assert Live(log, place) == head + Live(log[1..], place);
      WithoutSplit(head, Live(log[1..], place), id);
      if head != [] {
        WithoutOne(log[0], id);
      }
    }
  }

  lemma WithoutOne(w: Wake, id: WakeId)
    ensures Without([w], id) == if w.id == id then [] else [w]
  {
    assert [w][1..] == [];
  }

  // Changes of place that neither drop nor withdraw nor revive leave the live part alone.
  lemma {:induction false} LiveSame(log: seq<Wake>, p: map<WakeId, Place>, p': map<WakeId, Place>)
    requires forall i | 0 <= i < |log| :: Gone(p, log[i].id) == Gone(p', log[i].id)
    ensures Live(log, p) == Live(log, p')
  {
    if log != [] {
      assert forall i | 0 <= i < |log[1..]| :: log[1..][i] == log[i + 1];
      LiveSame(log[1..], p, p');
    }
  }

  lemma {:induction false} LiveSnoc(log: seq<Wake>, place: map<WakeId, Place>, w: Wake)
    requires !Gone(place, w.id)
    ensures Live(log + [w], place) == Live(log, place) + [w]
  {
    if log == [] {
      assert log + [w] == [w];
      assert Live([w][1..], place) == [];
    } else {
      assert (log + [w])[1..] == log[1..] + [w];
      LiveSnoc(log[1..], place, w);
    }
  }

  lemma {:induction false} LiveMembers(log: seq<Wake>, place: map<WakeId, Place>, w: Wake)
    ensures w in Live(log, place) <==> w in log && !Gone(place, w.id)
  {
    if log != [] {
      LiveMembers(log[1..], place, w);
      assert log == [log[0]] + log[1..];
    }
  }

  lemma {:induction false} LiveDistinct(log: seq<Wake>, place: map<WakeId, Place>)
    requires Distinct(log)
    ensures Distinct(Live(log, place))
  {
    if log != [] {
      var rest, live := log[1..], Live(log[1..], place);
      assert forall i | 0 <= i < |rest| :: rest[i] == log[i + 1];
      LiveDistinct(rest, place);
      forall i | 0 <= i < |live|
        ensures live[i].id != log[0].id
      {
        assert live[i] in live;
        LiveMembers(rest, place, live[i]);
      }
    }
  }

  // ---------------------------------------------------------------- every action keeps it

  ghost predicate SameSettled(p: map<WakeId, Place>, p': map<WakeId, Place>, x: Session)
  {
    forall k | k in p && Settled(p[k], x) :: k in p' && p'[k] == p[k]
  }

  // A session none of whose wakes moved.
  lemma SessionSame(s: Store, s': Store, x: Session)
    requires SessionInv(s, x)
    requires Get(s'.log, x) == Get(s.log, x) && Get(s'.delivered, x) == Get(s.delivered, x)
    requires Get(s'.pending, x) == Get(s.pending, x)
    requires SameSettled(s.place, s'.place, x)
    ensures SessionInv(s', x)
  {
    LiveSame(Get(s.log, x), s.place, s'.place);
  }

  lemma SessionsSame(s: Store, s': Store)
    requires SessionsInv(s) && s'.log == s.log && s'.delivered == s.delivered && s'.pending == s.pending
    requires forall x :: SameSettled(s.place, s'.place, x)
    ensures SessionsInv(s')
  {
    forall x
      ensures SessionInv(s', x)
    {
      assert SessionInv(s, x);
      SessionSame(s, s', x);
    }
  }

  lemma KeptTickets(s: Store, now: Time, evicted: set<WakeId>) returns (kept: map<WakeId, Ticket>)
    requires OldestFirst(Created(Unexpired(s.tickets, now)), evicted, MAX_TICKETS)
    ensures kept == Unexpired(s.tickets, now) - evicted
    ensures kept.Keys <= s.tickets.Keys && |kept| < MAX_TICKETS
    ensures forall k | k in kept :: kept[k] == s.tickets[k]
  {
    var live := Unexpired(s.tickets, now);
    kept := live - evicted;
    assert Created(live).Keys == live.Keys;
    RemovedSize(live, evicted);
    assert |Created(live)| == |Created(live).Keys| == |live.Keys|;
  }

  /** Moves that concern tickets and ids without a settled place only. */
  ghost predicate TicketMove(p: map<WakeId, Place>, p': map<WakeId, Place>)
  {
    && (forall k | k in p && p[k] != Held :: k in p' && p'[k] == p[k])
    && (forall k | k in p' && k !in p :: p'[k] == Held)
    && (forall k | k in p && p[k] == Held :: k in p' && (p'[k] == Held || p'[k] == Expired))
  }

  lemma TicketMoveTables(s: Store, p': map<WakeId, Place>)
    requires TicketMove(s.place, p')
    requires FlightInv(s.inFlight, s.place) && RedeemedInv(s.redeemed, s.place)
    requires CancelledInv(s.cancelled, s.place) && LoggedInv(s.log, s.place)
    ensures FlightInv(s.inFlight, p') && RedeemedInv(s.redeemed, p')
    ensures CancelledInv(s.cancelled, p') && LoggedInv(s.log, p')
    ensures forall x :: SameSettled(s.place, p', x)
  {
  }

  lemma ReserveKeepsInv(s: Store, session: Session, message: string, now: Time, id: WakeId, evicted: set<WakeId>)
    requires Inv(s) && Enabled(s, Reserve(session, message, now, id, evicted))
    ensures Inv(DoReserve(s, session, message, now, id, evicted))
  {
    if session != "" {
      var s' := DoReserve(s, session, message, now, id, evicted);
      var kept := KeptTickets(s, now, evicted);
      NewTicket(s.tickets, kept, s.place, id, Ticket(session, Take(message, 500), now));
      TicketMoveTables(s, s'.place);
      SessionsSame(s, s');
    }
  }

  lemma NewTicket(tickets: map<WakeId, Ticket>, kept: map<WakeId, Ticket>, place: map<WakeId, Place>,
                  id: WakeId, t: Ticket)
    requires HeldInv(tickets, place) && kept.Keys <= tickets.Keys && id !in place && t.session != ""
    requires forall k | k in kept :: kept[k] == tickets[k]
    requires |kept| < MAX_TICKETS
    ensures var place' := Moved(place, tickets.Keys - kept.Keys, Expired)[id := Held];
            HeldInv(kept[id := t], place') && TicketMove(place, place')
    ensures |kept[id := t]| <= MAX_TICKETS
  {
    assert id !in kept;
  }

  lemma TakeTables(s: Store, id: WakeId, note: string, now: Time, evicted: set<WakeId>)
    requires TablesInv(s) && id in s.tickets
    ensures TablesInv(DoTake(s, id, note, now, evicted))
  {
    var s' := DoTake(s, id, note, now, evicted);
    assert HeldInv(s'.tickets, s'.place);
    assert FlightInv(s'.inFlight, s'.place);
    assert RedeemedInv(s'.redeemed, s'.place);
    assert CancelledInv(s'.cancelled, s'.place);
  }

  lemma TakeKeepsInv(s: Store, id: WakeId, note: string, now: Time, evicted: set<WakeId>)
    requires Inv(s) && Enabled(s, RedeemTake(id, note, now, evicted))
    ensures Inv(DoTake(s, id, note, now, evicted))
  {
    var s' := DoTake(s, id, note, now, evicted);
    if id in s.tickets {
      TakeTables(s, id, note, now, evicted);
      RemovedSize(s.tickets, {id});
      RemovedSize(s.redeemed, evicted);
      assert SizesInv(s');
      TakeSessions(s, id, note, now, evicted);
    }
  }

  lemma TakeSessions(s: Store, id: WakeId, note: string, now: Time, evicted: set<WakeId>)
    requires SessionsInv(s) && HeldInv(s.tickets, s.place) && id in s.tickets
    ensures SessionsInv(DoTake(s, id, note, now, evicted))
  {
    assert s.place[id] == Held;
    SessionsSame(s, DoTake(s, id, note, now, evicted));
  }

  lemma WithoutHead(got: seq<Wake>, q: seq<Wake>)
    requires q != [] && Distinct(got + q)
    ensures Without(got + q, q[0].id) == got + q[1..]
  {
    var first, all := q[0].id, got + q;
    assert all[|got|] == q[0];
    assert forall i | 0 <= i < |got| :: all[i] == got[i];
    assert forall i | 0 <= i < |q[1..]| :: q[1..][i] == all[|got| + i + 1];
    WithoutSplit(got, q, first);
    WithoutAbsent(got, first);
    WithoutAbsent(q[1..], first);
    assert Without(q, first) == [] + Without(q[1..], first) == q[1..];
  }

  lemma PutLive(log: seq<Wake>, place: map<WakeId, Place>, w: Wake, x: Session)
    requires !Mentions(log, w.id)
    ensures Live(log + [w], place[w.id := Queued(x)]) == Live(log, place) + [w]
  {
    LiveSame(log, place, place[w.id := Queued(x)]);
    LiveSnoc(log, place[w.id := Queued(x)], w);
  }

  // A full queue loses its oldest wake.
  lemma DropAccount(x: Session, log: seq<Wake>, got: seq<Wake>, q: seq<Wake>, place: map<WakeId, Place>)
    requires Account(x, log, got, q, place) && q != []
    ensures Account(x, log, got, q[1..], place[q[0].id := Dropped])
  {
    LiveWithout(log, place, q[0].id, Dropped);
    LiveDistinct(log, place);
    WithoutHead(got, q);
    var all := got + q;
    assert all[|got|] == q[0];
    assert forall i | 1 <= i < |q| :: q[i] == all[|got| + i];
    assert forall i | 0 <= i < |got| :: got[i] == all[i];
  }

  // A wake that was in flight joins the queue of its session.
  lemma AppendAccount(x: Session, log: seq<Wake>, got: seq<Wake>, q: seq<Wake>, place: map<WakeId, Place>, w: Wake)
    requires Account(x, log, got, q, place) && |q| < MAX_PER_SESSION
    requires w.id in place && place[w.id] == InFlight
    ensures Account(x, log + [w], got, q + [w], place[w.id := Queued(x)])
  {
    PutLive(log, place, w, x);
    assert got + q + [w] == got + (q + [w]);
  }

  /** Moves among settled places, and out of flight, of one id. */
  lemma SettledMoveTables(s: Store, id: WakeId, to: Place)
    requires TablesInv(s) && id in s.place
    requires s.place[id].Queued? || s.place[id].InFlight?
    requires to.Queued? || to == Dropped
    requires LoggedInv(s.log, s.place[id := to])
    ensures TablesInv(s.(inFlight := s.inFlight - {id}, place := s.place[id := to]))
  {
    var p', f' := s.place[id := to], s.inFlight - {id};
    assert HeldInv(s.tickets, p');
    assert FlightInv(f', p');
    assert RedeemedInv(s.redeemed, p');
    assert CancelledInv(s.cancelled, p');
  }

  lemma SessionsExcept(s: Store, s': Store, y: Session)
    requires SessionsInv(s) && SessionInv(s', y)
    requires forall x | x != y :: Get(s'.log, x) == Get(s.log, x) && Get(s'.delivered, x) == Get(s.delivered, x)
    requires forall x | x != y :: Get(s'.pending, x) == Get(s.pending, x)
    requires forall x | x != y :: SameSettled(s.place, s'.place, x)
    ensures SessionsInv(s')
  {
    forall x
      ensures SessionInv(s', x)
    {
      assert SessionInv(s, x);
      if x != y {
        SessionSame(s, s', x);
      }
    }
  }

  /** Making room, as a step of its own: DoPut is this followed by an append. */
  function Roomy(s: Store, x: Session): Store
  {
    var q := Get(s.pending, x);
    if |q| < MAX_PER_SESSION then s
    else s.(pending := s.pending[x := q[1..]], place := s.place[q[0].id := Dropped])
  }

  lemma RoomyKeepsInv(s: Store, x: Session)
    requires Inv(s)
    ensures Inv(Roomy(s, x)) && |Get(Roomy(s, x).pending, x)| < MAX_PER_SESSION
  {
    var q := Get(s.pending, x);
    assert SessionInv(s, x);
    if |q| >= MAX_PER_SESSION {
      var s' := Roomy(s, x);
      assert s.place[q[0].id] == Queued(x);
      RoomyTables(s, q[0].id, x);
      DropAccount(x, Get(s.log, x), Get(s.delivered, x), q, s.place);
      SessionsExcept(s, s', x);
    }
  }

  lemma RoomyTables(s: Store, first: WakeId, x: Session)
    requires TablesInv(s) && first in s.place && s.place[first] == Queued(x)
    ensures TablesInv(s.(place := s.place[first := Dropped]))
  {
    SettledMoveTables(s, first, Dropped);
    assert s.inFlight - {first} == s.inFlight;
  }

  /** The wake goes to the end of the queue. */
  function Appended(s: Store, x: Session, w: Wake): Store
  {
    s.(inFlight := s.inFlight - {w.id}, pending := s.pending[x := Get(s.pending, x) + [w]],
       place := s.place[w.id := Queued(x)], log := s.log[x := Get(s.log, x) + [w]])
  }

  lemma AppendKeepsInv(s: Store, x: Session, w: Wake)
    requires Inv(s) && |Get(s.pending, x)| < MAX_PER_SESSION && w.id in s.inFlight
    ensures Inv(Appended(s, x, w))
  {
    AppendKeepsLogged(s.log, s.place, x, w);
    AppendTables(s, x, w);
    AppendSessions(s, x, w);
  }

  lemma AppendSessions(s: Store, x: Session, w: Wake)
    requires SessionsInv(s) && FlightInv(s.inFlight, s.place)
    requires |Get(s.pending, x)| < MAX_PER_SESSION && w.id in s.inFlight
    ensures SessionsInv(Appended(s, x, w))
  {
    assert s.place[w.id] == InFlight;
    assert SessionInv(s, x);
    AppendAccount(x, Get(s.log, x), Get(s.delivered, x), Get(s.pending, x), s.place, w);
    SessionsExcept(s, Appended(s, x, w), x);
  }

  lemma AppendTables(s: Store, x: Session, w: Wake)
    requires TablesInv(s) && w.id in s.inFlight
    requires LoggedInv(s.log[x := Get(s.log, x) + [w]], s.place[w.id := Queued(x)])
    ensures TablesInv(s.(inFlight := s.inFlight - {w.id}, place := s.place[w.id := Queued(x)],
                         log := s.log[x := Get(s.log, x) + [w]]))
  {
    var p', f' := s.place[w.id := Queued(x)], s.inFlight - {w.id};
    assert HeldInv(s.tickets, p');
    assert FlightInv(f', p');
    assert RedeemedInv(s.redeemed, p');
    assert CancelledInv(s.cancelled, p');
  }

  lemma AppendKeepsLogged(log: map<Session, seq<Wake>>, place: map<WakeId, Place>, x: Session, w: Wake)
    requires LoggedInv(log, place)
    ensures LoggedInv(log[x := Get(log, x) + [w]], place[w.id := Queued(x)])
  {
    var longer := Get(log, x) + [w];
    assert longer[|Get(log, x)|] == w;
    forall k | Mentions(Get(log, x), k)
      ensures Mentions(longer, k)
    {
      var i :| 0 <= i < |Get(log, x)| && Get(log, x)[i].id == k;
      assert longer[i].id == k;
    }
  }

  lemma PutKeepsInv(s: Store, id: WakeId)
    requires Inv(s) && id in s.inFlight
    ensures Inv(DoPut(s, id))
  {
    var (x, message) := s.inFlight[id];
    RoomyKeepsInv(s, x);
    AppendKeepsInv(Roomy(s, x), x, Wake(id, Take(message, 2000)));
    PutIsRoomyAppend(s, id);
  }

  lemma PutIsRoomyAppend(s: Store, id: WakeId)
    requires id in s.inFlight
    ensures var (x, message) := s.inFlight[id];
            var r, w := Roomy(s, x), Wake(id, Take(message, 2000));
            DoPut(s, id) == Appended(r, x, w)
  {
    var (x, message) := s.inFlight[id];
    var q, w := Get(s.pending, x), Wake(id, Take(message, 2000));
    if |q| >= MAX_PER_SESSION {
      assert s.pending[x := q[1..]][x := q[1..] + [w]] == s.pending[x := q[1..] + [w]];
    }
  }

  lemma AccountIds(s: Store, x: Session, id: WakeId)
    requires SessionInv(s, x) && LoggedInv(s.log, s.place)
    ensures id in Ids(Get(s.pending, x)) <==> id in s.place && s.place[id] == Queued(x)
    ensures id in Ids(Get(s.delivered, x)) <==> id in s.place && s.place[id] == Delivered(x)
  {
    if id in s.place && (s.place[id] == Queued(x) || s.place[id] == Delivered(x)) {
      var w := LoggedWake(s, x, id);
      MemberId(Get(s.delivered, x), w);
      MemberId(Get(s.pending, x), w);
    }
  }

  lemma LoggedWake(s: Store, x: Session, id: WakeId) returns (w: Wake)
    requires SessionInv(s, x) && LoggedInv(s.log, s.place)
    requires id in s.place && (s.place[id] == Queued(x) || s.place[id] == Delivered(x))
    ensures w.id == id && (w in Get(s.delivered, x) || w in Get(s.pending, x))
  {
    var log := Get(s.log, x);
    assert Mentions(log, id);
    var i :| 0 <= i < |log| && log[i].id == id;
    w := log[i];
    LiveMembers(log, s.place, w);
    assert w in Get(s.delivered, x) + Get(s.pending, x);
  }

  lemma MemberId(q: seq<Wake>, w: Wake)
    ensures w in q ==> w.id in Ids(q)
  {
  }

  // Cancelling reaches tickets and queued wakes, and nothing else: in particular not a wake
  // between the two halves of redeem.
  lemma CancellableExactly(s: Store, id: WakeId)
    requires Inv(s)
    ensures Cancellable(s, id) <==> id in s.place && (s.place[id] == Held || s.place[id].Queued?)
  {
    if exists x | x in s.pending :: Without(s.pending[x], id) != s.pending[x] {
      var x :| x in s.pending && Without(s.pending[x], id) != s.pending[x];
      WithoutChanges(s.pending[x], id);
      assert SessionInv(s, x);
    }
    if id in s.place && s.place[id].Queued? {
      var x := s.place[id].session;
      assert SessionInv(s, x);
      AccountIds(s, x, id);
      WithoutChanges(s.pending[x], id);
    }
  }

  lemma CancelAccount(x: Session, log: seq<Wake>, got: seq<Wake>, q: seq<Wake>, place: map<WakeId, Place>, id: WakeId)
    requires Account(x, log, got, q, place) && id in place && place[id] == Queued(x)
    ensures Account(x, log, got, Without(q, id), place[id := Withdrawn])
  {
    LiveWithout(log, place, id, Withdrawn);
    WithoutSplit(got, q, id);
    WithoutAbsent(got, id);
    WithoutKeeps(q, id);
    var q' := Without(q, id);
    forall i | 0 <= i < |q'|
      ensures q'[i].id in place && place[q'[i].id] == Queued(x) && q'[i].id != id
    {
      assert q'[i] in q;
    }
  }

  lemma CancelTables(s: Store, id: WakeId, now: Time, evicted: set<WakeId>)
    requires TablesInv(s) && id in s.place && (s.place[id] == Held || s.place[id].Queued?)
    ensures TablesInv(s.(tickets := s.tickets - {id}, redeemed := s.redeemed - {id},
                         cancelled := s.cancelled[id := now] - evicted, place := s.place[id := Withdrawn]))
  {
    var p' := s.place[id := Withdrawn];
    assert HeldInv(s.tickets - {id}, p');
    assert FlightInv(s.inFlight, p');
    assert RedeemedInv(s.redeemed - {id}, p');
    assert CancelledInv(s.cancelled[id := now] - evicted, p');
    assert LoggedInv(s.log, p');
  }

  lemma CancelSession(s: Store, id: WakeId, now: Time, evicted: set<WakeId>, x: Session)
    requires SessionInv(s, x) && Cancellable(s, id)
    requires id in s.place && (s.place[id] == Held || s.place[id].Queued?)
    ensures SessionInv(DoCancel(s, id, now, evicted), x)
  {
    var s' := DoCancel(s, id, now, evicted);
    var q := Get(s.pending, x);
    assert Get(s'.pending, x) == Without(q, id);
    if s.place[id] == Queued(x) {
      CancelAccount(x, Get(s.log, x), Get(s.delivered, x), q, s.place, id);
    } else {
      WithoutAbsent(q, id);
      SessionSame(s, s', x);
    }
  }

  lemma CancelKeepsInv(s: Store, id: WakeId, now: Time, evicted: set<WakeId>)
    requires Inv(s) && Enabled(s, Cancel(id, now, evicted))
    ensures Inv(DoCancel(s, id, now, evicted))
  {
    if Cancellable(s, id) {
      CancellableExactly(s, id);
      CancelTables(s, id, now, evicted);
      var s' := DoCancel(s, id, now, evicted);
      CancelSizes(s, id, now, evicted);
      forall x
        ensures SessionInv(s', x)
      {
        assert SessionInv(s, x);
        CancelSession(s, id, now, evicted, x);
      }
    }
  }

  lemma CancelSizes(s: Store, id: WakeId, now: Time, evicted: set<WakeId>)
    requires SizesInv(s) && OldestFirst(s.cancelled[id := now], evicted, MAX_TICKETS)
    ensures |s.tickets - {id}| <= MAX_TICKETS && |s.redeemed - {id}| <= MAX_TICKETS
    ensures |s.cancelled[id := now] - evicted| < MAX_TICKETS
  {
    RemovedSize(s.cancelled[id := now], evicted);
    RemovedAtMost(s.tickets, id);
    RemovedAtMost(s.redeemed, id);
  }

  lemma RemovedAtMost<T>(m: map<WakeId, T>, id: WakeId)
    ensures |m - {id}| <= |m|
  {
    if id in m {
      RemovedSize(m, {id});
    } else {
      assert m - {id} == m;
    }
  }

  lemma DrainAccount(x: Session, log: seq<Wake>, got: seq<Wake>, q: seq<Wake>, place: map<WakeId, Place>)
    requires Account(x, log, got, q, place)
    ensures Account(x, log, got + q, [], Moved(place, Ids(q), Delivered(x)))
  {
    LiveSame(log, place, Moved(place, Ids(q), Delivered(x)));
    assert got + q + [] == got + q;
    forall i | 0 <= i < |q|
      ensures q[i].id in Ids(q)
    {
    }
  }

  lemma DrainTables(s: Store, x: Session)
    requires TablesInv(s) && SessionInv(s, x)
    ensures TablesInv(s.(place := Moved(s.place, Ids(Get(s.pending, x)), Delivered(x))))
    ensures forall y | y != x :: SameSettled(s.place, Moved(s.place, Ids(Get(s.pending, x)), Delivered(x)), y)
  {
    var ids := Ids(Get(s.pending, x));
    var p' := Moved(s.place, ids, Delivered(x));
    forall k | k in ids
      ensures k in s.place && s.place[k] == Queued(x)
    {
      var i :| 0 <= i < |Get(s.pending, x)| && Get(s.pending, x)[i].id == k;
    }
    assert HeldInv(s.tickets, p');
    assert FlightInv(s.inFlight, p');
    assert RedeemedInv(s.redeemed, p');
    assert CancelledInv(s.cancelled, p');
    assert LoggedInv(s.log, p');
  }

  lemma DrainSession(s: Store, x: Session, y: Session)
    requires SessionInv(s, x) && SessionInv(s, y)
    requires y != x ==> SameSettled(s.place, DoDrain(s, x).place, y)
    ensures SessionInv(DoDrain(s, x), y)
  {
    var s' := DoDrain(s, x);
    if y == x {
      DrainAccount(x, Get(s.log, x), Get(s.delivered, x), Get(s.pending, x), s.place);
      assert Get(s'.pending, x) == [] && Get(s'.log, x) == Get(s.log, x);
      assert Get(s'.delivered, x) == Get(s.delivered, x) + Get(s.pending, x);
    } else {
      SessionSame(s, s', y);
    }
  }

  lemma DrainKeepsInv(s: Store, x: Session)
    requires Inv(s)
    ensures Inv(DoDrain(s, x))
  {
    assert SessionInv(s, x);
    DrainTables(s, x);
    var s' := DoDrain(s, x);
    assert TablesInv(s');
    forall y
      ensures SessionInv(s', y)
    {
      assert SessionInv(s, y);
      DrainSession(s, x, y);
    }
  }

  lemma DoKeepsInv(s: Store, a: Action)
    requires Inv(s)
    ensures Inv(Do(s, a))
  {
    if Enabled(s, a) {
      match a
      case Reserve(session, message, now, id, evicted) => ReserveKeepsInv(s, session, message, now, id, evicted);
      case RedeemTake(id, note, now, evicted) => TakeKeepsInv(s, id, note, now, evicted);
      case RedeemPut(id) => PutKeepsInv(s, id);
      case Cancel(id, now, evicted) => CancelKeepsInv(s, id, now, evicted);
      case Drain(session) => DrainKeepsInv(s, session);
    }
  }

  // Every interleaving of any number of reserve, redeem, cancel and drain calls.
  lemma {:induction false} EveryRunKeepsInv(s: Store, actions: seq<Action>)
    requires Inv(s)
    ensures Inv(DoAll(s, actions))
    decreases |actions|
  {
    if actions != [] {
      DoKeepsInv(s, actions[0]);
      EveryRunKeepsInv(Do(s, actions[0]), actions[1..]);
    }
  }

  // ---------------------------------------------------------------- what the module promises

  // The tables stay disjoint and bounded, and so does every queue.
  lemma TablesDisjointAndBounded(actions: seq<Action>)
    ensures var s := DoAll(EMPTY, actions);
            && s.tickets.Keys !! s.redeemed.Keys !! s.cancelled.Keys
            && |s.tickets| <= MAX_TICKETS && |s.redeemed| <= MAX_TICKETS && |s.cancelled| < MAX_TICKETS
            && forall x | x in s.pending :: |s.pending[x]| <= MAX_PER_SESSION
  {
    EveryRunKeepsInv(EMPTY, actions);
    var s := DoAll(EMPTY, actions);
    DisjointTables(s);
    forall x | x in s.pending
      ensures |s.pending[x]| <= MAX_PER_SESSION
    {
      assert SessionInv(s, x);
    }
  }

  lemma DisjointTables(s: Store)
    requires TablesInv(s)
    ensures s.tickets.Keys !! s.redeemed.Keys !! s.cancelled.Keys
  {
    assert forall k | k in s.tickets.Keys :: s.place[k] == Held;
    assert forall k | k in s.redeemed.Keys :: s.place[k] != Held && s.place[k] != Withdrawn;
    assert forall k | k in s.cancelled.Keys :: s.place[k] == Withdrawn;
  }

  // Every wake ever issued is in exactly one place, and the real tables and queues hold
  // precisely the wakes whose place says so.
  lemma EveryWakeInOnePlace(actions: seq<Action>, id: WakeId)
    ensures var s := DoAll(EMPTY, actions);
            && (id in s.tickets <==> id in s.place && s.place[id] == Held)
            && (id in s.inFlight <==> id in s.place && s.place[id] == InFlight)
            && (forall x :: id in Ids(Get(s.pending, x)) <==> id in s.place && s.place[id] == Queued(x))
            && (forall x :: id in Ids(Get(s.delivered, x)) <==> id in s.place && s.place[id] == Delivered(x))
  {
    EveryRunKeepsInv(EMPTY, actions);
    var s := DoAll(EMPTY, actions);
    forall x
      ensures id in Ids(Get(s.pending, x)) <==> id in s.place && s.place[id] == Queued(x)
      ensures id in Ids(Get(s.delivered, x)) <==> id in s.place && s.place[id] == Delivered(x)
    {
      assert SessionInv(s, x);
      AccountIds(s, x, id);
    }
  }

  // No wake is delivered twice, to the same session or to two.
  lemma DeliveredAtMostOnce(actions: seq<Action>, x: Session, i: nat, y: Session, j: nat)
    requires var s := DoAll(EMPTY, actions);
             && i < |Get(s.delivered, x)| && j < |Get(s.delivered, y)|
             && Get(s.delivered, x)[i].id == Get(s.delivered, y)[j].id
    ensures x == y && i == j
  {
    EveryRunKeepsInv(EMPTY, actions);
    var s := DoAll(EMPTY, actions);
    DeliveredWhere(s, x, i);
    DeliveredWhere(s, y, j);
    if i != j {
      DeliveredDistinct(s, x, i, j);
    }
  }

  lemma DeliveredWhere(s: Store, x: Session, i: nat)
    requires SessionsInv(s) && i < |Get(s.delivered, x)|
    ensures Get(s.delivered, x)[i].id in s.place && s.place[Get(s.delivered, x)[i].id] == Delivered(x)
  {
    assert SessionInv(s, x);
  }

  lemma DeliveredDistinct(s: Store, x: Session, i: nat, j: nat)
    requires SessionsInv(s) && i < |Get(s.delivered, x)| && j < |Get(s.delivered, x)| && i != j
    ensures Get(s.delivered, x)[i].id != Get(s.delivered, x)[j].id
  {
    assert SessionInv(s, x);
    var log, got, q := Get(s.log, x), Get(s.delivered, x), Get(s.pending, x);
    LiveDistinct(log, s.place);
    assert (got + q)[i] == got[i] && (got + q)[j] == got[j];
  }

  // Each session receives its wakes in the order they were queued, without gaps but for
  // those that were dropped from a full queue or cancelled.
  lemma DeliveredInOrder(actions: seq<Action>, x: Session)
    ensures var s := DoAll(EMPTY, actions);
            Get(s.delivered, x) + Get(s.pending, x) == Live(Get(s.log, x), s.place)
  {
    EveryRunKeepsInv(EMPTY, actions);
    assert SessionInv(DoAll(EMPTY, actions), x);
  }

  ghost predicate Final(p: Place)
  {
    p == Withdrawn || p.Delivered? || p == Expired || p == Dropped
  }

  lemma FinalStaysOnPut(s: Store, other: WakeId, id: WakeId)
    requires FlightInv(s.inFlight, s.place) && other in s.inFlight && SessionInv(s, s.inFlight[other].0)
    requires id in s.place && Final(s.place[id])
    ensures id in DoPut(s, other).place && DoPut(s, other).place[id] == s.place[id]
  {
  }

  lemma FinalStaysOnDrain(s: Store, x: Session, id: WakeId)
    requires SessionInv(s, x) && id in s.place && Final(s.place[id])
    ensures id in DoDrain(s, x).place && DoDrain(s, x).place[id] == s.place[id]
  {
  }

  lemma FinalStaysOnReserve(s: Store, x: Session, m: string, now: Time, other: WakeId, evicted: set<WakeId>, id: WakeId)
    requires HeldInv(s.tickets, s.place) && other !in s.place && id in s.place && Final(s.place[id])
    ensures var p' := DoReserve(s, x, m, now, other, evicted).place; id in p' && p'[id] == s.place[id]
  {
  }

  lemma FinalStaysOnTake(s: Store, other: WakeId, note: string, now: Time, evicted: set<WakeId>, id: WakeId)
    requires HeldInv(s.tickets, s.place) && id in s.place && Final(s.place[id])
    ensures var p' := DoTake(s, other, note, now, evicted).place; id in p' && p'[id] == s.place[id]
  {
  }

  lemma FinalStaysOnCancel(s: Store, other: WakeId, now: Time, evicted: set<WakeId>, id: WakeId)
    requires Inv(s) && id in s.place && Final(s.place[id])
    ensures id in DoCancel(s, other, now, evicted).place && DoCancel(s, other, now, evicted).place[id] == s.place[id]
  {
    CancellableExactly(s, other);
  }

  lemma FinalStays(s: Store, a: Action, id: WakeId)
    requires Inv(s) && id in s.place && Final(s.place[id])
    ensures id in Do(s, a).place && Do(s, a).place[id] == s.place[id]
  {
    if Enabled(s, a) {
      match a
      case Reserve(x, m, now, other, evicted) => FinalStaysOnReserve(s, x, m, now, other, evicted, id);
      case RedeemTake(other, note, now, evicted) => FinalStaysOnTake(s, other, note, now, evicted, id);
      case RedeemPut(other) =>
        assert SessionInv(s, s.inFlight[other].0);
        FinalStaysOnPut(s, other, id);
      case Cancel(other, now, evicted) => FinalStaysOnCancel(s, other, now, evicted, id);
      case Drain(x) =>
        assert SessionInv(s, x);
        FinalStaysOnDrain(s, x, id);
    }
  }

  // The end of a wake's life is final.
  lemma {:induction false} FinalForever(s: Store, actions: seq<Action>, id: WakeId)
    requires Inv(s) && id in s.place && Final(s.place[id])
    ensures id in DoAll(s, actions).place && DoAll(s, actions).place[id] == s.place[id]
    decreases |actions|
  {
    if actions != [] {
      FinalStays(s, actions[0], id);
      DoKeepsInv(s, actions[0]);
      FinalForever(Do(s, actions[0]), actions[1..], id);
    }
  }

  // A cancel that answers True is final: whatever else was going on, such as a half-finished
  // redeem of the same id, and whatever follows, the wake is never delivered.
  lemma CancelIsFinal(before: seq<Action>, id: WakeId, now: Time, evicted: set<WakeId>, after: seq<Action>, x: Session)
    requires var s := DoAll(EMPTY, before);
             Cancellable(s, id) && Enabled(s, Cancel(id, now, evicted))
    ensures var s := DoAll(Do(DoAll(EMPTY, before), Cancel(id, now, evicted)), after);
            id !in Ids(Get(s.delivered, x)) && id !in Ids(Get(s.pending, x))
            && id !in s.tickets && id !in s.inFlight && id !in s.redeemed
  {
    EveryRunKeepsInv(EMPTY, before);
    var s := DoAll(EMPTY, before);
    var c := Do(s, Cancel(id, now, evicted));
    DoKeepsInv(s, Cancel(id, now, evicted));
    FinalForever(c, after, id);
    EveryRunKeepsInv(c, after);
    var e := DoAll(c, after);
    assert SessionInv(e, x);
    AccountIds(e, x, id);
  }

  // cancel answers True exactly for tickets and queued wakes. A wake whose redeem is between
  // its two lock regions cannot be cancelled, and its second half still queues it.
  lemma HalfRedeemedCannotBeCancelled(actions: seq<Action>, id: WakeId)
    requires id in DoAll(EMPTY, actions).inFlight
    ensures var s := DoAll(EMPTY, actions);
            !Cancellable(s, id) && Do(s, RedeemPut(id)).place[id] == Queued(s.inFlight[id].0)
  {
    EveryRunKeepsInv(EMPTY, actions);
    CancellableExactly(DoAll(EMPTY, actions), id);
  }

  /** Both halves of a redeem, one after the other. */
  ghost function RedeemAt(s: Store, id: WakeId, note: string, now: Time, evicted: set<WakeId>): Store
  {
    Do(Do(s, RedeemTake(id, note, now, evicted)), RedeemPut(id))
  }

  // The documentation says redeem fails for an expired ticket. In the code a held ticket
  // redeems at any time; the time decides nothing but the entry that records it.
  lemma RedeemIgnoresAge(s: Store, id: WakeId, note: string, now: Time, later: Time, evicted: set<WakeId>)
    requires Inv(s) && id in s.tickets && Enabled(s, RedeemTake(id, note, now, evicted))
    ensures Queues(s, RedeemAt(s, id, note, now, evicted), id)
    ensures RedeemAt(s, id, note, later, evicted) ==
              RedeemAt(s, id, note, now, evicted).(redeemed := (s.redeemed - evicted)[id := later])
  {
    TakePut(s, id, note, now, evicted);
    TakePut(s, id, note, later, evicted);
    PutKeepsTimes(DoTake(s, id, note, now, evicted), id, (s.redeemed - evicted)[id := later]);
  }

  /** The wake of ticket id of s is queued in s'. */
  predicate Queues(s: Store, s': Store, id: WakeId)
    requires id in s.tickets
  {
    id in s'.place && s'.place[id] == Queued(s.tickets[id].session)
  }

  lemma TakePut(s: Store, id: WakeId, note: string, now: Time, evicted: set<WakeId>)
    requires id in s.tickets && Enabled(s, RedeemTake(id, note, now, evicted))
    ensures RedeemAt(s, id, note, now, evicted) == DoPut(DoTake(s, id, note, now, evicted), id)
    ensures Queues(s, DoPut(DoTake(s, id, note, now, evicted), id), id)
  {
    var t := DoTake(s, id, note, now, evicted);
    assert t.inFlight[id].0 == s.tickets[id].session;
  }

  lemma PutKeepsTimes(t: Store, id: WakeId, times: map<WakeId, Time>)
    requires id in t.inFlight
    ensures DoPut(t.(redeemed := times), id) == DoPut(t, id).(redeemed := times)
  {
  }

  // In particular one that is older than the age limit.
  lemma OldTicketRedeems(session: Session, message: string, id: WakeId, issued: Time, now: Time)
    requires session != "" && now - issued > TICKET_TTL
    ensures var run := [Reserve(session, message, issued, id, {}), RedeemTake(id, "", now, {}), RedeemPut(id)];
            var s := DoAll(EMPTY, run);
            id in s.place && s.place[id] == Queued(session)
  {
    var a, b, c := Reserve(session, message, issued, id, {}), RedeemTake(id, "", now, {}), RedeemPut(id);
    ThreeActions(EMPTY, a, b, c);
    FirstTicket(session, message, id, issued);
    TakePut(Do(EMPTY, a), id, "", now, {});
  }

  lemma FirstTicket(session: Session, message: string, id: WakeId, issued: Time)
    requires session != ""
    ensures var s := Do(EMPTY, Reserve(session, message, issued, id, {}));
            id in s.tickets && s.tickets[id].session == session && s.redeemed == map[]
  {
    assert Created(Unexpired(EMPTY.tickets, issued)) == map[];
  }

  lemma ThreeActions(s: Store, a: Action, b: Action, c: Action)
    ensures DoAll(s, [a, b, c]) == Do(Do(Do(s, a), b), c)
  {
    var run := [a, b, c];
    var s1, s2 := Do(s, a), Do(Do(s, a), b);
    assert run[1..] == [b, c] && run[1..][1..] == [c] && run[1..][1..][1..] == [];
    assert DoAll(s, run) == DoAll(s1, run[1..]);
    assert DoAll(s1, run[1..]) == DoAll(s2, run[1..][1..]);
    assert DoAll(s2, run[1..][1..]) == DoAll(Do(s2, c), run[1..][1..][1..]);
  }

  lemma ReserveExpires(s: Store, session: Session, message: string, now: Time, id: WakeId, evicted: set<WakeId>,
                       k: WakeId)
    requires Inv(s) && Enabled(s, Reserve(session, message, now, id, evicted)) && session != "" && k in s.tickets
    ensures Do(s, Reserve(session, message, now, id, evicted)).place[k] == Expired
       <==> now - s.tickets[k].created > TICKET_TTL || k in evicted
  {
  }

  /** A reservation that throws ticket k, issued at the given time, out. */
  ghost predicate Purges(s: Store, a: Action, k: WakeId, created: Time)
  {
    && a.Reserve? && Enabled(s, a) && a.session != ""
    && (a.now - created > TICKET_TTL || k in a.evicted)
  }

  predicate Takes(a: Action, k: WakeId)
  {
    (a.RedeemTake? || a.Cancel?) && a.id == k
  }

  /** The ticket stays as it is, or the action is a reservation that expires it. */
  ghost predicate StaysOrExpires(s: Store, a: Action, k: WakeId)
    requires k in s.tickets
  {
    var s' := Do(s, a);
    if Purges(s, a, k, s.tickets[k].created) then k in s'.place && s'.place[k] == Expired
    else k in s'.tickets && s'.tickets[k] == s.tickets[k]
  }

  // That is all that can happen to one that is neither redeemed nor cancelled.
  lemma TicketStep(s: Store, a: Action, k: WakeId)
    requires Inv(s) && k in s.tickets && !Takes(a, k)
    ensures StaysOrExpires(s, a, k)
  {
    match a
    case Reserve(x, m, now, id, evicted) => TicketAtReserve(s, x, m, now, id, evicted, k);
    case RedeemTake(id, note, now, evicted) => TicketAtTake(s, id, note, now, evicted, k);
    case Cancel(id, now, evicted) => TicketAtCancel(s, id, now, evicted, k);
    case RedeemPut(id) => TicketAtPut(s, id, k);
    case Drain(x) => TicketAtDrain(s, x, k);
  }

  lemma TicketAtTake(s: Store, id: WakeId, note: string, now: Time, evicted: set<WakeId>, k: WakeId)
    requires k in s.tickets && k != id
    ensures StaysOrExpires(s, RedeemTake(id, note, now, evicted), k)
  {
  }

  lemma TicketAtPut(s: Store, id: WakeId, k: WakeId)
    requires k in s.tickets
    ensures StaysOrExpires(s, RedeemPut(id), k)
  {
  }

  lemma TicketAtDrain(s: Store, x: Session, k: WakeId)
    requires k in s.tickets
    ensures StaysOrExpires(s, Drain(x), k)
  {
  }

  lemma TicketAtCancel(s: Store, id: WakeId, now: Time, evicted: set<WakeId>, k: WakeId)
    requires k in s.tickets && k != id
    ensures StaysOrExpires(s, Cancel(id, now, evicted), k)
  {
  }

  lemma TicketAtReserve(s: Store, x: Session, m: string, now: Time, id: WakeId, evicted: set<WakeId>, k: WakeId)
    requires Inv(s) && k in s.tickets
    ensures StaysOrExpires(s, Reserve(x, m, now, id, evicted), k)
  {
    if Enabled(s, Reserve(x, m, now, id, evicted)) && x != "" {
      ReserveExpires(s, x, m, now, id, evicted, k);
      assert k in s.place && id != k;
    }
  }

  // Over every continuation in which nobody redeems or cancels it, a ticket is still held if
  // and only if no reservation has come that found it over the age limit, or among the oldest
  // it had to make room for. Time alone does nothing to it.
  lemma {:induction false} HeldUntilPurged(s: Store, actions: seq<Action>, k: WakeId)
    requires Inv(s) && k in s.tickets
    requires forall i | 0 <= i < |actions| :: !Takes(actions[i], k)
    ensures k in DoAll(s, actions).tickets <==> forall i: nat | i < |actions| ::
              !Purges(DoAll(s, actions[..i]), actions[i], k, s.tickets[k].created)
    decreases |actions|
  {
    if actions != [] {
      var a, rest, n := actions[0], actions[1..], Do(s, actions[0]);
      assert DoAll(s, actions[..0]) == s;
      TicketStep(s, a, k);
      assert StaysOrExpires(s, a, k);
      DoKeepsInv(s, a);
      if Purges(s, a, k, s.tickets[k].created) {
        FinalForever(n, rest, k);
        EveryRunKeepsInv(n, rest);
        assert !(k in DoAll(n, rest).tickets);
      } else {
        HeldUntilPurged(n, rest, k);
        forall i: nat | i < |rest|
          ensures DoAll(s, actions[..i + 1]) == DoAll(n, rest[..i]) && actions[i + 1] == rest[i]
        {
          assert actions[..i + 1][0] == a && actions[..i + 1][1..] == rest[..i];
        }
        HeldShift(s, actions, k);
      }
    }
  }

  lemma HeldShift(s: Store, actions: seq<Action>, k: WakeId)
    requires actions != [] && k in s.tickets
    requires var n, rest := Do(s, actions[0]), actions[1..];
             && !Purges(s, actions[0], k, s.tickets[k].created)
             && forall i: nat | i < |rest| :: DoAll(s, actions[..i + 1]) == DoAll(n, rest[..i])
    ensures (forall i: nat | i < |actions| :: !Purges(DoAll(s, actions[..i]), actions[i], k, s.tickets[k].created))
       <==> (forall i: nat | i < |actions[1..]| ::
               !Purges(DoAll(Do(s, actions[0]), actions[1..][..i]), actions[1..][i], k, s.tickets[k].created))
  {
    var n, rest, created := Do(s, actions[0]), actions[1..], s.tickets[k].created;
    if forall i: nat | i < |actions| :: !Purges(DoAll(s, actions[..i]), actions[i], k, created) {
      forall i: nat | i < |rest|
        ensures !Purges(DoAll(n, rest[..i]), rest[i], k, created)
      {
        assert !Purges(DoAll(s, actions[..i + 1]), actions[i + 1], k, created);
      }
    }
    if forall i: nat | i < |rest| :: !Purges(DoAll(n, rest[..i]), rest[i], k, created) {
      forall i: nat | i < |actions|
        ensures !Purges(DoAll(s, actions[..i]), actions[i], k, created)
      {
        if i > 0 {
          assert !Purges(DoAll(n, rest[..i - 1]), rest[i - 1], k, created);
          assert DoAll(s, actions[..(i - 1) + 1]) == DoAll(n, rest[..i - 1]);
        } else {
          assert actions[..0] == [];
        }
      }
    }
  }

  // ---------------------------------------------------------------- what a wake says

  lemma {:induction false} DoAllConcat(s: Store, a: seq<Action>, b: seq<Action>)
    ensures DoAll(s, a + b) == DoAll(DoAll(s, a), b)
    decreases |a|
  {
    if a == [] {
      assert a + b == b;
    } else {
      assert (a + b)[1..] == a[1..] + b;
      DoAllConcat(Do(s, a[0]), a[1..], b);
    }
  }

  /** The ticket id, as long as it is held, is the one issued to this session with this text. */
  ghost predicate TicketIs(s: Store, id: WakeId, session: Session, text: string)
  {
    && id in s.place
    && (id in s.tickets ==> s.tickets[id].session == session && s.tickets[id].message == text)
  }

  lemma TicketStaysStep(s: Store, a: Action, id: WakeId, session: Session, text: string)
    requires TicketIs(s, id, session, text)
    ensures TicketIs(Do(s, a), id, session, text)
  {
  }

  lemma {:induction false} TicketStays(s: Store, actions: seq<Action>, id: WakeId, session: Session, text: string)
    requires TicketIs(s, id, session, text)
    ensures TicketIs(DoAll(s, actions), id, session, text)
    decreases |actions|
  {
    if actions != [] {
      TicketStaysStep(s, actions[0], id, session, text);
      TicketStays(Do(s, actions[0]), actions[1..], id, session, text);
    }
  }

  /** Every trace of wake id, on its way to a queue or in a log, is for this session and says
      this; there is no ticket of it any more. */
  ghost predicate WakeIs(s: Store, id: WakeId, session: Session, text: string)
  {
    && id in s.place && id !in s.tickets
    && (id in s.inFlight ==> s.inFlight[id] == (session, text))
    && forall x, i | 0 <= i < |Get(s.log, x)| && Get(s.log, x)[i].id == id ::
         x == session && Get(s.log, x)[i].message == text
  }

  lemma WakeStaysPut(s: Store, other: WakeId, id: WakeId, session: Session, text: string)
    requires WakeIs(s, id, session, text) && other in s.inFlight && |text| <= 2000
    ensures WakeIs(DoPut(s, other), id, session, text)
  {
    var s' := DoPut(s, other);
    var x0 := s.inFlight[other].0;
    forall x, i | 0 <= i < |Get(s'.log, x)| && Get(s'.log, x)[i].id == id
      ensures x == session && Get(s'.log, x)[i].message == text
    {
      if x == x0 && i == |Get(s.log, x)| {
        assert other == id;
      } else {
        assert Get(s'.log, x)[i] == Get(s.log, x)[i];
      }
    }
  }

  lemma WakeStaysStep(s: Store, a: Action, id: WakeId, session: Session, text: string)
    requires WakeIs(s, id, session, text) && |text| <= 2000
    ensures WakeIs(Do(s, a), id, session, text)
  {
    if a.RedeemPut? && Enabled(s, a) {
      WakeStaysPut(s, a.id, id, session, text);
    } else {
      assert Do(s, a).log == s.log;
    }
  }

  lemma {:induction false} WakeStays(s: Store, actions: seq<Action>, id: WakeId, session: Session, text: string)
    requires WakeIs(s, id, session, text) && |text| <= 2000
    ensures WakeIs(DoAll(s, actions), id, session, text)
    decreases |actions|
  {
    if actions != [] {
      WakeStaysStep(s, actions[0], id, session, text);
      WakeStays(Do(s, actions[0]), actions[1..], id, session, text);
    }
  }

  /** The text a wake is promised to carry: the first 500 characters of what was reserved, and
      if there is a note, a dash and the first 500 characters of that. */
  predicate Worded(text: string, message: string, note: string)
  {
    var head := if |message| > 500 then message[..500] else message;
    var tail := if |note| > 500 then note[..500] else note;
    if note == "" then text == head
    else
      && |text| == |head| + 3 + |tail| && head <= text
      && text[|head|..|head| + 3] == " — " && text[|head| + 3..] == tail
  }

  lemma NoteIsWorded(message: string, note: string)
    ensures var text := Note(Take(message, 500), note);
            Worded(text, message, note) && |text| <= 2000
  {
    var head, tail := Take(message, 500), Take(note, 500);
    if note == "" {
      assert Note(head, note) == head;
    } else {
      var text := Note(head, note);
      assert text == head + " — " + tail;
      assert text[|head|..|head| + 3] == " — " && text[|head| + 3..] == tail;
    }
  }

  // Nothing says anything about a wake before its ticket is redeemed.
  lemma FreshWake(s: Store, id: WakeId, note: string, now: Time, evicted: set<WakeId>)
    requires Inv(s) && id in s.tickets && Enabled(s, RedeemTake(id, note, now, evicted))
    ensures var t := s.tickets[id];
            WakeIs(Do(s, RedeemTake(id, note, now, evicted)), id, t.session, Note(t.message, note))
  {
    forall x, i | 0 <= i < |Get(s.log, x)|
      ensures Get(s.log, x)[i].id != id
    {
      assert SessionInv(s, x);
      assert Settled(s.place[Get(s.log, x)[i].id], x);
    }
  }

  /** A wake of the session is queued or was delivered. */
  ghost predicate Reaches(s: Store, x: Session, w: WakeId, text: string)
  {
    Wake(w, text) in Get(s.pending, x) || Wake(w, text) in Get(s.delivered, x)
  }

  lemma ReachedIsLogged(s: Store, x: Session, id: WakeId, text: string)
    requires Inv(s) && Reaches(s, x, id, text)
    ensures Wake(id, text) in Get(s.log, x)
  {
    assert SessionInv(s, x);
    assert Wake(id, text) in Get(s.delivered, x) + Get(s.pending, x);
    LiveMembers(Get(s.log, x), s.place, Wake(id, text));
  }

  // Over every run: a wake that was reserved for a session with a message and redeemed with a
  // note reaches that session only, and says what was reserved and noted.
  lemma WakeSaysItsMessage(before: seq<Action>, r: Action, between: seq<Action>, t: Action, after: seq<Action>,
                           x: Session, text: string)
    requires r.Reserve? && t.RedeemTake? && t.id == r.id && r.session != ""
    requires Enabled(DoAll(EMPTY, before), r)
    requires var s := DoAll(Do(DoAll(EMPTY, before), r), between); r.id in s.tickets && Enabled(s, t)
    requires Reaches(DoAll(EMPTY, before + [r] + between + [t] + after), x, r.id, text)
    ensures x == r.session && Worded(text, r.message, t.note)
  {
    RunInParts(before, r, between, t, after);
    ReachableInv(before);
    WakeOfTicket(DoAll(EMPTY, before), r, between, t, after, x, text);
  }

  lemma ReachableInv(actions: seq<Action>)
    ensures Inv(DoAll(EMPTY, actions))
  {
    EveryRunKeepsInv(EMPTY, actions);
  }

  lemma WakeOfTicket(s: Store, r: Action, between: seq<Action>, t: Action, after: seq<Action>, x: Session, text: string)
    requires Inv(s) && r.Reserve? && t.RedeemTake? && t.id == r.id && r.session != "" && Enabled(s, r)
    requires var s' := DoAll(Do(s, r), between); r.id in s'.tickets && Enabled(s', t)
    requires Reaches(DoAll(Do(DoAll(Do(s, r), between), t), after), x, r.id, text)
    ensures x == r.session && Worded(text, r.message, t.note)
  {
    TicketAsIssued(s, r, between);
    WakeAsRedeemed(DoAll(Do(s, r), between), t, after, x, text, r.message);
  }

  lemma TicketAsIssued(s: Store, r: Action, between: seq<Action>)
    requires Inv(s) && r.Reserve? && r.session != "" && Enabled(s, r)
    ensures var s' := DoAll(Do(s, r), between);
            && Inv(s')
            && (r.id in s'.tickets ==>
                  s'.tickets[r.id].session == r.session && s'.tickets[r.id].message == Take(r.message, 500))
  {
    DoKeepsInv(s, r);
    EveryRunKeepsInv(Do(s, r), between);
    TicketStays(Do(s, r), between, r.id, r.session, Take(r.message, 500));
  }

  lemma WakeAsRedeemed(s: Store, t: Action, after: seq<Action>, x: Session, text: string, message: string)
    requires Inv(s) && t.RedeemTake? && t.id in s.tickets && Enabled(s, t)
    requires s.tickets[t.id].message == Take(message, 500)
    requires Reaches(DoAll(Do(s, t), after), x, t.id, text)
    ensures x == s.tickets[t.id].session && Worded(text, message, t.note)
  {
    var said := Note(Take(message, 500), t.note);
    DoKeepsInv(s, t);
    EveryRunKeepsInv(Do(s, t), after);
    FreshWake(s, t.id, t.note, t.now, t.evicted);
    NoteIsWorded(message, t.note);
    WakeStays(Do(s, t), after, t.id, s.tickets[t.id].session, said);
    LoggedIs(DoAll(Do(s, t), after), t.id, s.tickets[t.id].session, said, x, text);
  }

  lemma LoggedIs(s: Store, id: WakeId, session: Session, said: string, x: Session, text: string)
    requires Inv(s) && WakeIs(s, id, session, said) && Reaches(s, x, id, text)
    ensures x == session && text == said
  {
    ReachedIsLogged(s, x, id, text);
    var i :| 0 <= i < |Get(s.log, x)| && Get(s.log, x)[i] == Wake(id, text);
  }

  lemma RunInParts(before: seq<Action>, r: Action, between: seq<Action>, t: Action, after: seq<Action>)
    ensures DoAll(EMPTY, before + [r] + between + [t] + after) ==
              DoAll(Do(DoAll(Do(DoAll(EMPTY, before), r), between), t), after)
  {
    DoAllConcat(EMPTY, before + [r] + between + [t], after);
    DoAllConcat(EMPTY, before + [r] + between, [t]);
    DoAllConcat(EMPTY, before + [r], between);
    DoAllConcat(EMPTY, before, [r]);
    OneAction(DoAll(EMPTY, before), r);
    OneAction(DoAll(Do(DoAll(EMPTY, before), r), between), t);
  }

  lemma OneAction(s: Store, a: Action)
    ensures DoAll(s, [a]) == Do(s, a)
  {
    assert [a][1..] == [];
  }

  // ---------------------------------------------------------------- what is thrown out

  // A reservation throws a ticket that is not too old out only to stay within the limit, and
  // then none that is newer than one it keeps.
  lemma ReserveEvictsOldest(s: Store, a: Action, k: WakeId)
    requires Inv(s) && a.Reserve? && Enabled(s, a) && a.session != ""
    requires k in s.tickets && k !in Do(s, a).tickets && a.now - s.tickets[k].created <= TICKET_TTL
    ensures |Do(s, a).tickets| == MAX_TICKETS
    ensures forall j | j in Do(s, a).tickets && j != a.id ::
              j in s.tickets && s.tickets[k].created <= s.tickets[j].created
  {
    var left := Unexpired(s.tickets, a.now);
    var kept := KeptTickets(s, a.now, a.evicted);
    assert k in left && k in a.evicted;
    RemovedSize(left, a.evicted);
    assert |Created(left)| == |left| by {
      assert Created(left).Keys == left.Keys;
      assert |Created(left)| == |Created(left).Keys| && |left| == |left.Keys|;
    }
    assert a.id !in kept;
  }

  // A full queue loses its oldest wake to a new one, and only a full one loses any.
  lemma QueueKeepsNewest(s: Store, id: WakeId)
    requires id in s.inFlight
    ensures var (x, message) := s.inFlight[id];
            var q, q' := Get(s.pending, x), Get(DoPut(s, id).pending, x);
            && q' != [] && q'[|q'| - 1].id == id
            && q'[..|q'| - 1] == if |q| < MAX_PER_SESSION then q else q[1..]
  {
  }

  // ---------------------------------------------------------------- the code

  datatype State = Pending(message: string, age: Time) | Redeemed(ago: Time) | Cancelled(ago: Time) | Unknown

  lemma {:induction false} SameLengthSame(q: seq<Wake>, id: WakeId)
    requires |Without(q, id)| == |q|
    ensures Without(q, id) == q
  {
    if q != [] {
      var tail := q[1..];
      WithoutKeeps(tail, id);
      assert Without(q, id) == (if q[0].id == id then [] else [q[0]]) + Without(tail, id);
      SameLengthSame(tail, id);
      assert q == [q[0]] + tail;
    }
  }

  lemma PutResult(s: Store, id: WakeId) returns (after: Store)
    requires Inv(s) && id in s.inFlight
    ensures Inv(after) && after == DoPut(s, id) == Do(s, RedeemPut(id)) && s.inFlight[id].0 != ""
  {
    PutKeepsInv(s, id);
    after := DoPut(s, id);
  }

  lemma DrainResult(s: Store, x: Session) returns (after: Store)
    requires Inv(s)
    ensures Inv(after) && after == DoDrain(s, x) == Do(s, Drain(x))
  {
    DrainKeepsInv(s, x);
    after := DoDrain(s, x);
  }

  class PcWake {
    var tickets: map<WakeId, Ticket>
    var pending: map<Session, seq<Wake>>
    var redeemed: map<WakeId, Time>
    var cancelled: map<WakeId, Time>
    ghost var inFlight: map<WakeId, (Session, string)>
    ghost var place: map<WakeId, Place>
    ghost var log: map<Session, seq<Wake>>
    ghost var delivered: map<Session, seq<Wake>>

    ghost function Abs(): Store
      reads this
    {
      Store(tickets, pending, redeemed, cancelled, inFlight, place, log, delivered)
    }

    ghost predicate Valid()
      reads this
    {
      Inv(Abs())
    }

    constructor ()
      ensures Valid() && Abs() == EMPTY
    {
      tickets, pending, redeemed, cancelled := map[], map[], map[], map[];
      inFlight, place, log, delivered := map[], map[], map[], map[];
    }

    /** `reserve`, with the id uuid4 came up with. */
    method ReserveTicket(message: string, session: Session, now: Time, id: WakeId)
        returns (r: Option<WakeId>, ghost evicted: set<WakeId>)
      requires Valid() && id !in place
      modifies this
      ensures Valid() && r == if session == "" then None else Some(id)
      ensures session == "" ==> Abs() == old(Abs())
      ensures session != "" ==> old(Enabled(Abs(), Reserve(session, message, now, id, evicted)))
                                && Abs() == Do(old(Abs()), Reserve(session, message, now, id, evicted))
    {
      evicted := {};
      if session == "" {
        return None, evicted;
      }
      ghost var before := Abs();
      var live := Unexpired(tickets, now);
      var gone := EvictOldest(Created(live), MAX_TICKETS);
      evicted := gone;
      ghost var a := Reserve(session, message, now, id, gone);
      DoKeepsInv(before, a);
      tickets := (live - gone)[id := Ticket(session, Take(message, 500), now)];
      place := Do(before, a).place;
      return Some(id), evicted;
    }

    /** `redeem` up to the release of the lock: the ticket, if there is one. */
    method RedeemFirstHalf(id: WakeId, ghost note: string, now: Time)
        returns (t: Option<Ticket>, ghost evicted: set<WakeId>)
      requires Valid()
      modifies this
      ensures Valid() && t == if id in old(tickets) then Some(old(tickets)[id]) else None
      ensures old(Enabled(Abs(), RedeemTake(id, note, now, evicted)))
      ensures Abs() == Do(old(Abs()), RedeemTake(id, note, now, evicted))
    {
      evicted := {};
      if id !in tickets {
        return None, evicted;
      }
      ghost var before := Abs();
      var ticket;
      ticket, evicted := TakeLocked(id, note, now);
      t := Some(ticket);
      TakeKeepsInv(before, id, note, now, evicted);
    }

    /** The part of the lock region that runs when the ticket exists. */
    method TakeLocked(id: WakeId, ghost note: string, now: Time) returns (t: Ticket, evicted: set<WakeId>)
      requires id in tickets
      modifies this
      ensures t == old(tickets)[id] && OldestFirst(old(redeemed), evicted, MAX_TICKETS)
      ensures Abs() == DoTake(old(Abs()), id, note, now, evicted)
    {
      ghost var before := Abs();
      t := tickets[id];
      evicted := EvictOldest(redeemed, MAX_TICKETS);
      tickets := tickets - {id};
      redeemed := (redeemed - evicted)[id := now];
      inFlight := inFlight[id := (t.session, Note(t.message, note))];
      place := place[id := InFlight];
      TakeParts(before, Abs(), id, note, now, evicted);
    }

    lemma TakeParts(s: Store, s': Store, id: WakeId, note: string, now: Time, evicted: set<WakeId>)
      requires id in s.tickets
      requires s'.tickets == s.tickets - {id} && s'.redeemed == (s.redeemed - evicted)[id := now]
      requires s'.inFlight == s.inFlight[id := (s.tickets[id].session, Note(s.tickets[id].message, note))]
      requires s'.place == s.place[id := InFlight]
      requires s'.pending == s.pending && s'.cancelled == s.cancelled && s'.log == s.log && s'.delivered == s.delivered
      ensures s' == DoTake(s, id, note, now, evicted)
    {
    }

    /** `_enqueue`; the log and the places record what it does. */
    method EnqueueLocked(session: Session, message: string, id: WakeId) returns (ok: bool)
      requires id in inFlight && inFlight[id] == (session, message)
      modifies this
      ensures ok == (session != "")
      ensures ok ==> Abs() == DoPut(old(Abs()), id)
    {
      if session == "" {
        return false;
      }
      var q := Get(pending, session);
      if |q| >= MAX_PER_SESSION {
        place := place[q[0].id := Dropped];
        q := q[1..];
      }
      var wake := Wake(id, Take(message, 2000));
      pending := pending[session := q + [wake]];
      place := place[id := Queued(session)];
      log := log[session := Get(log, session) + [wake]];
      inFlight := inFlight - {id};
      return true;
    }

    /** The second half of `redeem`. */
    method Enqueue(session: Session, message: string, id: WakeId) returns (ok: bool)
      requires Valid() && id in inFlight && inFlight[id] == (session, message)
      modifies this
      ensures Valid() && ok && Abs() == Do(old(Abs()), RedeemPut(id))
    {
      ghost var after := PutResult(Abs(), id);
      ok := EnqueueLocked(session, message, id);
    }

    /** `redeem` when no other thread comes between its halves. */
    method Redeem(id: WakeId, note: string, now: Time) returns (ok: bool)
      requires Valid()
      modifies this
      ensures Valid() && ok == (id in old(tickets))
      ensures ok ==> id in place && place[id] == Queued(old(tickets)[id].session) && id in redeemed
      ensures !ok ==> Abs() == old(Abs())
    {
      var t, evicted := RedeemFirstHalf(id, note, now);
      if t.None? {
        return false;
      }
      ok := Enqueue(t.value.session, Note(t.value.message, note), id);
    }

    /** The loop of `cancel` over all queues. */
    method FilterQueues(id: WakeId) returns (found: bool)
      modifies this`pending
      ensures pending == Filtered(old(pending), id)
      ensures found <==> exists q :: q in old(pending) && Without(old(pending)[q], id) != old(pending)[q]
    {
      found := false;
      ghost var before := pending;
      var todo := pending.Keys;
      while todo != {}
        invariant todo <= before.Keys == pending.Keys
        invariant forall q | q in before :: pending[q] == if q in todo then before[q] else Without(before[q], id)
        invariant found <==> exists q :: q in before && q !in todo && Without(before[q], id) != before[q]
        decreases |todo|
      {
        var q :| q in todo;
        var filtered := Without(pending[q], id);
        if |filtered| != |pending[q]| {
          found := true;
        } else {
          SameLengthSame(pending[q], id);
        }
        pending := pending[q := filtered];
        todo := todo - {q};
      }
    }

    /** The part of `cancel` that removes the id from the tickets and the queues. */
    method RemoveWake(id: WakeId) returns (removed: bool)
      modifies this`tickets, this`pending
      ensures removed == old(Cancellable(Abs(), id))
      ensures tickets == old(tickets) - {id}
      ensures pending == Filtered(old(pending), id)
      ensures !removed ==> tickets == old(tickets) && pending == old(pending)
    {
      ghost var before := pending;
      removed := id in tickets;
      tickets := tickets - {id};
      var found := FilterQueues(id);
      removed := removed || found;
      assert !removed ==> pending == before;
    }

    /** The part of `cancel` that records the cancellation and keeps that table small. */
    method RecordCancellation(id: WakeId, now: Time) returns (evicted: set<WakeId>)
      modifies this`redeemed, this`cancelled
      ensures redeemed == old(redeemed) - {id}
      ensures OldestFirst(old(cancelled)[id := now], evicted, MAX_TICKETS)
      ensures cancelled == old(cancelled)[id := now] - evicted
    {
      redeemed := redeemed - {id};
      cancelled := cancelled[id := now];
      evicted := EvictOldest(cancelled, MAX_TICKETS);
      cancelled := cancelled - evicted;
    }

    lemma CancelParts(s: Store, s': Store, id: WakeId, now: Time, evicted: set<WakeId>)
      requires Cancellable(s, id)
      requires s'.tickets == s.tickets - {id} && s'.pending == Filtered(s.pending, id)
      requires s'.redeemed == s.redeemed - {id} && s'.cancelled == s.cancelled[id := now] - evicted
      requires s'.place == s.place[id := Withdrawn]
      requires s'.inFlight == s.inFlight && s'.log == s.log && s'.delivered == s.delivered
      ensures s' == DoCancel(s, id, now, evicted)
    {
    }

    /** The lock region of `cancel`. */
    method CancelLocked(id: WakeId, now: Time) returns (removed: bool, ghost evicted: set<WakeId>)
      modifies this
      ensures removed == Cancellable(old(Abs()), id)
      ensures removed ==> OldestFirst(old(cancelled)[id := now], evicted, MAX_TICKETS)
      ensures Abs() == DoCancel(old(Abs()), id, now, evicted)
    {
      ghost var before := Abs();
      removed := RemoveWake(id);
      evicted := {};
      if removed {
        evicted := RecordCancellation(id, now);
        place := place[id := Withdrawn];
        ghost var after := Abs();
        assert after.tickets == before.tickets - {id} && after.pending == Filtered(before.pending, id);
        CancelParts(before, after, id, now, evicted);
      }
    }

    method CancelWake(id: WakeId, now: Time) returns (removed: bool, ghost evicted: set<WakeId>)
      requires Valid()
      modifies this
      ensures Valid() && removed == Cancellable(old(Abs()), id)
      ensures Enabled(old(Abs()), Cancel(id, now, evicted))
      ensures Abs() == Do(old(Abs()), Cancel(id, now, evicted))
    {
      ghost var before := Abs();
      removed, evicted := CancelLocked(id, now);
      CancelKeepsInv(before, id, now, evicted);
    }

    /** `status`: a time of exactly zero reads as absent. */
    method Status(id: WakeId, now: Time) returns (state: State)
      requires Valid()
      ensures state.Pending? <==> id in place && place[id] == Held
      ensures id in tickets ==> state == Pending(tickets[id].message, now - tickets[id].created)
      ensures state.Redeemed? ==> id in place && place[id] != Held && !Abandoned(place[id])
      ensures state.Cancelled? ==> id in place && place[id] == Withdrawn
      ensures id in redeemed && redeemed[id] != 0.0 ==> state == Redeemed(now - redeemed[id])
      ensures id in cancelled && cancelled[id] != 0.0 ==> state == Cancelled(now - cancelled[id])
    {
      if id in tickets {
        return Pending(tickets[id].message, now - tickets[id].created);
      }
      if id in redeemed && redeemed[id] != 0.0 {
        return Redeemed(now - redeemed[id]);
      }
      if id in cancelled && cancelled[id] != 0.0 {
        return Cancelled(now - cancelled[id]);
      }
      return Unknown;
    }

    /** One attempt of `drain`, under the lock; the caller waits when it gets nothing. */
    method DrainOnce(session: Session) returns (q: seq<Wake>)
      requires Valid()
      modifies this
      ensures Valid() && q == Get(old(pending), session)
      ensures Abs() == Do(old(Abs()), Drain(session))
    {
      ghost var after := DrainResult(Abs(), session);
      q := Get(pending, session);
      pending := pending - {session};
      place := Moved(place, Ids(q), Delivered(session));
      delivered := delivered[session := Get(delivered, session) + q];
      assert Abs() == after;
    }
  }

  predicate Abandoned(p: Place)
  {
    p == Withdrawn || p == Expired
  }
}
