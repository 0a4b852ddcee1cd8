/** The event bus: processes compete for an advisory lock, its holder listens, and dispatches what it hears. */
module EventBus {
  import opened Options

  type ProcessId = nat
  type SessionId = nat
  type EnvelopeId = nat
  type Handler = nat

  // ---------------------------------------------------------------------
  // Registering and calling handlers in one process.
  // ---------------------------------------------------------------------

  /** None is a name that could not be parsed. */
  datatype Envelope = Envelope(name: Option<string>, payload: string)

  class Subscribers {
    var handlers: map<string, seq<Handler>>

    function Of(name: string): (hs: seq<Handler>)
      reads this
      ensures if name in handlers then hs == handlers[name] else hs == []
    {
      if name in handlers then handlers[name] else []
    }

    method Subscribe(name: string, h: Handler)
      modifies this
      ensures Of(name) == old(Of(name)) + [h]
      ensures forall other | other != name :: Of(other) == old(Of(other))
    {
      if name !in handlers {
        handlers := handlers[name := []];
      }
      handlers := handlers[name := handlers[name] + [h]];
    }

    /** Calls every handler of the event in order; `raises` says which of them fail. */
    method Dispatch(e: Envelope, raises: Handler -> bool) returns (called: seq<Handler>, warned: seq<Handler>)
      ensures called == if e.name.Some? then Of(e.name.value) else []
      ensures forall h :: h in warned <==> h in called && raises(h)
      ensures |warned| <= |called|
    {
      called, warned := [], [];
      if e.name.None? {
        return;
      }
      var hs := Of(e.name.value);
      for i := 0 to |hs|
        invariant called == hs[..i]
        invariant forall h :: h in warned <==> h in called && raises(h)
        invariant |warned| <= i
      {
        called := called + [hs[i]];
        if raises(hs[i]) {
          warned := warned + [hs[i]];
        }
      }
    }
  }

  // ---------------------------------------------------------------------
  // The listen loops and the database server.
  // ---------------------------------------------------------------------

  /** Where a process's loop stands. A raise outside the loop's try block ends the task for good. */
  datatype Stage =
    | Connecting
    | Trying(s: SessionId)
    | Yielding(s: SessionId)
    | Waiting
    | Adding(s: SessionId)
    | Leading(s: SessionId)
    | Closing(s: SessionId)
    | Dead

  /** The session a loop works on. */
  function SessionOf(at: Stage): Option<SessionId> {
    match at
    case Connecting => None
    case Waiting => None
    case Dead => None
    case Trying(s) => Some(s)
    case Yielding(s) => Some(s)
    case Adding(s) => Some(s)
    case Leading(s) => Some(s)
    case Closing(s) => Some(s)
  }

  /** The processes' loops, who opened which session, and what the server knows of the sessions: which are live, which
      holds the lock, which listen. */
  datatype Links = Links(
    stages: map<ProcessId, Stage>,
    opener: map<SessionId, ProcessId>,
    live: set<SessionId>,
    holder: Option<SessionId>,
    listening: set<SessionId>,
    nextSession: SessionId)

  /** What a loop does next. Fails is an exception at whatever it is waiting for: the server may or may not still have
      the session. ListenFails and LockThenDie are exceptions after the server has done its part. */
  datatype Act =
    Connect | TryLock | LockThenDie | Yield | Wake | Listen | ListenFails | Fails | Close | CloseFails | Stop

  function At(k: Links, p: ProcessId, s: Stage): Links { k.(stages := k.stages[p := s]) }

  /** The server forgets a session: its lock and its subscription go with it. */
  function Drop(k: Links, s: SessionId): Links {
    k.(live := k.live - {s}, listening := k.listening - {s}, holder := if k.holder == Some(s) then None else k.holder)
  }

  /** One step of a process's loop; an act that does not fit its stage changes nothing. */
  function Stepped(k: Links, p: ProcessId, act: Act): Links {
    if p !in k.stages then k
    else match k.stages[p]
      case Connecting =>
        if act.Connect? then
          At(k, p, Trying(k.nextSession)).(opener := k.opener[k.nextSession := p], live := k.live + {k.nextSession},
                                           nextSession := k.nextSession + 1)
        else if act.Fails? || act.Stop? then At(k, p, Dead)
        else k
      case Trying(s) =>
        if act.TryLock? && s in k.live then
          if k.holder.None? then At(k, p, Adding(s)).(holder := Some(s)) else At(k, p, Yielding(s))
        else if act.LockThenDie? && s in k.live && k.holder.None? then At(k, p, Dead).(holder := Some(s))
        else if act.Fails? || act.Stop? then At(k, p, Dead)
        else k
      case Yielding(s) =>
        if act.Yield? then At(Drop(k, s), p, Waiting) else if act.Fails? || act.Stop? then At(k, p, Dead) else k
      case Waiting => if act.Wake? then At(k, p, Connecting) else if act.Stop? then At(k, p, Dead) else k
      case Adding(s) =>
        if act.Listen? && s in k.live then At(k, p, Leading(s)).(listening := k.listening + {s})
        else if act.ListenFails? && s in k.live then At(k, p, Closing(s)).(listening := k.listening + {s})
        else if act.Fails? then At(k, p, Closing(s))
        else if act.Stop? then At(Drop(k, s), p, Dead)
        else k
      case Leading(s) =>
        if act.Fails? then At(k, p, Closing(s)) else if act.Stop? then At(Drop(k, s), p, Dead) else k
      case Closing(s) =>
        if act.Close? then At(Drop(k, s), p, Connecting)
        else if act.CloseFails? then At(k, p, Connecting)
        else if act.Stop? then At(Drop(k, s), p, Dead)
        else k
      case Dead => k
  }

  // ---------------------------------------------------------------------
  // The envelopes.
  // ---------------------------------------------------------------------

  /** One handler call: for which envelope, heard on which session, in which process, at which place in its list. */
  datatype Call = Call(e: EnvelopeId, s: SessionId, p: ProcessId, index: nat, handler: Handler)

  /** The handler lists, the envelopes sent by name, the copies delivered to sessions, those of them not dispatched
      yet, and the calls made. */
  datatype Mail = Mail(
    handlers: map<ProcessId, map<string, seq<Handler>>>,
    sent: seq<string>,
    delivered: set<(EnvelopeId, SessionId)>,
    inbox: set<(EnvelopeId, SessionId)>,
    calls: seq<Call>)

  function HandlersOf(m: Mail, p: ProcessId, name: string): seq<Handler> {
    if p in m.handlers && name in m.handlers[p] then m.handlers[p][name] else []
  }

  /** Every listening session gets its own copy. */
  function Published(m: Mail, listening: set<SessionId>, name: string): Mail {
    var copies := set s | s in listening :: (|m.sent|, s);
    m.(sent := m.sent + [name], delivered := m.delivered + copies, inbox := m.inbox + copies)
  }

  function CallsFor(e: EnvelopeId, s: SessionId, p: ProcessId, hs: seq<Handler>): seq<Call> {
    seq(|hs|, i requires 0 <= i < |hs| => Call(e, s, p, i, hs[i]))
  }

  /** The process that opened the session calls all its handlers of the event. */
  function Dispatched(m: Mail, opener: map<SessionId, ProcessId>, e: EnvelopeId, s: SessionId): Mail {
    if (e, s) in m.inbox && e < |m.sent| && s in opener then
      m.(inbox := m.inbox - {(e, s)}, calls := m.calls + CallsFor(e, s, opener[s], HandlersOf(m, opener[s], m.sent[e])))
    else m
  }

  function Registered(m: Mail, p: ProcessId, name: string, h: Handler): Mail {
    if p !in m.handlers then m
    else m.(handlers := m.handlers[p := m.handlers[p][name := HandlersOf(m, p, name) + [h]]])
  }

  // ---------------------------------------------------------------------
  // Runs.
  // ---------------------------------------------------------------------

  datatype Net = Net(links: Links, mail: Mail)

  datatype Event =
    | Step(p: ProcessId, act: Act)
    | ServerDrops(s: SessionId)
    | Publish(name: string)
    | Register(q: ProcessId, name: string, handler: Handler)
    | Dispatch(envelope: EnvelopeId, s: SessionId)

  function NextLinks(k: Links, e: Event): Links {
    match e
    case Step(p, act) => Stepped(k, p, act)
    case ServerDrops(s) => Drop(k, s)
    case _ => k
  }

  function NextMail(m: Mail, k: Links, e: Event): Mail {
    match e
    case Publish(name) => Published(m, k.listening, name)
    case Register(p, name, h) => Registered(m, p, name, h)
    case Dispatch(envelope, s) => Dispatched(m, k.opener, envelope, s)
    case _ => m
  }

  function Next(n: Net, e: Event): Net { Net(NextLinks(n.links, e), NextMail(n.mail, n.links, e)) }

  function Run(n: Net, es: seq<Event>): Net {
    if es == [] then n else Next(Run(n, es[..|es| - 1]), es[|es| - 1])
  }

  lemma RunThen(n: Net, es: seq<Event>, e: Event)
    ensures Run(n, es + [e]) == Next(Run(n, es), e)
  {
    assert (es + [e])[..|es|] == es;
  }

  lemma {:induction false} RunFirst(n: Net, e: Event, es: seq<Event>)
    ensures Run(n, [e] + es) == Run(Next(n, e), es)
  {
    if es == [] {
      assert [e] + es == [] + [e];
      RunThen(n, [], e);
    } else {
      var front, last := es[..|es| - 1], es[|es| - 1];
      RunFirst(n, e, front);
      assert [e] + es == ([e] + front) + [last];
      RunThen(n, [e] + front, last);
    }
  }

  predicate Start(n: Net) {
    && (forall p | p in n.links.stages :: n.links.stages[p] == Connecting)
    && n.links == Links(n.links.stages, map[], {}, None, {}, 0)
    && n.mail == Mail(n.mail.handlers, [], {}, {}, [])
  }

  /** Where the processes start: connecting, with nothing known to the server. */
  lemma ProcessesStart(ps: set<ProcessId>, handlers: map<ProcessId, map<string, seq<Handler>>>)
    ensures Start(Net(Links(map p | p in ps :: Connecting, map[], {}, None, {}, 0), Mail(handlers, [], {}, {}, [])))
  {
  }

  // ---------------------------------------------------------------------
  // One listener, one dispatch, one call per registration.
  // ---------------------------------------------------------------------

  predicate Elected(at: Stage) { at.Adding? || at.Leading? }

  /** Only the lock's live holder listens; an elected process with a live session is that holder. */
  ghost predicate OneListener(k: Links) {
    && k.listening <= k.live
    && (k.holder.Some? ==> k.holder.value in k.live)
    && (forall s | s in k.listening :: k.holder == Some(s))
    && (forall p | p in k.stages && Elected(k.stages[p]) && k.stages[p].s in k.live :: k.holder == Some(k.stages[p].s))
  }

  predicate Owns(k: Links, p: ProcessId)
    requires p in k.stages
  {
    var s := SessionOf(k.stages[p]);
    s.Some? ==> s.value in k.opener && k.opener[s.value] == p
  }

  /** A session belongs to the process that opened it, and a process holds only its own. */
  ghost predicate SessionsOwned(k: Links) {
    && (forall s | s in k.opener :: s < k.nextSession)
    && k.live <= k.opener.Keys
    && (forall p | p in k.stages :: Owns(k, p))
  }

  ghost predicate SentOnce(m: Mail) {
    && (forall d | d in m.delivered :: d.0 < |m.sent|)
    && (forall c, d | c in m.delivered && d in m.delivered && c.0 == d.0 :: c == d)
    && m.inbox <= m.delivered
  }

  ghost predicate CallOk(m: Mail, opener: map<SessionId, ProcessId>, c: Call) {
    && (c.e, c.s) in m.delivered && (c.e, c.s) !in m.inbox
    && c.s in opener && opener[c.s] == c.p && c.e < |m.sent|
    && c.index < |HandlersOf(m, c.p, m.sent[c.e])| && HandlersOf(m, c.p, m.sent[c.e])[c.index] == c.handler
  }

  ghost predicate CalledOnce(m: Mail, opener: map<SessionId, ProcessId>) {
    && (forall c | c in m.calls :: CallOk(m, opener, c))
    && (forall i, j | 0 <= i < j < |m.calls| && m.calls[i].e == m.calls[j].e :: m.calls[i].index != m.calls[j].index)
  }

  lemma DropKeepsLinks(k: Links, s: SessionId)
    requires OneListener(k) && SessionsOwned(k)
    ensures OneListener(Drop(k, s)) && SessionsOwned(Drop(k, s))
  {
  }

  lemma CandidateKeepsOneListener(k: Links, p: ProcessId, act: Act)
    requires OneListener(k) && SessionsOwned(k) && p in k.stages && !Elected(k.stages[p]) && !k.stages[p].Closing?
    ensures OneListener(Stepped(k, p, act))
  {
    var k' := Stepped(k, p, act);
    forall q | q in k'.stages && Elected(k'.stages[q]) && k'.stages[q].s in k'.live
      ensures k'.holder == Some(k'.stages[q].s)
    {
      assert Owns(k, q);
    }
  }

  lemma LeaderKeepsOneListener(k: Links, p: ProcessId, act: Act)
    requires OneListener(k) && p in k.stages && (Elected(k.stages[p]) || k.stages[p].Closing?)
    ensures OneListener(Stepped(k, p, act))
  {
  }

  lemma StepKeepsOneListener(k: Links, p: ProcessId, act: Act)
    requires OneListener(k) && SessionsOwned(k)
    ensures OneListener(Stepped(k, p, act))
  {
    if p in k.stages {
      if Elected(k.stages[p]) || k.stages[p].Closing? {
        LeaderKeepsOneListener(k, p, act);
      } else {
        CandidateKeepsOneListener(k, p, act);
      }
    }
  }

  /** A step only ever opens a session, under a number not used before, or leaves the openers alone. */
  lemma StepOpens(k: Links, p: ProcessId, act: Act)
    requires p in k.stages
    ensures var k' := Stepped(k, p, act);
            && k'.stages == k.stages[p := k'.stages[p]]
            && if k.stages[p].Connecting? && act.Connect? then
                 k'.opener == k.opener[k.nextSession := p] && k'.nextSession == k.nextSession + 1
                 && k'.live == k.live + {k.nextSession} && SessionOf(k'.stages[p]) == Some(k.nextSession)
               else
                 k'.opener == k.opener && k'.nextSession == k.nextSession && k'.live <= k.live
                 && (SessionOf(k'.stages[p]).None? || SessionOf(k'.stages[p]) == SessionOf(k.stages[p]))
  {
  }

  lemma StepKeepsSessionsOwned(k: Links, p: ProcessId, act: Act)
    requires SessionsOwned(k)
    ensures SessionsOwned(Stepped(k, p, act))
    ensures forall s | s in k.opener :: s in Stepped(k, p, act).opener && Stepped(k, p, act).opener[s] == k.opener[s]
  {
    if p in k.stages {
      StepOpens(k, p, act);
      var k' := Stepped(k, p, act);
      forall q | q in k'.stages ensures Owns(k', q) {
        assert Owns(k, q);
      }
    }
  }

  lemma NextKeepsOneListener(k: Links, e: Event)
    requires OneListener(k) && SessionsOwned(k)
    ensures OneListener(NextLinks(k, e)) && SessionsOwned(NextLinks(k, e))
  {
    match e
    case Step(p, act) =>
      StepKeepsOneListener(k, p, act);
      StepKeepsSessionsOwned(k, p, act);
    case ServerDrops(s) => DropKeepsLinks(k, s);
    case _ =>
  }

  lemma NextKeepsSentOnce(m: Mail, k: Links, e: Event)
    requires OneListener(k) && SentOnce(m)
    ensures SentOnce(NextMail(m, k, e))
  {
    if e.Publish? {
      assert forall s, t | s in k.listening && t in k.listening :: s == t;
    }
  }

  lemma DispatchKeepsCalls(m: Mail, opener: map<SessionId, ProcessId>, e: EnvelopeId, s: SessionId)
    requires SentOnce(m) && CalledOnce(m, opener)
    ensures CalledOnce(Dispatched(m, opener, e, s), opener)
  {
    var m' := Dispatched(m, opener, e, s);
    if m' != m {
      forall c | c in m.calls ensures c.e != e && CallOk(m', opener, c) {
        assert CallOk(m, opener, c);
        assert (e, s) in m.delivered;
      }
    }
  }

  lemma RegisterKeepsCalls(m: Mail, opener: map<SessionId, ProcessId>, p: ProcessId, name: string, h: Handler)
    requires CalledOnce(m, opener)
    ensures CalledOnce(Registered(m, p, name, h), opener)
  {
    var m' := Registered(m, p, name, h);
    forall c | c in m.calls ensures CallOk(m', opener, c) {
      assert CallOk(m, opener, c);
    }
  }

  lemma PublishKeepsCalls(m: Mail, opener: map<SessionId, ProcessId>, listening: set<SessionId>, name: string)
    requires CalledOnce(m, opener)
    ensures CalledOnce(Published(m, listening, name), opener)
  {
    forall c | c in m.calls ensures CallOk(Published(m, listening, name), opener, c) {
      assert CallOk(m, opener, c);
    }
  }

  lemma NextKeepsCalls(m: Mail, k: Links, e: Event)
    requires OneListener(k) && SessionsOwned(k) && SentOnce(m) && CalledOnce(m, k.opener)
    ensures CalledOnce(NextMail(m, k, e), NextLinks(k, e).opener)
  {
    match e
    case Dispatch(envelope, s) => DispatchKeepsCalls(m, k.opener, envelope, s);
    case Register(p, name, h) => RegisterKeepsCalls(m, k.opener, p, name, h);
    case Publish(name) => PublishKeepsCalls(m, k.opener, k.listening, name);
    case ServerDrops(s) =>
    case Step(p, act) =>
      StepKeepsSessionsOwned(k, p, act);
      forall c | c in m.calls ensures CallOk(m, Stepped(k, p, act).opener, c) {
        assert CallOk(m, k.opener, c);
      }
  }

  lemma {:induction false} RunKeepsAll(n: Net, es: seq<Event>)
    requires Start(n)
    ensures OneListener(Run(n, es).links) && SessionsOwned(Run(n, es).links)
    ensures SentOnce(Run(n, es).mail) && CalledOnce(Run(n, es).mail, Run(n, es).links.opener)
  {
    if es == [] {
      assert SessionsOwned(n.links) && OneListener(n.links) && SentOnce(n.mail);
    } else {
      var m, e := Run(n, es[..|es| - 1]), es[|es| - 1];
      RunKeepsAll(n, es[..|es| - 1]);
      NextKeepsOneListener(m.links, e);
      NextKeepsSentOnce(m.mail, m.links, e);
      NextKeepsCalls(m.mail, m.links, e);
    }
  }

  lemma OnlyOne(k: Links, p: ProcessId, q: ProcessId, s: SessionId)
    requires OneListener(k) && SessionsOwned(k)
    ensures |k.listening| <= 1
    ensures p in k.stages && q in k.stages && SessionOf(k.stages[p]) == SessionOf(k.stages[q]) == Some(s) ==> p == q
  {
    assert p in k.stages && q in k.stages ==> Owns(k, p) && Owns(k, q);
    if x :| x in k.listening {
      assert k.listening == {x};
    }
  }

  /** Whatever connects, fails, dies, drops or retries: at most one live session listens, and no two processes hold
      one session. */
  lemma OneListenerAlways(n: Net, es: seq<Event>, p: ProcessId, q: ProcessId, s: SessionId)
    requires Start(n)
    ensures var k := Run(n, es).links;
            && |k.listening| <= 1
            && (p in k.stages && q in k.stages && SessionOf(k.stages[p]) == SessionOf(k.stages[q]) == Some(s)
                ==> p == q)
  {
    RunKeepsAll(n, es);
    OnlyOne(Run(n, es).links, p, q, s);
  }

  /** So each envelope goes to at most one session. */
  lemma EachEnvelopeReachesAtMostOne(n: Net, es: seq<Event>, e: EnvelopeId, s: SessionId, t: SessionId)
    requires Start(n)
    ensures var m := Run(n, es).mail; (e, s) in m.delivered && (e, t) in m.delivered ==> s == t && e < |m.sent|
  {
    RunKeepsAll(n, es);
    assert (e, s) == (e, t) ==> s == t;
  }

  /** And an envelope is dispatched in one process at most, where each registered handler is called at most once. */
  lemma EachHandlerCalledAtMostOnce(n: Net, es: seq<Event>, i: nat, j: nat)
    requires Start(n) && i < |Run(n, es).mail.calls| && j < |Run(n, es).mail.calls|
    ensures var m := Run(n, es).mail; var c, d := m.calls[i], m.calls[j];
            && (c.e == d.e ==> c.p == d.p && c.s == d.s)
            && (c.e == d.e && c.index == d.index ==> i == j)
            && c.e < |m.sent| && c.index < |HandlersOf(m, c.p, m.sent[c.e])|
            && HandlersOf(m, c.p, m.sent[c.e])[c.index] == c.handler
  {
    var m, opener := Run(n, es).mail, Run(n, es).links.opener;
    RunKeepsAll(n, es);
    var c, d := m.calls[i], m.calls[j];
    assert CallOk(m, opener, c) && CallOk(m, opener, d);
    assert c.e == d.e ==> (c.e, c.s) == (d.e, d.s);
  }

  // ---------------------------------------------------------------------
  // A dispatched envelope calls everybody who is registered.
  // ---------------------------------------------------------------------

  /** Registering adds one handler at the end of one list, in a process that runs. */
  lemma RegisterExactly(n: Net, p: ProcessId, name: string, h: Handler, q: ProcessId, other: string)
    ensures HandlersOf(Next(n, Register(p, name, h)).mail, q, other)
            == HandlersOf(n.mail, q, other) + if p in n.mail.handlers && q == p && other == name then [h] else []
    ensures Next(n, Register(p, name, h)).mail.inbox == n.mail.inbox
  {
  }

  /** An envelope waits at the session that heard it until it is dispatched there, whatever else happens. */
  lemma {:induction false} WaitsForDispatch(n: Net, es: seq<Event>, e: EnvelopeId, s: SessionId)
    requires (e, s) in n.mail.inbox && Dispatch(e, s) !in es
    ensures (e, s) in Run(n, es).mail.inbox
  {
    if es == [] {
    } else {
      var front, last := es[..|es| - 1], es[|es| - 1];
      assert es == front + [last];
      WaitsForDispatch(n, front, e, s);
    }
  }

  lemma HeardMeansWaiting(n: Net, name: string, s: SessionId)
    requires s in n.links.listening
    ensures (|n.mail.sent|, s) in Next(n, Publish(name)).mail.inbox
    ensures Next(n, Publish(name)).mail.sent == n.mail.sent + [name]
  {
  }

  lemma CallsGrow(n: Net, e: Event)
    ensures n.mail.calls <= Next(n, e).mail.calls
  {
  }

  lemma {:induction false} CallsStay(n: Net, es: seq<Event>, c: Call)
    requires c in n.mail.calls
    ensures c in Run(n, es).mail.calls
  {
    if es == [] {
    } else {
      CallsStay(n, es[..|es| - 1], c);
      CallsGrow(Run(n, es[..|es| - 1]), es[|es| - 1]);
    }
  }

  /** In every run: when a waiting envelope is dispatched, every handler registered for its name in the process that
      opened the session is called, in order, and the calls stand ever after. */
  lemma DispatchCallsEveryHandler(n: Net, es: seq<Event>, e: EnvelopeId, s: SessionId, more: seq<Event>, i: nat)
    requires Start(n)
    requires var u := Run(n, es);
             && (e, s) in u.mail.inbox && s in u.links.opener && e < |u.mail.sent|
             && i < |HandlersOf(u.mail, u.links.opener[s], u.mail.sent[e])|
    ensures var u := Run(n, es);
            var p := u.links.opener[s];
            Call(e, s, p, i, HandlersOf(u.mail, p, u.mail.sent[e])[i]) in Run(Next(u, Dispatch(e, s)), more).mail.calls
  {
    var u := Run(n, es);
    var p := u.links.opener[s];
    var calls := CallsFor(e, s, p, HandlersOf(u.mail, p, u.mail.sent[e]));
    assert calls[i] in calls;
    CallsStay(Next(u, Dispatch(e, s)), more, calls[i]);
  }

  /** Whatever waits can be dispatched: somebody opened the session, and the envelope was sent. */
  lemma WaitingCanBeDispatched(n: Net, es: seq<Event>, e: EnvelopeId, s: SessionId)
    requires Start(n) && (e, s) in Run(n, es).mail.inbox
    ensures e < |Run(n, es).mail.sent| && s in Run(n, es).links.opener
  {
    RunKeepsAll(n, es);
    WaitingIsOpened(n, es, e, s);
  }

  lemma {:induction false} WaitingIsOpened(n: Net, es: seq<Event>, e: EnvelopeId, s: SessionId)
    requires Start(n) && (e, s) in Run(n, es).mail.inbox
    ensures s in Run(n, es).links.opener
  {
    if es == [] {
    } else {
      var u, last := Run(n, es[..|es| - 1]), es[|es| - 1];
      RunKeepsAll(n, es[..|es| - 1]);
      if (e, s) in u.mail.inbox {
        WaitingIsOpened(n, es[..|es| - 1], e, s);
      } else {
        assert s in u.links.listening;
      }
      if last.Step? {
        StepKeepsSessionsOwned(u.links, last.p, last.act);
      }
    }
  }

  /** A process that stops gives up its session, and with it the lock. */
  lemma StoppingReleases(k: Links, p: ProcessId)
    requires p in k.stages && (Elected(k.stages[p]) || k.stages[p].Closing?)
    ensures var s, k' := k.stages[p].s, Stepped(k, p, Stop);
            k'.stages[p] == Dead && s !in k'.live && s !in k'.listening && k'.holder != Some(s)
  {
  }

  /** A stop ends a loop wherever it stands. An exception ends it outside the loop's try block; inside, it only closes
      the session and starts over, whether or not closing works. */
  lemma FailuresExactly(k: Links, p: ProcessId)
    requires p in k.stages
    ensures Stepped(k, p, Stop).stages[p] == Dead
    ensures match k.stages[p]
            case Connecting | Trying(_) => Stepped(k, p, Fails) == At(k, p, Dead)
            case Yielding(s) =>
              && Stepped(k, p, Fails) == At(k, p, Dead)
              && Stepped(k, p, Yield).stages[p] == Waiting && s !in Stepped(k, p, Yield).live
            case Adding(s) => Stepped(k, p, Fails) == At(k, p, Closing(s))
            case Leading(s) => Stepped(k, p, Fails) == At(k, p, Closing(s))
            case Closing(s) =>
              && Stepped(k, p, CloseFails) == At(k, p, Connecting)
              && Stepped(k, p, Close).stages[p] == Connecting && s !in Stepped(k, p, Close).live
            case _ => Stepped(k, p, Fails) == k
  {
  }

  /** The server may have done its part before the exception: then the lock is held, or the session listens, without a
      loop that knows. */
  lemma LateFailuresExactly(k: Links, p: ProcessId)
    requires p in k.stages && (k.stages[p].Trying? || k.stages[p].Adding?) && k.stages[p].s in k.live
    ensures k.stages[p].Trying? && k.holder.None? ==>
              Stepped(k, p, LockThenDie) == At(k, p, Dead).(holder := Some(k.stages[p].s))
    ensures k.stages[p].Adding? ==>
              Stepped(k, p, ListenFails)
              == At(k, p, Closing(k.stages[p].s)).(listening := k.listening + {k.stages[p].s})
  {
  }

  /** No loop does anything else. */
  lemma OtherActsDoNothing(k: Links, p: ProcessId, act: Act)
    requires p in k.stages
    requires match k.stages[p]
             case Connecting => act !in {Connect, Fails, Stop}
             case Trying(_) => act !in {TryLock, LockThenDie, Fails, Stop}
             case Yielding(_) => act !in {Yield, Fails, Stop}
             case Waiting => act !in {Wake, Stop}
             case Adding(_) => act !in {Listen, ListenFails, Fails, Stop}
             case Leading(_) => act !in {Fails, Stop}
             case Closing(_) => act !in {Close, CloseFails, Stop}
             case Dead => true
    ensures Stepped(k, p, act) == k
  {
  }

  // ---------------------------------------------------------------------
  // At most once, not exactly once.
  // ---------------------------------------------------------------------

  /** An envelope is delivered exactly where somebody listens at the moment it is published; no later chance. */
  lemma {:induction false} DeliveredIffHeardAtOnce(n: Net, name: string, es: seq<Event>, s: SessionId)
    requires forall d | d in n.mail.delivered :: d.0 < |n.mail.sent|
    ensures var after := Run(Next(n, Publish(name)), es).mail;
            |after.sent| > |n.mail.sent| && ((|n.mail.sent|, s) in after.delivered <==> s in n.links.listening)
  {
    if es == [] {
      assert (|n.mail.sent|, s) !in n.mail.delivered;
    } else {
      DeliveredIffHeardAtOnce(n, name, es[..|es| - 1], s);
    }
  }

  /** A process that will never listen again: its task has ended, or is about to, waiting on a dropped session. */
  predicate Hopeless(k: Links, p: ProcessId) {
    p in k.stages && (k.stages[p].Dead? || (k.stages[p].Trying? && k.stages[p].s !in k.live))
  }

  predicate Silent(k: Links) { k.listening == {} && forall p | p in k.stages :: Hopeless(k, p) }

  lemma SilenceStays(k: Links, e: Event)
    requires Silent(k)
    ensures Silent(NextLinks(k, e))
  {
    var k' := NextLinks(k, e);
    assert e.Step? && e.p in k.stages ==> Hopeless(k, e.p);
    assert k'.live <= k.live && k'.listening == {};
    forall p | p in k'.stages ensures Hopeless(k', p) {
      assert Hopeless(k, p);
    }
  }

  lemma {:induction false} SilenceIsForever(n: Net, es: seq<Event>)
    requires Silent(n.links)
    ensures Silent(Run(n, es).links) && Run(n, es).mail.delivered == n.mail.delivered
  {
    if es == [] {
    } else {
      SilenceIsForever(n, es[..|es| - 1]);
      SilenceStays(Run(n, es[..|es| - 1]).links, es[|es| - 1]);
    }
  }

  /** Steps back to the start of the loop. */
  function Distance(at: Stage): nat {
    match at
    case Connecting => 0
    case Waiting => 1
    case Closing(_) => 1
    case Yielding(_) => 2
    case Adding(_) => 2
    case Leading(_) => 2
    case Trying(_) => 3
    case Dead => 4
  }

  lemma ConnectingCanLead(n: Net, p: ProcessId) returns (es: seq<Event>)
    requires p in n.links.stages && n.links.stages[p] == Connecting
    ensures Run(n, es).links.listening != {}
  {
    var drop := ServerDrops(if n.links.holder.Some? then n.links.holder.value else n.links.nextSession);
    var a := [drop];
    var b := a + [Step(p, Connect)];
    var c := b + [Step(p, TryLock)];
    es := c + [Step(p, Listen)];
    assert a == [] + [drop];
    RunThen(n, [], drop);
    RunThen(n, a, Step(p, Connect));
    RunThen(n, b, Step(p, TryLock));
    RunThen(n, c, Step(p, Listen));
    assert n.links.nextSession in Run(n, es).links.listening;
  }

  lemma {:induction false} CanLead(n: Net, p: ProcessId) returns (es: seq<Event>)
    requires p in n.links.stages && !Hopeless(n.links, p)
    ensures Run(n, es).links.listening != {}
    decreases Distance(n.links.stages[p])
  {
    var at := n.links.stages[p];
    if at.Connecting? {
      es := ConnectingCanLead(n, p);
    } else {
      var act := match at
        case Waiting => Wake
        case Closing(_) => Close
        case Yielding(_) => Yield
        case Trying(_) => TryLock
        case _ => Fails;
      es := CanLead(Next(n, Step(p, act)), p);
      RunFirst(n, Step(p, act), es);
      es := [Step(p, act)] + es;
    }
  }

  /** Without any outage: while the lock is free a connecting process can lead in three steps. */
  lemma LeadershipCanBeTaken(n: Net, p: ProcessId) returns (es: seq<Event>)
    requires OneListener(n.links) && p in n.links.stages && n.links.stages[p] == Connecting && n.links.holder.None?
    ensures es == [Step(p, Connect), Step(p, TryLock), Step(p, Listen)]
    ensures var k := Run(n, es).links;
            p in k.stages && k.stages[p] == Leading(n.links.nextSession) && k.listening == {n.links.nextSession}
  {
    var a := [] + [Step(p, Connect)];
    var b := a + [Step(p, TryLock)];
    es := b + [Step(p, Listen)];
    RunThen(n, [], Step(p, Connect));
    RunThen(n, a, Step(p, TryLock));
    RunThen(n, b, Step(p, Listen));
    assert n.links.listening == {};
  }

  /** From any state, somebody can ever listen again exactly when somebody does now or some process is not hopeless. */
  lemma HeardAgainIff(n: Net)
    ensures (exists es :: Run(n, es).links.listening != {})
            <==> n.links.listening != {} || exists p :: p in n.links.stages && !Hopeless(n.links, p)
  {
    if n.links.listening != {} {
      assert Run(n, []) == n;
    } else if p :| p in n.links.stages && !Hopeless(n.links, p) {
      var es := CanLead(n, p);
    } else {
      forall es ensures Run(n, es).links.listening == {} {
        SilenceIsForever(n, es);
      }
    }
  }

  /** A failed reconnect is enough to get there: a lone leader loses its session and cannot connect again. */
  lemma OutageSilencesALoneProcess(n: Net, p: ProcessId, s: SessionId, es: seq<Event>) returns (outage: seq<Event>)
    requires n.links.stages == map[p := Leading(s)] && n.links.listening == {s}
    ensures outage == [ServerDrops(s), Step(p, Fails), Step(p, Close), Step(p, Fails)]
    ensures Silent(Run(n, outage).links) && Run(Run(n, outage), es).mail.delivered == n.mail.delivered
  {
    var n1 := Next(n, ServerDrops(s));
    var n2 := Next(n1, Step(p, Fails));
    var n3 := Next(n2, Step(p, Close));
    var n4 := Next(n3, Step(p, Fails));
    assert n1.links.stages[p] == Leading(s) && n1.links.listening == {};
    assert n2.links.stages[p] == Closing(s) && n2.links.listening == {};
    assert n3.links.stages[p] == Connecting && n3.links.listening == {};
    assert n4.links.stages[p] == Dead && n4.links.stages.Keys == {p} && n4.mail == n.mail;
    RunFirst(n3, Step(p, Fails), []);
    RunFirst(n2, Step(p, Close), [Step(p, Fails)] + []);
    RunFirst(n1, Step(p, Fails), [Step(p, Close)] + ([Step(p, Fails)] + []));
    RunFirst(n, ServerDrops(s), [Step(p, Fails)] + ([Step(p, Close)] + ([Step(p, Fails)] + [])));
    outage := [ServerDrops(s)] + ([Step(p, Fails)] + ([Step(p, Close)] + ([Step(p, Fails)] + [])));
    SilenceIsForever(n4, es);
  }
}
