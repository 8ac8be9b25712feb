/**
  The session cap of the accept loop: one accept thread and its session threads share an atomic
  counter. Every atomic access is one step; the scheduler interleaves steps in any order.
 */
module Sessions {
  import opened Wrappers

  const MAX_CONCURRENT_SESSIONS: nat := 32

  /** Where a session thread is: its guard exists from spawn until the drop has run. */
  datatype Phase = Spawned | Serving | Returned

  /**
    `active` is the atomic counter, `sessions` the threads holding a slot guard, and `inFlight` what
    the accept thread read in its `fetch_add` while it has not acted on it. A thread that cannot be
    spawned panics the accept thread, which then stands still with its slot counted.
   */
  datatype State = State(active: int, sessions: map<nat, Phase>, inFlight: Option<int>, nextId: nat, dead: bool)

  /** `Finish` is a session that returns, fails or panics: the guard drops in each case. */
  datatype Event =
    | AcceptError
    | SetupError
    | FetchAdd
    | Decide
    | SpawnFails
    | Start(id: nat)
    | Finish(id: nat)
    | DropGuard(id: nat)

  function Initial(): State {
    State(0, map[], None, 0, false)
  }

  predicate Enabled(s: State, e: Event) {
    match e
    case AcceptError => !s.dead && s.inFlight.None?
    case SetupError => !s.dead && s.inFlight.None?
    case FetchAdd => !s.dead && s.inFlight.None?
    case Decide => !s.dead && s.inFlight.Some?
    case SpawnFails => !s.dead && s.inFlight.Some? && s.inFlight.value < MAX_CONCURRENT_SESSIONS
    case Start(id) => id in s.sessions && s.sessions[id] == Spawned
    case Finish(id) => id in s.sessions && s.sessions[id] == Serving
    case DropGuard(id) => id in s.sessions && s.sessions[id] == Returned
  }

  /** One atomic step; a step that is not enabled does nothing. */
  function Step(s: State, e: Event): State {
    if !Enabled(s, e) then s
    else match e
         case AcceptError => s
         case SetupError => s
         case FetchAdd => s.(active := s.active + 1, inFlight := Some(s.active))
         case Decide =>
           if s.inFlight.value >= MAX_CONCURRENT_SESSIONS then s.(active := s.active - 1, inFlight := None)
           else s.(sessions := s.sessions[s.nextId := Spawned], inFlight := None, nextId := s.nextId + 1)
         case SpawnFails => s.(dead := true)
         case Start(id) => s.(sessions := s.sessions[id := Serving])
         case Finish(id) => s.(sessions := s.sessions[id := Returned])
         case DropGuard(id) => s.(sessions := s.sessions - {id}, active := s.active - 1)
  }

  function After(events: seq<Event>): State {
    if events == [] then Initial() else Step(After(events[..|events| - 1]), events[|events| - 1])
  }

  function Live(s: State): nat {
    |s.sessions|
  }

  /** The counter is live sessions plus the one in flight, which read no less than is live now. */
  predicate Ok(s: State) {
    && s.active == Live(s) + (if s.inFlight.Some? then 1 else 0)
    && Live(s) <= MAX_CONCURRENT_SESSIONS
    && (s.inFlight.Some? ==> Live(s) <= s.inFlight.value <= MAX_CONCURRENT_SESSIONS)
    && (s.dead ==> s.inFlight.Some?)
    && forall id | id in s.sessions :: id < s.nextId
  }

  lemma {:induction false} SameSize(m: map<nat, Phase>, id: nat, p: Phase)
    ensures |m[id := p]| == if id in m then |m| else |m| + 1
    ensures id in m ==> |m - {id}| == |m| - 1
  {
    assert m[id := p].Keys == m.Keys + {id};
    assert (m - {id}).Keys == m.Keys - {id};
    KeyCount(m[id := p]);
    KeyCount(m);
    KeyCount(m - {id});
  }

  lemma {:induction false} KeyCount(m: map<nat, Phase>)
    ensures |m| == |m.Keys|
  {
  }

  lemma {:induction false} SpawnKeeps(s: State)
    requires Ok(s) && !s.dead && s.inFlight.Some? && s.inFlight.value < MAX_CONCURRENT_SESSIONS
    ensures Ok(Step(s, Decide))
  {
    SameSize(s.sessions, s.nextId, Spawned);
    assert s.nextId !in s.sessions;
  }

  lemma {:induction false} PhaseKeeps(s: State, id: nat, p: Phase)
    requires Ok(s) && id in s.sessions
    ensures Ok(s.(sessions := s.sessions[id := p]))
  {
    SameSize(s.sessions, id, p);
  }

  lemma {:induction false} DropKeeps(s: State, id: nat)
    requires Ok(s) && id in s.sessions
    ensures Ok(s.(sessions := s.sessions - {id}, active := s.active - 1))
  {
    SameSize(s.sessions, id, Returned);
  }

  lemma {:induction false} StepKeepsOk(s: State, e: Event)
    requires Ok(s)
    ensures Ok(Step(s, e))
  {
    match e
    case Decide =>
      if Enabled(s, Decide) && s.inFlight.value < MAX_CONCURRENT_SESSIONS {
        SpawnKeeps(s);
      }
    case Start(id) =>
      if Enabled(s, e) {
        PhaseKeeps(s, id, Serving);
      }
    case Finish(id) =>
      if Enabled(s, e) {
        PhaseKeeps(s, id, Returned);
      }
    case DropGuard(id) =>
      if Enabled(s, e) {
        DropKeeps(s, id);
      }
    case _ =>
  }

  /**
    In every interleaving: never more than 32 live sessions, the counter is live sessions plus at most
    one in flight (so it never underflows), and it is zero once nothing is live or in flight. After a
    failed spawn no connection is accepted any more and the one lost slot stays counted.
   */
  lemma {:induction false} CapHolds(events: seq<Event>)
    ensures var s := After(events);
            && Ok(s) && Live(s) <= MAX_CONCURRENT_SESSIONS
            && Live(s) <= s.active <= Live(s) + 1
            && (s.sessions == map[] && s.inFlight.None? ==> s.active == 0)
            && (s.sessions == map[] && s.dead ==> s.active == 1 && !Enabled(s, FetchAdd))
  {
    if events != [] {
      CapHolds(events[..|events| - 1]);
      StepKeepsOk(After(events[..|events| - 1]), events[|events| - 1]);
    }
  }

  /** A connection is turned away exactly when all 32 slots were taken at its `fetch_add`. */
  lemma {:induction false} RejectsOnlyWhenFull(events: seq<Event>, more: seq<Event>)
    requires Enabled(After(events), FetchAdd)
    requires forall e | e in more :: !e.Decide? && !e.SpawnFails?
    ensures var full := Live(After(events)) == MAX_CONCURRENT_SESSIONS;
            var before := After(events + [FetchAdd] + more);
            && Enabled(before, Decide)
            && (full ==> Step(before, Decide).sessions == before.sessions)
            && (!full ==> Live(Step(before, Decide)) == Live(before) + 1)
  {
    CapHolds(events);
    InFlightStays(events, more);
    CapHolds(events + [FetchAdd] + more);
    var before := After(events + [FetchAdd] + more);
    SameSize(before.sessions, before.nextId, Spawned);
  }

  lemma {:induction false} InFlightStays(events: seq<Event>, more: seq<Event>)
    requires Enabled(After(events), FetchAdd)
    requires forall e | e in more :: !e.Decide? && !e.SpawnFails?
    ensures After(events + [FetchAdd] + more).inFlight == Some(After(events).active)
    ensures !After(events + [FetchAdd] + more).dead
  {
    var all := events + [FetchAdd] + more;
    if more == [] {
      assert all == events + [FetchAdd];
      assert all[..|all| - 1] == events;
    } else {
      var front := more[..|more| - 1];
      assert all[..|all| - 1] == events + [FetchAdd] + front;
      assert all[|all| - 1] == more[|more| - 1];
      assert more[|more| - 1] in more;
      InFlightStays(events, front);
    }
  }

  // ---------------------------------------------------------------- the running loop

  class SessionServer {
    var active: int
    var sessions: map<nat, Phase>
    var inFlight: Option<int>
    var nextId: nat
    var dead: bool

    ghost function View(): State
      reads this
    {
      State(active, sessions, inFlight, nextId, dead)
    }

    constructor ()
      ensures View() == Initial()
    {
      active, sessions, inFlight, nextId, dead := 0, map[], None, 0, false;
    }

    /** The accept thread: count the connection in. */
    method CountIn()
      requires !dead && inFlight.None?
      modifies this
      ensures View() == Step(old(View()), FetchAdd)
    {
      inFlight := Some(active);
      active := active + 1;
    }

    /** The accept thread: hand the slot to a new session thread, or give it back. */
    method SpawnOrReject() returns (spawned: Option<nat>)
      requires !dead && inFlight.Some?
      modifies this
      ensures View() == Step(old(View()), Decide)
      ensures spawned == if old(inFlight).value >= MAX_CONCURRENT_SESSIONS then None else Some(old(nextId))
    {
      var prev := inFlight.value;
      inFlight := None;
      if prev >= MAX_CONCURRENT_SESSIONS {
        active := active - 1;
        return None;
      }
      spawned := Some(nextId);
      sessions := sessions[nextId := Spawned];
      nextId := nextId + 1;
    }

    /** A session thread: `SessionSlotGuard::drop`. */
    method DropSlotGuard(id: nat)
      requires id in sessions && sessions[id] == Returned
      modifies this
      ensures View() == Step(old(View()), DropGuard(id))
    {
      sessions := sessions - {id};
      active := active - 1;
    }

    /** The loop under one scheduler: any events in any order. */
    method RunIncomingAcceptLoop(schedule: seq<Event>)
      requires View() == Initial()
      modifies this
      ensures View() == After(schedule)
      ensures 0 <= active <= MAX_CONCURRENT_SESSIONS + 1 && |sessions| <= MAX_CONCURRENT_SESSIONS
      ensures sessions == map[] && inFlight.None? ==> active == 0
    {
      for i := 0 to |schedule|
        invariant View() == After(schedule[..i])
      {
        var e := schedule[i];
        assert schedule[..i + 1][..i] == schedule[..i];
        match e {
          case AcceptError =>
          case SetupError =>
          case FetchAdd =>
            if !dead && inFlight.None? {
              CountIn();
            }
          case Decide =>
            if !dead && inFlight.Some? {
              var _ := SpawnOrReject();
            }
          case SpawnFails =>
            if !dead && inFlight.Some? && inFlight.value < MAX_CONCURRENT_SESSIONS {
              dead := true;
            }
          case Start(id) =>
            if id in sessions && sessions[id] == Spawned {
              sessions := sessions[id := Serving];
            }
          case Finish(id) =>
            if id in sessions && sessions[id] == Serving {
              sessions := sessions[id := Returned];
            }
          case DropGuard(id) =>
            if id in sessions && sessions[id] == Returned {
              DropSlotGuard(id);
            }
        }
      }
      assert schedule[..|schedule|] == schedule;
      CapHolds(schedule);
    }
  }
}
