/**
 * Several members' wakes multiplexed onto one engine wake handler. The engine is a set of pending instants:
 * it keeps one entry per instant and delivers the earliest, at or after its deadline.
 */
module Wakes {
  import opened Options
  import opened Words

  /** A handler, as the assembly holds it: a name for the code behind it. */
  type Handler = nat

  datatype Period = Period(member: nat, nextNs: nat, periodNs: nat)

  datatype Request = OnWake(handler: Handler) | At(atNs: nat) | Every(periodNs: nat)

  datatype Call = Call(member: nat, handler: Handler, now: nat)

  /** What one member's code asks for, whichever member's gate it goes through. */
  datatype Asked = Asked(member: nat, request: Request)

  /** When a periodic request was made, and every instant it was handed. */
  datatype History = History(anchorNs: nat, fires: seq<nat>)

  /**
   * The agenda, the engine's pending instants, the calls made so far and each period's history. The last
   * three are what the assembly is judged by, not what it keeps.
   */
  datatype State = State(
    handlers: seq<Option<Handler>>, oneshots: set<(nat, nat)>, periods: seq<Period>,
    wheel: set<nat>, calls: seq<Call>, histories: seq<History>)

  predicate WellFormed(s: State) {
    |s.histories| == |s.periods|
  }

  // ----- what each call does -----

  function Ask(s: State, clock: nat, asked: Asked): State {
    match asked.request
    case OnWake(h) =>
      if asked.member < |s.handlers| then s.(handlers := s.handlers[asked.member := Some(h)]) else s
    case At(t) => s.(oneshots := s.oneshots + {(t, asked.member)}, wheel := s.wheel + {t})
    case Every(p) =>
      if p == 0 then s
      else
        s.(periods := s.periods + [Period(asked.member, SatAdd(clock, p), p)],
           histories := s.histories + [History(clock, [])],
           wheel := s.wheel + {SatAdd(clock, p)})
  }

  function AskAll(s: State, clock: nat, body: seq<Asked>): State {
    if |body| == 0 then s else Ask(AskAll(s, clock, body[..|body| - 1]), clock, body[|body| - 1])
  }

  /** A period that fell due moves one period on, from when it fell due or, that being past too, from now. */
  function Advanced(p: Period, now: nat): Period {
    if p.nextNs > now then p
    else
      var next := SatAdd(p.nextNs, p.periodNs);
      p.(nextNs := if next <= now then SatAdd(now, p.periodNs) else next)
  }

  function AdvancedAll(periods: seq<Period>, now: nat): (r: seq<Period>)
    ensures |r| == |periods|
  {
    seq(|periods|, k requires 0 <= k < |periods| => Advanced(periods[k], now))
  }

  function Recorded(periods: seq<Period>, histories: seq<History>, now: nat): (r: seq<History>)
    requires |histories| == |periods|
    ensures |r| == |histories|
  {
    seq(|histories|, k requires 0 <= k < |histories| == |periods| =>
      if periods[k].nextNs <= now then histories[k].(fires := histories[k].fires + [now]) else histories[k])
  }

  ghost function Rearmed(periods: seq<Period>, now: nat): set<nat> {
    set k: nat | k < |periods| && periods[k].nextNs <= now :: Advanced(periods[k], now).nextNs
  }

  ghost function DuePeriods(periods: seq<Period>, now: nat): set<nat> {
    set p <- periods | p.nextNs <= now :: p.member
  }

  /** The members a dispatch at `now` is for. */
  ghost function DueMembers(s: State, now: nat): set<nat> {
    (set o <- s.oneshots | o.0 <= now :: o.1) + DuePeriods(s.periods, now)
  }

  /** Due members with a handler, in member order, below `limit`. */
  ghost function DueCalls(handlers: seq<Option<Handler>>, due: set<nat>, now: nat, limit: nat): seq<Call> {
    if limit == 0 then []
    else
      var m := limit - 1;
      DueCalls(handlers, due, now, m) +
      if m in due && m < |handlers| && handlers[m].Some? then [Call(m, handlers[m].value, now)] else []
  }

  /** The agenda after the due instants are drained and the due periods re-armed. */
  ghost function Drained(s: State, now: nat): State
    requires WellFormed(s)
  {
    s.(oneshots := (set o <- s.oneshots | o.0 > now),
       periods := AdvancedAll(s.periods, now),
       histories := Recorded(s.periods, s.histories, now),
       wheel := s.wheel + Rearmed(s.periods, now))
  }

  /** The handlers run in order; the `k`-th asks for `bodies[k]`. */
  ghost function Delivered(s: State, calls: seq<Call>, clock: nat, bodies: seq<seq<Asked>>): State {
    if |calls| == 0 then s
    else
      var last := |calls| - 1;
      var before := Delivered(s, calls[..last], clock, bodies);
      AskAll(before.(calls := before.calls + [calls[last]]), clock, if last < |bodies| then bodies[last] else [])
  }

  ghost function Dispatched(s: State, now: nat, clock: nat, bodies: seq<seq<Asked>>): State
    requires WellFormed(s)
  {
    Delivered(Drained(s, now), DueCalls(s.handlers, DueMembers(s, now), now, |s.handlers|), clock, bodies)
  }

  // ----- the assembly -----

  predicate Before(a: (nat, nat), b: (nat, nat)) {
    a.0 < b.0 || (a.0 == b.0 && a.1 <= b.1)
  }

  lemma FirstExists(s: set<(nat, nat)>) returns (first: (nat, nat))
    requires s != {}
    ensures first in s && forall o :: o in s ==> Before(first, o)
    decreases |s|
  {
    first :| first in s;
    var others := s - {first};
    if others != {} {
      var rest := FirstExists(others);
      var x := first;
      first := if Before(x, rest) then x else rest;
      forall o | o in s ensures Before(first, o) {
        assert o == x || o in others;
      }
    } else {
      forall o | o in s ensures o == first {
        assert o !in others;
      }
    }
  }

  lemma LeastExists(s: set<nat>) returns (least: nat)
    requires s != {}
    ensures least in s && forall m :: m in s ==> least <= m
    decreases |s|
  {
    least :| least in s;
    var others := s - {least};
    if others != {} {
      var rest := LeastExists(others);
      var x := least;
      least := if x <= rest then x else rest;
      forall m | m in s ensures least <= m {
        assert m == x || m in others;
      }
    } else {
      forall m | m in s ensures m == least {
        assert m !in others;
      }
    }
  }

  class Assembly {
    var handlers: seq<Option<Handler>>
    var oneshots: set<(nat, nat)>
    var periods: seq<Period>
    ghost var wheel: set<nat>
    ghost var calls: seq<Call>
    ghost var histories: seq<History>

    ghost function Now(): State
      reads this
    {
      State(handlers, oneshots, periods, wheel, calls, histories)
    }

    ghost predicate Valid()
      reads this
    {
      WellFormed(Now())
    }

    constructor (members: nat)
      ensures Valid()
      ensures Now() == State(seq(members, _ => None), {}, [], {}, [], [])
    {
      handlers := seq(members, _ => None);
      oneshots, periods := {}, [];
      wheel, calls, histories := {}, [], [];
    }

    method OnWakeNs(member: nat, handler: Handler)
      requires Valid()
      modifies this
      ensures Valid() && Now() == Ask(old(Now()), 0, Asked(member, OnWake(handler)))
    {
      if member < |handlers| {
        handlers := handlers[member := Some(handler)];
      }
    }

    /** A member's one-shot request: kept, and armed on the engine as the assembly's own. */
    method ScheduleAtNs(member: nat, atNs: nat)
      requires Valid()
      modifies this
      ensures Valid() && Now() == Ask(old(Now()), 0, Asked(member, At(atNs)))
    {
      oneshots := oneshots + {(atNs, member)};
      wheel := wheel + {atNs};
    }

    /** A member's periodic request, anchored at the instant it is asked for. */
    method ScheduleEveryNs(member: nat, periodNs: nat, clock: nat)
      requires Valid()
      modifies this
      ensures Valid() && Now() == Ask(old(Now()), clock, Asked(member, Every(periodNs)))
    {
      if periodNs == 0 {
        return;
      }
      var next := SatAdd(clock, periodNs);
      periods := periods + [Period(member, next, periodNs)];
      histories := histories + [History(clock, [])];
      wheel := wheel + {next};
    }

    method AskOne(clock: nat, asked: Asked)
      requires Valid()
      modifies this
      ensures Valid() && Now() == Ask(old(Now()), clock, asked)
    {
      match asked.request {
        case OnWake(h) => OnWakeNs(asked.member, h);
        case At(t) => ScheduleAtNs(asked.member, t);
        case Every(p) => ScheduleEveryNs(asked.member, p, clock);
      }
    }

    /** The one-shots due at `now`, earliest first, and the members that asked for them. */
    method DrainOneshots(now: nat) returns (members: set<nat>)
      requires Valid()
      modifies this`oneshots
      ensures Valid() && oneshots == set o <- old(oneshots) | o.0 > now
      ensures members == set o <- old(oneshots) | o.0 <= now :: o.1
    {
      members := {};
      ghost var all := oneshots;
      while oneshots != {}
        invariant oneshots <= all && forall o :: o in all && o !in oneshots ==> o.0 <= now && o.1 in members
        invariant forall m :: m in members ==> exists o :: o in all && o !in oneshots && o.1 == m
        decreases oneshots
      {
        ghost var least := FirstExists(oneshots);
        var first :| first in oneshots && forall o :: o in oneshots ==> Before(first, o);
        if first.0 > now {
          assert forall o :: o in oneshots ==> Before(first, o);
          break;
        }
        oneshots := oneshots - {first};
        members := members + {first.1};
      }
      assert oneshots == set o <- all | o.0 > now;
    }

    /** Every due period moves on; its member is due and its next instant is to be re-armed. */
    method AdvancePeriods(now: nat, start: set<nat>) returns (members: set<nat>, rearm: seq<nat>)
      requires Valid()
      modifies this`periods, this`histories
      ensures Valid() && periods == AdvancedAll(old(periods), now)
      ensures histories == Recorded(old(periods), old(histories), now)
      ensures members == start + DuePeriods(old(periods), now)
      ensures (set at <- rearm) == Rearmed(old(periods), now)
    {
      members, rearm := start, [];
      ghost var all := periods;
      for k := 0 to |periods|
        invariant |periods| == |all| == |histories| && histories == old(histories)
        invariant periods[k..] == all[k..]
        invariant forall j :: 0 <= j < k ==> periods[j] == Advanced(all[j], now)
        invariant members == start + DuePeriods(all[..k], now)
        invariant (set at <- rearm) == Rearmed(all[..k], now)
      {
        var period := periods[k];
        assert period == all[k] && periods[k + 1..] == periods[k..][1..];
        RearmedStep(all, now, k);
        if period.nextNs <= now {
          members := members + {period.member};
          var next := SatAdd(period.nextNs, period.periodNs);
          if next <= now {
            next := SatAdd(now, period.periodNs);
          }
          periods := periods[k := period.(nextNs := next)];
          rearm := rearm + [next];
        }
        assert periods[k + 1..] == all[k..][1..];
      }
      assert all[..|all|] == all;
      histories := Recorded(all, histories, now);
    }

    /** Each due member's handler, in member order. */
    method DueHandlers(due: set<nat>, ghost now: nat) returns (found: seq<(nat, Handler)>)
      requires Valid()
      ensures |found| == |DueCalls(handlers, due, now, |handlers|)|
      ensures forall k :: 0 <= k < |found| ==>
                DueCalls(handlers, due, now, |handlers|)[k] == Call(found[k].0, found[k].1, now)
    {
      found := [];
      var rest := due;
      ghost var limit: nat := 0;
      while rest != {}
        invariant rest <= due && (forall m :: m in due && m !in rest ==> m < limit) && forall m :: m in rest ==>
                    m >= limit
        invariant |found| == |DueCalls(handlers, due, now, limit)|
        invariant forall k :: 0 <= k < |found| ==>
                    DueCalls(handlers, due, now, limit)[k] == Call(found[k].0, found[k].1, now)
        decreases rest
      {
        ghost var least := LeastExists(rest);
        var m :| m in rest && forall n :: n in rest ==> m <= n;
        DueCallsGap(handlers, due, now, limit, m);
        rest := rest - {m};
        if m < |handlers| && handlers[m].Some? {
          found := found + [(m, handlers[m].value)];
        }
        limit := m + 1;
      }
      DueCallsLimit(handlers, due, now, limit);
    }

    /** The engine woke the assembly at `now`. */
    method Dispatch(now: nat, clock: nat, bodies: seq<seq<Asked>>)
      requires Valid()
      modifies this
      ensures Valid() && Now() == Dispatched(old(Now()), now, clock, bodies)
    {
      ghost var before := Now();
      var members := DrainOneshots(now);
      var rearm;
      members, rearm := AdvancePeriods(now, members);
      assert members == DueMembers(before, now);
      var due := DueHandlers(members, now);
      ghost var expected := DueCalls(before.handlers, members, now, |before.handlers|);
      Rearm(rearm);
      assert Now() == Drained(before, now);
      CallDue(due, expected, now, clock, bodies);
    }

    /**
     * The engine pops its earliest pending instant, at or after it, and wakes the assembly: a `Fires` step of a run.
     */
    method Wake(now: nat, clock: nat, bodies: seq<seq<Asked>>)
      requires Valid() && Can(Now(), Fires(now, clock, bodies))
      modifies this
      ensures Valid() && Now() == Next(old(Now()), Fires(now, clock, bodies))
    {
      wheel := wheel - {Least(wheel)};
      Dispatch(now, clock, bodies);
    }

    method Rearm(rearm: seq<nat>)
      requires Valid()
      modifies this`wheel
      ensures Valid() && wheel == old(wheel) + set at <- rearm
    {
      ghost var before := wheel;
      for k := 0 to |rearm|
        invariant Valid() && wheel == before + set at <- rearm[..k]
      {
        assert rearm[..k + 1] == rearm[..k] + [rearm[k]];
        wheel := wheel + {rearm[k]};
      }
      assert rearm[..|rearm|] == rearm;
    }

    /** The due handlers, each once, in order. */
    method CallDue(due: seq<(nat, Handler)>, ghost expected: seq<Call>, now: nat, clock: nat, bodies: seq<seq<Asked>>)
      requires Valid() && |due| == |expected|
      requires forall k :: 0 <= k < |due| ==> expected[k] == Call(due[k].0, due[k].1, now)
      modifies this
      ensures Valid() && Now() == Delivered(old(Now()), expected, clock, bodies)
    {
      ghost var before := Now();
      for k := 0 to |due|
        invariant Valid() && Now() == Delivered(before, expected[..k], clock, bodies)
      {
        assert expected[..k + 1][..k] == expected[..k];
        calls := calls + [Call(due[k].0, due[k].1, now)];
        RunHandler(clock, if k < |bodies| then bodies[k] else []);
      }
      assert expected[..|due|] == expected;
    }

    /** A handler's code: whatever it asks for, in order. */
    method RunHandler(clock: nat, body: seq<Asked>)
      requires Valid()
      modifies this
      ensures Valid() && Now() == AskAll(old(Now()), clock, body)
    {
      ghost var before := Now();
      for k := 0 to |body|
        invariant Valid() && Now() == AskAll(before, clock, body[..k])
      {
        assert body[..k + 1][..k] == body[..k];
        AskOne(clock, body[k]);
      }
      assert body[..|body|] == body;
    }

    /** Dropped, the assembly holds no handler and no instant. */
    method Drop()
      requires Valid()
      modifies this
      ensures Valid() && Now() == old(Now()).(handlers := [], oneshots := {}, periods := [], histories := [])
    {
      handlers, oneshots, periods := [], {}, [];
      histories := [];
    }
  }

  lemma RearmedStep(periods: seq<Period>, now: nat, k: nat)
    requires k < |periods|
    ensures Rearmed(periods[..k + 1], now) ==
            Rearmed(periods[..k], now) + if periods[k].nextNs <= now then {Advanced(periods[k], now).nextNs} else {}
    ensures DuePeriods(periods[..k + 1], now) ==
            DuePeriods(periods[..k], now) + if periods[k].nextNs <= now then {periods[k].member} else {}
  {
    var more, less := periods[..k + 1], periods[..k];
    assert more == less + [periods[k]];
    forall at | at in Rearmed(less, now) ensures at in Rearmed(more, now) {
      var j: nat :| j < |less| && less[j].nextNs <= now && Advanced(less[j], now).nextNs == at;
      assert more[j] == less[j];
    }
    if periods[k].nextNs <= now {
      assert more[k] == periods[k];
    }
  }

  lemma {:induction false} DueCallsGap(handlers: seq<Option<Handler>>, due: set<nat>, now: nat, low: nat, high: nat)
    requires low <= high && forall m :: m in due ==> m < low || high <= m
    ensures DueCalls(handlers, due, now, low) == DueCalls(handlers, due, now, high)
    decreases high - low
  {
    if low < high {
      DueCallsGap(handlers, due, now, low, high - 1);
    }
  }

  /** Past the last handler there is nobody to call. */
  lemma {:induction false} DueCallsLimit(handlers: seq<Option<Handler>>, due: set<nat>, now: nat, limit: nat)
    requires forall m :: m in due ==> m < limit
    ensures DueCalls(handlers, due, now, limit) == DueCalls(handlers, due, now, |handlers|)
  {
    if limit <= |handlers| {
      DueCallsGap(handlers, due, now, limit, |handlers|);
    } else {
      DueCallsBeyond(handlers, due, now, limit);
    }
  }

  lemma {:induction false} DueCallsBeyond(handlers: seq<Option<Handler>>, due: set<nat>, now: nat, limit: nat)
    requires limit >= |handlers|
    ensures DueCalls(handlers, due, now, limit) == DueCalls(handlers, due, now, |handlers|)
  {
    if limit > |handlers| {
      DueCallsBeyond(handlers, due, now, limit - 1);
    }
  }

  // ----- one dispatch -----

  lemma {:induction false} AskAllKeepsCalls(s: State, clock: nat, body: seq<Asked>)
    ensures AskAll(s, clock, body).calls == s.calls
  {
    if |body| > 0 {
      AskAllKeepsCalls(s, clock, body[..|body| - 1]);
    }
  }

  lemma {:induction false} DeliveredCalls(s: State, calls: seq<Call>, clock: nat, bodies: seq<seq<Asked>>)
    ensures Delivered(s, calls, clock, bodies).calls == s.calls + calls
  {
    if |calls| > 0 {
      var last := |calls| - 1;
      DeliveredCalls(s, calls[..last], clock, bodies);
      var before := Delivered(s, calls[..last], clock, bodies);
      AskAllKeepsCalls(before.(calls := before.calls + [calls[last]]), clock,
                       if last < |bodies| then bodies[last] else []);
      assert calls == calls[..last] + [calls[last]];
    }
  }

  lemma {:induction false} DueCallsExactly(handlers: seq<Option<Handler>>, due: set<nat>, now: nat, limit: nat)
    ensures var found := DueCalls(handlers, due, now, limit);
            && (forall m: nat, h: nat, t: nat :: Call(m, h, t) in found <==>
                  m < limit && m in due && m < |handlers| && handlers[m] == Some(h) && t == now)
            && (forall j, k :: 0 <= j < k < |found| ==> found[j].member < found[k].member)
  {
    if limit > 0 {
      DueCallsExactly(handlers, due, now, limit - 1);
      var found := DueCalls(handlers, due, now, limit - 1);
      forall k | 0 <= k < |found| ensures found[k].member < limit - 1 {
        assert Call(found[k].member, found[k].handler, found[k].now) in found;
      }
    }
  }

  /** Member `m` asked for an instant at or before `now`. */
  ghost predicate IsDue(s: State, now: nat, m: nat) {
    || (exists at: nat :: at <= now && (at, m) in s.oneshots)
    || (exists p :: p in s.periods && p.nextNs <= now && p.member == m)
  }

  lemma DueMembersAre(s: State, now: nat, m: nat)
    ensures m in DueMembers(s, now) <==> IsDue(s, now, m)
  {
    if at: nat :| at <= now && (at, m) in s.oneshots {
      var o := (at, m);
      assert o in s.oneshots && o.0 <= now && o.1 == m;
    }
    if o :| o in s.oneshots && o.0 <= now && o.1 == m {
      assert (o.0, m) in s.oneshots;
    }
  }

  /**
   * A dispatch at `now` calls exactly the members with a handler and a request at or before `now`, each
   * once, in member order -- and what the handlers ask for meanwhile waits for the engine's next wake.
   */
  lemma DispatchExactly(s: State, now: nat, clock: nat, bodies: seq<seq<Asked>>)
    requires WellFormed(s)
    ensures s.calls <= Dispatched(s, now, clock, bodies).calls
    ensures var made := Dispatched(s, now, clock, bodies).calls[|s.calls|..];
            && (forall m: nat, h: nat, t: nat :: Call(m, h, t) in made <==>
                  m < |s.handlers| && s.handlers[m] == Some(h) && t == now && IsDue(s, now, m))
            && (forall j, k :: 0 <= j < k < |made| ==> made[j].member < made[k].member)
  {
    var due := DueMembers(s, now);
    var made := DueCalls(s.handlers, due, now, |s.handlers|);
    DeliveredCalls(Drained(s, now), made, clock, bodies);
    DueCallsExactly(s.handlers, due, now, |s.handlers|);
    assert Dispatched(s, now, clock, bodies).calls[|s.calls|..] == made;
    forall m: nat ensures m in due <==> IsDue(s, now, m) {
      DueMembersAre(s, now, m);
    }
    hide DueMembers, IsDue, Dispatched, DueCalls;
  }

  // ----- whole runs -----

  /** One step of the world: a member asks, the engine delivers its earliest pending instant, or the assembly goes. */
  datatype Step =
    | Asks(clock: nat, asked: Asked)
    | Fires(now: nat, wakeClock: nat, bodies: seq<seq<Asked>>)
    | Drops

  ghost function Least(s: set<nat>): (least: nat)
    requires s != {}
    ensures least in s && forall m :: m in s ==> least <= m
  {
    assert exists x :: x in s && forall m :: m in s ==> x <= m by {
      var x := LeastExists(s);
    }
    var x :| x in s && forall m :: m in s ==> x <= m;
    x
  }

  /** The engine delivers only what is pending, never before its deadline. */
  ghost predicate Can(s: State, step: Step) {
    step.Fires? ==> s.wheel != {} && Least(s.wheel) <= step.now
  }

  ghost function Next(s: State, step: Step): State
    requires WellFormed(s) && Can(s, step)
  {
    match step
    case Asks(clock, asked) => Ask(s, clock, asked)
    case Fires(now, clock, bodies) => Dispatched(s.(wheel := s.wheel - {Least(s.wheel)}), now, clock, bodies)
    case Drops => s.(handlers := [], oneshots := {}, periods := [], histories := [])
  }

  /** Every instant the agenda waits for is pending on the engine, and every period is a positive one. */
  ghost predicate Armed(s: State) {
    && WellFormed(s)
    && (forall o :: o in s.oneshots ==> o.0 in s.wheel)
    && (forall p :: p in s.periods ==> p.nextNs in s.wheel && p.periodNs > 0)
  }

  /** A run from the first state: what holds of each step's result. */
  ghost predicate Runs(states: seq<State>, steps: seq<Step>) {
    && |states| == |steps| + 1
    && WellFormed(states[0])
    && forall k :: 0 <= k < |steps| ==>
         WellFormed(states[k]) && Can(states[k], steps[k]) && states[k + 1] == Next(states[k], steps[k])
  }

  lemma {:induction false} AskAllArmed(s: State, clock: nat, body: seq<Asked>)
    requires Armed(s)
    ensures Armed(AskAll(s, clock, body))
  {
    if |body| > 0 {
      AskAllArmed(s, clock, body[..|body| - 1]);
    }
  }

  lemma {:induction false} DeliveredArmed(s: State, calls: seq<Call>, clock: nat, bodies: seq<seq<Asked>>)
    requires Armed(s)
    ensures Armed(Delivered(s, calls, clock, bodies))
  {
    if |calls| > 0 {
      var last := |calls| - 1;
      DeliveredArmed(s, calls[..last], clock, bodies);
      var before := Delivered(s, calls[..last], clock, bodies);
      AskAllArmed(before.(calls := before.calls + [calls[last]]), clock, if last < |bodies| then bodies[last] else []);
    }
  }

  lemma DrainedArmed(s: State, now: nat)
    requires Armed(s) && s.wheel != {} && Least(s.wheel) <= now
    ensures Armed(Drained(s.(wheel := s.wheel - {Least(s.wheel)}), now))
  {
    var d := Drained(s.(wheel := s.wheel - {Least(s.wheel)}), now);
    forall p | p in d.periods ensures p.nextNs in d.wheel && p.periodNs > 0 {
      var k: nat :| k < |d.periods| && d.periods[k] == p;
      assert s.periods[k] in s.periods && p == Advanced(s.periods[k], now);
    }
  }

  /**
   * No step of any run leaves an instant unarmed: schedules from anywhere, handlers included, dispatches early or late.
   */
  lemma StepArmed(s: State, step: Step)
    requires Armed(s) && Can(s, step)
    ensures Armed(Next(s, step))
  {
    match step {
      case Asks(clock, asked) =>
      case Fires(now, clock, bodies) =>
        DrainedArmed(s, now);
        var t := s.(wheel := s.wheel - {Least(s.wheel)});
        DeliveredArmed(Drained(t, now), DueCalls(t.handlers, DueMembers(t, now), now, |t.handlers|), clock, bodies);
      case Drops =>
    }
  }

  lemma {:induction false} AlwaysArmed(states: seq<State>, steps: seq<Step>, k: nat)
    requires Runs(states, steps) && Armed(states[0]) && k < |states|
    ensures Armed(states[k])
  {
    if k > 0 {
      AlwaysArmed(states, steps, k - 1);
      StepArmed(states[k - 1], steps[k - 1]);
    }
  }

  // ----- one-shots -----

  /** The engine fires at the deadline itself. */
  ghost predicate Punctual(s: State, step: Step) {
    step.Fires? ==> s.wheel != {} && step.now == Least(s.wheel) <= U64_MAX
  }

  lemma {:induction false} AskAllKeepsOneshot(s: State, clock: nat, body: seq<Asked>, o: (nat, nat))
    requires o in s.oneshots
    ensures o in AskAll(s, clock, body).oneshots
  {
    if |body| > 0 {
      AskAllKeepsOneshot(s, clock, body[..|body| - 1], o);
    }
  }

  lemma {:induction false} DeliveredKeepsOneshot(s: State, calls: seq<Call>, clock: nat, bodies: seq<seq<Asked>>,
                                                 o: (nat, nat))
    requires o in s.oneshots
    ensures o in Delivered(s, calls, clock, bodies).oneshots
  {
    if |calls| > 0 {
      var last := |calls| - 1;
      DeliveredKeepsOneshot(s, calls[..last], clock, bodies, o);
      var before := Delivered(s, calls[..last], clock, bodies);
      AskAllKeepsOneshot(before.(calls := before.calls + [calls[last]]), clock,
                         if last < |bodies| then bodies[last] else [], o);
    }
  }

  /** A one-shot request outlives every dispatch before its instant. */
  lemma {:induction false} OneshotWaits(states: seq<State>, steps: seq<Step>, o: (nat, nat), j: nat, k: nat)
    requires Runs(states, steps) && j <= k < |states| && o in states[j].oneshots
    requires forall i :: j <= i < k ==> !steps[i].Drops? && (steps[i].Fires? ==> steps[i].now < o.0)
    ensures o in states[k].oneshots
    decreases k - j
  {
    if j < k {
      OneshotWaits(states, steps, o, j, k - 1);
      var s, step := states[k - 1], steps[k - 1];
      if step.Fires? {
        var t := s.(wheel := s.wheel - {Least(s.wheel)});
        DeliveredKeepsOneshot(Drained(t, step.now),
                              DueCalls(t.handlers, DueMembers(t, step.now), step.now, |t.handlers|),
                              step.wakeClock, step.bodies, o);
      }
    }
  }

  /** The first dispatch at or after a one-shot's instant hands it to its member, whose handler is called then. */
  lemma OneshotHanded(states: seq<State>, steps: seq<Step>, at: nat, member: nat, j: nat, k: nat)
    requires Runs(states, steps) && j <= k < |steps| && (at, member) in states[j].oneshots
    requires forall i :: j <= i < k ==> !steps[i].Drops? && (steps[i].Fires? ==> steps[i].now < at)
    requires steps[k].Fires? && steps[k].now >= at
    requires member < |states[k].handlers| && states[k].handlers[member].Some?
    ensures |states[k].calls| <= |states[k + 1].calls|
    ensures Call(member, states[k].handlers[member].value, steps[k].now) in states[k + 1].calls[|states[k].calls|..]
  {
    OneshotWaits(states, steps, (at, member), j, k);
    var t := states[k].(wheel := states[k].wheel - {Least(states[k].wheel)});
    var now := steps[k].now;
    var made := DueCalls(t.handlers, DueMembers(t, now), now, |t.handlers|);
    DeliveredCalls(Drained(t, now), made, steps[k].wakeClock, steps[k].bodies);
    DueCallsExactly(t.handlers, DueMembers(t, now), now, |t.handlers|);
    var o := (at, member);
    assert o in t.oneshots && o.0 <= now && o.1 in DueMembers(t, now);
    assert states[k + 1].calls[|states[k].calls|..] == made;
  }

  /** On a punctual engine that dispatch is at the one-shot's own instant, the instant being armed. */
  lemma OneshotOnTime(states: seq<State>, steps: seq<Step>, at: nat, member: nat, j: nat, k: nat)
    requires Runs(states, steps) && Armed(states[0]) && j <= k < |steps| && (at, member) in states[j].oneshots
    requires forall i :: j <= i < k ==> !steps[i].Drops? && (steps[i].Fires? ==> steps[i].now < at)
    requires steps[k].Fires? && steps[k].now >= at && Punctual(states[k], steps[k])
    requires member < |states[k].handlers| && states[k].handlers[member].Some?
    ensures |states[k].calls| <= |states[k + 1].calls|
    ensures Call(member, states[k].handlers[member].value, at) in states[k + 1].calls[|states[k].calls|..]
  {
    OneshotWaits(states, steps, (at, member), j, k);
    AlwaysArmed(states, steps, k);
    OneshotHanded(states, steps, at, member, j, k);
  }

  // ----- periods -----

  lemma {:induction false} AskAllKeepsPeriods(s: State, clock: nat, body: seq<Asked>)
    ensures s.periods <= AskAll(s, clock, body).periods && s.histories <= AskAll(s, clock, body).histories
  {
    if |body| > 0 {
      AskAllKeepsPeriods(s, clock, body[..|body| - 1]);
    }
  }

  lemma {:induction false} DeliveredKeepsPeriods(s: State, calls: seq<Call>, clock: nat, bodies: seq<seq<Asked>>)
    ensures var t := Delivered(s, calls, clock, bodies); s.periods <= t.periods && s.histories <= t.histories
  {
    if |calls| > 0 {
      var last := |calls| - 1;
      DeliveredKeepsPeriods(s, calls[..last], clock, bodies);
      var before := Delivered(s, calls[..last], clock, bodies);
      AskAllKeepsPeriods(before.(calls := before.calls + [calls[last]]), clock,
                         if last < |bodies| then bodies[last] else []);
    }
  }

  /**
   * However many of its instants a dispatch comes after, a period is handed one fire, and its next instant is
   * ahead of the dispatch: on the old grid where that still is, else a period from now. A period not yet due
   * is left alone.
   */
  lemma LateCoalesces(s: State, now: nat, clock: nat, bodies: seq<seq<Asked>>, k: nat)
    requires WellFormed(s) && k < |s.periods| && s.periods[k].periodNs > 0 && now <= U64_MAX
    ensures var p, t := s.periods[k], Dispatched(s, now, clock, bodies);
            && k < |t.periods| && k < |t.histories|
            && (p.nextNs > now ==> t.periods[k] == p && t.histories[k] == s.histories[k])
            && (p.nextNs <= now ==>
                  && t.histories[k] == s.histories[k].(fires := s.histories[k].fires + [now])
                  && t.periods[k] == p.(nextNs := t.periods[k].nextNs)
                  && (t.periods[k].nextNs < U64_MAX ==>
                        && now < t.periods[k].nextNs <= now + p.periodNs
                        && t.periods[k].nextNs ==
                             if p.nextNs + p.periodNs > now then p.nextNs + p.periodNs else now + p.periodNs))
  {
    DeliveredKeepsPeriods(Drained(s, now), DueCalls(s.handlers, DueMembers(s, now), now, |s.handlers|), clock, bodies);
    hide DueMembers, DueCalls, Delivered, Rearmed;
    var d, t := Drained(s, now), Dispatched(s, now, clock, bodies);
    assert t.periods[..|d.periods|][k] == d.periods[k] && t.histories[..|d.histories|][k] == d.histories[k];
  }

  /** Unless it has saturated, a period's fires so far and its next instant are the grid from its anchor. */
  ghost predicate OnGrid(p: Period, h: History) {
    p.nextNs < U64_MAX ==>
      && p.nextNs == h.anchorNs + (|h.fires| + 1) * p.periodNs
      && forall k :: 0 <= k < |h.fires| ==> h.fires[k] == h.anchorNs + (k + 1) * p.periodNs
  }

  ghost predicate AllOnGrid(s: State) {
    WellFormed(s) && forall k :: 0 <= k < |s.periods| ==> OnGrid(s.periods[k], s.histories[k])
  }

  lemma AskOnGrid(s: State, clock: nat, asked: Asked)
    requires AllOnGrid(s)
    ensures AllOnGrid(Ask(s, clock, asked))
  {
    if asked.request.Every? && asked.request.periodNs > 0 {
      var t := Ask(s, clock, asked);
      assert OnGrid(t.periods[|s.periods|], t.histories[|s.periods|]);
    }
  }

  lemma {:induction false} AskAllOnGrid(s: State, clock: nat, body: seq<Asked>)
    requires AllOnGrid(s)
    ensures AllOnGrid(AskAll(s, clock, body))
  {
    if |body| > 0 {
      AskAllOnGrid(s, clock, body[..|body| - 1]);
      AskOnGrid(AskAll(s, clock, body[..|body| - 1]), clock, body[|body| - 1]);
    }
  }

  lemma {:induction false} DeliveredOnGrid(s: State, calls: seq<Call>, clock: nat, bodies: seq<seq<Asked>>)
    requires AllOnGrid(s)
    ensures AllOnGrid(Delivered(s, calls, clock, bodies))
  {
    if |calls| > 0 {
      var last := |calls| - 1;
      DeliveredOnGrid(s, calls[..last], clock, bodies);
      var before := Delivered(s, calls[..last], clock, bodies);
      AskAllOnGrid(before.(calls := before.calls + [calls[last]]), clock, if last < |bodies| then bodies[last] else []);
    }
  }

  lemma AdvancedOnGrid(p: Period, h: History, now: nat)
    requires OnGrid(p, h) && p.periodNs > 0 && now <= U64_MAX && p.nextNs >= now
    ensures OnGrid(Advanced(p, now), if p.nextNs <= now then h.(fires := h.fires + [now]) else h)
  {
    if p.nextNs <= now {
      var next := Advanced(p, now).nextNs;
      var more := h.(fires := h.fires + [now]);
      if next < U64_MAX {
        assert next == p.nextNs + p.periodNs;
        assert (|more.fires| + 1) * p.periodNs == (|h.fires| + 1) * p.periodNs + p.periodNs;
      }
    }
  }

  /** On a punctual engine a due period is due exactly now, because it was armed. */
  lemma PunctualDrained(s: State, now: nat)
    requires Armed(s) && AllOnGrid(s) && s.wheel != {} && now == Least(s.wheel) <= U64_MAX
    ensures AllOnGrid(Drained(s.(wheel := s.wheel - {Least(s.wheel)}), now))
  {
    var d := Drained(s.(wheel := s.wheel - {Least(s.wheel)}), now);
    forall k | 0 <= k < |d.periods| ensures OnGrid(d.periods[k], d.histories[k]) {
      assert s.periods[k] in s.periods && OnGrid(s.periods[k], s.histories[k]);
      AdvancedOnGrid(s.periods[k], s.histories[k], now);
    }
  }

  /**
   * On a punctual engine, whatever is scheduled from wherever in between: every fire of every period is on
   * its grid, the k-th at anchor + k * period, until the clock saturates.
   */
  lemma {:induction false} PunctualRun(states: seq<State>, steps: seq<Step>, k: nat)
    requires Runs(states, steps) && Armed(states[0]) && AllOnGrid(states[0]) && k < |states|
    requires forall j :: 0 <= j < k ==> Punctual(states[j], steps[j])
    ensures AllOnGrid(states[k])
  {
    if k > 0 {
      PunctualRun(states, steps, k - 1);
      AlwaysArmed(states, steps, k - 1);
      var s, step := states[k - 1], steps[k - 1];
      match step {
        case Asks(clock, asked) => AskOnGrid(s, clock, asked);
        case Fires(now, clock, bodies) =>
          PunctualDrained(s, now);
          var t := s.(wheel := s.wheel - {Least(s.wheel)});
          DeliveredOnGrid(Drained(t, now), DueCalls(t.handlers, DueMembers(t, now), now, |t.handlers|), clock, bodies);
        case Drops =>
      }
    }
  }
}
