/**
  The link aggregation control protocol: the state that send_lacp_reports and process_eth_slow keep,
  on a clock that is positive and does not wrap.
 */
module Lacp {
  import opened Bytes

  const TICKS_PER_SEC: nat := 1000
  const FAST_PERIODIC_TIME: nat := 1 * TICKS_PER_SEC
  const SLOW_PERIODIC_TIME: nat := 30 * TICKS_PER_SEC
  const SHORT_TIMEOUT_TIME: nat := 3 * FAST_PERIODIC_TIME
  const LONG_TIMEOUT_TIME: nat := 3 * SLOW_PERIODIC_TIME

  type Mac = seq<byte>

  /** The bits of a state byte. */
  datatype Bits = Bits(activity: bool, timeout: bool, aggregation: bool, synchronization: bool,
                       collecting: bool, distributing: bool, defaulted: bool, expired: bool)

  const NO_BITS: Bits := Bits(false, false, false, false, false, false, false, false)

  /** What is compared (LACP_CMP_LEN) and the state byte. */
  datatype Identity = Identity(systemPriority: nat, system: Mac, key: nat, portPriority: nat, port: nat)
  datatype Info = Info(id: Identity, state: Bits)

  datatype Pdu = Pdu(actor: Info, partner: Info)

  const ZERO_MAC: Mac := [0, 0, 0, 0, 0, 0]

  function DefaultActor(mac: Mac): Info {
    Info(Identity(1, mac, 1, 1, 1), NO_BITS.(synchronization := true, collecting := true, distributing := true, defaulted := true))
  }

  function DefaultPartner(): Info {
    Info(Identity(1, ZERO_MAC, 1, 1, 1),
         NO_BITS.(activity := true, synchronization := true, collecting := true, distributing := true, defaulted := true))
  }

  /** The bits that LACP_NTT_MASK selects. */
  predicate SameNttBits(a: Bits, b: Bits) {
    a.activity == b.activity && a.timeout == b.timeout && a.synchronization == b.synchronization && a.aggregation == b.aggregation
  }

  function Bit(b: bool, weight: nat): nat {
    if b then weight else 0
  }

  /** The state byte that goes over the wire. */
  function StateByte(s: Bits): nat {
    Bit(s.activity, 1) + Bit(s.timeout, 2) + Bit(s.aggregation, 4) + Bit(s.synchronization, 8) +
    Bit(s.collecting, 16) + Bit(s.distributing, 32) + Bit(s.defaulted, 64) + Bit(s.expired, 128)
  }

  /** LACP_NTT_MASK is the low half of the byte. */
  lemma NttMask(a: Bits, b: Bits)
    ensures SameNttBits(a, b) <==> StateByte(a) % 16 == StateByte(b) % 16
  {
    LowHalf(a);
    LowHalf(b);
  }

  lemma LowHalf(s: Bits)
    ensures StateByte(s) % 16 == Bit(s.activity, 1) + Bit(s.timeout, 2) + Bit(s.aggregation, 4) + Bit(s.synchronization, 8)
  {
    LowPart(Bit(s.collecting, 1) + Bit(s.distributing, 2) + Bit(s.defaulted, 4) + Bit(s.expired, 8),
            Bit(s.activity, 1) + Bit(s.timeout, 2) + Bit(s.aggregation, 4) + Bit(s.synchronization, 8), StateByte(s));
  }

  lemma LowPart(high: nat, low: nat, x: nat)
    requires low < 16 && x == 16 * high + low
    ensures x % 16 == low
  {
  }

  /** lacp_timer_expired */
  predicate TimerExpired(now: nat, when: nat) {
    when != 0 && now > when
  }

  /** The actor never asks for short timeouts or activity; only two bits of its state change. */
  predicate ActorBits(s: Bits) {
    s == NO_BITS.(synchronization := true, collecting := true, distributing := true, defaulted := s.defaulted, expired := s.expired)
  }

  // ----- one event, on values

  datatype State = State(actor: Info, partner: Info, currentWhile: nat, periodic: nat)

  function Fresh(mac: Mac, s: State): State {
    if s.actor.id.system == mac then s else State(DefaultActor(mac), DefaultPartner(), 0, 0)
  }

  /** The information about the partner has run out: it is marked first and dropped the next time. */
  function RunOut(mac: Mac, s: State, now: nat): State {
    if s.actor.state.expired then State(DefaultActor(mac), DefaultPartner(), 0, 0)
    else State(s.actor.(state := s.actor.state.(expired := true)),
               s.partner.(state := s.partner.state.(synchronization := false, timeout := true)),
               now + SHORT_TIMEOUT_TIME, s.periodic)
  }

  /** After a report the next one is due, if either side is active. */
  function Reported(s: State, now: nat): State {
    if s.partner.state.activity || s.actor.state.activity
    then s.(periodic := now + if s.partner.state.timeout then FAST_PERIODIC_TIME else SLOW_PERIODIC_TIME)
    else s
  }

  /** Whether a report goes out at `now`, and the state it leaves. */
  function Ticked(mac: Mac, s0: State, now: nat, ntt: bool): (State, bool) {
    var s := Fresh(mac, s0);
    var late := TimerExpired(now, s.currentWhile);
    var s' := if late then RunOut(mac, s, now) else s;
    var send := ntt || (late && !s.actor.state.expired) || TimerExpired(now, s'.periodic);
    (if send then Reported(s', now) else s', send)
  }

  /** The other side disagrees about the actor. */
  predicate Disagrees(pdu: Pdu, actor: Info) {
    pdu.partner.id != actor.id || !SameNttBits(pdu.partner.state, actor.state)
  }

  function Recorded(pdu: Pdu, actor: Info): Info {
    pdu.actor.(state := pdu.actor.state.(synchronization :=
      !pdu.actor.state.aggregation || (pdu.partner.id == actor.id && pdu.partner.state.aggregation == actor.state.aggregation)))
  }

  function Heard(mac: Mac, s0: State, pdu: Pdu, now: nat): (State, bool) {
    var s := Fresh(mac, s0);
    var wait := if s.actor.state.timeout then SHORT_TIMEOUT_TIME else LONG_TIMEOUT_TIME;
    Ticked(mac, State(s.actor.(state := s.actor.state.(defaulted := false, expired := false)), Recorded(pdu, s.actor),
                      now + wait, s.periodic),
           now, Disagrees(pdu, s.actor))
  }

  class Machine {
    const mac: Mac              // nic.node_addr
    var actor: Info
    var partner: Info
    var currentWhile: nat       // when the partner's information expires, or 0
    var periodic: nat           // when the partner is due an update, or 0
    var transmitted: bool       // whether the last event sent a LACPDU

    predicate Started()
      reads this
    {
      actor.id.system == mac
    }

    /**
      Before the first event everything is zero. From then on the actor is in the defaulted state exactly when
      no information is held, and then no update is due.
     */
    ghost predicate Valid()
      reads this
    {
      && mac != ZERO_MAC
      && if !Started() then actor.id.system == ZERO_MAC && currentWhile == 0 && periodic == 0
         else
           && ActorBits(actor.state) && (actor.state.defaulted <==> currentWhile == 0)
           && (actor.state.defaulted ==> periodic == 0 && !actor.state.expired)
    }

    ghost function View(): State
      reads this
    {
      State(actor, partner, currentWhile, periodic)
    }

    constructor (mac: Mac)
      requires mac != ZERO_MAC
      ensures Valid() && !Started() && this.mac == mac
    {
      this.mac := mac;
      actor := Info(Identity(0, ZERO_MAC, 0, 0, 0), NO_BITS);
      partner := Info(Identity(0, ZERO_MAC, 0, 0, 0), NO_BITS);
      currentWhile, periodic, transmitted := 0, 0, false;
    }

    /** lacp_init_state */
    method InitState()
      modifies this`actor, this`partner, this`currentWhile, this`periodic
      ensures actor == DefaultActor(mac) && partner == DefaultPartner() && currentWhile == 0 && periodic == 0
    {
      currentWhile, periodic := 0, 0;
      actor, partner := DefaultActor(mac), DefaultPartner();
    }

    /** lacp_update_ntt: the partner does not know my state. */
    method UpdateNtt(pdu: Pdu) returns (ntt: bool)
      ensures ntt <==> Disagrees(pdu, actor)
    {
      ntt := false;
      if pdu.partner.id != actor.id || !SameNttBits(pdu.partner.state, actor.state) {
        ntt := true;
      }
    }

    /** lacp_record_pdu: the partner is in step if it agrees about me or does not aggregate. */
    method RecordPdu(pdu: Pdu)
      modifies this`actor, this`partner
      ensures actor == old(actor).(state := old(actor).state.(defaulted := false))
      ensures partner.id == pdu.actor.id
      ensures partner.state == pdu.actor.state.(synchronization :=
                !pdu.actor.state.aggregation ||
                (pdu.partner.id == actor.id && pdu.partner.state.aggregation == actor.state.aggregation))
    {
      partner := pdu.actor;
      actor := actor.(state := actor.state.(defaulted := false));
      partner := partner.(state := partner.state.(synchronization := false));
      if pdu.partner.id == actor.id && pdu.partner.state.aggregation == actor.state.aggregation {
        partner := partner.(state := partner.state.(synchronization := true));
      }
      if !pdu.actor.state.aggregation {
        partner := partner.(state := partner.state.(synchronization := true));
      }
    }

    /** lacp_start_periodic_timer */
    method StartPeriodicTimer(now: nat)
      modifies this`periodic
      ensures periodic == if partner.state.activity || actor.state.activity
                          then now + (if partner.state.timeout then FAST_PERIODIC_TIME else SLOW_PERIODIC_TIME)
                          else old(periodic)
    {
      if partner.state.activity || actor.state.activity {
        periodic := now + if partner.state.timeout then FAST_PERIODIC_TIME else SLOW_PERIODIC_TIME;
      }
    }

    /** lacp_start_current_while_timer */
    method StartCurrentWhileTimer(now: nat)
      modifies this`currentWhile, this`actor
      ensures currentWhile == now + if actor.state.timeout then SHORT_TIMEOUT_TIME else LONG_TIMEOUT_TIME
      ensures actor == old(actor).(state := old(actor).state.(expired := false))
    {
      currentWhile := now + if actor.state.timeout then SHORT_TIMEOUT_TIME else LONG_TIMEOUT_TIME;
      actor := actor.(state := actor.state.(expired := false));
    }

    /**
      send_lacp_reports: information that has run out is first marked as expired, then dropped.
      A LACPDU is sent only while the partner's information is held.
     */
    method SendReports(now: nat, ntt0: bool)
      requires Valid() && now > 0
      requires ntt0 ==> Started() && !actor.state.defaulted && !TimerExpired(now, currentWhile)
      modifies this
      ensures Valid() && Started() && (View(), transmitted) == Ticked(mac, old(View()), now, ntt0)
      ensures transmitted ==> !actor.state.defaulted
      ensures old(Started()) && !old(actor).state.defaulted && !TimerExpired(now, old(currentWhile)) ==>
                actor == old(actor) && partner == old(partner) && currentWhile == old(currentWhile)
      ensures old(Started()) && TimerExpired(now, old(currentWhile)) ==>
                if old(actor).state.expired then actor == DefaultActor(mac) && partner == DefaultPartner() && !transmitted
                else transmitted && actor.state.expired && currentWhile == now + SHORT_TIMEOUT_TIME
      ensures (!old(Started()) || old(actor).state.defaulted) ==> actor.state.defaulted && !transmitted
      ensures old(Started()) && (ntt0 || (TimerExpired(now, old(periodic)) && !TimerExpired(now, old(currentWhile)))) ==> transmitted
    {
      var ntt := ntt0;
      transmitted := false;
      if mac != actor.id.system {
        InitState();
      }
      if TimerExpired(now, currentWhile) {
        if !actor.state.expired {
          partner := partner.(state := partner.state.(synchronization := false, timeout := true));
          actor := actor.(state := actor.state.(expired := true));
          currentWhile := now + SHORT_TIMEOUT_TIME;
          ntt := true;
        } else {
          InitState();
        }
      }
      if TimerExpired(now, periodic) {
        ntt := true;
      }
      if ntt {
        transmitted := true;
        StartPeriodicTimer(now);
      }
    }

    /** send_eth_slow_reports */
    method Tick(now: nat)
      requires Valid() && now > 0
      modifies this
      ensures Valid() && Started() && (View(), transmitted) == Ticked(mac, old(View()), now, false)
      ensures transmitted ==> !actor.state.defaulted
      ensures transmitted <==>
                && old(Started()) && !old(actor).state.defaulted
                && if TimerExpired(now, old(currentWhile)) then !old(actor).state.expired else TimerExpired(now, old(periodic))
      ensures (!old(Started()) || old(actor).state.defaulted) ==> actor.state.defaulted && !transmitted
      ensures old(Started()) && TimerExpired(now, old(currentWhile)) ==>
                if old(actor).state.expired then actor == DefaultActor(mac) && partner == DefaultPartner() && !transmitted
                else transmitted && actor.state.expired && currentWhile == now + SHORT_TIMEOUT_TIME
      ensures old(Started()) && !TimerExpired(now, old(currentWhile)) ==>
                actor.state == old(actor).state && currentWhile == old(currentWhile)
    {
      SendReports(now, false);
    }

    /** process_eth_slow for a LACPDU. */
    method Process(pdu: Pdu, now: nat)
      requires Valid() && now > 0
      modifies this
      ensures Valid() && Started() && !actor.state.defaulted && !actor.state.expired
      ensures currentWhile == now + LONG_TIMEOUT_TIME && partner.id == pdu.actor.id
      ensures (View(), transmitted) == Heard(mac, old(View()), pdu, now)
      ensures transmitted <==>
                || Disagrees(pdu, if old(Started()) then old(actor) else DefaultActor(mac))
                || TimerExpired(now, old(periodic))
    {
      if mac != actor.id.system {
        InitState();
      }
      var ntt := UpdateNtt(pdu);
      RecordPdu(pdu);
      StartCurrentWhileTimer(now);
      SendReports(now, ntt);
    }
  }

  // ----- whole runs

  datatype Event = Tick(now: nat) | Received(now: nat, pdu: Pdu)

  /** What is seen of one event: whether a LACPDU was sent, and whether information is held afterwards. */
  datatype Outcome = Outcome(sent: bool, held: bool)

  /** Information is held at the end of the log: a LACPDU came in, and nothing was dropped since. */
  ghost predicate HeldSince(es: seq<Event>, log: seq<Outcome>, i: int, j: int)
    requires |log| <= |es|
  {
    0 <= j <= i < |log| && es[j].Received? && forall k :: j <= k <= i ==> log[k].held
  }

  /** Every LACPDU sent is backed by one that was received and has not been dropped. */
  ghost predicate Backed(es: seq<Event>, log: seq<Outcome>)
    requires |log| <= |es|
  {
    forall i :: 0 <= i < |log| && (log[i].sent || log[i].held) ==> exists j :: HeldSince(es, log, i, j)
  }

  lemma BackedStep(es: seq<Event>, log: seq<Outcome>, o: Outcome)
    requires |log| < |es| && Backed(es, log) && (o.sent ==> o.held)
    requires es[|log|].Tick? && o.held ==> |log| > 0 && log[|log| - 1].held
    ensures Backed(es, log + [o])
  {
    var n := |log|;
    var log' := log + [o];
    forall i | 0 <= i < |log'| && (log'[i].sent || log'[i].held) ensures exists j :: HeldSince(es, log', i, j) {
      if i < n {
        var j :| HeldSince(es, log, i, j);
        assert HeldSince(es, log', i, j);
      } else if es[n].Received? {
        assert HeldSince(es, log', n, n);
      } else {
        var j :| HeldSince(es, log, n - 1, j);
        assert HeldSince(es, log', n, j);
      }
    }
  }

  function Handled(mac: Mac, s: State, e: Event): (State, bool) {
    match e
    case Tick(now) => Ticked(mac, s, now, false)
    case Received(now, pdu) => Heard(mac, s, pdu, now)
  }

  /** The state and the last transmission after `es`. */
  function After(mac: Mac, s: State, es: seq<Event>): (State, bool) {
    if es == [] then (s, false) else Handled(mac, After(mac, s, es[..|es| - 1]).0, es[|es| - 1])
  }

  /** One event. */
  method Handle(m: Machine, e: Event) returns (o: Outcome)
    requires m.Valid() && e.now > 0
    modifies m
    ensures m.Valid() && m.Started() && (m.View(), m.transmitted) == Handled(m.mac, old(m.View()), e)
    ensures o == Outcome(m.transmitted, !m.actor.state.defaulted) && (o.sent ==> o.held)
    ensures e.Tick? && o.held ==> old(m.Started()) && !old(m.actor).state.defaulted
  {
    match e {
      case Tick(now) => m.Tick(now);
      case Received(now, pdu) => m.Process(pdu, now);
    }
    o := Outcome(m.transmitted, !m.actor.state.defaulted);
  }

  /** What is seen of every event. */
  function Trace(mac: Mac, s: State, es: seq<Event>): (log: seq<Outcome>)
    ensures |log| == |es|
  {
    if es == [] then [] else
      var end := After(mac, s, es);
      Trace(mac, s, es[..|es| - 1]) + [Outcome(end.1, !end.0.actor.state.defaulted)]
  }

  /** The last LACPDU that came in is event `j`. */
  ghost predicate LastHeard(es: seq<Event>, j: int) {
    0 <= j < |es| && es[j].Received? && forall k :: j < k < |es| ==> es[k].Tick?
  }

  /** Event `a` is the first that finds the information of event `j` too old. */
  ghost predicate FirstLate(es: seq<Event>, j: int, a: int) {
    && 0 <= j < a < |es| && es[a].now > es[j].now + LONG_TIMEOUT_TIME
    && forall k :: j < k < a ==> es[k].now <= es[j].now + LONG_TIMEOUT_TIME
  }

  /** Nothing behind event `a` comes later than the short timeout allows. */
  ghost predicate InTime(es: seq<Event>, a: int) {
    forall b :: 0 <= a < b < |es| ==> es[b].now <= es[a].now + SHORT_TIMEOUT_TIME
  }

  /** By the clock alone: something was heard, and it was not dropped by a second late event. */
  ghost predicate Current(es: seq<Event>, j: int) {
    LastHeard(es, j) && forall a :: FirstLate(es, j, a) ==> InTime(es, a)
  }

  ghost predicate Kept(es: seq<Event>) {
    exists j :: Current(es, j)
  }

  /** What the timer holds while information is kept. */
  ghost predicate TimerIs(es: seq<Event>, s: State, j: int, a: int) {
    && LastHeard(es, j)
    && if s.actor.state.expired
       then FirstLate(es, j, a) && InTime(es, a) && s.currentWhile == es[a].now + SHORT_TIMEOUT_TIME
       else s.currentWhile == es[j].now + LONG_TIMEOUT_TIME && forall k :: j < k < |es| ==> es[k].now <= s.currentWhile
  }

  ghost predicate Tracks(es: seq<Event>, s: State) {
    if s.currentWhile == 0 then !Kept(es) else exists j, a :: TimerIs(es, s, j, a)
  }

  lemma TimerMeansCurrent(es: seq<Event>, s: State, j: int, a: int)
    requires TimerIs(es, s, j, a)
    ensures Current(es, j)
  {
    forall a' | FirstLate(es, j, a') ensures InTime(es, a') {
      assert s.actor.state.expired ==> a' == a;
    }
  }

  /** A LACPDU starts the long timeout. */
  lemma TracksHeard(es: seq<Event>, e: Event, s': State)
    requires e.Received? && !s'.actor.state.expired && s'.currentWhile == e.now + LONG_TIMEOUT_TIME
    ensures Tracks(es + [e], s')
  {
    assert TimerIs(es + [e], s', |es|, 0);
  }

  lemma TickKeeps(es: seq<Event>, e: Event, j: int)
    requires e.Tick? && Current(es + [e], j)
    ensures Current(es, j)
  {
    var es' := es + [e];
    assert j < |es| by {
      assert es'[|es|] == e;
    }
    assert forall k :: 0 <= k < |es| ==> es'[k] == es[k];
    forall a | FirstLate(es, j, a) ensures InTime(es, a) {
      assert FirstLate(es', j, a);
    }
  }

  /** A tick that finds nothing, or nothing late, changes neither timer nor information. */
  lemma TracksQuiet(es: seq<Event>, e: Event, s: State, s': State)
    requires Tracks(es, s) && e.Tick? && !TimerExpired(e.now, s.currentWhile)
    requires s'.currentWhile == s.currentWhile && s'.actor.state.expired == s.actor.state.expired
    ensures Tracks(es + [e], s')
  {
    var es' := es + [e];
    if s.currentWhile == 0 {
      if Kept(es') {
        var j :| Current(es', j);
        TickKeeps(es, e, j);
      }
    } else {
      var j, a :| TimerIs(es, s, j, a);
      assert forall k :: 0 <= k < |es| ==> es'[k] == es[k];
      assert TimerIs(es', s', j, a);
    }
  }

  lemma TracksFirstLate(es: seq<Event>, e: Event, s: State, s': State)
    requires Tracks(es, s) && e.Tick? && TimerExpired(e.now, s.currentWhile) && !s.actor.state.expired
    requires s'.currentWhile == e.now + SHORT_TIMEOUT_TIME && s'.actor.state.expired
    ensures Tracks(es + [e], s')
  {
    var es' := es + [e];
    var j, a :| TimerIs(es, s, j, a);
    assert forall k :: 0 <= k < |es| ==> es'[k] == es[k];
    assert TimerIs(es', s', j, |es|);
  }

  lemma TracksDropped(es: seq<Event>, e: Event, s: State, s': State)
    requires Tracks(es, s) && e.Tick? && TimerExpired(e.now, s.currentWhile) && s.actor.state.expired && s'.currentWhile == 0
    ensures Tracks(es + [e], s')
  {
    var es' := es + [e];
    var j, a :| TimerIs(es, s, j, a);
    assert forall k :: 0 <= k < |es| ==> es'[k] == es[k];
    assert es'[|es|] == e && FirstLate(es', j, a) && !InTime(es', a);
    assert forall j' :: LastHeard(es', j') ==> j' == j;
  }

  /** What a reachable state is like. */
  ghost predicate Reachable(mac: Mac, s: State) {
    && s.actor.id.system == mac && ActorBits(s.actor.state)
    && (s.actor.state.defaulted <==> s.currentWhile == 0) && (s.actor.state.defaulted ==> s.periodic == 0 && !s.actor.state.expired)
  }

  ghost predicate Blank(mac: Mac, s: State) {
    mac != ZERO_MAC && s.actor.id.system == ZERO_MAC && s.currentWhile == 0 && s.periodic == 0
  }

  lemma TickReaches(mac: Mac, s: State, now: nat)
    requires (Blank(mac, s) || Reachable(mac, s)) && now > 0
    ensures var (s', sent) := Ticked(mac, s, now, false); Reachable(mac, s') && (sent ==> s'.currentWhile != 0)
  {
  }

  lemma HeardReaches(mac: Mac, s: State, pdu: Pdu, now: nat)
    requires (Blank(mac, s) || Reachable(mac, s)) && now > 0
    ensures var s' := Heard(mac, s, pdu, now).0;
            Reachable(mac, s') && !s'.actor.state.expired && s'.currentWhile == now + LONG_TIMEOUT_TIME
  {
  }

  /** Whether information is held is a matter of the clock. */
  lemma {:induction false} AfterTracks(mac: Mac, s: State, es: seq<Event>)
    requires Blank(mac, s) && forall i :: 0 <= i < |es| ==> es[i].now > 0
    ensures var (s', sent) := After(mac, s, es);
            Tracks(es, s') && if es == [] then s' == s && !sent else Reachable(mac, s') && (sent ==> s'.currentWhile != 0)
    decreases |es|
  {
    if es != [] {
      var front, e := es[..|es| - 1], es[|es| - 1];
      AfterTracks(mac, s, front);
      assert es == front + [e];
      var at := After(mac, s, front).0;
      if e.Received? {
        HeardReaches(mac, at, e.pdu, e.now);
        TracksHeard(front, e, After(mac, s, es).0);
      } else {
        TickReaches(mac, at, e.now);
        TickTracks(mac, front, e, at, Fresh(mac, at));
      }
    }
  }

  lemma TickTracks(mac: Mac, es: seq<Event>, e: Event, s: State, start: State)
    requires Tracks(es, s) && start == Fresh(mac, s) && start.currentWhile == s.currentWhile && Reachable(mac, start)
    requires start.actor.state.expired == s.actor.state.expired || s.currentWhile == 0
    requires e.Tick? && e.now > 0
    ensures Tracks(es + [e], Ticked(mac, s, e.now, false).0)
  {
    var s' := Ticked(mac, s, e.now, false).0;
    if !TimerExpired(e.now, s.currentWhile) {
      TracksQuiet(es, e, start, s');
    } else if start.actor.state.expired {
      TracksDropped(es, e, s, s');
    } else {
      TracksFirstLate(es, e, s, s');
    }
  }

  /** Information is held exactly as long as the clock allows, and reports are sent only while it is. */
  lemma {:induction false} TraceByClock(mac: Mac, s: State, es: seq<Event>, i: nat)
    requires Blank(mac, s) && i < |es| && forall i :: 0 <= i < |es| ==> es[i].now > 0
    ensures var o := Trace(mac, s, es)[i];
            (o.held <==> Kept(es[..i + 1])) && (o.sent ==> o.held)
    decreases |es|
  {
    var n := |es| - 1;
    if i < n {
      TraceByClock(mac, s, es[..n], i);
      assert es[..n][..i + 1] == es[..i + 1];
    } else {
      assert es[..i + 1] == es;
      AfterTracks(mac, s, es);
      var s' := After(mac, s, es).0;
      if s'.currentWhile != 0 {
        var j, a :| TimerIs(es, s', j, a);
        TimerMeansCurrent(es, s', j, a);
      }
    }
  }

  /**
    In every run, the machine does what its trace says: information is held exactly as long as the clock allows,
    and no LACPDU is sent before one is received, or after the partner's information was dropped.
   */
  method Run(m: Machine, es: seq<Event>) returns (log: seq<Outcome>)
    requires m.Valid() && !m.Started()
    requires forall i :: 0 <= i < |es| ==> es[i].now > 0
    modifies m
    ensures m.Valid() && m.View() == After(m.mac, old(m.View()), es).0 && log == Trace(m.mac, old(m.View()), es)
    ensures |log| == |es| && Backed(es, log)
    ensures forall i :: 0 <= i < |es| ==> (log[i].held <==> Kept(es[..i + 1]))
    ensures es != [] ==> (log[|es| - 1].held <==> m.currentWhile != 0)
  {
    ghost var s := m.View();
    log := [];
    for i := 0 to |es|
      invariant m.Valid() && |log| == i && Backed(es, log)
      invariant m.View() == After(m.mac, s, es[..i]).0 && log == Trace(m.mac, s, es[..i])
      invariant if i == 0 then !m.Started() else m.Started() && log[i - 1].held == !m.actor.state.defaulted
    {
      assert es[..i + 1][..i] == es[..i];
      var o := Handle(m, es[i]);
      BackedStep(es, log, o);
      log := log + [o];
    }
    assert es[..|es|] == es;
    forall i | 0 <= i < |es| ensures log[i].held <==> Kept(es[..i + 1]) {
      TraceByClock(m.mac, s, es, i);
    }
  }

  /** A partner that falls silent is dropped by the second tick that comes too late, after one last report. */
  method Silence(m: Machine, pdu: Pdu, heard: nat, late: nat, later: nat)
    requires m.Valid() && heard > 0 && late > heard + LONG_TIMEOUT_TIME && later > late + SHORT_TIMEOUT_TIME
    modifies m
    ensures m.Valid() && m.actor == DefaultActor(m.mac) && m.partner == DefaultPartner() && !m.transmitted
  {
    m.Process(pdu, heard);
    m.Tick(late);
    m.Tick(later);
  }
}
