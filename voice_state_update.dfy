/** The voice-state handler: an in-memory map from user to the start of their current voice
    session, updated on every voice-state event, which credits the whole minutes of a session to
    the scorer when the user leaves a voice channel or moves to another one. */
module Voice {
  import opened Store
  import opened Scoring

  const MillisPerMinute: int := 60000

  /** When the user's current voice session started (milliseconds) and in which channel. */
  datatype Session = Session(joinTime: int, channelId: string)

  /** The guild member an event is about. */
  datatype Member = Member(id: UserId, isBot: bool)

  /** One side of a voice-state event: the member, if the platform resolved it, and the id of
      the voice channel, if the member is in one. */
  datatype VoiceState = VoiceState(member: Option<Member>, channel: Option<string>)

  /** Minutes of voice time handed to the scorer for one user. */
  datatype Credit = Credit(userId: UserId, minutes: int)

  /** `Math.floor((now - joinTime) / 60000)`: the whole minutes elapsed since `joinTime`, rounded
      toward minus infinity, so a clock that went backwards gives a non-positive count. */
  function SessionMinutes(joinTime: int, now: int): (m: int)
    ensures m * MillisPerMinute <= now - joinTime < (m + 1) * MillisPerMinute
    ensures m > 0 <==> now - joinTime >= MillisPerMinute
  {
    (now - joinTime) / MillisPerMinute
  }

  /** The credit for a session that ends at `now`: its minutes, when there is at least one. */
  function CreditFor(id: UserId, session: Session, now: int): (c: Option<Credit>)
    ensures c.Some? <==> now - session.joinTime >= MillisPerMinute
    ensures c.Some? ==>
      && c.value.userId == id && c.value.minutes > 0
      && c.value.minutes == SessionMinutes(session.joinTime, now)
      && c.value.minutes * MillisPerMinute <= now - session.joinTime
  {
    var minutes := SessionMinutes(session.joinTime, now);
    if minutes > 0 then Some(Credit(id, minutes)) else None
  }

  /** Events about a bot, or whose member is not resolved, are dropped. */
  predicate Ignored(newState: VoiceState)
  {
    newState.member.None? || newState.member.value.isBot
  }

  /** The handler as a function: the session map after the event, and the voice time it hands to
      the scorer, if any. A join (no channel before, one now) starts a session at `now`, replacing
      any session left over; a leave ends the user's session, if there is one, crediting its
      minutes; a move to a different channel does the same and starts a new session in the new
      channel, but only when a session exists. Every other event (a bot, an unresolved member, a
      change within one channel such as muting) changes nothing. */
  function Transition(sessions: map<UserId, Session>, oldState: VoiceState, newState: VoiceState, now: int)
    : (r: (map<UserId, Session>, Option<Credit>))
    ensures Ignored(newState) ==> r == (sessions, None)
    ensures !Ignored(newState) ==>
      var id := newState.member.value.id;
      forall v :: v != id ==> (v in r.0 <==> v in sessions) && (v in sessions ==> r.0[v] == sessions[v])
    ensures r.1.Some? ==>
      && !Ignored(newState) && oldState.channel.Some?
      && var id := newState.member.value.id;
      && r.1.value.userId == id && id in sessions
      && r.1.value.minutes > 0
      && r.1.value.minutes == SessionMinutes(sessions[id].joinTime, now)
  {
    if Ignored(newState) then (sessions, None)
    else
      var id := newState.member.value.id;
      if oldState.channel.None? && newState.channel.Some? then
        (sessions[id := Session(now, newState.channel.value)], None)
      else if oldState.channel.Some? && newState.channel.None? then
        if id in sessions then (sessions - {id}, CreditFor(id, sessions[id], now)) else (sessions, None)
      else if oldState.channel.Some? && newState.channel.Some? && oldState.channel.value != newState.channel.value then
        if id in sessions then (sessions[id := Session(now, newState.channel.value)], CreditFor(id, sessions[id], now))
        else (sessions, None)
      else (sessions, None)
  }

  /** The cases of the handler for a resolved, non-bot member. A join starts a session at `now`
      whether or not one existed. A leave with a session removes it and credits its minutes when
      there is at least one. A move with a session restarts it in the new channel and credits
      the same way. A leave or a move without a session, and any event that stays in one channel
      (or in none), change nothing. */
  lemma TransitionCases(sessions: map<UserId, Session>, oldState: VoiceState, newState: VoiceState, now: int)
    requires !Ignored(newState)
    ensures var id := newState.member.value.id;
      var r := Transition(sessions, oldState, newState, now);
      && (oldState.channel.None? && newState.channel.Some? ==>
            r == (sessions[id := Session(now, newState.channel.value)], None))
      && (oldState.channel.Some? && newState.channel.None? && id in sessions ==>
            && r.0 == sessions - {id}
            && r.1 == CreditFor(id, sessions[id], now))
      && (oldState.channel.Some? && newState.channel.Some? && oldState.channel != newState.channel
          && id in sessions ==>
            && r.0 == sessions[id := Session(now, newState.channel.value)]
            && r.1 == CreditFor(id, sessions[id], now))
      && (oldState.channel.Some? && id !in sessions ==> r == (sessions, None))
      && (oldState.channel == newState.channel ==> r == (sessions, None))
  {
  }

  /** The store after the event: the scorer's voice-activity effect for the credit, if any. Only
      an event that ends a session of at least one minute reaches the store, and then it runs
      the voice-activity effect for that user and the session's whole minutes. */
  function StoreAfter(s: Store, sessions: map<UserId, Session>, oldState: VoiceState, newState: VoiceState, now: int)
    : (r: Store)
    ensures Transition(sessions, oldState, newState, now).1.None? ==> r == s
    ensures var credit := Transition(sessions, oldState, newState, now).1;
      credit.Some? ==>
        && var id := newState.member.value.id;
        && id in sessions && oldState.channel.Some?
        && r == VoiceActivityEffect(s, id, SessionMinutes(sessions[id].joinTime, now), now)
  {
    var credit := Transition(sessions, oldState, newState, now).1;
    if credit.Some? then VoiceActivityEffect(s, credit.value.userId, credit.value.minutes, now) else s
  }

  /** The handler keeps the store's invariant. */
  lemma StoreAfterKeepsValid(s: Store, sessions: map<UserId, Session>, oldState: VoiceState, newState: VoiceState, now: int)
    requires StoreValid(s)
    ensures StoreValid(StoreAfter(s, sessions, oldState, newState, now))
  {
    var credit := Transition(sessions, oldState, newState, now).1;
    if credit.Some? {
      VoiceActivityKeepsValid(s, credit.value.userId, credit.value.minutes, now);
    }
  }

  /** Joining and then leaving credits exactly the whole minutes between the two events, and
      leaves no session behind. */
  lemma JoinThenLeave(sessions: map<UserId, Session>, m: Member, channel: string, t0: int, t1: int)
    requires !m.isBot
    ensures var (afterJoin, c0) := Transition(sessions, VoiceState(Some(m), None), VoiceState(Some(m), Some(channel)), t0);
      var (afterLeave, c1) := Transition(afterJoin, VoiceState(Some(m), Some(channel)), VoiceState(Some(m), None), t1);
      && c0.None?
      && afterLeave == sessions - {m.id}
      && c1 == (if t1 - t0 >= MillisPerMinute then Some(Credit(m.id, SessionMinutes(t0, t1))) else None)
  {
    var afterJoin := sessions[m.id := Session(t0, channel)];
    assert afterJoin - {m.id} == sessions - {m.id};
  }

  /** Moving through channels never earns more: the minutes credited for a session split by a
      move at `t1` add up to at most the minutes of the unsplit session from `t0` to `t2`. */
  lemma MoveNeverGains(sessions: map<UserId, Session>, m: Member, a: string, b: string, t0: int, t1: int, t2: int)
    requires !m.isBot && a != b
    requires t0 <= t1 <= t2
    ensures var (afterJoin, _) := Transition(sessions, VoiceState(Some(m), None), VoiceState(Some(m), Some(a)), t0);
      var (afterMove, c1) := Transition(afterJoin, VoiceState(Some(m), Some(a)), VoiceState(Some(m), Some(b)), t1);
      var (afterLeave, c2) := Transition(afterMove, VoiceState(Some(m), Some(b)), VoiceState(Some(m), None), t2);
      && afterLeave == sessions - {m.id}
      && Credited(c1) + Credited(c2) <= SessionMinutes(t0, t2)
  {
    var afterJoin := sessions[m.id := Session(t0, a)];
    var afterMove := afterJoin[m.id := Session(t1, b)];
    assert afterMove - {m.id} == sessions - {m.id};
    FloorSplit(t1 - t0, t2 - t1);
  }

  /** The minutes a credit carries, zero for none. */
  function Credited(c: Option<Credit>): (n: int)
    ensures c.None? ==> n == 0
    ensures c.Some? ==> n == c.value.minutes
  {
    if c.Some? then c.value.minutes else 0
  }

  /** Rounding down two parts separately never gives more than rounding down their sum. */
  lemma FloorSplit(x: int, y: int)
    requires x >= 0 && y >= 0
    ensures x / MillisPerMinute + y / MillisPerMinute <= (x + y) / MillisPerMinute
  {
    var (qx, qy) := (x / MillisPerMinute, y / MillisPerMinute);
    assert qx * MillisPerMinute + qy * MillisPerMinute <= x + y;
    assert (qx + qy) * MillisPerMinute <= x + y;
  }

  /** A session shorter than two minutes earns nothing: its credit is at most one minute, which is
      worth no points, so the store does not change. */
  lemma ShortSessionEarnsNothing(s: Store, sessions: map<UserId, Session>, oldState: VoiceState, newState: VoiceState, now: int)
    requires !Ignored(newState) && newState.member.value.id in sessions
    requires now - sessions[newState.member.value.id].joinTime < 2 * MillisPerMinute
    ensures StoreAfter(s, sessions, oldState, newState, now) == s
  {
    var credit := Transition(sessions, oldState, newState, now).1;
    if credit.Some? {
      assert credit.value.minutes == 1;
      assert VoicePoints(1) == 0;
    }
  }

  /** The map follows the user: if the user's session (when there is one) is in the channel the
      event starts from, then after the event the user's session (when there is one) is in the
      channel the event ends in. A user who is in no channel has no session. */
  lemma SessionFollowsChannel(sessions: map<UserId, Session>, oldState: VoiceState, newState: VoiceState, now: int)
    requires !Ignored(newState)
    requires var id := newState.member.value.id;
      id in sessions ==> oldState.channel == Some(sessions[id].channelId)
    ensures var (after, _) := Transition(sessions, oldState, newState, now);
      var id := newState.member.value.id;
      id in after ==> newState.channel == Some(after[id].channelId)
  {
  }

  /** Sessions never start in the future: if every session started at or before `now`, so does
      every session after an event at `now`. */
  lemma SessionsStartInPast(sessions: map<UserId, Session>, oldState: VoiceState, newState: VoiceState, now: int)
    requires forall v :: v in sessions ==> sessions[v].joinTime <= now
    ensures var (after, _) := Transition(sessions, oldState, newState, now);
      forall v :: v in after ==> after[v].joinTime <= now
  {
  }

  /** The event handler, which owns the session map and its scorer. */
  class VoiceHandler {
    var sessions: map<UserId, Session>
    const scoring: ScoringService

    /** No sessions at start-up: sessions open before a restart are never credited. */
    constructor ()
      ensures sessions == map[]
      ensures fresh(scoring)
    {
      sessions := map[];
      scoring := new ScoringService();
    }

    /** execute: the update of the session map and, on a leave or a move, the voice credit. A
        failed credit (an unknown user) is swallowed by the scorer, so the session is ended or
        restarted all the same. */
    method Execute(db: Database, oldState: VoiceState, newState: VoiceState, now: int)
      requires db.Valid()
      modifies this, db
      ensures db.Valid()
      ensures sessions == Transition(old(sessions), oldState, newState, now).0
      ensures db.Snapshot() == StoreAfter(old(db.Snapshot()), old(sessions), oldState, newState, now)
    {
      if newState.member.None? || newState.member.value.isBot {
        return;
      }
      var userId := newState.member.value.id;
      if oldState.channel.None? && newState.channel.Some? {
        sessions := sessions[userId := Session(now, newState.channel.value)];
      } else if oldState.channel.Some? && newState.channel.None? {
        if userId in sessions {
          var duration := SessionMinutes(sessions[userId].joinTime, now);
          if duration > 0 {
            scoring.ProcessVoiceActivity(db, userId, duration, now);
          }
          sessions := sessions - {userId};
        }
      } else if oldState.channel.Some? && newState.channel.Some? && oldState.channel.value != newState.channel.value {
        if userId in sessions {
          var duration := SessionMinutes(sessions[userId].joinTime, now);
          if duration > 0 {
            scoring.ProcessVoiceActivity(db, userId, duration, now);
          }
          sessions := sessions[userId := Session(now, newState.channel.value)];
        }
      }
    }
  }
}
