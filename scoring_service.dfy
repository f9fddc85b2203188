/** ScoringService: the point award transaction, the per-event handlers for messages, reactions
    and voice time, penalties, the spam window and the quality-message classifier.

    Each handler is described twice: a function of the store (and, for messages, of the spam
    tracker) that gives the state after the event, about which the lemmas below are stated, and a
    method of the class that performs the writes one by one and is proved to reach that state. */
module Scoring {
  import opened Leveling
  import opened Store
  import opened Text
  import opened Users

  // The default scoring configuration.
  const BaseMessagePoints: int := 1
  const QualityMessageMultiplier: int := 2
  const ReactionBonusThreshold: int := 3
  /** voiceChannelPointsPerMinute, 0.5, as a fraction. */
  const VoicePointsNumerator: int := 1
  const VoicePointsDenominator: int := 2
  const SpamPenaltyPoints: int := -5

  /** The flat bonus a message author gets per reaction once past the threshold. */
  const ReactionBonusPoints: int := 2
  /** Messages closer together than this (in milliseconds) continue a burst. */
  const SpamWindowMillis: int := 1000
  /** The number of messages in a burst that are not spam. */
  const SpamBurstLimit: nat := 3

  /** The parts of a chat message the scorer reads. */
  datatype ChatMessage = ChatMessage(
    author: Profile,
    authorIsBot: bool,
    content: string,
    attachmentCount: nat,
    embedCount: nat)

  /** One user's entry of the in-memory spam tracker. */
  datatype SpamWindow = SpamWindow(count: nat, lastMessage: int)

  type SpamTracker = map<UserId, SpamWindow>

  // ---------------------------------------------------------------------------------------------
  // The award transaction

  /** The user record after an award of `points`: points are clamped at 0, experience grows by
      the positive part of the award only, the level follows the experience, and lastActive is
      `now`. Nothing else in the record changes. */
  function Awarded(u: User, points: int, now: int): (r: User)
    ensures r.totalPoints >= u.totalPoints + points
    ensures r.totalPoints == 0 || r.totalPoints == u.totalPoints + points
    ensures r.experience == u.experience + Gain(points)
    ensures r.level == CalculateLevel(r.experience)
    ensures r == u.(totalPoints := r.totalPoints, experience := r.experience,
                    level := r.level, lastActive := now)
  {
    var newTotalPoints := Clamp(u.totalPoints + points);
    var newExperience := Clamp(u.experience + Gain(points));
    u.(totalPoints := newTotalPoints, experience := newExperience,
       level := CalculateLevel(newExperience), lastActive := now)
  }

  /** awardPoints as a transaction: it fails with nothing written when the user is not stored;
      otherwise the user's record is updated and exactly one ledger row with the same signed
      points, reason, category and admin is appended, together. */
  function AwardPointsEffect(s: Store, userId: UserId, points: int, reason: string,
                             category: Category, adminId: Option<UserId>, now: int): (r: Option<Store>)
    ensures r.None? <==> userId !in s.users
    ensures r.Some? ==>
      && r.value.history == s.history + [PointEntry(userId, points, reason, category, adminId, now)]
      && r.value.users == s.users[userId := Awarded(s.users[userId], points, now)]
      && r.value == s.(users := r.value.users, history := r.value.history)
  {
    if userId !in s.users then None
    else
      Some(s.(users := s.users[userId := Awarded(s.users[userId], points, now)],
              history := s.history + [PointEntry(userId, points, reason, category, adminId, now)]))
  }

  /** An award keeps the running totals equal to the replay of the ledger. */
  lemma AwardPointsKeepsValid(s: Store, userId: UserId, points: int, reason: string,
                              category: Category, adminId: Option<UserId>, now: int)
    requires StoreValid(s)
    requires userId in s.users
    ensures StoreValid(AwardPointsEffect(s, userId, points, reason, category, adminId, now).value)
  {
    var e := PointEntry(userId, points, reason, category, adminId, now);
    forall id | id in s.users {
      LedgerAppend(s.history, e, id);
    }
  }

  /** An award never lowers the level of a user whose level follows its experience. */
  lemma AwardNeverLowersLevel(u: User, points: int, now: int)
    requires u.level == CalculateLevel(u.experience)
    ensures Awarded(u, points, now).level >= u.level
  {
    LevelMonotone(u.experience, Awarded(u, points, now).experience);
  }

  /** Awarding P and then -P gives the points back exactly, but the experience of the first
      award stays. */
  lemma AwardThenRevoke(s: Store, id: UserId, p: nat, now: int)
    requires id in s.users
    ensures var s1 := AwardPointsEffect(s, id, p, "award", AdminAdjustment, None, now).value;
            var s2 := AwardPointsEffect(s1, id, -(p as int), "revoke", AdminAdjustment, None, now).value;
            && s2.users[id].totalPoints == s.users[id].totalPoints
            && s2.users[id].experience == s.users[id].experience + p
            && |s2.history| == |s.history| + 2
  {
  }

  /** Clamping makes the order matter: from zero points, -P and then +P ends at P, as the
      penalty had nothing to take away. */
  lemma RevokeThenAwardFromZero(s: Store, id: UserId, p: nat, now: int)
    requires id in s.users && s.users[id].totalPoints == 0
    ensures var s1 := AwardPointsEffect(s, id, -(p as int), "revoke", AdminAdjustment, None, now).value;
            var s2 := AwardPointsEffect(s1, id, p, "award", AdminAdjustment, None, now).value;
            s2.users[id].totalPoints == p
  {
  }

  // ---------------------------------------------------------------------------------------------
  // Spam window

  /** The tracker entry of `id` after a message at `now`: the count grows by one if the previous
      message was less than a second earlier and restarts at 1 otherwise; a user without an entry
      starts from count 0 at time 0, which always yields 1. */
  function NextWindow(tracker: SpamTracker, id: UserId, now: int): (w: SpamWindow)
    ensures w.lastMessage == now && w.count >= 1
    ensures id !in tracker ==> w.count == 1
    ensures id in tracker && now - tracker[id].lastMessage < SpamWindowMillis ==> w.count == tracker[id].count + 1
    ensures id in tracker && now - tracker[id].lastMessage >= SpamWindowMillis ==> w.count == 1
  {
    var t := if id in tracker then tracker[id] else SpamWindow(0, 0);
    if now - t.lastMessage < SpamWindowMillis then SpamWindow(t.count + 1, now) else SpamWindow(1, now)
  }

  /** A message at `now` starts a new burst of `id`. */
  predicate StartsBurst(tracker: SpamTracker, id: UserId, now: int)
  {
    id !in tracker || now - tracker[id].lastMessage >= SpamWindowMillis
  }

  /** The tracker after messages of `id` at the given times, in order. */
  function TrackAll(tracker: SpamTracker, id: UserId, times: seq<int>): (r: SpamTracker)
    ensures times != [] ==> id in r
    decreases |times|
  {
    if times == [] then tracker
    else TrackAll(tracker[id := NextWindow(tracker, id, times[0])], id, times[1..])
  }

  /** Each message adds at most one to the count. */
  lemma {:induction false} CountGrowsByAtMostOne(tracker: SpamTracker, id: UserId, times: seq<int>)
    requires id in tracker
    ensures TrackAll(tracker, id, times)[id].count <= tracker[id].count + |times|
  {
    if times != [] {
      CountGrowsByAtMostOne(tracker[id := NextWindow(tracker, id, times[0])], id, times[1..]);
    }
  }

  /** The k-th message of a burst has count at most k, so the first three messages of any burst
      are never spam. */
  lemma BurstCountBound(tracker: SpamTracker, id: UserId, times: seq<int>)
    requires times != [] && StartsBurst(tracker, id, times[0])
    ensures TrackAll(tracker, id, times)[id].count <= |times|
    ensures |times| <= SpamBurstLimit ==> TrackAll(tracker, id, times)[id].count <= SpamBurstLimit
  {
    CountGrowsByAtMostOne(tracker[id := NextWindow(tracker, id, times[0])], id, times[1..]);
  }

  /** Messages less than a second apart keep counting: the k-th message of such a burst has
      count exactly k, so the fourth is spam. */
  lemma {:induction false} RapidBurstCount(tracker: SpamTracker, id: UserId, times: seq<int>, base: nat)
    requires id in tracker && tracker[id].count == base
    requires times != [] ==> times[0] - tracker[id].lastMessage < SpamWindowMillis
    requires forall i :: 0 <= i < |times| - 1 ==> times[i + 1] - times[i] < SpamWindowMillis
    ensures TrackAll(tracker, id, times)[id].count == base + |times|
  {
    if times != [] {
      var t1 := tracker[id := NextWindow(tracker, id, times[0])];
      RapidBurstCount(t1, id, times[1..], base + 1);
    }
  }

  /** Four messages less than a second apart after a pause: the fourth is spam. */
  lemma FourthRapidMessageIsSpam(tracker: SpamTracker, id: UserId, times: seq<int>)
    requires |times| == 4 && StartsBurst(tracker, id, times[0])
    requires forall i :: 0 <= i < 3 ==> times[i + 1] - times[i] < SpamWindowMillis
    ensures TrackAll(tracker, id, times[..3])[id].count <= SpamBurstLimit
    ensures TrackAll(tracker, id, times)[id].count > SpamBurstLimit
  {
    BurstCountBound(tracker, id, times[..3]);
    var t1 := tracker[id := NextWindow(tracker, id, times[0])];
    RapidBurstCount(t1, id, times[1..], 1);
  }

  // ---------------------------------------------------------------------------------------------
  // Quality messages

  /** A message is of quality when its trimmed content is longer than 100 UTF-16 code units,
      it has an attachment or an embed, its trimmed content contains "http", or splitting the
      trimmed content on single spaces gives more than 20 parts, that is, when the trimmed
      content holds "http" somewhere or at least 20 spaces. */
  function IsQualityMessage(m: ChatMessage): (quality: bool)
    ensures quality <==>
      || Utf16Length(Trim(m.content)) > 100
      || m.attachmentCount > 0
      || m.embedCount > 0
      || (exists i :: OccursAt(Trim(m.content), "http", i))
      || Occurrences(Trim(m.content), ' ') >= 20
  {
    var content := Trim(m.content);
    || Utf16Length(content) > 100
    || m.attachmentCount > 0
    || m.embedCount > 0
    || Contains(content, "http")
    || |Split(content, ' ')| > 20
  }

  /** The word rule counts spaces: more than 20 parts means at least 20 spaces in the trimmed
      content. */
  lemma WordRuleCountsSpaces(m: ChatMessage)
    ensures |Split(Trim(m.content), ' ')| > 20 <==> Occurrences(Trim(m.content), ' ') >= 20
  {
  }

  /** Whitespace around the content never changes the classification. */
  lemma QualityIgnoresPadding(m: ChatMessage, pre: string, post: string)
    requires forall i :: 0 <= i < |pre| ==> IsTrimmable(pre[i])
    requires forall i :: 0 <= i < |post| ==> IsTrimmable(post[i])
    ensures IsQualityMessage(m.(content := pre + m.content + post)) == IsQualityMessage(m)
  {
    TrimIgnoresPadding(pre, m.content, post);
  }

  /** A message of 101 characters of the Basic Multilingual Plane, not starting or ending with
      whitespace, is of quality whatever else it holds. */
  lemma LongMessageIsQuality(m: ChatMessage)
    requires |m.content| == 101
    requires forall i :: 0 <= i < 101 ==> m.content[i] as int <= 0xFFFF
    requires !IsTrimmable(m.content[0]) && !IsTrimmable(m.content[100])
    ensures IsQualityMessage(m)
  {
    TrimUntrimmed(m.content);
  }

  /** Quality messages earn base * multiplier points, other messages the base. */
  function MessagePoints(quality: bool): (points: int)
    ensures quality ==> points == BaseMessagePoints * QualityMessageMultiplier
    ensures !quality ==> points == BaseMessagePoints
  {
    if quality then BaseMessagePoints * QualityMessageMultiplier else BaseMessagePoints
  }

  // ---------------------------------------------------------------------------------------------
  // Event handlers as transitions of the store

  /** `u` with one more message counted. */
  function CountMessage(u: User): User
  {
    u.(messagesCount := u.messagesCount + 1)
  }

  /** processMessage: bot messages are ignored; the author is upserted (a failed upsert ends the
      handler with nothing else written); then the message is scored. */
  function MessageEffect(s: Store, tracker: SpamTracker, m: ChatMessage, now: int): (r: (Store, SpamTracker))
    ensures m.authorIsBot ==> r == (s, tracker)
    ensures r.0.badges == s.badges && r.0.userBadges == s.userBadges
    ensures |s.history| <= |r.0.history| <= |s.history| + 1 && r.0.history[..|s.history|] == s.history
  {
    if m.authorIsBot then (s, tracker)
    else match EnsureUser(s, m.author, now)
      case None => (s, tracker)
      case Some(s1) => ScoreMessage(s1, tracker, m, now)
  }

  /** The part of processMessage after the upsert: the spam window is advanced; a spam message
      costs the spam penalty and is not counted; any other message earns its points and is
      counted. */
  function ScoreMessage(s: Store, tracker: SpamTracker, m: ChatMessage, now: int): (r: (Store, SpamTracker))
    requires m.author.id in s.users
  {
    var id := m.author.id;
    var w := NextWindow(tracker, id, now);
    if w.count > SpamBurstLimit then
      (AwardPointsEffect(s, id, SpamPenaltyPoints, "Spam detection", SpamPenalty, None, now).value,
       tracker[id := w])
    else
      var quality := IsQualityMessage(m);
      var s2 := AwardPointsEffect(s, id, MessagePoints(quality),
                                  if quality then "Quality message" else "Regular message",
                                  if quality then QualityMessage else Message, None, now).value;
      (s2.(users := s2.users[id := CountMessage(s2.users[id])]), tracker[id := w])
  }

  /** Scoring a message of a stored author: the author's spam window advances and no other entry
      of the tracker changes; exactly one ledger row, the author's, is appended, and the author's
      points and experience move as an award of that row's points; a spam message is recorded as
      the spam penalty and leaves messagesCount alone, any other message earns its quality or
      regular points and adds exactly one to messagesCount. */
  lemma ScoreMessageOutcome(s: Store, tracker: SpamTracker, m: ChatMessage, now: int)
    requires m.author.id in s.users
    ensures var (s', tracker') := ScoreMessage(s, tracker, m, now);
      var id := m.author.id;
      var w := NextWindow(tracker, id, now);
      var spam := w.count > SpamBurstLimit;
      var quality := IsQualityMessage(m);
      && tracker' == tracker[id := w]
      && |s'.history| == |s.history| + 1 && s'.history[..|s.history|] == s.history
      && id in s'.users
      && (forall v :: v in s.users && v != id ==> v in s'.users && s'.users[v] == s.users[v])
      && s'.history[|s.history|].userId == id
      && s'.users[id].totalPoints == Awarded(s.users[id], s'.history[|s.history|].points, now).totalPoints
      && s'.users[id].experience == Awarded(s.users[id], s'.history[|s.history|].points, now).experience
      && (spam ==>
            && s'.history[|s.history|].points == SpamPenaltyPoints
            && s'.history[|s.history|].category == SpamPenalty
            && s'.users[id].messagesCount == s.users[id].messagesCount)
      && (!spam ==>
            && s'.history[|s.history|].points == MessagePoints(quality)
            && s'.history[|s.history|].category == (if quality then QualityMessage else Message)
            && s'.users[id].messagesCount == s.users[id].messagesCount + 1)
  {
    var id := m.author.id;
    if NextWindow(tracker, id, now).count <= SpamBurstLimit {
      var quality := IsQualityMessage(m);
      var s2 := AwardPointsEffect(s, id, MessagePoints(quality),
                                  if quality then "Quality message" else "Regular message",
                                  if quality then QualityMessage else Message, None, now).value;
      assert ScoreMessage(s, tracker, m, now).0.users == s2.users[id := CountMessage(s2.users[id])];
    }
  }

  /** What a message from a non-bot author does once the author is upserted (always, for a
      stored author; for a new one, when a username comes with the message): the scoring above,
      applied to the upserted store. A new author's points, experience and messagesCount start
      from zero, so a first spam message leaves the author at 0 points and a first regular
      message pays exactly its points. */
  lemma MessageOutcome(s: Store, tracker: SpamTracker, m: ChatMessage, now: int)
    requires !m.authorIsBot && EnsureUser(s, m.author, now).Some?
    ensures var s1 := EnsureUser(s, m.author, now).value;
      var id := m.author.id;
      && id in s1.users
      && MessageEffect(s, tracker, m, now) == ScoreMessage(s1, tracker, m, now)
      && s1.history == s.history
      && (id in s.users ==>
            && s1.users[id].totalPoints == s.users[id].totalPoints
            && s1.users[id].experience == s.users[id].experience
            && s1.users[id].messagesCount == s.users[id].messagesCount)
      && (id !in s.users ==>
            s1.users[id].totalPoints == s1.users[id].experience == s1.users[id].messagesCount == 0)
  {
  }

  /** The store after a message keeps its invariant. */
  lemma MessageKeepsValid(s: Store, tracker: SpamTracker, m: ChatMessage, now: int)
    requires StoreValid(s)
    ensures StoreValid(MessageEffect(s, tracker, m, now).0)
  {
    if !m.authorIsBot && EnsureUser(s, m.author, now).Some? {
      var s1 := EnsureUser(s, m.author, now).value;
      EnsureUserKeepsValid(s, m.author, now);
      var id := m.author.id;
      var w := NextWindow(tracker, id, now);
      if w.count > SpamBurstLimit {
        AwardPointsKeepsValid(s1, id, SpamPenaltyPoints, "Spam detection", SpamPenalty, None, now);
      } else {
        var quality := IsQualityMessage(m);
        var reason := if quality then "Quality message" else "Regular message";
        var category := if quality then QualityMessage else Message;
        AwardPointsKeepsValid(s1, id, MessagePoints(quality), reason, category, None, now);
        var s2 := AwardPointsEffect(s1, id, MessagePoints(quality), reason, category, None, now).value;
        RecordUpdateKeepsValid(s2, CountMessage(s2.users[id]));
      }
    }
  }

  /** The profile a reaction handler upserts: only the id is known. */
  function IdOnly(id: UserId): Profile
  {
    Profile(id, None, None, None)
  }

  /** `u` with one more reaction given. */
  function CountGiven(u: User): User
  {
    u.(reactionsGiven := u.reactionsGiven + 1)
  }

  /** `u` with one more reaction received. */
  function CountReceived(u: User): User
  {
    u.(reactionsReceived := u.reactionsReceived + 1)
  }

  /** processReaction: a self-reaction does nothing. Otherwise the reactor and then the author
      are upserted by id (a failed upsert ends the handler, keeping what was written before); if
      the author had already received at least the threshold of reactions before this one, the
      author earns the flat reaction bonus; then the reactor's reactionsGiven and the author's
      reactionsReceived each rise by one. */
  function ReactionEffect(s: Store, authorId: UserId, reactorId: UserId, now: int): (r: Store)
    ensures r.badges == s.badges && r.userBadges == s.userBadges
    ensures |s.history| <= |r.history| <= |s.history| + 1 && r.history[..|s.history|] == s.history
  {
    if authorId == reactorId then s
    else match EnsureUser(s, IdOnly(reactorId), now)
      case None => s
      case Some(s1) =>
        match EnsureUser(s1, IdOnly(authorId), now)
        case None => s1
        case Some(s2) =>
          var count := s2.users[authorId].reactionsReceived;
          var s3 :=
            if count >= ReactionBonusThreshold then
              AwardPointsEffect(s2, authorId, ReactionBonusPoints,
                                "Reaction bonus (" + NatToString(count) + " reactions)",
                                ReactionBonus, None, now).value
            else s2;
          var s4 := s3.(users := s3.users[reactorId := CountGiven(s3.users[reactorId])]);
          s4.(users := s4.users[authorId := CountReceived(s4.users[authorId])])
  }

  /** A self-reaction changes nothing. */
  lemma SelfReactionIsIgnored(s: Store, id: UserId, now: int)
    ensures ReactionEffect(s, id, id, now) == s
  {
  }

  /** A reaction between two stored users: each counter rises by exactly one, and the author gets
      the bonus (one ledger row of ReactionBonusPoints) exactly when the count of reactions
      received before this one is at least the threshold. */
  lemma ReactionOutcome(s: Store, authorId: UserId, reactorId: UserId, now: int)
    requires authorId != reactorId && authorId in s.users && reactorId in s.users
    ensures var r := ReactionEffect(s, authorId, reactorId, now);
      var bonus := s.users[authorId].reactionsReceived >= ReactionBonusThreshold;
      && authorId in r.users && reactorId in r.users
      && r.users[reactorId].reactionsGiven == s.users[reactorId].reactionsGiven + 1
      && r.users[authorId].reactionsReceived == s.users[authorId].reactionsReceived + 1
      && r.users[reactorId].reactionsReceived == s.users[reactorId].reactionsReceived
      && r.users[authorId].reactionsGiven == s.users[authorId].reactionsGiven
      && (forall v :: v in s.users && v != authorId && v != reactorId ==> v in r.users && r.users[v] == s.users[v])
      && (bonus ==>
            && |r.history| == |s.history| + 1
            && r.users[authorId].totalPoints == Awarded(s.users[authorId], ReactionBonusPoints, now).totalPoints
            && r.users[authorId].experience == Awarded(s.users[authorId], ReactionBonusPoints, now).experience
            && r.history[|s.history|].userId == authorId
            && r.history[|s.history|].points == ReactionBonusPoints
            && r.history[|s.history|].category == ReactionBonus)
      && (!bonus ==>
            && r.history == s.history
            && r.users[authorId].totalPoints == s.users[authorId].totalPoints
            && r.users[authorId].experience == s.users[authorId].experience)
  {
  }

  /** The store after a reaction keeps its invariant. */
  lemma ReactionKeepsValid(s: Store, authorId: UserId, reactorId: UserId, now: int)
    requires StoreValid(s)
    ensures StoreValid(ReactionEffect(s, authorId, reactorId, now))
  {
    if authorId != reactorId && EnsureUser(s, IdOnly(reactorId), now).Some? {
      var s1 := EnsureUser(s, IdOnly(reactorId), now).value;
      EnsureUserKeepsValid(s, IdOnly(reactorId), now);
      if EnsureUser(s1, IdOnly(authorId), now).Some? {
        var s2 := EnsureUser(s1, IdOnly(authorId), now).value;
        EnsureUserKeepsValid(s1, IdOnly(authorId), now);
        var count := s2.users[authorId].reactionsReceived;
        var reason := "Reaction bonus (" + NatToString(count) + " reactions)";
        if count >= ReactionBonusThreshold {
          AwardPointsKeepsValid(s2, authorId, ReactionBonusPoints, reason, ReactionBonus, None, now);
        }
        var s3 :=
          if count >= ReactionBonusThreshold then
            AwardPointsEffect(s2, authorId, ReactionBonusPoints, reason, ReactionBonus, None, now).value
          else s2;
        RecordUpdateKeepsValid(s3, CountGiven(s3.users[reactorId]));
        var s4 := s3.(users := s3.users[reactorId := CountGiven(s3.users[reactorId])]);
        RecordUpdateKeepsValid(s4, CountReceived(s4.users[authorId]));
      }
    }
  }

  /** floor(minutes * voiceChannelPointsPerMinute), exactly, for the fractional rate. */
  function VoicePoints(minutes: int): (points: int)
    ensures points * VoicePointsDenominator <= minutes * VoicePointsNumerator
    ensures minutes * VoicePointsNumerator < (points + 1) * VoicePointsDenominator
  {
    (minutes * VoicePointsNumerator) / VoicePointsDenominator
  }

  /** processVoiceActivity: when the voice points are positive, they are awarded and voiceMinutes
      grows by `minutes`; a failed award (unknown user) ends the handler with nothing written.
      When the points are not positive nothing happens. */
  function VoiceActivityEffect(s: Store, id: UserId, minutes: int, now: int): (r: Store)
    ensures r.badges == s.badges && r.userBadges == s.userBadges && r.userOrder == s.userOrder
    ensures |s.history| <= |r.history| <= |s.history| + 1 && r.history[..|s.history|] == s.history
  {
    var points := VoicePoints(minutes);
    if points > 0 then
      match AwardPointsEffect(s, id, points, "Voice activity (" + IntToString(minutes) + " minutes)",
                              VoiceActivity, None, now)
      case None => s
      case Some(s1) => s1.(users := s1.users[id := CountVoice(s1.users[id], minutes)])
    else s
  }

  /** `u` with `minutes` more voice minutes. */
  function CountVoice(u: User, minutes: nat): User
  {
    u.(voiceMinutes := u.voiceMinutes + minutes)
  }

  /** Voice time: with positive points and a stored user one ledger row of those points is
      appended and voiceMinutes grows by `minutes`; otherwise nothing changes at all. */
  lemma VoiceActivityOutcome(s: Store, id: UserId, minutes: int, now: int)
    ensures var r := VoiceActivityEffect(s, id, minutes, now);
      var points := VoicePoints(minutes);
      && (points > 0 && id in s.users ==>
            && id in r.users
            && r.users[id].voiceMinutes == s.users[id].voiceMinutes + minutes
            && r.users[id].totalPoints == s.users[id].totalPoints + points
            && (forall v :: v in s.users && v != id ==> v in r.users && r.users[v] == s.users[v])
            && |r.history| == |s.history| + 1
            && r.history[|s.history|].userId == id
            && r.history[|s.history|].points == points
            && r.history[|s.history|].category == VoiceActivity)
      && (points <= 0 || id !in s.users ==> r == s)
  {
  }

  /** The store after voice time keeps its invariant. */
  lemma VoiceActivityKeepsValid(s: Store, id: UserId, minutes: int, now: int)
    requires StoreValid(s)
    ensures StoreValid(VoiceActivityEffect(s, id, minutes, now))
  {
    var points := VoicePoints(minutes);
    if points > 0 && id in s.users {
      var reason := "Voice activity (" + IntToString(minutes) + " minutes)";
      AwardPointsKeepsValid(s, id, points, reason, VoiceActivity, None, now);
      var s1 := AwardPointsEffect(s, id, points, reason, VoiceActivity, None, now).value;
      RecordUpdateKeepsValid(s1, CountVoice(s1.users[id], minutes));
    }
  }

  function Abs(x: int): (r: nat)
    ensures r == x || r == -x
  {
    if x < 0 then -x else x
  }

  /** penalizeUser: an award of -|penalty|, whatever the sign of `penalty`. */
  function PenaltyEffect(s: Store, userId: UserId, penalty: int, reason: string,
                         category: Category, adminId: Option<UserId>, now: int): (r: Option<Store>)
    ensures r.None? <==> userId !in s.users
    ensures r.Some? ==>
      && userId in r.value.users && |r.value.history| == |s.history| + 1
      && r.value.users[userId].totalPoints <= s.users[userId].totalPoints
      && r.value.users[userId].experience == s.users[userId].experience
      && r.value.history[|s.history|].points <= 0
  {
    AwardPointsEffect(s, userId, -(Abs(penalty) as int), reason, category, adminId, now)
  }

  /** A penalty can lower a user's points but never raise them, and leaves experience and level
      alone; the ledger row it appends is never positive. */
  lemma PenaltyNeverRaises(s: Store, userId: UserId, penalty: int, reason: string,
                           category: Category, adminId: Option<UserId>, now: int)
    requires userId in s.users
    requires s.users[userId].level == CalculateLevel(s.users[userId].experience)
    ensures var r := PenaltyEffect(s, userId, penalty, reason, category, adminId, now).value;
      && r.users[userId].totalPoints <= s.users[userId].totalPoints
      && r.users[userId].experience == s.users[userId].experience
      && r.users[userId].level == s.users[userId].level
      && r.history[|s.history|].points <= 0
      && r.history[|s.history|].points == -(Abs(penalty) as int)
  {
  }

  // ---------------------------------------------------------------------------------------------
  // The service object

  class ScoringService {
    /** Per-user spam windows, kept in memory and never evicted. */
    var spamTracker: SpamTracker

    constructor ()
      ensures spamTracker == map[]
    {
      spamTracker := map[];
    }

    /** awardPoints: one atomic transaction; false (the "User not found" error) with nothing
        written when the user is not stored. */
    method AwardPoints(db: Database, userId: UserId, points: int, reason: string,
                       category: Category, adminId: Option<UserId>, now: int) returns (ok: bool)
      requires db.Valid()
      modifies db
      ensures db.Valid()
      ensures ok <==> userId in old(db.users)
      ensures ok ==> db.Snapshot() == AwardPointsEffect(old(db.Snapshot()), userId, points, reason, category, adminId, now).value
      ensures !ok ==> db.Snapshot() == old(db.Snapshot())
    {
      if userId !in db.users {
        return false;
      }
      ghost var after := AwardPointsEffect(db.Snapshot(), userId, points, reason, category, adminId, now).value;
      AwardPointsKeepsValid(db.Snapshot(), userId, points, reason, category, adminId, now);
      db.users := db.users[userId := Awarded(db.users[userId], points, now)];
      db.history := db.history + [PointEntry(userId, points, reason, category, adminId, now)];
      assert db.Snapshot() == after;
      ok := true;
    }

    /** isSpam: advance the author's window and report whether the burst is past the limit. */
    method IsSpam(id: UserId, now: int) returns (spam: bool)
      modifies this
      ensures spamTracker == old(spamTracker)[id := NextWindow(old(spamTracker), id, now)]
      ensures spam <==> NextWindow(old(spamTracker), id, now).count > SpamBurstLimit
    {
      var tracker := if id in spamTracker then spamTracker[id] else SpamWindow(0, 0);
      if now - tracker.lastMessage < SpamWindowMillis {
        tracker := tracker.(count := tracker.count + 1);
      } else {
        tracker := tracker.(count := 1);
      }
      tracker := tracker.(lastMessage := now);
      spamTracker := spamTracker[id := tracker];
      spam := tracker.count > SpamBurstLimit;
    }

    /** processMessage. */
    method ProcessMessage(db: Database, m: ChatMessage, now: int)
      requires db.Valid()
      modifies this, db
      ensures db.Valid()
      ensures (db.Snapshot(), spamTracker) == MessageEffect(old(db.Snapshot()), old(spamTracker), m, now)
    {
      if m.authorIsBot {
        return;
      }
      var ensured := EnsureUserExists(db, m.author, now);
      if !ensured {
        return;
      }
      var id := m.author.id;
      var spam := IsSpam(id, now);
      if spam {
        var _ := AwardPoints(db, id, SpamPenaltyPoints, "Spam detection", SpamPenalty, None, now);
        return;
      }
      var quality := IsQualityMessage(m);
      var points := if quality then BaseMessagePoints * QualityMessageMultiplier else BaseMessagePoints;
      var _ := AwardPoints(db, id, points, if quality then "Quality message" else "Regular message",
                           if quality then QualityMessage else Message, None, now);
      db.UpdateRecord(CountMessage(db.users[id]));
    }

    /** processReaction. */
    method ProcessReaction(db: Database, authorId: UserId, reactorId: UserId, now: int)
      requires db.Valid()
      modifies db
      ensures db.Valid()
      ensures db.Snapshot() == ReactionEffect(old(db.Snapshot()), authorId, reactorId, now)
    {
      if authorId == reactorId {
        return;
      }
      var ok := EnsureUserExists(db, IdOnly(reactorId), now);
      if !ok {
        return;
      }
      ok := EnsureUserExists(db, IdOnly(authorId), now);
      if !ok {
        return;
      }
      var reactionCount := db.users[authorId].reactionsReceived;
      if reactionCount >= ReactionBonusThreshold {
        var _ := AwardPoints(db, authorId, ReactionBonusPoints,
                             "Reaction bonus (" + NatToString(reactionCount) + " reactions)",
                             ReactionBonus, None, now);
      }
      db.UpdateRecord(CountGiven(db.users[reactorId]));
      db.UpdateRecord(CountReceived(db.users[authorId]));
    }

    /** processVoiceActivity. */
    method ProcessVoiceActivity(db: Database, id: UserId, minutes: int, now: int)
      requires db.Valid()
      modifies db
      ensures db.Valid()
      ensures db.Snapshot() == VoiceActivityEffect(old(db.Snapshot()), id, minutes, now)
    {
      var points := VoicePoints(minutes);
      if points > 0 {
        var ok := AwardPoints(db, id, points, "Voice activity (" + IntToString(minutes) + " minutes)",
                              VoiceActivity, None, now);
        if !ok {
          return;
        }
        db.UpdateRecord(CountVoice(db.users[id], minutes));
      }
    }

    /** penalizeUser: its error, an unknown user, is passed on to the caller. */
    method PenalizeUser(db: Database, userId: UserId, penalty: int, reason: string,
                        category: Category, adminId: Option<UserId>, now: int) returns (ok: bool)
      requires db.Valid()
      modifies db
      ensures db.Valid()
      ensures ok <==> userId in old(db.users)
      ensures ok ==> db.Snapshot() == PenaltyEffect(old(db.Snapshot()), userId, penalty, reason, category, adminId, now).value
      ensures !ok ==> db.Snapshot() == old(db.Snapshot())
    {
      ok := AwardPoints(db, userId, -(Abs(penalty) as int), reason, category, adminId, now);
    }
  }
}
