/** The persistent store behind the services: the User, PointHistory, Badge and UserBadge tables,
    held in memory. Each table is a field of `Database`; a transaction of the source is one method
    that reassigns these fields. `Snapshot()` gives the whole store as a value, and `StoreValid`
    is the invariant every operation keeps, among which the ledger invariant: each user's running
    totals are what replaying the point history from the start gives. */
module Store {
  import opened Leveling

  type UserId = string

  /** A badge is identified by its position in the catalog; catalog rows are never removed. */
  type BadgeId = nat

  datatype Option<T> = None | Some(value: T)

  /** The point categories of the ledger. Penalty categories other than spam are named. */
  datatype Category =
    | Message
    | QualityMessage
    | ReactionBonus
    | VoiceActivity
    | SpamPenalty
    | AdminAdjustment
    | Penalty(name: string)

  /** A stored user with its running totals and activity counters (times in milliseconds). */
  datatype User = User(
    id: UserId,
    username: string,
    discriminator: string,
    displayName: Option<string>,
    totalPoints: nat,
    experience: nat,
    level: nat,
    messagesCount: nat,
    voiceMinutes: nat,
    reactionsGiven: nat,
    reactionsReceived: nat,
    reportsReceived: nat,
    joinedAt: int,
    lastActive: int)

  /** One row of the append-only point ledger. */
  datatype PointEntry = PointEntry(
    userId: UserId,
    points: int,
    reason: string,
    category: Category,
    adminId: Option<UserId>,
    createdAt: int)

  datatype Rarity = Common | Uncommon | Rare | Epic | Legendary

  /** The `type` of a badge requirement; `Other` stands for any type the evaluator does not know. */
  datatype RequirementKind = Points | Messages | Voice | Reactions | Level | Custom | Other(tag: string)

  /** A badge requirement as stored (already parsed): a type, an optional threshold and an
      optional named condition. */
  datatype Requirement = Requirement(kind: RequirementKind, threshold: Option<int>, condition: Option<string>)

  datatype Badge = Badge(
    name: string,
    description: string,
    icon: string,
    rarity: Rarity,
    requirement: Requirement,
    isActive: bool)

  /** The whole store as a value. `userOrder` is the users table in storage order. */
  datatype Store = Store(
    users: map<UserId, User>,
    userOrder: seq<UserId>,
    history: seq<PointEntry>,
    badges: seq<Badge>,
    userBadges: map<(UserId, BadgeId), int>)

  function Clamp(x: int): (r: nat)
    ensures r >= x
    ensures r == x || r == 0
  {
    if x < 0 then 0 else x
  }

  /** The part of a delta that counts as experience: positive deltas only. */
  function Gain(points: int): (r: nat)
    ensures points > 0 ==> r == points
    ensures points <= 0 ==> r == 0
  {
    if points > 0 then points else 0
  }

  /** The total points of `id` obtained by replaying `history` in order, starting at 0 and
      clamping at 0 after every entry. */
  function LedgerTotal(history: seq<PointEntry>, id: UserId): nat
  {
    if history == [] then 0
    else
      var prev := LedgerTotal(history[..|history| - 1], id);
      var e := history[|history| - 1];
      if e.userId == id then Clamp(prev + e.points) else prev
  }

  /** The experience of `id` obtained by replaying `history`: the sum of its positive deltas. */
  function LedgerExperience(history: seq<PointEntry>, id: UserId): nat
  {
    if history == [] then 0
    else
      var prev := LedgerExperience(history[..|history| - 1], id);
      var e := history[|history| - 1];
      if e.userId == id then prev + Gain(e.points) else prev
  }

  ghost predicate UsersValid(s: Store)
  {
    && (forall i, j :: 0 <= i < j < |s.userOrder| ==> s.userOrder[i] != s.userOrder[j])
    && (forall id :: id in s.users <==> id in s.userOrder)
    && (forall id :: id in s.users ==> s.users[id].id == id)
  }

  /** Every ledger row belongs to a stored user, and every user's totals and level agree with the
      ledger. */
  ghost predicate LedgerValid(s: Store)
  {
    && (forall k :: 0 <= k < |s.history| ==> s.history[k].userId in s.users)
    && (forall id :: id in s.users ==>
          && s.users[id].totalPoints == LedgerTotal(s.history, id)
          && s.users[id].experience == LedgerExperience(s.history, id)
          && s.users[id].level == CalculateLevel(s.users[id].experience))
  }

  /** Badge names are unique, and every user-badge row refers to a stored user and badge. */
  ghost predicate BadgesValid(s: Store)
  {
    && (forall i, j :: 0 <= i < j < |s.badges| ==> s.badges[i].name != s.badges[j].name)
    && (forall p :: p in s.userBadges ==> p.0 in s.users && p.1 < |s.badges|)
  }

  ghost predicate StoreValid(s: Store)
  {
    UsersValid(s) && LedgerValid(s) && BadgesValid(s)
  }

  /** The users table in storage order. */
  function Rows(s: Store): (rows: seq<User>)
    requires forall id :: id in s.userOrder ==> id in s.users
    ensures |rows| == |s.userOrder|
    ensures forall i :: 0 <= i < |rows| ==> rows[i] == s.users[s.userOrder[i]]
  {
    seq(|s.userOrder|, i requires 0 <= i < |s.userOrder| => s.users[s.userOrder[i]])
  }

  /** A ledger with no row for `id` replays to zero points and zero experience. */
  lemma {:induction false} LedgerOfAbsent(history: seq<PointEntry>, id: UserId)
    requires forall k :: 0 <= k < |history| ==> history[k].userId != id
    ensures LedgerTotal(history, id) == 0
    ensures LedgerExperience(history, id) == 0
  {
    if history != [] {
      LedgerOfAbsent(history[..|history| - 1], id);
    }
  }

  /** Appending one row replays that row on top of the previous totals. */
  lemma LedgerAppend(history: seq<PointEntry>, e: PointEntry, id: UserId)
    ensures LedgerTotal(history + [e], id)
      == if e.userId == id then Clamp(LedgerTotal(history, id) + e.points) else LedgerTotal(history, id)
    ensures LedgerExperience(history + [e], id)
      == if e.userId == id then LedgerExperience(history, id) + Gain(e.points) else LedgerExperience(history, id)
  {
    assert (history + [e])[..|history|] == history;
  }

  /** Replayed points never exceed replayed experience: clamping only ever raises a total that a
      penalty drove below zero, and every gain is counted in both. */
  lemma {:induction false} LedgerTotalBelowExperience(history: seq<PointEntry>, id: UserId)
    ensures LedgerTotal(history, id) <= LedgerExperience(history, id)
  {
    if history != [] {
      LedgerTotalBelowExperience(history[..|history| - 1], id);
    }
  }

  /** Replacing a user's record by one with the same identity, totals and level keeps the store
      valid: counters and profile fields are not part of the invariant's ledger. */
  lemma RecordUpdateKeepsValid(s: Store, u: User)
    requires StoreValid(s)
    requires u.id in s.users
    requires u.totalPoints == s.users[u.id].totalPoints
    requires u.experience == s.users[u.id].experience
    requires u.level == s.users[u.id].level
    ensures StoreValid(s.(users := s.users[u.id := u]))
  {
  }

  /** The database: one field per table. */
  class Database {
    var users: map<UserId, User>
    var userOrder: seq<UserId>
    var history: seq<PointEntry>
    var badges: seq<Badge>
    var userBadges: map<(UserId, BadgeId), int>

    function Snapshot(): Store
      reads this
    {
      Store(users, userOrder, history, badges, userBadges)
    }

    ghost predicate Valid()
      reads this
    {
      StoreValid(Snapshot())
    }

    /** Overwrite a stored user's record with one that keeps its identity, totals and level: an
        update of counters or profile fields only. */
    method UpdateRecord(u: User)
      requires Valid()
      requires u.id in users
      requires u.totalPoints == users[u.id].totalPoints && u.experience == users[u.id].experience
      requires u.level == users[u.id].level
      modifies this
      ensures Valid()
      ensures Snapshot() == old(Snapshot()).(users := old(users)[u.id := u])
    {
      RecordUpdateKeepsValid(Snapshot(), u);
      users := users[u.id := u];
    }

    /** Create one user-badge row earned at `now`. The create fails, writing nothing, when the
        row exists already (the pair is unique) or names a user or a badge that is not stored. */
    method CreateUserBadge(userId: UserId, badgeId: BadgeId, now: int) returns (ok: bool)
      modifies this
      ensures ok <==> userId in old(users) && badgeId < |old(badges)| && (userId, badgeId) !in old(userBadges)
      ensures ok ==> Snapshot() == old(Snapshot()).(userBadges := old(userBadges)[(userId, badgeId) := now])
      ensures !ok ==> Snapshot() == old(Snapshot())
    {
      if userId !in users || badgeId >= |badges| || (userId, badgeId) in userBadges {
        return false;
      }
      userBadges := userBadges[(userId, badgeId) := now];
      ok := true;
    }

    /** An empty database. */
    constructor ()
      ensures Valid()
      ensures Snapshot() == Store(map[], [], [], [], map[])
    {
      users, userOrder, history, badges, userBadges := map[], [], [], [], map[];
    }
  }
}
