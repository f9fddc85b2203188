/** UserService: the lazy user upsert, the stats query and the all-time rank. The level curve it
    also holds is in module Leveling. */
module Users {
  import opened Leveling
  import opened Store

  /** The fields of a chat-platform user that the upsert reads. A field the caller does not
      supply is None: an event that only knows the id passes just the id. */
  datatype Profile = Profile(
    id: UserId,
    username: Option<string>,
    discriminator: Option<string>,
    displayName: Option<string>)

  /** The eight counters returned by the stats query. */
  datatype UserStats = UserStats(
    totalPoints: nat,
    level: nat,
    experience: nat,
    messagesCount: nat,
    voiceMinutes: nat,
    reactionsGiven: nat,
    reactionsReceived: nat,
    reportsReceived: nat)

  /** `discriminator || '0'`: a missing or empty discriminator becomes "0". */
  function DiscriminatorOrDefault(d: Option<string>): (r: string)
    ensures r != ""
    ensures d.Some? && d.value != "" ==> r == d.value
    ensures d.None? || d.value == "" ==> r == "0"
  {
    if d.Some? && d.value != "" then d.value else "0"
  }

  /** The update branch of the upsert: profile fields the caller supplies are overwritten, a
      field it leaves out keeps its stored value (the store skips undefined fields), the
      discriminator always gets its defaulted value and lastActive becomes `now`. */
  function Refreshed(u: User, p: Profile, now: int): (r: User)
    ensures r.discriminator == DiscriminatorOrDefault(p.discriminator) && r.lastActive == now
    ensures r.username == (if p.username.Some? then p.username.value else u.username)
    ensures r.displayName == (if p.displayName.Some? then p.displayName else u.displayName)
    ensures r == u.(username := r.username, discriminator := r.discriminator,
                    displayName := r.displayName, lastActive := now)
  {
    u.(username := if p.username.Some? then p.username.value else u.username,
       discriminator := DiscriminatorOrDefault(p.discriminator),
       displayName := if p.displayName.Some? then p.displayName else u.displayName,
       lastActive := now)
  }

  /** The create branch of the upsert: a new user with zero points, zero counters and level 1,
      who joined and was last active at `now`. */
  function NewUser(p: Profile, now: int): (u: User)
    requires p.username.Some?
    ensures u.id == p.id && u.joinedAt == now && u.lastActive == now
    ensures u.totalPoints == 0 && u.experience == 0 && u.level == CalculateLevel(0) == 1
    ensures u.messagesCount == u.voiceMinutes == u.reactionsGiven == u.reactionsReceived == u.reportsReceived == 0
  {
    LevelOfZero();
    User(p.id, p.username.value, DiscriminatorOrDefault(p.discriminator), p.displayName,
         0, 0, 1, 0, 0, 0, 0, 0, now, now)
  }

  /** ensureUserExists as a transition of the store: None when the store rejects the write,
      which happens only when the user is new and no username is supplied (username is a
      required column). A stored user keeps its points, level and counters; a new user is
      appended to the users table. Nothing else changes. */
  function EnsureUser(s: Store, p: Profile, now: int): (r: Option<Store>)
    ensures r.None? <==> p.id !in s.users && p.username.None?
    ensures r.Some? ==> p.id in r.value.users
    ensures r.Some? && p.id in s.users ==>
      && r.value == s.(users := r.value.users)
      && r.value.users == s.users[p.id := r.value.users[p.id]]
      && var (old_, new_) := (s.users[p.id], r.value.users[p.id]);
         new_ == old_.(username := new_.username, discriminator := new_.discriminator,
                       displayName := new_.displayName, lastActive := now)
    ensures r.Some? && p.id !in s.users ==>
      && r.value == s.(users := r.value.users, userOrder := s.userOrder + [p.id])
      && r.value.users == s.users[p.id := NewUser(p, now)]
  {
    if p.id in s.users then
      Some(s.(users := s.users[p.id := Refreshed(s.users[p.id], p, now)]))
    else if p.username.None? then
      None
    else
      Some(s.(users := s.users[p.id := NewUser(p, now)], userOrder := s.userOrder + [p.id]))
  }

  /** The upsert keeps the store valid: a new user's totals replay to zero because no ledger row
      can name a user that is not stored. */
  lemma EnsureUserKeepsValid(s: Store, p: Profile, now: int)
    requires StoreValid(s)
    requires EnsureUser(s, p, now).Some?
    ensures StoreValid(EnsureUser(s, p, now).value)
  {
    var r := EnsureUser(s, p, now).value;
    if p.id in s.users {
      RecordUpdateKeepsValid(s, Refreshed(s.users[p.id], p, now));
    } else {
      assert UsersValid(r) by {
        forall i, j | 0 <= i < j < |r.userOrder| ensures r.userOrder[i] != r.userOrder[j] {
          if j == |s.userOrder| {
            assert r.userOrder[i] == s.userOrder[i] && s.userOrder[i] in s.users;
          }
        }
        assert forall id :: id in r.users <==> id in r.userOrder;
      }
      assert LedgerValid(r) by {
        LedgerOfAbsent(s.history, p.id);
      }
    }
  }

  /** ensureUserExists: upsert the user by id. Returns false, with nothing written, when the
      store rejects the create. */
  method EnsureUserExists(db: Database, p: Profile, now: int) returns (ok: bool)
    requires db.Valid()
    modifies db
    ensures db.Valid()
    ensures ok == EnsureUser(old(db.Snapshot()), p, now).Some?
    ensures ok ==> db.Snapshot() == EnsureUser(old(db.Snapshot()), p, now).value
    ensures !ok ==> db.Snapshot() == old(db.Snapshot())
  {
    if p.id in db.users {
      db.users := db.users[p.id := Refreshed(db.users[p.id], p, now)];
    } else if p.username.None? {
      return false;
    } else {
      db.users := db.users[p.id := NewUser(p, now)];
      db.userOrder := db.userOrder + [p.id];
    }
    EnsureUserKeepsValid(old(db.Snapshot()), p, now);
    ok := true;
  }

  /** getUserStats: null for an unknown id, else the eight stored counters unchanged. */
  function GetUserStats(users: map<UserId, User>, id: UserId): (r: Option<UserStats>)
    ensures r.None? <==> id !in users
    ensures r.Some? ==>
      var u := users[id];
      r.value == UserStats(u.totalPoints, u.level, u.experience, u.messagesCount,
                           u.voiceMinutes, u.reactionsGiven, u.reactionsReceived, u.reportsReceived)
  {
    if id !in users then None
    else
      var u := users[id];
      Some(UserStats(u.totalPoints, u.level, u.experience, u.messagesCount,
                     u.voiceMinutes, u.reactionsGiven, u.reactionsReceived, u.reportsReceived))
  }

  /** The stats of a valid store are the ledger's: the points and the experience are the replay
      of the user's rows, and the level is the one the experience reaches. */
  lemma StatsAgreeWithLedger(s: Store, id: UserId)
    requires StoreValid(s) && id in s.users
    ensures var stats := GetUserStats(s.users, id).value;
      && stats.totalPoints == LedgerTotal(s.history, id)
      && stats.experience == LedgerExperience(s.history, id)
      && stats.level == CalculateLevel(stats.experience)
      && stats.totalPoints <= stats.experience
  {
    LedgerTotalBelowExperience(s.history, id);
  }

  /** The stored users with strictly more points than `points`. */
  function Above(users: map<UserId, User>, points: int): set<UserId>
  {
    set v | v in users && users[v].totalPoints > points
  }

  /** The all-time rank (getUserRank, and RankingService's total rank, which runs the same
      query): 1 + the number of users with strictly more points. For an unknown id the query's
      subselect is empty, no row compares greater, and the rank is 1. */
  function GetUserRank(users: map<UserId, User>, id: UserId): (rank: nat)
    ensures rank >= 1
    ensures id in users ==> rank <= |users|
    ensures id !in users ==> rank == 1
  {
    if id !in users then 1
    else
      var above := Above(users, users[id].totalPoints);
      assert above <= users.Keys - {id};
      SubsetSize(above, users.Keys - {id});
      1 + |above|
  }

  lemma SubsetSize<T>(a: set<T>, b: set<T>)
    requires a <= b
    ensures |a| <= |b|
  {
    assert b == a + (b - a);
  }

  lemma StrictSubsetSize<T>(a: set<T>, b: set<T>)
    requires a < b
    ensures |a| < |b|
  {
    assert b == a + (b - a);
    assert b - a != {};
  }

  /** Rank 1 belongs exactly to the users whom nobody outscores. */
  lemma TopRank(users: map<UserId, User>, id: UserId)
    requires id in users
    ensures GetUserRank(users, id) == 1 <==> forall v :: v in users ==> users[v].totalPoints <= users[id].totalPoints
  {
    var above := Above(users, users[id].totalPoints);
    if above != {} {
      var v :| v in above;
      assert users[v].totalPoints > users[id].totalPoints;
    } else {
      forall v | v in users ensures users[v].totalPoints <= users[id].totalPoints {
        assert v !in above;
      }
    }
  }

  /** Users with the same points share a rank; a user with strictly more points has a strictly
      smaller rank. */
  lemma RankOrder(users: map<UserId, User>, a: UserId, b: UserId)
    requires a in users && b in users
    ensures users[a].totalPoints == users[b].totalPoints ==> GetUserRank(users, a) == GetUserRank(users, b)
    ensures users[a].totalPoints > users[b].totalPoints ==> GetUserRank(users, a) < GetUserRank(users, b)
  {
    var pa, pb := users[a].totalPoints, users[b].totalPoints;
    if pa > pb {
      assert a in Above(users, pb) && a !in Above(users, pa);
      StrictSubsetSize(Above(users, pa), Above(users, pb));
    }
  }
}
