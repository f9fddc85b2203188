/** BadgeService: the default badge catalog and its bootstrap, the requirement interpreter, the
    award loop and the manual award. A badge's requirement is stored already parsed, as a
    `Requirement`; badges are identified by their position in the catalog. */
module Badges {
  import opened Store

  // ---------------------------------------------------------------------------------------------
  // Catalog

  /** The badges the bot seeds on start-up, all active. */
  function DefaultBadges(): (badges: seq<Badge>)
    ensures |badges| == 8
    ensures forall i :: 0 <= i < |badges| ==> badges[i].isActive
  {
    [ Badge("First Steps", "Sent your first message", "\U{1F476}", Common,
            Requirement(Messages, Some(1), None), true),
      Badge("Chatterbox", "Sent 100 messages", "\U{1F4AC}", Common,
            Requirement(Messages, Some(100), None), true),
      Badge("Voice Active", "Spent 60 minutes in voice channels", "\U{1F3A4}", Uncommon,
            Requirement(Voice, Some(60), None), true),
      Badge("Rising Star", "Reached 1000 points", "\U{2B50}", Uncommon,
            Requirement(Points, Some(1000), None), true),
      Badge("Helper", "Received 50 reactions", "\U{1F91D}", Rare,
            Requirement(Reactions, Some(50), None), true),
      Badge("Level 10", "Reached level 10", "\U{1F51F}", Rare,
            Requirement(Level, Some(10), None), true),
      Badge("Citizen of the Month", "Top contributor this month", "\U{1F451}", Legendary,
            Requirement(Custom, None, Some("monthly_top")), true),
      Badge("Veteran", "Active member for 6 months", "\U{1F3C6}", Epic,
            Requirement(Custom, None, Some("veteran")), true) ]
  }

  /** The name of the badge the monthly job awards. */
  const CitizenOfTheMonth: string := "Citizen of the Month"

  /** No two badges of the catalog share a name. */
  predicate NamesDistinct(badges: seq<Badge>)
  {
    forall i, j :: 0 <= i < j < |badges| ==> badges[i].name != badges[j].name
  }

  lemma DefaultNamesDistinct()
    ensures NamesDistinct(DefaultBadges())
  {
  }

  /** getBadgeByName, a lookup by the unique name: the first badge with that name, if any. */
  function FindBadge(badges: seq<Badge>, name: string): (r: Option<BadgeId>)
    ensures r.None? <==> forall i :: 0 <= i < |badges| ==> badges[i].name != name
    ensures r.Some? ==> r.value < |badges| && badges[r.value].name == name
    ensures r.Some? ==> forall i :: 0 <= i < r.value ==> badges[i].name != name
  {
    if badges == [] then None
    else if badges[0].name == name then Some(0)
    else match FindBadge(badges[1..], name)
      case None => None
      case Some(i) => Some(i + 1)
  }

  /** An upsert by name with an empty update: a badge whose name is taken is not written, any
      other is appended. */
  function UpsertByName(catalog: seq<Badge>, b: Badge): (r: seq<Badge>)
    ensures FindBadge(catalog, b.name).Some? ==> r == catalog
    ensures FindBadge(catalog, b.name).None? ==> r == catalog + [b]
  {
    if FindBadge(catalog, b.name).Some? then catalog else catalog + [b]
  }

  /** The catalog after upserting each of `bs` in turn. */
  function UpsertAll(catalog: seq<Badge>, bs: seq<Badge>): seq<Badge>
  {
    if bs == [] then catalog else UpsertByName(UpsertAll(catalog, bs[..|bs| - 1]), bs[|bs| - 1])
  }

  /** The bootstrap only appends: every badge that was in the catalog is still there, at the same
      place and unmodified. */
  lemma {:induction false} UpsertAllKeepsCatalog(catalog: seq<Badge>, bs: seq<Badge>)
    ensures |UpsertAll(catalog, bs)| >= |catalog|
    ensures UpsertAll(catalog, bs)[..|catalog|] == catalog
  {
    if bs != [] {
      UpsertAllKeepsCatalog(catalog, bs[..|bs| - 1]);
    }
  }

  /** The bootstrap adds at most one badge per upserted badge. */
  lemma {:induction false} UpsertAllSize(catalog: seq<Badge>, bs: seq<Badge>)
    ensures |catalog| <= |UpsertAll(catalog, bs)| <= |catalog| + |bs|
  {
    if bs != [] {
      UpsertAllSize(catalog, bs[..|bs| - 1]);
    }
  }

  /** After the bootstrap every upserted name is in the catalog. */
  lemma {:induction false} UpsertAllHasAll(catalog: seq<Badge>, bs: seq<Badge>)
    ensures forall i :: 0 <= i < |bs| ==> FindBadge(UpsertAll(catalog, bs), bs[i].name).Some?
  {
    if bs != [] {
      var front := bs[..|bs| - 1];
      UpsertAllHasAll(catalog, front);
      var c := UpsertAll(catalog, front);
      UpsertAllKeepsCatalog(c, [bs[|bs| - 1]]);
      forall i | 0 <= i < |bs|
        ensures FindBadge(UpsertAll(catalog, bs), bs[i].name).Some?
      {
        if i < |bs| - 1 {
          assert bs[i] == front[i];
          var k := FindBadge(c, bs[i].name).value;
          assert UpsertAll(catalog, bs)[k] == c[k];
        } else if FindBadge(c, bs[i].name).None? {
          assert UpsertAll(catalog, bs)[|c|] == bs[i];
        }
      }
    }
  }

  /** Upserting badges whose names are all taken changes nothing. */
  lemma {:induction false} UpsertAllPresent(catalog: seq<Badge>, bs: seq<Badge>)
    requires forall i :: 0 <= i < |bs| ==> FindBadge(catalog, bs[i].name).Some?
    ensures UpsertAll(catalog, bs) == catalog
  {
    if bs != [] {
      UpsertAllPresent(catalog, bs[..|bs| - 1]);
    }
  }

  /** Bootstrapping twice leaves the catalog as after once. */
  lemma UpsertAllIdempotent(catalog: seq<Badge>, bs: seq<Badge>)
    ensures UpsertAll(UpsertAll(catalog, bs), bs) == UpsertAll(catalog, bs)
  {
    UpsertAllHasAll(catalog, bs);
    UpsertAllPresent(UpsertAll(catalog, bs), bs);
  }

  /** The bootstrap keeps badge names unique. */
  lemma {:induction false} UpsertAllKeepsNamesDistinct(catalog: seq<Badge>, bs: seq<Badge>)
    requires NamesDistinct(catalog)
    ensures NamesDistinct(UpsertAll(catalog, bs))
  {
    if bs != [] {
      UpsertAllKeepsNamesDistinct(catalog, bs[..|bs| - 1]);
    }
  }

  /** On an empty catalog, the bootstrap writes exactly the default badges, in order. */
  lemma BootstrapOfEmptyCatalog()
    ensures UpsertAll([], DefaultBadges()) == DefaultBadges()
  {
    var d := DefaultBadges();
    DefaultNamesDistinct();
    UpsertAllFresh([], d);
  }

  /** Upserting badges with distinct names none of which is taken appends them all. */
  lemma {:induction false} UpsertAllFresh(catalog: seq<Badge>, bs: seq<Badge>)
    requires NamesDistinct(bs)
    requires forall i, j :: 0 <= i < |catalog| && 0 <= j < |bs| ==> catalog[i].name != bs[j].name
    ensures UpsertAll(catalog, bs) == catalog + bs
  {
    if bs != [] {
      var front := bs[..|bs| - 1];
      UpsertAllFresh(catalog, front);
      var last := bs[|bs| - 1];
      forall i | 0 <= i < |catalog + front|
        ensures (catalog + front)[i].name != last.name
      {
        if i >= |catalog| {
          assert (catalog + front)[i] == bs[i - |catalog|];
        }
      }
      assert catalog + front + [last] == catalog + bs;
    }
  }

  // ---------------------------------------------------------------------------------------------
  // Requirements

  /** `threshold || 0`: a missing threshold is 0. */
  function ThresholdOrZero(threshold: Option<int>): (t: int)
    ensures threshold.Some? ==> t == threshold.value
    ensures threshold.None? ==> t == 0
  {
    if threshold.Some? then threshold.value else 0
  }

  /** checkCustomRequirement: "veteran" holds when the user joined strictly before the
      six-months-ago cutoff; every other condition, "monthly_top" included, never holds. */
  function CheckCustomRequirement(u: User, condition: string, sixMonthsAgo: int): (met: bool)
    ensures met <==> condition == "veteran" && u.joinedAt < sixMonthsAgo
  {
    if condition == "veteran" then u.joinedAt < sixMonthsAgo
    else false
  }

  /** The requirement kinds that compare a counter of the user with a threshold. */
  predicate IsThreshold(kind: RequirementKind)
  {
    kind != Custom && !kind.Other?
  }

  /** The counter a threshold requirement compares. */
  function Counter(u: User, kind: RequirementKind): (c: int)
    requires IsThreshold(kind)
  {
    match kind
    case Points => u.totalPoints
    case Messages => u.messagesCount
    case Voice => u.voiceMinutes
    case Reactions => u.reactionsReceived
    case Level => u.level
  }

  /** checkRequirement: a threshold requirement compares its counter with the threshold (so a
      missing threshold, read as 0, is always met), a custom one defers to its condition
      (missing means "", and only "veteran" can hold), an unknown type never holds. */
  function CheckRequirement(u: User, req: Requirement, sixMonthsAgo: int): (met: bool)
    ensures IsThreshold(req.kind) && req.threshold.None? ==> met
    ensures req.kind == Points && req.threshold.Some? ==> (met <==> u.totalPoints >= req.threshold.value)
    ensures req.kind == Messages && req.threshold.Some? ==> (met <==> u.messagesCount >= req.threshold.value)
    ensures req.kind == Voice && req.threshold.Some? ==> (met <==> u.voiceMinutes >= req.threshold.value)
    ensures req.kind == Reactions && req.threshold.Some? ==> (met <==> u.reactionsReceived >= req.threshold.value)
    ensures req.kind == Level && req.threshold.Some? ==> (met <==> u.level >= req.threshold.value)
    ensures req.kind == Custom ==> (met <==> req.condition == Some("veteran") && u.joinedAt < sixMonthsAgo)
    ensures req.kind.Other? ==> !met
  {
    match req.kind
    case Custom =>
      CheckCustomRequirement(u, if req.condition.Some? then req.condition.value else "", sixMonthsAgo)
    case Other(_) => false
    case _ => Counter(u, req.kind) >= ThresholdOrZero(req.threshold)
  }

  /** What each default badge asks of a user: one message, 100 messages, 60 voice minutes, 1000
      points, 50 reactions received, level 10, never (the monthly badge), and joining before the
      six-months-ago cutoff. */
  lemma DefaultRequirements(u: User, sixMonthsAgo: int)
    ensures var d := DefaultBadges();
      && (CheckRequirement(u, d[0].requirement, sixMonthsAgo) <==> u.messagesCount >= 1)
      && (CheckRequirement(u, d[1].requirement, sixMonthsAgo) <==> u.messagesCount >= 100)
      && (CheckRequirement(u, d[2].requirement, sixMonthsAgo) <==> u.voiceMinutes >= 60)
      && (CheckRequirement(u, d[3].requirement, sixMonthsAgo) <==> u.totalPoints >= 1000)
      && (CheckRequirement(u, d[4].requirement, sixMonthsAgo) <==> u.reactionsReceived >= 50)
      && (CheckRequirement(u, d[5].requirement, sixMonthsAgo) <==> u.level >= 10)
      && !CheckRequirement(u, d[6].requirement, sixMonthsAgo)
      && (CheckRequirement(u, d[7].requirement, sixMonthsAgo) <==> u.joinedAt < sixMonthsAgo)
  {
  }

  /** "monthly_top" and unknown types never hold, so the monthly badge is never given by the award
      loop. */
  lemma NeverMetRequirements(u: User, sixMonthsAgo: int, threshold: Option<int>, condition: Option<string>, tag: string)
    ensures !CheckRequirement(u, Requirement(Custom, threshold, Some("monthly_top")), sixMonthsAgo)
    ensures !CheckRequirement(u, Requirement(Other(tag), threshold, condition), sixMonthsAgo)
    ensures !CheckRequirement(u, DefaultBadges()[6].requirement, sixMonthsAgo)
  {
  }

  /** A user who is ahead of another on every counter, and joined no later, meets every
      requirement the other meets. */
  lemma RequirementMonotone(u: User, v: User, req: Requirement, sixMonthsAgo: int)
    requires u.totalPoints <= v.totalPoints && u.messagesCount <= v.messagesCount
    requires u.voiceMinutes <= v.voiceMinutes && u.reactionsReceived <= v.reactionsReceived
    requires u.level <= v.level && v.joinedAt <= u.joinedAt
    requires CheckRequirement(u, req, sixMonthsAgo)
    ensures CheckRequirement(v, req, sixMonthsAgo)
  {
  }

  // ---------------------------------------------------------------------------------------------
  // The award loop

  /** Badge `b` is awarded to `u` by the loop: it is in the catalog, active, not held at the start
      of the call, and its requirement is met. */
  predicate Qualifies(s: Store, u: User, b: BadgeId, sixMonthsAgo: int)
  {
    b < |s.badges| && Earns(u, s.badges[b], (u.id, b) in s.userBadges, sixMonthsAgo)
  }

  /** The loop's test for one badge: active, not held, requirement met. */
  predicate Earns(u: User, badge: Badge, hasBadge: bool, sixMonthsAgo: int)
  {
    badge.isActive && !hasBadge && CheckRequirement(u, badge.requirement, sixMonthsAgo)
  }

  /** The qualifying badges among the first `k` of the catalog, in catalog order. */
  function Eligible(s: Store, u: User, sixMonthsAgo: int, k: nat): (r: seq<BadgeId>)
    requires k <= |s.badges|
    ensures |r| <= k
  {
    if k == 0 then []
    else Eligible(s, u, sixMonthsAgo, k - 1) + (if Qualifies(s, u, k - 1, sixMonthsAgo) then [k - 1] else [])
  }

  /** The badges Eligible lists are exactly the qualifying ones below `k`, each once, in
      increasing order. */
  lemma {:induction false} EligibleFacts(s: Store, u: User, sixMonthsAgo: int, k: nat)
    requires k <= |s.badges|
    ensures forall i :: 0 <= i < |Eligible(s, u, sixMonthsAgo, k)| ==>
      Eligible(s, u, sixMonthsAgo, k)[i] < k && Qualifies(s, u, Eligible(s, u, sixMonthsAgo, k)[i], sixMonthsAgo)
    ensures forall b: BadgeId :: b < k && Qualifies(s, u, b, sixMonthsAgo) ==> b in Eligible(s, u, sixMonthsAgo, k)
    ensures forall i, j :: 0 <= i < j < |Eligible(s, u, sixMonthsAgo, k)| ==>
      Eligible(s, u, sixMonthsAgo, k)[i] < Eligible(s, u, sixMonthsAgo, k)[j]
  {
    if k > 0 {
      EligibleFacts(s, u, sixMonthsAgo, k - 1);
    }
  }

  /** The names of the badges `ids`. */
  function BadgeNames(badges: seq<Badge>, ids: seq<BadgeId>): seq<string>
    requires forall i :: 0 <= i < |ids| ==> ids[i] < |badges|
  {
    if ids == [] then [] else BadgeNames(badges, ids[..|ids| - 1]) + [badges[ids[|ids| - 1]].name]
  }

  /** BadgeNames lists the name of each badge, in the order of `ids`. */
  lemma {:induction false} BadgeNamesFacts(badges: seq<Badge>, ids: seq<BadgeId>)
    requires forall i :: 0 <= i < |ids| ==> ids[i] < |badges|
    ensures |BadgeNames(badges, ids)| == |ids|
    ensures forall i :: 0 <= i < |ids| ==> BadgeNames(badges, ids)[i] == badges[ids[i]].name
  {
    if ids != [] {
      BadgeNamesFacts(badges, ids[..|ids| - 1]);
    }
  }

  /** The user-badge rows after `userId` earns each of `ids` at `now`. */
  function Grant(userBadges: map<(UserId, BadgeId), int>, userId: UserId, ids: seq<BadgeId>, now: int)
    : map<(UserId, BadgeId), int>
  {
    if ids == [] then userBadges
    else Grant(userBadges, userId, ids[..|ids| - 1], now)[(userId, ids[|ids| - 1]) := now]
  }

  /** Grant adds a row earned at `now` for each of `ids` and keeps every other row. */
  lemma {:induction false} GrantFacts(userBadges: map<(UserId, BadgeId), int>, userId: UserId, ids: seq<BadgeId>, now: int)
    ensures forall p :: p in Grant(userBadges, userId, ids, now) <==> p in userBadges || (p.0 == userId && p.1 in ids)
    ensures forall b :: b in ids ==> Grant(userBadges, userId, ids, now)[(userId, b)] == now
    ensures forall p :: p in userBadges && !(p.0 == userId && p.1 in ids) ==>
      Grant(userBadges, userId, ids, now)[p] == userBadges[p]
  {
    if ids != [] {
      GrantFacts(userBadges, userId, ids[..|ids| - 1], now);
    }
  }

  /** checkAndAwardBadges as a transition: an unknown user gets nothing and nothing is written;
      otherwise the user earns, at `now`, every badge that qualifies, and the names of those
      badges are returned in catalog order. */
  function CheckAndAwardEffect(s: Store, userId: UserId, sixMonthsAgo: int, now: int): (r: (Store, seq<string>))
    ensures userId !in s.users ==> r == (s, [])
    ensures r.0 == s.(userBadges := r.0.userBadges)
    ensures |r.1| <= |s.badges|
  {
    if userId !in s.users then (s, [])
    else
      var ids := Eligible(s, s.users[userId], sixMonthsAgo, |s.badges|);
      EligibleFacts(s, s.users[userId], sixMonthsAgo, |s.badges|);
      EligibleAtMostCatalog(ids, |s.badges|);
      BadgeNamesFacts(s.badges, ids);
      (s.(userBadges := Grant(s.userBadges, userId, ids, now)), BadgeNames(s.badges, ids))
  }

  /** A strictly increasing sequence of ids below `n` has at most `n` elements. */
  lemma {:induction false} EligibleAtMostCatalog(ids: seq<BadgeId>, n: nat)
    requires forall i :: 0 <= i < |ids| ==> ids[i] < n
    requires forall i, j :: 0 <= i < j < |ids| ==> ids[i] < ids[j]
    ensures |ids| <= n
  {
    if ids != [] {
      EligibleAtMostCatalog(ids[..|ids| - 1], ids[|ids| - 1]);
    }
  }

  /** What the award loop writes, for a stored user: exactly the qualifying badges are awarded
      (active, not held at the start, requirement met), each gets a new row earned at `now`, and
      the rows held before are untouched. */
  lemma AwardedBadges(s: Store, userId: UserId, sixMonthsAgo: int, now: int)
    requires StoreValid(s) && userId in s.users
    ensures var ids := Eligible(s, s.users[userId], sixMonthsAgo, |s.badges|);
      var after := CheckAndAwardEffect(s, userId, sixMonthsAgo, now).0.userBadges;
      && (forall i :: 0 <= i < |ids| ==>
            && ids[i] < |s.badges| && s.badges[ids[i]].isActive
            && (userId, ids[i]) !in s.userBadges
            && (userId, ids[i]) in after && after[(userId, ids[i])] == now)
      && (forall b: BadgeId :: Qualifies(s, s.users[userId], b, sixMonthsAgo) ==> b in ids)
      && (forall p :: p in s.userBadges ==> p in after && after[p] == s.userBadges[p])
      && (forall p :: p in after && p !in s.userBadges ==> p.0 == userId && p.1 in ids)
  {
    var ids := Eligible(s, s.users[userId], sixMonthsAgo, |s.badges|);
    EligibleFacts(s, s.users[userId], sixMonthsAgo, |s.badges|);
    GrantFacts(s.userBadges, userId, ids, now);
  }

  /** What the award loop returns, for a stored user: the names of the awarded badges, in catalog
      order, no name twice. */
  lemma AwardedNames(s: Store, userId: UserId, sixMonthsAgo: int, now: int)
    requires StoreValid(s) && userId in s.users
    ensures var ids := Eligible(s, s.users[userId], sixMonthsAgo, |s.badges|);
      var names := CheckAndAwardEffect(s, userId, sixMonthsAgo, now).1;
      && |names| == |ids|
      && (forall i :: 0 <= i < |ids| ==> ids[i] < |s.badges| && names[i] == s.badges[ids[i]].name)
      && (forall i, j :: 0 <= i < j < |names| ==> names[i] != names[j])
  {
    var ids := Eligible(s, s.users[userId], sixMonthsAgo, |s.badges|);
    EligibleFacts(s, s.users[userId], sixMonthsAgo, |s.badges|);
    BadgeNamesFacts(s.badges, ids);
    var names := BadgeNames(s.badges, ids);
    forall i, j | 0 <= i < j < |names| ensures names[i] != names[j] {
      assert ids[i] < ids[j];
    }
  }

  /** The award loop keeps the store valid. */
  lemma CheckAndAwardKeepsValid(s: Store, userId: UserId, sixMonthsAgo: int, now: int)
    requires StoreValid(s)
    ensures StoreValid(CheckAndAwardEffect(s, userId, sixMonthsAgo, now).0)
  {
    if userId in s.users {
      EligibleFacts(s, s.users[userId], sixMonthsAgo, |s.badges|);
      GrantKeepsValid(s, userId, Eligible(s, s.users[userId], sixMonthsAgo, |s.badges|), now);
    }
  }

  /** Checking twice in a row awards nothing the second time: every badge that qualified is held. */
  lemma CheckTwiceAwardsNothing(s: Store, userId: UserId, sixMonthsAgo: int, now: int, later: int)
    requires StoreValid(s)
    ensures var s' := CheckAndAwardEffect(s, userId, sixMonthsAgo, now).0;
      CheckAndAwardEffect(s', userId, sixMonthsAgo, later).1 == []
  {
    if userId in s.users {
      var s' := CheckAndAwardEffect(s, userId, sixMonthsAgo, now).0;
      var u := s.users[userId];
      var ids' := Eligible(s', u, sixMonthsAgo, |s'.badges|);
      EligibleFacts(s, u, sixMonthsAgo, |s.badges|);
      EligibleFacts(s', u, sixMonthsAgo, |s'.badges|);
      GrantFacts(s.userBadges, userId, Eligible(s, u, sixMonthsAgo, |s.badges|), now);
      if ids' != [] {
        var b := ids'[0];
        assert Qualifies(s', u, b, sixMonthsAgo);
        assert Qualifies(s, u, b, sixMonthsAgo);
        assert false;
      }
    }
  }

  /** Granting badges of the catalog to a stored user keeps the store valid. */
  lemma GrantKeepsValid(s: Store, userId: UserId, ids: seq<BadgeId>, now: int)
    requires StoreValid(s) && userId in s.users
    requires forall i :: 0 <= i < |ids| ==> ids[i] < |s.badges|
    ensures StoreValid(s.(userBadges := Grant(s.userBadges, userId, ids, now)))
  {
    GrantFacts(s.userBadges, userId, ids, now);
  }

  /** One turn of the award loop: badge `k` is awarded exactly when it qualifies, its row does not
      exist yet, and awarding it extends the rows and the names by that badge alone. */
  lemma AwardStep(s: Store, u: User, sixMonthsAgo: int, now: int, ids: seq<BadgeId>, k: nat)
    requires k < |s.badges| && ids == Eligible(s, u, sixMonthsAgo, k)
    ensures forall i :: 0 <= i < |ids| ==> ids[i] < k
    ensures Eligible(s, u, sixMonthsAgo, k + 1) == ids + (if Qualifies(s, u, k, sixMonthsAgo) then [k] else [])
    ensures Qualifies(s, u, k, sixMonthsAgo) ==>
      && (u.id, k) !in Grant(s.userBadges, u.id, ids, now)
      && Grant(s.userBadges, u.id, ids + [k], now) == Grant(s.userBadges, u.id, ids, now)[(u.id, k) := now]
      && BadgeNames(s.badges, ids + [k]) == BadgeNames(s.badges, ids) + [s.badges[k].name]
  {
    EligibleFacts(s, u, sixMonthsAgo, k);
    GrantFacts(s.userBadges, u.id, ids, now);
    assert (ids + [k])[..|ids|] == ids;
  }

  /** checkAndAwardBadges: evaluates the user as loaded at the start of the call against each
      active badge, in catalog order, creating a row for each new badge whose requirement is met. */
  method CheckAndAwardBadges(db: Database, userId: UserId, sixMonthsAgo: int, now: int)
    returns (awarded: seq<string>)
    requires db.Valid()
    modifies db
    ensures db.Valid()
    ensures (db.Snapshot(), awarded) == CheckAndAwardEffect(old(db.Snapshot()), userId, sixMonthsAgo, now)
  {
    CheckAndAwardKeepsValid(db.Snapshot(), userId, sixMonthsAgo, now);
    awarded := AwardEligibleBadges(db, userId, sixMonthsAgo, now);
  }

  /** The loop of checkAndAwardBadges. A failed create ends the loop early, keeping the names
      awarded so far; with rows keyed by stored users and badges it does not happen, because a
      badge already held is skipped. */
  method AwardEligibleBadges(db: Database, userId: UserId, sixMonthsAgo: int, now: int)
    returns (awarded: seq<string>)
    requires userId in db.users ==> db.users[userId].id == userId
    modifies db
    ensures (db.Snapshot(), awarded) == CheckAndAwardEffect(old(db.Snapshot()), userId, sixMonthsAgo, now)
  {
    awarded := [];
    if userId !in db.users {
      return;
    }
    ghost var start := db.Snapshot();
    var user := db.users[userId];
    var held := db.userBadges;
    var badges := db.badges;
    ghost var ids: seq<BadgeId> := [];
    var k: nat := 0;
    while k < |badges|
      invariant k <= |badges|
      invariant badges == start.badges && held == start.userBadges
      invariant ids == Eligible(start, user, sixMonthsAgo, k)
      invariant forall i :: 0 <= i < |ids| ==> ids[i] < k
      invariant awarded == BadgeNames(badges, ids)
      invariant db.Snapshot() == start.(userBadges := Grant(held, userId, ids, now))
    {
      var badge := badges[k];
      var hasBadge := (userId, k) in held;
      AwardStep(start, user, sixMonthsAgo, now, ids, k);
      if Earns(user, badge, hasBadge, sixMonthsAgo) {
        var ok := db.CreateUserBadge(userId, k, now);
        if !ok {
          break;
        }
        awarded := awarded + [badge.name];
        ids := ids + [k];
      }
      k := k + 1;
    }
  }

  /** awardBadgeToUser: create the row; the failure of the create (the pair is held already, or
      the user or the badge is not stored) is passed on to the caller. */
  method AwardBadgeToUser(db: Database, userId: UserId, badgeId: BadgeId, now: int) returns (ok: bool)
    requires db.Valid()
    modifies db
    ensures db.Valid()
    ensures ok <==> userId in old(db.users) && badgeId < |old(db.badges)| && (userId, badgeId) !in old(db.userBadges)
    ensures ok ==> db.Snapshot() == old(db.Snapshot()).(userBadges := old(db.userBadges)[(userId, badgeId) := now])
    ensures !ok ==> db.Snapshot() == old(db.Snapshot())
  {
    ok := db.CreateUserBadge(userId, badgeId, now);
    if ok {
      GrantKeepsValid(old(db.Snapshot()), userId, [badgeId], now);
    }
  }

  /** initializeDefaultBadges: upsert each default badge by name, leaving a taken name alone. */
  method InitializeDefaultBadges(db: Database)
    requires db.Valid()
    modifies db
    ensures db.Valid()
    ensures db.Snapshot() == old(db.Snapshot()).(badges := UpsertAll(old(db.badges), DefaultBadges()))
  {
    var defaults := DefaultBadges();
    for k := 0 to |defaults|
      invariant db.Valid()
      invariant db.Snapshot() == old(db.Snapshot()).(badges := UpsertAll(old(db.badges), defaults[..k]))
    {
      assert defaults[..k + 1][..k] == defaults[..k];
      var existing := FindBadge(db.badges, defaults[k].name);
      if existing.None? {
        db.badges := db.badges + [defaults[k]];
      }
    }
    assert defaults[..|defaults|] == defaults;
  }
}
