/**
 * The premium entitlement store: a table from user id to the absolute
 * time (seconds since the epoch) at which that user's premium ends.
 *
 * The source keeps the table in a JSON file keyed by `str(user_id)` and
 * re-reads it on every call; here the table is the field `users`, keyed by
 * the id itself (`Numerals.IntToStringInjective` shows the string keys keep
 * distinct ids apart). The clock is the parameter `now`.
 */
module Premium {
  import opened Wrappers

  type UserId = int
  type Timestamp = int

  /** The table after a grant: `uid` now expires `seconds` after `now`, whatever it held before. */
  function Granted(users: map<UserId, Timestamp>, uid: UserId, seconds: int, now: Timestamp): map<UserId, Timestamp> {
    users[uid := now + seconds]
  }

  /** The table after a revoke: `uid` has no entry. */
  function Revoked(users: map<UserId, Timestamp>, uid: UserId): map<UserId, Timestamp> {
    users - {uid}
  }

  class PremiumStore {
    var users: map<UserId, Timestamp>

    /** The store as first created: an empty `premium_users` table. */
    constructor ()
      ensures users == map[]
    {
      users := map[];
    }

    /** `get_expiry`: the stored expiry, whether or not it has passed; `None` for a user never granted or since revoked. */
    function GetExpiry(uid: UserId): (r: Option<Timestamp>)
      reads this
      ensures r.Some? <==> uid in users
      ensures r.Some? ==> r.value == users[uid]
    {
      if uid in users then Some(users[uid]) else None
    }

    /** `is_premium`: there is an expiry and it lies strictly after `now`. */
    function IsPremium(uid: UserId, now: Timestamp): (active: bool)
      reads this
      ensures active <==> (GetExpiry(uid).Some? && GetExpiry(uid).value > now)
      ensures GetExpiry(uid) == None ==> !active
      ensures GetExpiry(uid) == Some(now) ==> !active
    {
      uid in users && users[uid] > now
    }

    /** `add_premium`: overwrite the entry of `uid` with `now + seconds`. */
    method AddPremium(uid: UserId, seconds: int, now: Timestamp)
      modifies this
      ensures users == Granted(old(users), uid, seconds, now)
      ensures GetExpiry(uid) == Some(now + seconds)
      ensures forall later :: IsPremium(uid, later) <==> now + seconds > later
      ensures forall other :: other != uid ==> GetExpiry(other) == old(GetExpiry(other))
    {
      users := users[uid := now + seconds];
    }

    /** `remove_premium`: delete the entry of `uid` if there is one. */
    method RemovePremium(uid: UserId)
      modifies this
      ensures users == Revoked(old(users), uid)
      ensures GetExpiry(uid) == None
      ensures forall t :: !IsPremium(uid, t)
      ensures forall other :: other != uid ==> GetExpiry(other) == old(GetExpiry(other))
      ensures uid !in old(users) ==> users == old(users)
    {
      if uid in users {
        users := users - {uid};
      }
    }
  }

  /** A grant overwrites: only the last grant to a user matters. */
  lemma GrantOverwrites(users: map<UserId, Timestamp>, uid: UserId, s1: int, t1: Timestamp, s2: int, t2: Timestamp)
    ensures Granted(Granted(users, uid, s1, t1), uid, s2, t2) == Granted(users, uid, s2, t2)
  {
  }

  /** Revoking twice is revoking once. */
  lemma RevokeIdempotent(users: map<UserId, Timestamp>, uid: UserId)
    ensures Revoked(Revoked(users, uid), uid) == Revoked(users, uid)
  {
  }

  /** Grants and revokes of different users commute: each touches only its own entry. */
  lemma DistinctUsersCommute(users: map<UserId, Timestamp>, u: UserId, v: UserId, seconds: int, now: Timestamp)
    requires u != v
    ensures Revoked(Granted(users, u, seconds, now), v) == Granted(Revoked(users, v), u, seconds, now)
  {
  }

  /** What `/premiumstatus` reports. */
  datatype StatusReport = NotPremium | Expired | Active(expiresAt: Timestamp)

  /**
   * `premium_status`: no entry is "not premium", an expiry strictly before
   * `now` is "expired", and anything else, including an expiry equal to
   * `now`, is reported active.
   */
  function PremiumStatus(expiry: Option<Timestamp>, now: Timestamp): (r: StatusReport)
    ensures r == NotPremium <==> expiry == None
    ensures r == Expired <==> (expiry.Some? && expiry.value < now)
    ensures r.Active? ==> expiry == Some(r.expiresAt) && r.expiresAt >= now
  {
    match expiry
    case None => NotPremium
    case Some(e) => if e < now then Expired else Active(e)
  }

  /**
   * `/premiumstatus` and `is_premium` agree everywhere except at the second
   * the premium ends: there the status says active while the file tools refuse.
   */
  lemma StatusAgreesWithIsPremium(store: PremiumStore, uid: UserId, now: Timestamp)
    ensures PremiumStatus(store.GetExpiry(uid), now).Active? == store.IsPremium(uid, now)
        <==> store.GetExpiry(uid) != Some(now)
  {
  }

  /** The one second of disagreement: whenever the stored expiry is `now`, the status says active and `is_premium` says no. */
  lemma StatusBoundaryDisagrees(store: PremiumStore, uid: UserId, now: Timestamp)
    requires store.GetExpiry(uid) == Some(now)
    ensures PremiumStatus(store.GetExpiry(uid), now) == Active(now)
    ensures !store.IsPremium(uid, now)
  {
  }

  /** The classification with an inclusive expiry test (`expiry <= now` is expired). */
  function PremiumStatusInclusive(expiry: Option<Timestamp>, now: Timestamp): (r: StatusReport)
    ensures r == NotPremium <==> expiry == None
    ensures r == Expired <==> (expiry.Some? && expiry.value <= now)
    ensures r.Active? ==> expiry == Some(r.expiresAt) && r.expiresAt > now
  {
    match expiry
    case None => NotPremium
    case Some(e) => if e <= now then Expired else Active(e)
  }

  /** With the inclusive test the status reports active exactly when `is_premium` holds. */
  lemma InclusiveStatusMatchesIsPremium(store: PremiumStore, uid: UserId, now: Timestamp)
    ensures PremiumStatusInclusive(store.GetExpiry(uid), now).Active? <==> store.IsPremium(uid, now)
  {
  }
}
