/**
  `StorageManager` (storage.js) over an in-memory copy of its localStorage
  record: users by IP address, each with a video quota and a newest-first
  analysis history. The clock is a parameter `now` in milliseconds, read
  once per call; the IP address and the stored users are given to the
  constructor.
*/
module Storage {

  import opened Wrappers
  import Text
  import Seqs

  /** Videos a user may process per window. */
  const InitialQuota := 10

  /** The quota window: 48 hours in milliseconds. */
  const QuotaWindow := 48 * 60 * 60 * 1000

  /** Entries kept in a user's history. */
  const HistoryLimit := 20

  datatype Quota = Quota(remaining: int, resetTime: int)

  /** What the caller passes to `addToHistory`. */
  datatype Analysis = Analysis(thumbnail: string, fileName: string, objectCount: int, duration: real)

  /** One history entry: the id is the time of the call, written in decimal. */
  datatype HistoryItem = HistoryItem(id: string, date: string, analysis: Analysis)

  datatype User = User(username: string, quota: Quota, history: seq<HistoryItem>)

  /** The user record `createUser` writes. */
  function NewUser(username: string, now: int): User {
    User(username, Quota(InitialQuota, now + QuotaWindow), [])
  }

  /** The quota after the reset check: renewed only once the reset time has strictly passed. */
  function Refreshed(q: Quota, now: int): Quota {
    if now > q.resetTime then Quota(InitialQuota, now + QuotaWindow) else q
  }

  /** `updateUserQuota` on a stored user: whether a video may be processed, and the record afterwards. */
  function Consume(u: User, now: int): (bool, User) {
    var q := Refreshed(u.quota, now);
    if q.remaining > 0 then (true, u.(quota := q.(remaining := q.remaining - 1)))
    else (false, u)
  }

  /**
    The quota rule: a video is granted exactly when, after the reset check,
    some quota remains, and then exactly one unit is used; a refused call
    changes nothing; the reset happens only when `now` is strictly past the
    reset time; name and history are kept; and a quota in [0, 10] stays there.
  */
  lemma {:induction false} ConsumeSpec(u: User, now: int)
    ensures var (ok, v) := Consume(u, now);
      var q := Refreshed(u.quota, now);
      && (ok <==> q.remaining > 0)
      && (ok ==> v.quota == Quota(q.remaining - 1, q.resetTime))
      && (!ok ==> v == u)
      && v.username == u.username && v.history == u.history
      && (now > u.quota.resetTime ==> ok && v.quota == Quota(InitialQuota - 1, now + QuotaWindow))
      && (now <= u.quota.resetTime ==> v.quota.resetTime == u.quota.resetTime)
      && (0 <= u.quota.remaining <= InitialQuota ==> 0 <= v.quota.remaining <= InitialQuota)
  {
  }

  /** A quota whose window has not passed runs out after as many calls as it has left. */
  lemma {:induction false} ConsumeRunsOut(u: User, now: int, n: nat)
    requires now <= u.quota.resetTime && u.quota.remaining == n
    ensures Consumed(u, now, n).quota.remaining == 0
    ensures !Consume(Consumed(u, now, n), now).0
    decreases n
  {
    if n > 0 {
      var v := Consume(u, now).1;
      assert v.quota == Quota(n - 1, u.quota.resetTime);
      ConsumeRunsOut(v, now, n - 1);
    }
  }

  /** The user after `n` calls at the same time. */
  function Consumed(u: User, now: int, n: nat): User
    decreases n
  {
    if n == 0 then u else Consumed(Consume(u, now).1, now, n - 1)
  }

  /** `unshift`, then `slice(0, 20)` when the history grew past 20. */
  function PushHistory(history: seq<HistoryItem>, item: HistoryItem): seq<HistoryItem> {
    var all := [item] + history;
    if |all| > HistoryLimit then all[..HistoryLimit] else all
  }

  /**
    The new entry comes first, the older ones follow shifted by one place,
    and at most 20 are kept: the oldest are the ones dropped.
  */
  lemma {:induction false} PushHistorySpec(history: seq<HistoryItem>, item: HistoryItem)
    ensures var r := PushHistory(history, item);
      && |r| == (if |history| + 1 > HistoryLimit then HistoryLimit else |history| + 1)
      && r[0] == item
      && (forall i :: 1 <= i < |r| ==> r[i] == history[i - 1])
      && r == ([item] + history)[..|r|]
  {
  }

  /** `getHistory` and `find` of `getHistoryItem`: the first entry carrying `id`. */
  function FindItem(history: seq<HistoryItem>, id: string): (r: Option<HistoryItem>)
    ensures r.Some? <==> exists i :: 0 <= i < |history| && history[i].id == id
    ensures r.Some? ==>
              && r.value.id == id
              && exists i :: 0 <= i < |history| && history[i] == r.value && forall j :: 0 <= j < i ==> history[j].id != id
  {
    Seqs.FindFirst(history, (item: HistoryItem) => item.id == id)
  }

  /** The storage manager, with the localStorage record held in `users`. */
  class StorageManager {
    var users: map<string, User>
    var ipAddress: string

    /** The record loaded at start (`{}` when the store was empty) and the address found by `getIPAddress`. */
    constructor(ipAddress: string, stored: map<string, User>)
      ensures this.ipAddress == ipAddress && users == stored
    {
      this.ipAddress := ipAddress;
      users := stored;
    }

    /** Every stored quota lies in [0, 10] and every history holds at most 20 entries. */
    predicate Valid()
      reads this
    {
      forall ip :: ip in users ==> 0 <= users[ip].quota.remaining <= InitialQuota && |users[ip].history| <= HistoryLimit
    }

    /** `createUser`: a fresh record for this address, replacing any earlier one. */
    method CreateUser(username: string, now: int) returns (user: User)
      modifies this
      ensures user == NewUser(username, now) && user.quota == Quota(10, now + 172800000) && user.history == []
      ensures users == old(users)[ipAddress := user] && ipAddress == old(ipAddress)
      ensures old(Valid()) ==> Valid()
    {
      user := User(username, Quota(InitialQuota, now + QuotaWindow), []);
      users := users[ipAddress := user];
    }

    /** `updateUserQuota`: uses one unit of the quota when one is left; only a granted call is saved. */
    method UpdateUserQuota(now: int) returns (ok: bool)
      modifies this
      ensures ipAddress == old(ipAddress)
      ensures ipAddress !in old(users) ==> !ok && users == old(users)
      ensures ipAddress in old(users) ==>
                var (granted, after) := Consume(old(users)[ipAddress], now);
                ok == granted && users == if ok then old(users)[ipAddress := after] else old(users)
      ensures old(Valid()) ==> Valid()
    {
      if ipAddress in users {
        var user := users[ipAddress];
        if now > user.quota.resetTime {
          user := user.(quota := Quota(InitialQuota, now + QuotaWindow));
        }
        if user.quota.remaining > 0 {
          user := user.(quota := user.quota.(remaining := user.quota.remaining - 1));
          users := users[ipAddress := user];
          return true;
        }
      }
      return false;
    }

    /** `addToHistory`: the analysis becomes the newest entry of this address's history. */
    method AddToHistory(analysis: Analysis, now: int, date: string)
      modifies this
      ensures ipAddress == old(ipAddress)
      ensures ipAddress !in old(users) ==> users == old(users)
      ensures ipAddress in old(users) ==>
                var user := old(users)[ipAddress];
                users == old(users)[ipAddress := user.(history := PushHistory(user.history, HistoryItem(Text.IntToString(now), date, analysis)))]
      ensures old(Valid()) ==> Valid()
    {
      if ipAddress in users {
        var user := users[ipAddress];
        var history := [HistoryItem(Text.IntToString(now), date, analysis)] + user.history;
        if |history| > HistoryLimit {
          history := history[..HistoryLimit];
        }
        users := users[ipAddress := user.(history := history)];
      }
    }

    /** `getHistory`: this address's history, or none without a record. */
    function GetHistory(): (h: seq<HistoryItem>)
      reads this
      ensures ipAddress !in users ==> h == []
      ensures ipAddress in users ==> h == users[ipAddress].history
    {
      if ipAddress in users then users[ipAddress].history else []
    }

    /** `getHistoryItem`: the first entry of the history with this id. */
    function GetHistoryItem(id: string): (r: Option<HistoryItem>)
      reads this
      ensures r.Some? <==> exists i :: 0 <= i < |GetHistory()| && GetHistory()[i].id == id
      ensures r.Some? ==> r.value.id == id && r.value in GetHistory()
      ensures ipAddress !in users ==> r == None
    {
      FindItem(GetHistory(), id)
    }
  }
}
