/** `UsageTracker`: a per-key quota of remaining API calls, kept in a string-to-int map
    that is loaded at construction and saved after every change. */
module Usage {
  import opened Wrappers

  /** `_data.get(key, limit)`. */
  function RemainingIn(data: map<string, int>, key: string, limit: int): int {
    if key in data then data[key] else limit
  }

  /** One `consume()` on the map: whether it succeeded, and the map afterwards. */
  function ConsumeStep(data: map<string, int>, key: string, limit: int): (r: (bool, map<string, int>))
    ensures r.0 <==> RemainingIn(data, key, limit) > 0
    ensures r.0 ==> RemainingIn(r.1, key, limit) == RemainingIn(data, key, limit) - 1
    ensures !r.0 ==> r.1 == data
    ensures forall k :: k != key ==> (k in r.1 <==> k in data) && (k in data ==> r.1[k] == data[k])
  {
    var left := RemainingIn(data, key, limit);
    if left <= 0 then (false, data) else (true, data[key := left - 1])
  }

  /** How many of `n` consecutive `consume()` calls succeed. */
  function Successes(data: map<string, int>, key: string, limit: int, n: nat): nat
    decreases n
  {
    if n == 0 then 0
    else
      var (ok, data') := ConsumeStep(data, key, limit);
      (if ok then 1 else 0) + Successes(data', key, limit, n - 1)
  }

  /** Of `n` consecutive calls exactly `min(n, max(0, remaining))` succeed: the quota is
      never exceeded, and no call is refused while some remains. */
  lemma {:induction false} SuccessesCount(data: map<string, int>, key: string, limit: int, n: nat)
    ensures var left := RemainingIn(data, key, limit);
      Successes(data, key, limit, n) == if left <= 0 then 0 else if n <= left then n else left
    decreases n
  {
    if n > 0 {
      SuccessesCount(ConsumeStep(data, key, limit).1, key, limit, n - 1);
    }
  }

  /** Starting fresh, at most `limit` calls ever succeed. */
  lemma FreshQuota(key: string, limit: int, n: nat)
    ensures Successes(map[key := limit], key, limit, n) <= if limit <= 0 then 0 else limit
  {
    SuccessesCount(map[key := limit], key, limit, n);
  }

  class UsageTracker {
    const key: string
    const limit: int
    var data: map<string, int>

    /** `stored` is the JSON object read from the storage file, if it exists and parses. */
    constructor (key: string, limit: int, stored: Option<map<string, int>>)
      ensures this.key == key && this.limit == limit
      ensures data == stored.GetOr(map[key := limit])
      ensures stored.None? ==> Remaining() == limit
    {
      this.key := key;
      this.limit := limit;
      data := stored.GetOr(map[key := limit]);
    }

    function Remaining(): int
      reads this
    {
      RemainingIn(data, key, limit)
    }

    predicate CanConsume()
      reads this
    {
      Remaining() > 0
    }

    method Consume() returns (ok: bool)
      modifies this
      ensures (ok, data) == ConsumeStep(old(data), key, limit)
      ensures ok <==> old(Remaining()) > 0
      ensures ok ==> Remaining() == old(Remaining()) - 1
      ensures !ok ==> data == old(data)
    {
      if !CanConsume() {
        return false;
      }
      data := data[key := Remaining() - 1];
      return true;
    }

    method Reset()
      modifies this
      ensures data == old(data)[key := limit]
      ensures Remaining() == limit
    {
      data := data[key := limit];
    }
  }
}
