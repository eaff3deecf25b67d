/** The shared key/expiry store (`Discourse.redis`) every component writes
    to. An entry holds a value and, optionally, the instant it expires; the
    clock is an explicit parameter, and an entry whose expiry is not after
    the clock reads as missing. */
module KeyStore {
  import opened Common

  datatype Value = Int(n: int) | Text(s: string)
  datatype Entry = Entry(value: Value, expiresAt: Option<int>)
  type Data = map<string, Entry>

  /** The key exists and has not expired at `now`. */
  predicate Live(d: Data, key: string, now: int) {
    key in d && (d[key].expiresAt.None? || now < d[key].expiresAt.value)
  }

  /** `GET key`. */
  function Get(d: Data, key: string, now: int): (v: Option<Value>)
    ensures v.Some? <==> Live(d, key, now)
  {
    if Live(d, key, now) then Some(d[key].value) else None
  }

  /** Ruby's `to_i` on the reply of `GET`: `nil.to_i` is 0. Only integers are
      ever stored under the keys read this way. */
  function ToI(v: Option<Value>): int {
    match v
    case Some(Int(n)) => n
    case _ => 0
  }

  /** `INCR key`: a missing or expired key starts again from 0 without an
      expiry; an existing one keeps its expiry. */
  function IncrData(d: Data, key: string, now: int): (d': Data)
    ensures Live(d', key, now)
    ensures ToI(Get(d', key, now)) == ToI(Get(d, key, now)) + 1
    ensures d' == d[key := d'[key]]
  {
    var e := if Live(d, key, now) then d[key].expiresAt else None;
    d[key := Entry(Int(ToI(Get(d, key, now)) + 1), e)]
  }

  /** `EXPIRE key secs`: a live key now expires `secs` seconds from `now`
      (a non-positive `secs` deletes it); a missing key is left alone. */
  function ExpireData(d: Data, key: string, secs: int, now: int): (d': Data)
    ensures Live(d, key, now) && secs > 0 ==>
      d' == d[key := Entry(d[key].value, Some(now + secs))]
    ensures !Live(d, key, now) ==> d' == d
  {
    if !Live(d, key, now) then d
    else if secs > 0 then d[key := Entry(d[key].value, Some(now + secs))]
    else d - {key}
  }

  /** `SETEX key secs value` with a positive `secs` (the store refuses any
      other; see `Redis.SetEx`). */
  function SetExData(d: Data, key: string, secs: int, v: Value, now: int): (d': Data)
    requires secs > 0
    ensures forall t :: now <= t < now + secs ==> Get(d', key, t) == Some(v)
    ensures forall t :: t >= now + secs ==> !Live(d', key, t)
    ensures key in d' && d' == d[key := d'[key]]
  {
    d[key := Entry(v, Some(now + secs))]
  }

  /** `TTL key`: -2 for a missing key, -1 for a key without expiry,
      otherwise the seconds left. */
  function Ttl(d: Data, key: string, now: int): (r: int)
    ensures r == -2 <==> !Live(d, key, now)
    ensures r > 0 <==> Live(d, key, now) && d[key].expiresAt.Some?
  {
    if !Live(d, key, now) then -2
    else match d[key].expiresAt
      case None => -1
      case Some(x) => x - now
  }

  /** Every stored integer is non-negative: counters start at 1 and only
      grow, and the only other integers stored are clock readings. */
  ghost predicate IntsNonNegative(d: Data) {
    forall k :: k in d && d[k].value.Int? ==> d[k].value.n >= 0
  }

  lemma IncrKeepsIntsNonNegative(d: Data, key: string, now: int)
    requires IntsNonNegative(d)
    ensures IntsNonNegative(IncrData(d, key, now))
  {
    var d' := IncrData(d, key, now);
    assert ToI(Get(d, key, now)) >= 0;
  }

  lemma ExpireKeepsIntsNonNegative(d: Data, key: string, secs: int, now: int)
    requires IntsNonNegative(d)
    ensures IntsNonNegative(ExpireData(d, key, secs, now))
  {
  }

  lemma SetExKeepsIntsNonNegative(d: Data, key: string, secs: int, v: Value, now: int)
    requires IntsNonNegative(d) && secs > 0
    requires v.Int? ==> v.n >= 0
    ensures IntsNonNegative(SetExData(d, key, secs, v, now))
  {
  }

  /** The store itself. Its methods are the commands the core issues. */
  class Redis {
    var data: Data

    constructor ()
      ensures data == map[]
    {
      data := map[];
    }

    method Incr(key: string, now: int)
      modifies this
      ensures data == IncrData(old(data), key, now)
    {
      data := IncrData(data, key, now);
    }

    method Expire(key: string, secs: int, now: int)
      modifies this
      ensures data == ExpireData(old(data), key, secs, now)
    {
      data := ExpireData(data, key, secs, now);
    }

    /** `SETEX` fails with an error ("invalid expire time") unless `secs`
        is positive, and then changes nothing. */
    method SetEx(key: string, secs: int, v: Value, now: int) returns (ok: bool)
      modifies this
      ensures ok <==> secs > 0
      ensures data == if ok then SetExData(old(data), key, secs, v, now) else old(data)
    {
      ok := secs > 0;
      if ok {
        data := SetExData(data, key, secs, v, now);
      }
    }

    /** `DEL key...`. */
    method Del(keys: set<string>)
      modifies this
      ensures data == old(data) - keys
    {
      data := data - keys;
    }
  }
}
