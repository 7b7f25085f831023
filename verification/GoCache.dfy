/** The parts of go-cache the middleware uses: items with an expiration time in nanoseconds. */
module GoCache {
  import opened Wrappers
  import opened Utf8

  type int64 = x: int | -0x8000_0000_0000_0000 <= x < 0x8000_0000_0000_0000

  /** Two's complement wrap-around. */
  function Wrap64(x: int): int64 {
    (x + 0x8000_0000_0000_0000) % 0x1_0000_0000_0000_0000 - 0x8000_0000_0000_0000
  }

  type Key = seq<byte>

  /** The middleware stores booleans; the cache itself would take anything. */
  datatype Value = BoolValue(b: bool) | OtherValue

  /** An expiration that is not positive means that the item never expires. */
  datatype Item = Item(stored: Value, expiration: int64) {
    predicate Expired(now: int) {
      0 < expiration < now
    }
  }

  const DEFAULT_EXPIRATION: int64 := 0
  const NO_EXPIRATION: int64 := -1

  /** The expiration `Set` records: only a positive duration makes an item expire. */
  function ExpirationOf(now: int, d: int64, default: int64): int64 {
    var d' := if d == DEFAULT_EXPIRATION then default else d;
    if d' > 0 then Wrap64(now + d') else 0
  }

  function Lookup(items: map<Key, Item>, k: Key, now: int): Option<Value> {
    if k in items && !items[k].Expired(now) then Some(items[k].stored) else None
  }

  /** What `Items` returns, and what the janitor's `DeleteExpired` leaves. */
  function Unexpired(items: map<Key, Item>, now: int): map<Key, Item> {
    map k | k in items && !items[k].Expired(now) :: items[k]
  }

  /** Hiding or deleting expired items never changes a later answer. */
  lemma UnexpiredKeepsAnswers(items: map<Key, Item>, k: Key, now: int, later: int)
    requires now <= later
    ensures Lookup(Unexpired(items, now), k, later) == Lookup(items, k, later)
  {
  }

  /** The wall clock. `delays` is how much time passes before each of the next readings. */
  class Clock {
    var time: int
    var delays: seq<nat>

    /** No time passes unless it is made to. */
    ghost predicate Still()
      reads this
    {
      delays == []
    }

    constructor (time: int, delays: seq<nat>)
      ensures this.time == time && this.delays == delays
    {
      this.time, this.delays := time, delays;
    }

    method Advance(d: nat)
      modifies this`time
      ensures time == old(time) + d
    {
      time := time + d;
    }

    method Now() returns (t: int)
      modifies this
      ensures old(time) <= t == time
      ensures old(Still()) ==> Still() && time == old(time)
    {
      if delays != [] {
        time := time + delays[0];
        delays := delays[1..];
      }
      t := time;
    }
  }

  class Cache {
    const defaultExpiration: int64
    var items: map<Key, Item>

    constructor (defaultExpiration: int64, items: map<Key, Item>)
      ensures this.defaultExpiration == defaultExpiration && this.items == items
    {
      this.defaultExpiration := defaultExpiration;
      this.items := items;
    }

    method Set(clock: Clock, k: Key, v: Value, d: int64)
      modifies this, clock
      ensures old(clock.time) <= clock.time
      ensures old(clock.Still()) ==> clock.Still() && clock.time == old(clock.time)
      ensures items == old(items)[k := Item(v, ExpirationOf(clock.time, d, defaultExpiration))]
      ensures (if d == 0 then defaultExpiration else d) <= 0 ==> items[k].expiration == 0
      ensures var d' := if d == 0 then defaultExpiration else d;
              0 < d' && 0 <= clock.time && clock.time + d' < 0x8000_0000_0000_0000 ==>
                items[k].expiration == clock.time + d'
    {
      var now := clock.Now();
      items := items[k := Item(v, ExpirationOf(now, d, defaultExpiration))];
    }

    method Get(clock: Clock, k: Key) returns (v: Option<Value>)
      modifies clock
      ensures old(clock.time) <= clock.time && v == Lookup(items, k, clock.time)
      ensures v.Some? <==> k in items && !(0 < items[k].expiration < clock.time)
      ensures v.Some? ==> v.value == items[k].stored
      ensures old(clock.Still()) ==> clock.Still() && clock.time == old(clock.time)
    {
      var now := clock.Now();
      v := Lookup(items, k, now);
    }

    /** The janitor's `DeleteExpired`: exactly the items whose positive expiration has passed go. */
    method DeleteExpired(clock: Clock)
      modifies this, clock
      ensures old(clock.time) <= clock.time && items == Unexpired(old(items), clock.time)
      ensures forall k :: k in items <==> k in old(items) && !(0 < old(items)[k].expiration < clock.time)
      ensures forall k :: k in items ==> items[k] == old(items)[k]
    {
      var now := clock.Now();
      items := Unexpired(items, now);
    }
  }
}
