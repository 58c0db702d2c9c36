/**
 * The in-process TTL cache of internal/cache/cache.go: byte values, counters and the
 * background sweep.  Every method is one step under the lock, with the clock reading it
 * uses as a parameter: Increment, Set and the sweep read the clock before they wait for the
 * lock and Get reads it afterwards, so the readings need not follow the order of the steps.
 */
module MemoryCache {
  import opened Common

  newtype Byte = x: int | 0 <= x < 256

  /** A cached value and its absolute expiry; 0 is the zero time, which never expires. */
  datatype Item = Item(value: seq<Byte>, expiresAt: int)

  datatype Counter = Counter(n: nat, expiresAt: int)

  datatype Store = Store(items: map<string, Item>, counters: map<string, Counter>)

  const FIVE_MINUTES := 300_000_000_000

  predicate Expired(expiresAt: int, now: int) { expiresAt != 0 && now > expiresAt }

  function Ttl(default: int, ttl: int): int { if ttl <= 0 then default else ttl }

  // ---------- specification of the operations ----------

  function Lookup(s: Store, key: string, now: int): Option<seq<Byte>> {
    if key in s.items && !Expired(s.items[key].expiresAt, now) then Some(s.items[key].value) else None
  }

  function PutIn(default: int, s: Store, key: string, value: seq<Byte>, ttl: int, now: int): Store {
    s.(items := s.items[key := Item(value, now + Ttl(default, ttl))])
  }

  function Bumped(default: int, s: Store, key: string, ttl: int, now: int): Counter {
    if key !in s.counters || Expired(s.counters[key].expiresAt, now) then Counter(1, now + Ttl(default, ttl))
    else s.counters[key].(n := s.counters[key].n + 1)
  }

  function Swept(s: Store, now: int): Store {
    Store(map k | k in s.items && !Expired(s.items[k].expiresAt, now) :: s.items[k],
          map k | k in s.counters && !Expired(s.counters[k].expiresAt, now) :: s.counters[k])
  }

  // ---------- the code ----------

  datatype Entry = Entry(value: array<Byte>, expiresAt: int)

  class Cache {
    const defaultTTL: int
    var items: map<string, Entry>
    var counters: map<string, Counter>
    ghost var Repr: set<array<Byte>> // arrays the cache has allocated for itself

    ghost predicate Valid()
      reads this
    {
      defaultTTL > 0 && forall k | k in items :: items[k].value in Repr
    }

    /** The cached values themselves. */
    ghost function Abs(): Store
      reads this, Repr
      requires Valid()
    {
      Store(map k | k in items :: Item(items[k].value[..], items[k].expiresAt), counters)
    }

    constructor (defaultTTL: int)
      ensures Valid() && Abs() == Store(map[], map[]) && Repr == {}
      ensures this.defaultTTL == if defaultTTL > 0 then defaultTTL else 5 * 60 * 1_000_000_000
    {
      this.defaultTTL := if defaultTTL <= 0 then FIVE_MINUTES else defaultTTL;
      items, counters, Repr := map[], map[], {};
    }

    /** The result is a copy no one else holds. */
    method Get(key: string, now: int) returns (out: array<Byte>, ok: bool)
      requires Valid()
      ensures fresh(out) && out !in Repr
      ensures if Lookup(Abs(), key, now).Some? then ok && out[..] == Lookup(Abs(), key, now).value else !ok && out.Length == 0
    {
      if key !in items || Expired(items[key].expiresAt, now) {
        out := new Byte[0];
        return out, false;
      }
      out := Copy(items[key].value);
      ok := true;
    }

    method Set(key: string, value: array<Byte>, ttl: int, now: int)
      requires Valid()
      modifies this`items, this`Repr
      ensures Valid() && fresh(Repr - old(Repr)) && old(Repr) <= Repr
      ensures Abs() == PutIn(defaultTTL, old(Abs()), key, old(value[..]), ttl, now)
    {
      var life := if ttl <= 0 then defaultTTL else ttl;
      var v := Copy(value);
      items := items[key := Entry(v, now + life)];
      Repr := Repr + {v};
    }

    method Delete(key: string)
      requires Valid()
      modifies this`items
      ensures Valid() && Abs() == old(Abs()).(items := old(Abs()).items - {key})
    {
      items := items - {key};
    }

    method Close()
      requires Valid()
      modifies this`items
      ensures Valid() && Abs() == old(Abs()).(items := map[])
    {
      items := map[];
    }

    method Increment(key: string, ttl: int, now: int) returns (n: nat)
      requires Valid()
      modifies this`counters
      ensures Valid()
      ensures var c := Bumped(defaultTTL, old(Abs()), key, ttl, now);
              n == c.n && Abs() == old(Abs()).(counters := old(Abs()).counters[key := c])
    {
      var life := if ttl <= 0 then defaultTTL else ttl;
      if key !in counters || Expired(counters[key].expiresAt, now) {
        counters := counters[key := Counter(1, now + life)];
        return 1;
      }
      var c := counters[key];
      counters := counters[key := c.(n := c.n + 1)];
      return c.n + 1;
    }

    /** One tick of the janitor. */
    method Sweep(now: int)
      requires Valid()
      modifies this`items, this`counters
      ensures Valid() && Abs() == Swept(old(Abs()), now)
    {
      SweepItems(now);
      SweepCounters(now);
    }

    method SweepItems(now: int)
      requires Valid()
      modifies this`items
      ensures items == map k | k in old(items) && !Expired(old(items)[k].expiresAt, now) :: old(items)[k]
    {
      var keys := items.Keys;
      while keys != {}
        invariant keys <= old(items).Keys
        invariant items == map k | k in old(items) && (k in keys || !Expired(old(items)[k].expiresAt, now)) :: old(items)[k]
        decreases keys
      {
        var k :| k in keys;
        if Expired(items[k].expiresAt, now) {
          items := items - {k};
        }
        keys := keys - {k};
      }
    }

    method SweepCounters(now: int)
      requires Valid()
      modifies this`counters
      ensures counters == map k | k in old(counters) && !Expired(old(counters)[k].expiresAt, now) :: old(counters)[k]
    {
      var keys := counters.Keys;
      while keys != {}
        invariant keys <= old(counters).Keys
        invariant counters == map k | k in old(counters) && (k in keys || !Expired(old(counters)[k].expiresAt, now)) :: old(counters)[k]
        decreases keys
      {
        var k :| k in keys;
        if Expired(counters[k].expiresAt, now) {
          counters := counters - {k};
        }
        keys := keys - {k};
      }
    }
  }

  method Copy(a: array<Byte>) returns (b: array<Byte>)
    ensures fresh(b) && b[..] == a[..]
  {
    b := new Byte[a.Length];
    forall i | 0 <= i < a.Length {
      b[i] := a[i];
    }
  }

  /**
   * Callers may scribble over the slice they stored and over the slice they got back:
   * the cached bytes stay those of the moment of Set.
   */
  method ScribblingIsHarmless(c: Cache, key: string, value: array<Byte>, ttl: int, now: int, junk: nat -> Byte)
    requires c.Valid() && value !in c.Repr
    modifies c`items, c`Repr, value
    ensures c.Valid() && value !in c.Repr
    ensures c.Abs() == PutIn(c.defaultTTL, old(c.Abs()), key, old(value[..]), ttl, now)
  {
    c.Set(key, value, ttl, now);
    forall i | 0 <= i < value.Length {
      value[i] := junk(i);
    }
    var out, ok := c.Get(key, now);
    forall i | 0 <= i < out.Length {
      out[i] := junk(i);
    }
  }

  // ---------- histories ----------

  datatype Op =
    | Put(key: string, value: seq<Byte>, ttl: int)
    | Del(key: string)
    | Read(key: string)
    | Incr(key: string, ttl: int)
    | Shut
    | Janitor

  datatype Event = Event(op: Op, at: int)

  datatype Reply = Done | Value(value: Option<seq<Byte>>) | Number(n: nat)

  function ApplyOp(default: int, s: Store, e: Event): Store {
    match e.op
    case Put(k, v, ttl) => PutIn(default, s, k, v, ttl, e.at)
    case Del(k) => s.(items := s.items - {k})
    case Read(_) => s
    case Incr(k, ttl) => s.(counters := s.counters[k := Bumped(default, s, k, ttl, e.at)])
    case Shut => s.(items := map[])
    case Janitor => Swept(s, e.at)
  }

  function ReplyTo(default: int, s: Store, e: Event): Reply {
    match e.op
    case Read(k) => Value(Lookup(s, k, e.at))
    case Incr(k, ttl) => Number(Bumped(default, s, k, ttl, e.at).n)
    case _ => Done
  }

  function Run(default: int, log: seq<Event>): Store {
    if log == [] then Store(map[], map[])
    else ApplyOp(default, Run(default, log[..|log| - 1]), log[|log| - 1])
  }

  /** Replies to everything but the sweeps. */
  function Replies(default: int, log: seq<Event>): seq<Reply> {
    if log == [] then []
    else
      var before, e := log[..|log| - 1], log[|log| - 1];
      Replies(default, before) + if e.op.Janitor? then [] else [ReplyTo(default, Run(default, before), e)]
  }

  function NoSweeps(log: seq<Event>): seq<Event> {
    if log == [] then []
    else
      var before, e := log[..|log| - 1], log[|log| - 1];
      NoSweeps(before) + if e.op.Janitor? then [] else [e]
  }

  // ---------- the reference: reading the log alone ----------

  /** A record may be used up to and including the instant it expires; 0 stands for never. */
  predicate Alive(expiresAt: int, now: int) { expiresAt == 0 || now <= expiresAt }

  /** A lifetime that is not positive stands for the default. */
  function Lifetime(default: int, ttl: int): int { if ttl > 0 then ttl else default }

  function NextWrite(default: int, w: Option<Item>, e: Event, key: string): Option<Item> {
    match e.op
    case Put(k, v, ttl) => if k == key then Some(Item(v, e.at + Lifetime(default, ttl))) else w
    case Del(k) => if k == key then None else w
    case Shut => None
    case _ => w
  }

  /** What the last write to a key left: sweeps and other keys play no part. */
  function LastWrite(default: int, log: seq<Event>, key: string): Option<Item> {
    if log == [] then None else NextWrite(default, LastWrite(default, log[..|log| - 1], key), log[|log| - 1], key)
  }

  predicate IncrOf(e: Event, key: string) { e.op.Incr? && e.op.key == key }

  function NextWindow(default: int, w: Option<Counter>, e: Event, key: string): Option<Counter> {
    if !IncrOf(e, key) then w
    else if w.None? || !Alive(w.value.expiresAt, e.at) then Some(Counter(1, e.at + Lifetime(default, e.op.ttl)))
    else Some(w.value.(n := w.value.n + 1))
  }

  /** The counting window a key is in, from its increments alone. */
  function Window(default: int, log: seq<Event>, key: string): Option<Counter> {
    if log == [] then None else NextWindow(default, Window(default, log[..|log| - 1], key), log[|log| - 1], key)
  }

  // ---------- what sweeps take away ----------

  /** A sweep since the last write to the key saw that value expired. */
  predicate ItemGone(default: int, log: seq<Event>, key: string) {
    log != [] &&
    var before, e := log[..|log| - 1], log[|log| - 1];
    match e.op
    case Put(k, _, _) => k != key && ItemGone(default, before, key)
    case Del(k) => k != key && ItemGone(default, before, key)
    case Shut => false
    case Janitor =>
      ItemGone(default, before, key)
      || (LastWrite(default, before, key).Some? && !Alive(LastWrite(default, before, key).value.expiresAt, e.at))
    case _ => ItemGone(default, before, key)
  }

  /** A sweep since the key's counting window opened saw that window expired. */
  predicate CounterGone(default: int, log: seq<Event>, key: string) {
    log != [] &&
    var before, e := log[..|log| - 1], log[|log| - 1];
    var w := Window(default, before, key);
    if IncrOf(e, key) then w.Some? && Alive(w.value.expiresAt, e.at) && CounterGone(default, before, key)
    else CounterGone(default, before, key) || (e.op.Janitor? && w.Some? && !Alive(w.value.expiresAt, e.at))
  }

  lemma {:induction false} ItemTracks(default: int, log: seq<Event>, key: string)
    ensures var items, w := Run(default, log).items, LastWrite(default, log, key);
            && (key in items <==> w.Some? && !ItemGone(default, log, key))
            && (key in items ==> items[key] == w.value)
  {
    if log != [] { ItemTracks(default, log[..|log| - 1], key); }
  }

  /** The event finds its record swept away although by its own clock it is still alive. */
  predicate Misses(default: int, before: seq<Event>, e: Event) {
    match e.op
    case Read(k) =>
      var w := LastWrite(default, before, k);
      w.Some? && Alive(w.value.expiresAt, e.at) && ItemGone(default, before, k)
    case Incr(k, _) =>
      var w := Window(default, before, k);
      w.Some? && Alive(w.value.expiresAt, e.at) && CounterGone(default, before, k)
    case _ => false
  }

  predicate NoneMisses(default: int, log: seq<Event>) {
    log == [] || (NoneMisses(default, log[..|log| - 1]) && !Misses(default, log[..|log| - 1], log[|log| - 1]))
  }

  lemma {:induction false} CounterTracks(default: int, log: seq<Event>, key: string)
    requires NoneMisses(default, log)
    ensures var counters, w := Run(default, log).counters, Window(default, log, key);
            && (key in counters <==> w.Some? && !CounterGone(default, log, key))
            && (key in counters ==> counters[key] == w.value)
  {
    if log != [] { CounterTracks(default, log[..|log| - 1], key); }
  }

  /** Some sweep of the log, at a time by which expiresAt has passed. */
  ghost predicate SweptPast(log: seq<Event>, expiresAt: int) {
    exists i :: 0 <= i < |log| && log[i].op.Janitor? && !Alive(expiresAt, log[i].at)
  }

  lemma SweptPastGrows(log: seq<Event>, expiresAt: int)
    requires log != [] && SweptPast(log[..|log| - 1], expiresAt)
    ensures SweptPast(log, expiresAt)
  {
    var i :| 0 <= i < |log| - 1 && log[..|log| - 1][i].op.Janitor? && !Alive(expiresAt, log[..|log| - 1][i].at);
    assert log[i].op.Janitor?;
  }

  lemma {:induction false} GoneWasSwept(default: int, log: seq<Event>, key: string)
    ensures ItemGone(default, log, key) ==>
              LastWrite(default, log, key).Some? && SweptPast(log, LastWrite(default, log, key).value.expiresAt)
    ensures CounterGone(default, log, key) ==>
              Window(default, log, key).Some? && SweptPast(log, Window(default, log, key).value.expiresAt)
  {
    if log != [] {
      var before, e := log[..|log| - 1], log[|log| - 1];
      GoneWasSwept(default, before, key);
      var w, c := LastWrite(default, before, key), Window(default, before, key);
      if w.Some? && SweptPast(before, w.value.expiresAt) { SweptPastGrows(log, w.value.expiresAt); }
      if c.Some? && SweptPast(before, c.value.expiresAt) { SweptPastGrows(log, c.value.expiresAt); }
    }
  }

  // ---------- main results ----------

  /** No sweep so far has read a later clock. */
  ghost predicate AfterSweeps(log: seq<Event>, now: int) {
    forall i | 0 <= i < |log| && log[i].op.Janitor? :: log[i].at <= now
  }

  /**
   * A read hits exactly when the last write to the key was a Put whose lifetime has not passed.
   * Get reads the clock after releasing the lock, so no earlier sweep has read a later one.
   */
  lemma {:induction false} GetHitsExactly(default: int, log: seq<Event>, key: string, now: int)
    requires AfterSweeps(log, now)
    ensures var w := LastWrite(default, log, key);
            Lookup(Run(default, log), key, now) ==
              if w.Some? && Alive(w.value.expiresAt, now) then Some(w.value.value) else None
  {
    ItemTracks(default, log, key);
    GoneWasSwept(default, log, key);
  }

  /** Position of the increment that opened the current window of a key. */
  function Opened(default: int, log: seq<Event>, key: string): nat
    requires Window(default, log, key).Some?
  {
    var before, e := log[..|log| - 1], log[|log| - 1];
    var w := Window(default, before, key);
    if IncrOf(e, key) && (w.None? || !Alive(w.value.expiresAt, e.at)) then |log| - 1
    else Opened(default, before, key)
  }

  function CountFrom(log: seq<Event>, key: string, from: nat): nat
    requires from <= |log|
  {
    if |log| == from then 0
    else CountFrom(log[..|log| - 1], key, from) + if IncrOf(log[|log| - 1], key) then 1 else 0
  }

  lemma {:induction false} WindowCounts(default: int, log: seq<Event>, key: string)
    requires Window(default, log, key).Some?
    ensures Opened(default, log, key) < |log|
    ensures IncrOf(log[Opened(default, log, key)], key)
    ensures Window(default, log, key).value.n == CountFrom(log, key, Opened(default, log, key)) >= 1
    ensures var e := log[Opened(default, log, key)];
            Window(default, log, key).value.expiresAt == e.at + Lifetime(default, e.op.ttl)
  {
    var before, e := log[..|log| - 1], log[|log| - 1];
    var w := Window(default, before, key);
    if IncrOf(e, key) && (w.None? || !Alive(w.value.expiresAt, e.at)) {
      assert CountFrom(before, key, |before|) == 0;
    } else {
      WindowCounts(default, before, key);
    }
  }

  /**
   * An increment returns n exactly as the n-th increment since its window opened, and a window
   * opens only after the previous one expired by the clock the increment has read.
   */
  lemma {:induction false} IncrementCounts(default: int, log: seq<Event>, key: string, ttl: int, now: int)
    requires NoneMisses(default, log) && !Misses(default, log, Event(Incr(key, ttl), now))
    ensures var e := Event(Incr(key, ttl), now);
            var all := log + [e];
            && Window(default, all, key).Some?
            && Opened(default, all, key) < |all|
            && ReplyTo(default, Run(default, log), e) == Number(CountFrom(all, key, Opened(default, all, key)))
            && (Opened(default, all, key) == |log| <==>
                  Window(default, log, key).None? || !Alive(Window(default, log, key).value.expiresAt, now))
  {
    var e := Event(Incr(key, ttl), now);
    var all := log + [e];
    assert all[..|all| - 1] == log;
    CounterTracks(default, log, key);
    WindowCounts(default, all, key);
    if Window(default, log, key).Some? { WindowCounts(default, log, key); }
  }

  // ---------- is the janitor observable? ----------

  lemma NextReference(default: int, log: seq<Event>, e: Event, key: string)
    ensures LastWrite(default, log + [e], key) == NextWrite(default, LastWrite(default, log, key), e, key)
    ensures Window(default, log + [e], key) == NextWindow(default, Window(default, log, key), e, key)
  {
    assert (log + [e])[..|log|] == log;
  }

  lemma {:induction false} NoSweepsSameReference(default: int, log: seq<Event>, key: string)
    ensures LastWrite(default, NoSweeps(log), key) == LastWrite(default, log, key)
    ensures Window(default, NoSweeps(log), key) == Window(default, log, key)
  {
    if log != [] {
      var before, e := log[..|log| - 1], log[|log| - 1];
      NoSweepsSameReference(default, before, key);
      if e.op.Janitor? {
        assert NoSweeps(log) == NoSweeps(before);
      } else {
        NextReference(default, NoSweeps(before), e, key);
      }
    }
  }

  lemma {:induction false} WithoutSweeps(log: seq<Event>)
    ensures forall e | e in NoSweeps(log) :: !e.op.Janitor?
    ensures NoSweeps(NoSweeps(log)) == NoSweeps(log)
  {
    if log != [] {
      var before, e := log[..|log| - 1], log[|log| - 1];
      WithoutSweeps(before);
      if !e.op.Janitor? {
        assert (NoSweeps(before) + [e])[..|NoSweeps(before)|] == NoSweeps(before);
      } else {
        assert NoSweeps(log) == NoSweeps(before);
      }
    }
  }

  lemma {:induction false} NothingGone(default: int, log: seq<Event>, key: string)
    requires forall e | e in log :: !e.op.Janitor?
    ensures !ItemGone(default, log, key) && !CounterGone(default, log, key)
  {
    if log != [] { NothingGone(default, log[..|log| - 1], key); }
  }

  lemma {:induction false} NothingMissed(default: int, log: seq<Event>)
    requires forall e | e in log :: !e.op.Janitor?
    ensures NoneMisses(default, log)
  {
    if log != [] {
      var before, e := log[..|log| - 1], log[|log| - 1];
      NothingMissed(default, before);
      if e.op.Read? || e.op.Incr? { NothingGone(default, before, e.op.key); }
    }
  }

  lemma {:induction false} PlainReference(default: int, log: seq<Event>, key: string)
    requires NoneMisses(default, log)
    ensures NoneMisses(default, NoSweeps(log))
    ensures !ItemGone(default, NoSweeps(log), key) && !CounterGone(default, NoSweeps(log), key)
    ensures LastWrite(default, NoSweeps(log), key) == LastWrite(default, log, key)
    ensures Window(default, NoSweeps(log), key) == Window(default, log, key)
  {
    WithoutSweeps(log);
    NothingMissed(default, NoSweeps(log));
    NothingGone(default, NoSweeps(log), key);
    NoSweepsSameReference(default, log, key);
  }

  lemma {:induction false} ReadExactly(default: int, log: seq<Event>, key: string, now: int)
    requires NoneMisses(default, log)
    ensures Lookup(Run(default, log), key, now) == Lookup(Run(default, NoSweeps(log)), key, now)
            <==> !Misses(default, log, Event(Read(key), now))
  {
    PlainReference(default, log, key);
    ItemTracks(default, log, key);
    ItemTracks(default, NoSweeps(log), key);
  }

  lemma {:induction false} IncrExactly(default: int, log: seq<Event>, key: string, ttl: int, now: int)
    requires NoneMisses(default, log)
    ensures Bumped(default, Run(default, log), key, ttl, now).n == Bumped(default, Run(default, NoSweeps(log)), key, ttl, now).n
            <==> !Misses(default, log, Event(Incr(key, ttl), now))
  {
    PlainReference(default, log, key);
    CounterTracks(default, log, key);
    CounterTracks(default, NoSweeps(log), key);
    if Window(default, log, key).Some? { WindowCounts(default, log, key); }
  }

  lemma {:induction false} ReplyExactly(default: int, log: seq<Event>, e: Event)
    requires NoneMisses(default, log)
    ensures ReplyTo(default, Run(default, log), e) == ReplyTo(default, Run(default, NoSweeps(log)), e)
            <==> !Misses(default, log, e)
  {
    match e.op
    case Read(key) => ReadExactly(default, log, key, e.at);
    case Incr(key, ttl) => IncrExactly(default, log, key, ttl, e.at);
    case _ =>
  }

  lemma {:induction false} RepliesLength(default: int, log: seq<Event>)
    ensures |Replies(default, log)| == |NoSweeps(log)|
  {
    if log != [] { RepliesLength(default, log[..|log| - 1]); }
  }

  lemma SnocEqual<T>(a: seq<T>, b: seq<T>, x: T, y: T)
    requires |a| == |b|
    ensures a + [x] == b + [y] <==> a == b && x == y
  {
    if a + [x] == b + [y] {
      assert (a + [x])[..|a|] == a && (b + [y])[..|a|] == b;
      assert (a + [x])[|a|] == x && (b + [y])[|a|] == y;
    }
  }

  lemma NextReply(default: int, log: seq<Event>, e: Event, all: seq<Event>)
    requires all == log + [e]
    ensures Run(default, all) == ApplyOp(default, Run(default, log), e)
    ensures if e.op.Janitor? then Replies(default, all) == Replies(default, log) && NoSweeps(all) == NoSweeps(log)
            else Replies(default, all) == Replies(default, log) + [ReplyTo(default, Run(default, log), e)]
                 && NoSweeps(all) == NoSweeps(log) + [e]
  {
    assert all[..|log|] == log;
  }

  /**
   * The janitor is unobservable, every reply of a history being the one it would have without
   * sweeps, exactly when no operation comes to its record after a sweep with a later clock has
   * removed it.
   */
  lemma {:induction false} JanitorUnobservableExactly(default: int, log: seq<Event>)
    ensures Replies(default, log) == Replies(default, NoSweeps(log)) <==> NoneMisses(default, log)
  {
    if log != [] {
      var before, e := log[..|log| - 1], log[|log| - 1];
      JanitorUnobservableExactly(default, before);
      assert log == before + [e];
      NextReply(default, before, e, log);
      if !e.op.Janitor? {
        SameNextReply(default, before, e);
      }
    }
  }

  lemma SameNextReply(default: int, log: seq<Event>, e: Event)
    requires !e.op.Janitor?
    ensures Replies(default, log + [e]) == Replies(default, NoSweeps(log + [e])) <==>
            Replies(default, log) == Replies(default, NoSweeps(log))
            && ReplyTo(default, Run(default, log), e) == ReplyTo(default, Run(default, NoSweeps(log)), e)
    ensures NoneMisses(default, log) ==>
            (ReplyTo(default, Run(default, log), e) == ReplyTo(default, Run(default, NoSweeps(log)), e)
             <==> !Misses(default, log, e))
  {
    var plain := NoSweeps(log);
    NextReply(default, log, e, log + [e]);
    NextReply(default, plain, e, plain + [e]);
    RepliesLength(default, log);
    RepliesLength(default, plain);
    WithoutSweeps(log);
    SnocEqual(Replies(default, log), Replies(default, plain),
              ReplyTo(default, Run(default, log), e), ReplyTo(default, Run(default, plain), e));
    if NoneMisses(default, log) { ReplyExactly(default, log, e); }
  }

  /** Reads and increments whose clocks are not before those of earlier sweeps. */
  predicate ClocksInOrder(log: seq<Event>) {
    forall i, j | 0 <= i < j < |log| && log[i].op.Janitor? && (log[j].op.Read? || log[j].op.Incr?) :: log[i].at <= log[j].at
  }

  /** When clocks are read in lock order the janitor is never observed. */
  lemma {:induction false} OrderedClocksHideTheJanitor(default: int, log: seq<Event>)
    requires ClocksInOrder(log)
    ensures Replies(default, log) == Replies(default, NoSweeps(log))
  {
    OrderedMissesNothing(default, log);
    JanitorUnobservableExactly(default, log);
  }

  lemma {:induction false} OrderedMissesNothing(default: int, log: seq<Event>)
    requires ClocksInOrder(log)
    ensures NoneMisses(default, log)
  {
    if log != [] {
      var before, e := log[..|log| - 1], log[|log| - 1];
      OrderedMissesNothing(default, before);
      if e.op.Read? || e.op.Incr? {
        GoneWasSwept(default, before, e.op.key);
        assert forall i | 0 <= i < |before| && before[i].op.Janitor? :: log[i].at <= e.at;
      }
    }
  }

  /** An increment that read the clock before a sweep and got the lock after it starts counting anew. */
  lemma LateLockResetsCount(default: int, a: Event, b: Event, c: Event, swept: seq<Event>, plain: seq<Event>)
    requires a == Event(Incr("k", 10), 1) && b == Event(Janitor, 12) && c == Event(Incr("k", 10), 10)
    requires swept == [a, b, c] && plain == [a, c]
    ensures plain == NoSweeps(swept)
    ensures Replies(default, swept) == [Number(1), Number(1)] && Replies(default, plain) == [Number(1), Number(2)]
  {
    var one, two := swept[..1], swept[..2];
    assert one == plain[..1] && one[..0] == [];
    NextReply(default, [], a, one);
    NextReply(default, one, b, two);
    NextReply(default, two, c, swept);
    NextReply(default, one, c, plain);
    OneCount(default, Run(default, []), a, b, c);
  }

  lemma OneCount(default: int, s: Store, a: Event, b: Event, c: Event)
    requires a == Event(Incr("k", 10), 1) && b == Event(Janitor, 12) && c == Event(Incr("k", 10), 10)
    requires s == Store(map[], map[])
    ensures var s1 := ApplyOp(default, s, a);
            && ReplyTo(default, s, a) == Number(1) && ReplyTo(default, s1, c) == Number(2)
            && ReplyTo(default, ApplyOp(default, s1, b), c) == Number(1)
  {
    assert ApplyOp(default, s, a).counters == map["k" := Counter(1, 11)];
  }
}
