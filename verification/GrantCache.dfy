/** The TTL cache of granted agent sets (internal/authz/cache.go). Go's map[string]bool is a
    GrantSet object, nil a null one; the clock is an argument. */
module GrantCache {
  import opened Options

  type Key = string
  type Time = int

  /** A granted set as a value; None is nil, which means unrestricted. */
  type Granted = Option<map<string, bool>>

  class GrantSet {
    var members: map<string, bool>

    constructor (members: map<string, bool>)
      ensures this.members == members
    {
      this.members := members;
    }
  }

  ghost function ValueOf(g: GrantSet?): Granted
    reads g
  {
    if g == null then None else Some(g.members)
  }

  datatype Entry = Entry(granted: Granted, expiresAt: Time)

  type Entries = map<Key, Entry>

  /** What Get answers: the entry of the key, until after its expiry. */
  function Lookup(entries: Entries, key: Key, now: Time): Option<Granted> {
    if key in entries && now <= entries[key].expiresAt then Some(entries[key].granted) else None
  }

  function Unexpired(entries: Entries, now: Time): Entries {
    map key | key in entries && now <= entries[key].expiresAt :: entries[key]
  }

  // ---- The cache ----

  datatype Slot = Slot(granted: GrantSet?, expiresAt: Time)

  method CloneGrantedSet(src: GrantSet?) returns (dst: GrantSet?)
    ensures ValueOf(dst) == ValueOf(src)
    ensures dst != null ==> fresh(dst)
  {
    if src == null {
      return null;
    }
    var copy := new GrantSet(map[]);
    var keys := src.members.Keys;
    while keys != {}
      invariant keys <= src.members.Keys
      invariant copy.members == map k | k in src.members && k !in keys :: src.members[k]
      decreases keys
    {
      var k :| k in keys;
      copy.members := copy.members[k := src.members[k]];
      keys := keys - {k};
    }
    assert copy.members == src.members;
    dst := copy;
  }

  class Cache {
    const ttl: Time
    var slots: map<Key, Slot>

    /** The sets that belong to the cache. */
    ghost function Repr(): set<GrantSet>
      reads this
    {
      set key | key in slots && slots[key].granted != null :: slots[key].granted
    }

    ghost function View(): Entries
      reads this, Repr()
    {
      map key | key in slots :: Entry(ValueOf(slots[key].granted), slots[key].expiresAt)
    }

    constructor (ttl: Time)
      ensures this.ttl == ttl && slots == map[] && View() == map[] && Repr() == {}
    {
      this.ttl := ttl;
      slots := map[];
    }

    method Get(key: Key, now: Time) returns (granted: GrantSet?, ok: bool)
      ensures View() == old(View()) && Repr() == old(Repr())
      ensures ok <==> Lookup(View(), key, now).Some?
      ensures ok ==> ValueOf(granted) == Lookup(View(), key, now).value
      ensures granted != null ==> fresh(granted)
    {
      if key !in slots || now > slots[key].expiresAt {
        return null, false;
      }
      granted := CloneGrantedSet(slots[key].granted);
      ok := true;
    }

    method Set(key: Key, granted: GrantSet?, now: Time)
      modifies this
      ensures View() == old(View())[key := Entry(old(ValueOf(granted)), now + ttl)]
      ensures fresh(Repr() - old(Repr()))
    {
      var copy := CloneGrantedSet(granted);
      slots := slots[key := Slot(copy, now + ttl)];
    }

    method Invalidate(key: Key)
      modifies this
      ensures View() == old(View()) - {key} && Repr() <= old(Repr())
    {
      slots := slots - {key};
    }

    method EvictExpired(now: Time)
      modifies this
      ensures View() == Unexpired(old(View()), now) && Repr() <= old(Repr())
    {
      var keys := slots.Keys;
      while keys != {}
        invariant keys <= slots.Keys
        invariant forall k :: k in slots ==> k in old(slots) && slots[k] == old(slots[k])
        invariant forall k :: k in old(slots) && k !in keys ==> (k in slots <==> now <= old(slots[k]).expiresAt)
        decreases keys
      {
        var k :| k in keys;
        if now > slots[k].expiresAt {
          slots := slots - {k};
        }
        keys := keys - {k};
      }
    }
  }

  /** Cloning on the way in and out at work: whatever a caller writes into a set it gave or
      was given, the cache still holds what was set. */
  method WritesDoNotReachTheCache(c: Cache, key: Key, mine: GrantSet, now: Time, other: map<string, bool>)
    requires mine !in c.Repr() && c.ttl >= 0
    modifies c, mine
    ensures c.View() == old(c.View())[key := Entry(Some(old(mine.members)), now + c.ttl)]
    ensures mine.members == other
  {
    c.Set(key, mine, now);
    mine.members := other;
    var theirs, ok := c.Get(key, now);
    if theirs != null {
      theirs.members := other;
    }
  }

  // ---- Runs ----

  datatype Event = Sets(key: Key, granted: Granted, at: Time) | Invalidates(key: Key, at: Time) | Evicts(at: Time)

  function Step(ttl: Time, entries: Entries, e: Event): Entries {
    match e
    case Sets(key, granted, at) => entries[key := Entry(granted, at + ttl)]
    case Invalidates(key, _) => entries - {key}
    case Evicts(at) => Unexpired(entries, at)
  }

  function Run(ttl: Time, events: seq<Event>): Entries {
    if events == [] then map[] else Step(ttl, Run(ttl, events[..|events| - 1]), events[|events| - 1])
  }

  /** The clock does not run backwards, and `now` is not before the last event. */
  predicate Timed(events: seq<Event>, now: Time) {
    events == [] || (events[|events| - 1].at <= now && Timed(events[..|events| - 1], events[|events| - 1].at))
  }

  /** The last Set of the key, unless an Invalidate came after it. */
  function LastSet(events: seq<Event>, key: Key): Option<Event> {
    if events == [] then None
    else
      var e := events[|events| - 1];
      if e.Sets? && e.key == key then Some(e)
      else if e.Invalidates? && e.key == key then None
      else LastSet(events[..|events| - 1], key)
  }

  /** What a Get at `now` should answer, with no mention of eviction. */
  function Expected(ttl: Time, events: seq<Event>, key: Key, now: Time): Option<Granted> {
    match LastSet(events, key)
    case None => None
    case Some(e) => if e.Sets? && now <= e.at + ttl then Some(e.granted) else None
  }

  /** In every run, a hit is the latest Set of the key, at most ttl old and not invalidated
      since; and such a Set is a hit. Evictions, wherever they fall, change no answer. */
  lemma {:induction false} GetIsLastSet(ttl: Time, events: seq<Event>, key: Key, now: Time)
    requires Timed(events, now)
    ensures Lookup(Run(ttl, events), key, now) == Expected(ttl, events, key, now)
  {
    if events != [] {
      var before, e := events[..|events| - 1], events[|events| - 1];
      GetIsLastSet(ttl, before, key, e.at);
      LaterIsTimed(before, e.at, now);
      GetIsLastSet(ttl, before, key, now);
    }
  }

  lemma LaterIsTimed(events: seq<Event>, at: Time, now: Time)
    requires Timed(events, at) && at <= now
    ensures Timed(events, now)
  {
  }
}
