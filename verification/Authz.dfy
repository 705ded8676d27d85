/** Loading and applying a caller's granted set (internal/authz/authz.go). The database's
    answers to one request are an argument. */
module Authz {
  import opened Filters
  import opened Options
  import opened GrantCache

  datatype Claims = Claims(orgID: string, subject: string, agentID: string, isAdmin: bool)

  datatype CallerAnswer = Found(tags: seq<string>) | NotFound | LookupFailed

  datatype Fetch<+T> = Fetched(value: T) | FetchFailed

  /** What one request is told: whether the subject is a UUID, the caller's agent row, the
      agents that share a tag with it, and the agents granted to it. */
  datatype Answers = Answers(
    subjectParses: bool, caller: CallerAnswer,
    tagMatches: Fetch<seq<string>>, grantMatches: Fetch<set<string>>)

  datatype Outcome<+T> = Ok(value: T) | Failed

  function CacheKey(c: Claims): Key {
    c.orgID + ":" + c.subject
  }

  /** The agents a request may see, by the rules and not by a cache. */
  function Accessible(c: Claims, a: Answers): Outcome<set<string>> {
    var tagged := a.caller.Found? && a.caller.tags != [];
    if a.caller.LookupFailed? || (tagged && a.tagMatches.FetchFailed?) || a.grantMatches.FetchFailed? then Failed
    else Ok({c.agentID} + (if tagged then Elements(a.tagMatches.value) else {}) + a.grantMatches.value)
  }

  function Elements(ids: seq<string>): set<string> {
    set id | id in ids
  }

  function AllTrue(ids: set<string>): map<string, bool> {
    map id | id in ids :: true
  }

  /** One LoadGrantedSet: looks the key up at `now` and stores at `later`. */
  function Load(ttl: Time, entries: Entries, claims: Option<Claims>, a: Answers, now: Time, later: Time)
    : (Outcome<Granted>, Entries)
  {
    match claims
    case None => (Ok(Some(map[])), entries)
    case Some(c) =>
      if c.isAdmin then (Ok(None), entries)
      else match Lookup(entries, CacheKey(c), now)
        case Some(granted) => (Ok(granted), entries)
        case None =>
          if !a.subjectParses then (Ok(Some(map[])), entries)
          else match Accessible(c, a)
            case Failed => (Failed, entries)
            case Ok(ids) => (Ok(Some(AllTrue(ids))), entries[CacheKey(c) := Entry(Some(AllTrue(ids)), later + ttl)])
  }

  /** What the cache holds; the source takes nil for no cache. */
  ghost function Held(cache: Cache?): Entries
    reads cache, if cache == null then {} else cache.Repr()
  {
    if cache == null then map[] else cache.View()
  }

  ghost function TTLOf(cache: Cache?): Time {
    if cache == null then 0 else cache.ttl
  }

  method LoadGrantedSet(claims: Option<Claims>, a: Answers, cache: Cache?, now: Time, later: Time)
    returns (r: Outcome<GrantSet?>)
    modifies cache
    ensures cache != null ==> cache.View() == Load(cache.ttl, old(cache.View()), claims, a, now, later).1
    ensures match Load(TTLOf(cache), old(Held(cache)), claims, a, now, later).0
      case Failed => r == Failed
      case Ok(granted) => r.Ok? && ValueOf(r.value) == granted
    ensures r.Ok? && r.value != null ==> fresh(r.value) && (cache != null ==> r.value !in cache.Repr())
    ensures cache != null ==> fresh(cache.Repr() - old(cache.Repr()))
  {
    if claims.None? {
      var none := new GrantSet(map[]);
      return Ok(none);
    }
    var c := claims.value;
    if c.isAdmin {
      return Ok(null);
    }
    var cacheKey := CacheKey(c);
    if cache != null {
      var cached, hit := cache.Get(cacheKey, now);
      if hit {
        return Ok(cached);
      }
    }
    if !a.subjectParses {
      var none := new GrantSet(map[]);
      return Ok(none);
    }
    var computed := ComputeGranted(c, a);
    if computed.Failed? {
      return Failed;
    }
    if cache != null {
      cache.Set(cacheKey, computed.value, later);
    }
    r := Ok(computed.value);
  }

  /** The part of LoadGrantedSet that asks the database. */
  method ComputeGranted(c: Claims, a: Answers) returns (r: Outcome<GrantSet>)
    ensures match Accessible(c, a)
      case Failed => r == Failed
      case Ok(ids) => r.Ok? && fresh(r.value) && r.value.members == AllTrue(ids)
  {
    if a.caller.LookupFailed? {
      return Failed;
    }
    var granted := new GrantSet(map[c.agentID := true]);
    if a.caller.Found? && |a.caller.tags| > 0 {
      if a.tagMatches.FetchFailed? {
        return Failed;
      }
      GrantAll(granted, a.tagMatches.value);
    }
    if a.grantMatches.FetchFailed? {
      return Failed;
    }
    GrantEach(granted, a.grantMatches.value);
    assert granted.members == AllTrue(Accessible(c, a).value);
    r := Ok(granted);
  }

  /** The loop over tag matches. */
  method GrantAll(granted: GrantSet, ids: seq<string>)
    modifies granted
    ensures granted.members == old(granted.members) + AllTrue(Elements(ids))
  {
    for i := 0 to |ids|
      invariant granted.members == old(granted.members) + AllTrue(Elements(ids[..i]))
    {
      assert Elements(ids[..i + 1]) == Elements(ids[..i]) + {ids[i]};
      granted.members := granted.members[ids[i] := true];
    }
    assert ids[..|ids|] == ids;
  }

  /** The loop over grants. */
  method GrantEach(granted: GrantSet, ids: set<string>)
    modifies granted
    ensures granted.members == old(granted.members) + AllTrue(ids)
  {
    var left := ids;
    while left != {}
      invariant left <= ids
      invariant granted.members == old(granted.members) + AllTrue(ids - left)
      decreases left
    {
      var id :| id in left;
      granted.members := granted.members[id := true];
      left := left - {id};
    }
  }

  // ---- Filtering ----

  datatype Decision = Decision(id: nat, agentID: string)

  predicate Allows(granted: Granted, agentID: string) {
    granted.None? || (agentID in granted.value && granted.value[agentID])
  }

  /** The decisions of allowed agents, in their order. */
  function Visible(granted: Granted, decisions: seq<Decision>): seq<Decision> {
    if decisions == [] then []
    else
      var n := |decisions| - 1;
      Visible(granted, decisions[..n]) + if Allows(granted, decisions[n].agentID) then [decisions[n]] else []
  }

  lemma {:induction false} AllVisible(decisions: seq<Decision>)
    ensures Visible(None, decisions) == decisions
  {
    if decisions != [] {
      AllVisible(decisions[..|decisions| - 1]);
    }
  }

  /** What FilterDecisions answers. */
  function Shown(ttl: Time, entries: Entries, claims: Option<Claims>, a: Answers, decisions: seq<Decision>, now: Time, later: Time)
    : Outcome<seq<Decision>>
  {
    match Load(ttl, entries, claims, a, now, later).0
    case Failed => Failed
    case Ok(granted) => Ok(Visible(granted, decisions))
  }

  method FilterDecisions(claims: Option<Claims>, a: Answers, decisions: seq<Decision>, cache: Cache?, now: Time, later: Time)
    returns (r: Outcome<seq<Decision>>)
    modifies cache
    ensures cache != null ==> cache.View() == Load(cache.ttl, old(cache.View()), claims, a, now, later).1
    ensures r == Shown(TTLOf(cache), old(Held(cache)), claims, a, decisions, now, later)
    ensures claims.None? ==> r == Ok([])
    ensures claims.Some? && claims.value.isAdmin ==> r == Ok(decisions)
  {
    NothingVisible(decisions);
    AllVisible(decisions);
    var loaded := LoadGrantedSet(claims, a, cache, now, later);
    if loaded.Failed? {
      return Failed;
    }
    if loaded.value == null {
      AllVisible(decisions);
      return Ok(decisions);
    }
    var members := loaded.value.members;
    var allowed := [];
    for i := 0 to |decisions|
      invariant allowed == Visible(Some(members), decisions[..i])
    {
      assert decisions[..i + 1][..i] == decisions[..i];
      var agentID := decisions[i].agentID;
      if agentID in members && members[agentID] {
        allowed := allowed + [decisions[i]];
      }
    }
    assert decisions[..|decisions|] == decisions;
    r := Ok(allowed);
  }

  // ---- Runs ----

  /** A request, the invalidation of a key, or an eviction. */
  datatype Event =
    | Request(claims: Option<Claims>, answers: Answers, now: Time, later: Time)
    | Invalidated(key: Key, now: Time)
    | Evicted(now: Time)

  function Step(ttl: Time, entries: Entries, e: Event): Entries {
    match e
    case Request(claims, a, now, later) => Load(ttl, entries, claims, a, now, later).1
    case Invalidated(key, _) => entries - {key}
    case Evicted(now) => Unexpired(entries, now)
  }

  function Run(ttl: Time, events: seq<Event>): Entries {
    if events == [] then map[] else Step(ttl, Run(ttl, events[..|events| - 1]), events[|events| - 1])
  }

  /** The request computed `ids` by the rules, for callers with this key. */
  predicate Computes(e: Event, key: Key, ids: set<string>) {
    && e.Request? && e.claims.Some? && !e.claims.value.isAdmin && e.answers.subjectParses
    && CacheKey(e.claims.value) == key && Accessible(e.claims.value, e.answers) == Ok(ids)
  }

  /** Request i of the run is where the key's entry comes from, and it was not invalidated. */
  predicate ComesFrom(ttl: Time, events: seq<Event>, key: Key, entry: Entry, i: nat)
    requires i < |events|
  {
    && events[i].Request?
    && entry.expiresAt == events[i].later + ttl
    && entry.granted.Some? && Computes(events[i], key, entry.granted.value.Keys)
    && entry.granted.value == AllTrue(entry.granted.value.Keys)
    && forall j :: i < j < |events| ==> events[j].Invalidated? ==> events[j].key != key
  }

  lemma {:induction false} EntriesComeFromRequests(ttl: Time, events: seq<Event>, key: Key)
    requires key in Run(ttl, events)
    ensures exists i :: 0 <= i < |events| && ComesFrom(ttl, events, key, Run(ttl, events)[key], i)
  {
    var n := |events| - 1;
    var before, e := events[..n], events[n];
    var earlier, after := Run(ttl, before), Run(ttl, events);
    if key in earlier && after[key] == earlier[key] && !(e.Invalidated? && e.key == key) {
      EntriesComeFromRequests(ttl, before, key);
      var i :| 0 <= i < n && ComesFrom(ttl, before, key, earlier[key], i);
      assert events[i] == before[i];
      assert forall j :: i < j < n ==> events[j] == before[j];
      assert ComesFrom(ttl, events, key, after[key], i);
    } else {
      var ids := Accessible(e.claims.value, e.answers).value;
      assert after[key].granted.value == AllTrue(ids) && AllTrue(ids).Keys == ids;
      assert ComesFrom(ttl, events, key, after[key], n);
    }
  }

  /** The organisation's id as a UUID prints: without the separator of the key. */
  predicate SeparableKey(c: Claims) {
    ':' !in c.orgID
  }

  predicate SeparableKeys(events: seq<Event>) {
    forall i :: 0 <= i < |events| && events[i].Request? && events[i].claims.Some? ==> SeparableKey(events[i].claims.value)
  }

  /** The key tells organisation and subject apart, whatever the subject is. */
  lemma KeyFixesCaller(c: Claims, d: Claims)
    requires SeparableKey(c) && SeparableKey(d)
    ensures CacheKey(c) == CacheKey(d) <==> c.orgID == d.orgID && c.subject == d.subject
  {
    if CacheKey(c) == CacheKey(d) {
      var m, n := |c.orgID|, |d.orgID|;
      assert CacheKey(c)[m] == ':' && CacheKey(d)[n] == ':';
      assert forall k :: 0 <= k < m ==> CacheKey(c)[k] == c.orgID[k] != ':';
      assert forall k :: 0 <= k < n ==> CacheKey(d)[k] == d.orgID[k] != ':';
      assert m == n;
      assert c.orgID == CacheKey(c)[..m] && d.orgID == CacheKey(d)[..m];
      assert c.subject == CacheKey(c)[m + 1..] && d.subject == CacheKey(d)[m + 1..];
    }
  }

  /** The request computed `ids` by the rules for the caller's own organisation and subject. */
  predicate ComputesFor(e: Event, c: Claims, ids: set<string>) {
    && Computes(e, CacheKey(c), ids)
    && e.claims.value.orgID == c.orgID && e.claims.value.subject == c.subject
  }

  /** In every sequential run, FilterDecisions shows a caller that is not an admin exactly the
      decisions of agents that a grant set allows which was computed by the rules for its
      organisation and subject: by this request, or by one at most ttl before it with no
      invalidation since. A caller whose subject is malformed sees nothing. */
  lemma FilterIsRecent(ttl: Time, events: seq<Event>, c: Claims, a: Answers, decisions: seq<Decision>, now: Time, later: Time)
    requires !c.isAdmin && Load(ttl, Run(ttl, events), Some(c), a, now, later).0.Ok?
    requires SeparableKey(c) && SeparableKeys(events)
    ensures
      var granted := Load(ttl, Run(ttl, events), Some(c), a, now, later).0.value;
      var shown := Visible(granted, decisions);
      || (!a.subjectParses && shown == [])
      || (exists ids :: Accessible(c, a) == Ok(ids) && shown == OfAgents(ids, decisions))
      || (exists i, ids :: && 0 <= i < |events| && ComputesFor(events[i], c, ids) && now <= events[i].later + ttl
                           && (forall j :: i < j < |events| && events[j].Invalidated? ==> events[j].key != CacheKey(c))
                           && shown == OfAgents(ids, decisions))
  {
    var entries := Run(ttl, events);
    var granted := Load(ttl, entries, Some(c), a, now, later).0.value;
    var key := CacheKey(c);
    if Lookup(entries, key, now).Some? {
      EntriesComeFromRequests(ttl, events, key);
      var i :| 0 <= i < |events| && ComesFrom(ttl, events, key, entries[key], i);
      var ids := granted.value.Keys;
      VisibleIsOfAgents(ids, decisions);
      KeyFixesCaller(events[i].claims.value, c);
      assert ComputesFor(events[i], c, ids) && now <= events[i].later + ttl;
    } else if a.subjectParses {
      var ids := Accessible(c, a).value;
      VisibleIsOfAgents(ids, decisions);
    } else {
      NothingVisible(decisions);
    }
  }

  function OfAgents(ids: set<string>, decisions: seq<Decision>): seq<Decision> {
    if decisions == [] then []
    else
      var n := |decisions| - 1;
      OfAgents(ids, decisions[..n]) + if decisions[n].agentID in ids then [decisions[n]] else []
  }

  lemma {:induction false} VisibleIsOfAgents(ids: set<string>, decisions: seq<Decision>)
    ensures Visible(Some(AllTrue(ids)), decisions) == OfAgents(ids, decisions)
  {
    if decisions != [] {
      VisibleIsOfAgents(ids, decisions[..|decisions| - 1]);
    }
  }

  lemma {:induction false} NothingVisible(decisions: seq<Decision>)
    ensures Visible(Some(map[]), decisions) == []
  {
    if decisions != [] {
      NothingVisible(decisions[..|decisions| - 1]);
    }
  }

  // ---- What one request is shown ----

  /** Whatever the cache holds and whatever the queries answer: absent claims are shown nothing,
      an admin everything, and the cache is left alone. */
  lemma NoClaimsOrAdmin(ttl: Time, entries: Entries, claims: Option<Claims>, a: Answers, decisions: seq<Decision>, now: Time, later: Time)
    requires claims.Some? ==> claims.value.isAdmin
    ensures Shown(ttl, entries, claims, a, decisions, now, later) == Ok(if claims.None? then [] else decisions)
    ensures Load(ttl, entries, claims, a, now, later).1 == entries
  {
    NothingVisible(decisions);
    AllVisible(decisions);
  }

  /** A live entry answers alone: exactly its agents are shown, whatever the queries would say,
      and the cache is left alone. */
  lemma LiveEntryAnswers(ttl: Time, entries: Entries, c: Claims, a: Answers, decisions: seq<Decision>, now: Time, later: Time)
    requires !c.isAdmin
    requires CacheKey(c) in entries && now <= entries[CacheKey(c)].expiresAt && entries[CacheKey(c)].granted.Some?
    ensures
      var held := entries[CacheKey(c)].granted.value;
      Shown(ttl, entries, Some(c), a, decisions, now, later)
      == Ok(Filter((d: Decision) => d.agentID in held && held[d.agentID], decisions))
    ensures Load(ttl, entries, Some(c), a, now, later).1 == entries
  {
    VisibleIsFilter(entries[CacheKey(c)].granted.value, decisions);
  }

  /** Which failing reads make a request without a live entry fail. */
  predicate ReadsFail(a: Answers) {
    || a.caller == LookupFailed
    || (a.caller.Found? && a.caller.tags != [] && a.tagMatches == FetchFailed)
    || a.grantMatches == FetchFailed
  }

  /** The agents such a request may see: the caller's own, those that share a tag with a caller
      that has tags, and those granted to it. */
  predicate MaySee(c: Claims, a: Answers, agentID: string) {
    || agentID == c.agentID
    || (a.caller.Found? && a.caller.tags != [] && a.tagMatches.Fetched? && agentID in a.tagMatches.value)
    || (a.grantMatches.Fetched? && agentID in a.grantMatches.value)
  }

  /** Without a live entry: a malformed subject is shown nothing; else the request fails exactly if
      a read it needs fails, and otherwise is shown exactly the decisions of agents it may
      see, which are then held for the key until ttl after they were stored. */
  lemma ComputedAnswer(ttl: Time, entries: Entries, c: Claims, a: Answers, decisions: seq<Decision>, now: Time, later: Time)
    requires !c.isAdmin && !(CacheKey(c) in entries && now <= entries[CacheKey(c)].expiresAt)
    ensures Shown(ttl, entries, Some(c), a, decisions, now, later) ==
      if !a.subjectParses then Ok([])
      else if ReadsFail(a) then Failed
      else Ok(Filter((d: Decision) => MaySee(c, a, d.agentID), decisions))
    ensures
      var after := Load(ttl, entries, Some(c), a, now, later).1;
      if !a.subjectParses || ReadsFail(a) then after == entries
      else && after.Keys == entries.Keys + {CacheKey(c)} && after[CacheKey(c)].expiresAt == later + ttl
           && (forall key :: key in entries && key != CacheKey(c) ==> after[key] == entries[key])
           && forall id :: Allows(after[CacheKey(c)].granted, id) <==> MaySee(c, a, id)
  {
    if !a.subjectParses {
      NothingVisible(decisions);
    } else if !ReadsFail(a) {
      var ids := Accessible(c, a).value;
      VisibleIsFilter(AllTrue(ids), decisions);
      SameFilter((d: Decision) => d.agentID in AllTrue(ids) && AllTrue(ids)[d.agentID],
                 (d: Decision) => MaySee(c, a, d.agentID), decisions);
    }
  }

  lemma {:induction false} VisibleIsFilter(held: map<string, bool>, decisions: seq<Decision>)
    ensures Visible(Some(held), decisions) == Filter((d: Decision) => d.agentID in held && held[d.agentID], decisions)
  {
    if decisions != [] {
      VisibleIsFilter(held, decisions[..|decisions| - 1]);
    }
  }
}
