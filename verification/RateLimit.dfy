/** The fixed-window rate limiter over its bounded in-memory table. */
module RateLimit {
  datatype Entry = Entry(count: nat, expiresAt: int)

  type Table = map<string, Entry>

  datatype Request = Request(key: string, window: int, now: int)

  datatype Reply = Counted(count: nat, remaining: int) | NoCapacity

  predicate Live(e: Entry, now: int) {
    now < e.expiresAt
  }

  function Unexpired(entries: Table, now: int): Table {
    map k | k in entries && Live(entries[k], now) :: entries[k]
  }

  predicate Counting(entries: Table, r: Request) {
    r.key in entries && Live(entries[r.key], r.now)
  }

  // Expired counters make room only when a new key finds the table full.
  function MadeRoom(entries: Table, maxKeys: nat, r: Request): Table {
    if r.key !in entries && |entries| >= maxKeys then Unexpired(entries, r.now) else entries
  }

  predicate Full(entries: Table, maxKeys: nat, r: Request) {
    !Counting(entries, r) && r.key !in entries && |MadeRoom(entries, maxKeys, r)| >= maxKeys
  }

  function After(entries: Table, maxKeys: nat, r: Request): Table {
    if Counting(entries, r) then entries[r.key := Entry(entries[r.key].count + 1, entries[r.key].expiresAt)]
    else if Full(entries, maxKeys, r) then MadeRoom(entries, maxKeys, r)
    else MadeRoom(entries, maxKeys, r)[r.key := Entry(1, r.now + r.window)]
  }

  function ReplyTo(entries: Table, maxKeys: nat, r: Request): Reply {
    if Counting(entries, r) then Counted(entries[r.key].count + 1, entries[r.key].expiresAt - r.now)
    else if Full(entries, maxKeys, r) then NoCapacity
    else Counted(1, r.window)
  }

  class MemoryStore {
    var entries: Table
    const maxKeys: nat

    constructor (maxKeys: nat)
      ensures entries == map[] && this.maxKeys == maxKeys
    {
      entries := map[];
      this.maxKeys := maxKeys;
    }

    method Evict(now: int)
      modifies this
      ensures entries == Unexpired(old(entries), now)
    {
      var rest := entries.Keys;
      while rest != {}
        invariant rest <= entries.Keys <= old(entries).Keys
        invariant forall k :: k in entries ==> entries[k] == old(entries)[k] && (k in rest || Live(entries[k], now))
        invariant forall k :: k in old(entries) && k !in entries ==> !Live(old(entries)[k], now)
        decreases rest
      {
        var k :| k in rest;
        rest := rest - {k};
        if now >= entries[k].expiresAt {
          entries := entries - {k};
        }
      }
    }

    method Increment(key: string, window: int, now: int) returns (reply: Reply)
      modifies this
      ensures entries == After(old(entries), maxKeys, Request(key, window, now))
      ensures reply == ReplyTo(old(entries), maxKeys, Request(key, window, now))
    {
      if key in entries && now < entries[key].expiresAt {
        var e := entries[key];
        e := e.(count := e.count + 1);
        entries := entries[key := e];
        return Counted(e.count, e.expiresAt - now);
      }
      if key !in entries && |entries| >= maxKeys {
        Evict(now);
        if |entries| >= maxKeys {
          return NoCapacity;
        }
      }
      entries := entries[key := Entry(1, now + window)];
      reply := Counted(1, window);
    }
  }

  datatype Decision = Allowed | Denied(retryAfter: int) | Error

  predicate ScopeCharacter(c: char) {
    'a' <= c <= 'z' || '0' <= c <= '9' || c == '-' || c == '_' || c == ':'
  }

  method ValidScope(scope: string) returns (valid: bool)
    ensures valid <==> scope != "" && forall c :: c in scope ==> ScopeCharacter(c)
  {
    if scope == "" {
      return false;
    }
    for i := 0 to |scope|
      invariant forall c :: c in scope[..i] ==> ScopeCharacter(c)
    {
      assert scope[i] in scope && scope[..i + 1] == scope[..i] + [scope[i]];
      if !ScopeCharacter(scope[i]) {
        return false;
      }
    }
    assert scope[..|scope|] == scope;
    valid := true;
  }

  // `keyOf` derives the table's key from scope and subject with a keyed digest.
  method Allow(store: MemoryStore, keyOf: (string, string) -> string, scope: string, subject: string, blankSubject: bool,
               limit: int, window: int, now: int) returns (decision: Decision)
    modifies store
    ensures var r := Request(keyOf(scope, subject), window, now);
      var accepted := scope != "" && (forall c :: c in scope ==> ScopeCharacter(c)) && !blankSubject && limit > 0 && window > 0;
      && (!accepted ==> decision == Error && store.entries == old(store.entries))
      && (accepted ==> store.entries == After(old(store.entries), store.maxKeys, r))
      && (accepted ==> decision == match ReplyTo(old(store.entries), store.maxKeys, r)
            case NoCapacity => Error
            case Counted(count, remaining) => if count <= limit then Allowed else Denied(remaining))
      && (decision.Denied? ==> decision.retryAfter > 0)
  {
    var valid := ValidScope(scope);
    if !valid || blankSubject || limit <= 0 || window <= 0 {
      return Error;
    }
    var reply := store.Increment(keyOf(scope, subject), window, now);
    if reply == NoCapacity {
      return Error;
    }
    if reply.count <= limit {
      return Allowed;
    }
    decision := Denied(if reply.remaining <= 0 then window else reply.remaining);
  }

  // ---- The table over a run of requests ----

  function Run(maxKeys: nat, requests: seq<Request>): Table {
    if requests == [] then map[] else After(Run(maxKeys, requests[..|requests| - 1]), maxKeys, requests[|requests| - 1])
  }

  lemma {:induction false} SubsetIsSmaller(a: set<string>, b: set<string>)
    requires a <= b
    ensures |a| <= |b|
  {
    if a != {} {
      var x :| x in a;
      SubsetIsSmaller(a - {x}, b - {x});
    }
  }

  lemma StepStaysBounded(entries: Table, maxKeys: nat, r: Request)
    requires |entries| <= maxKeys
    ensures |After(entries, maxKeys, r)| <= maxKeys
  {
    var room := MadeRoom(entries, maxKeys, r);
    assert room.Keys <= entries.Keys;
    SubsetIsSmaller(room.Keys, entries.Keys);
    if Counting(entries, r) {
      assert After(entries, maxKeys, r).Keys == entries.Keys;
    } else if !Full(entries, maxKeys, r) {
      assert After(entries, maxKeys, r).Keys == room.Keys + {r.key};
      if r.key in entries {
        assert room == entries && room.Keys + {r.key} == entries.Keys;
      }
    }
  }

  // The table never outgrows its capacity, whatever keys arrive.
  lemma {:induction false} TableStaysBounded(maxKeys: nat, requests: seq<Request>)
    ensures |Run(maxKeys, requests)| <= maxKeys
  {
    if requests != [] {
      TableStaysBounded(maxKeys, requests[..|requests| - 1]);
      StepStaysBounded(Run(maxKeys, requests[..|requests| - 1]), maxKeys, requests[|requests| - 1]);
    }
  }

  // A request never makes a live counter of another key disappear or change, and its own live counter only grows.
  lemma LiveCountersSurvive(entries: Table, maxKeys: nat, r: Request, key: string)
    requires key in entries && Live(entries[key], r.now)
    ensures key in After(entries, maxKeys, r)
    ensures After(entries, maxKeys, r)[key] ==
      if key == r.key then Entry(entries[key].count + 1, entries[key].expiresAt) else entries[key]
  {
  }

  // ---- How many requests are allowed ----

  ghost predicate ClockRuns(requests: seq<Request>) {
    forall i, j :: 0 <= i < j < |requests| ==> requests[i].now <= requests[j].now
  }

  // One rule per key: every request of the key uses the same window.
  ghost predicate OneWindow(requests: seq<Request>, key: string, window: int) {
    forall r :: r in requests && r.key == key ==> r.window == window
  }

  predicate Admitted(reply: Reply, limit: nat) {
    reply.Counted? && reply.count <= limit
  }

  // Allowed requests of the key that fall into [from, from + window).
  ghost function AllowedWithin(maxKeys: nat, requests: seq<Request>, key: string, limit: nat, from: int, window: int): nat {
    if requests == [] then 0 else
      var before, r := requests[..|requests| - 1], requests[|requests| - 1];
      AllowedWithin(maxKeys, before, key, limit, from, window) +
      if r.key == key && Admitted(ReplyTo(Run(maxKeys, before), maxKeys, r), limit) && from <= r.now < from + window then 1 else 0
  }

  // Allowed requests of the key in the counter window that ends at `end`.
  ghost function AllowedInWindow(maxKeys: nat, requests: seq<Request>, key: string, limit: nat, end: int): nat {
    if requests == [] then 0 else
      var before, r := requests[..|requests| - 1], requests[|requests| - 1];
      var reply := ReplyTo(Run(maxKeys, before), maxKeys, r);
      AllowedInWindow(maxKeys, before, key, limit, end) +
      if r.key == key && Admitted(reply, limit) && r.now + reply.remaining == end then 1 else 0
  }

  // The key's latest counter window: when it began, and how many allowed requests of the interval it and all earlier
  // windows hold. The counter itself may have been evicted since.
  datatype Ledger = Ledger(began: bool, start: int, early: nat, late: nat)

  ghost function Book(l: Ledger, reply: Reply, r: Request, key: string, limit: nat, from: int, window: int): Ledger {
    if r.key != key || reply.NoCapacity? then l else
    var one := if Admitted(reply, limit) && from <= r.now < from + window then 1 else 0;
    if reply.count == 1 then Ledger(true, r.now, l.early + l.late, one) else l.(late := l.late + one)
  }

  ghost function LedgerOf(maxKeys: nat, requests: seq<Request>, key: string, limit: nat, from: int, window: int): Ledger {
    if requests == [] then Ledger(false, 0, 0, 0) else
      var before, r := requests[..|requests| - 1], requests[|requests| - 1];
      Book(LedgerOf(maxKeys, before, key, limit, from, window), ReplyTo(Run(maxKeys, before), maxKeys, r), r, key, limit, from, window)
  }

  lemma {:induction false} LedgerCounts(maxKeys: nat, requests: seq<Request>, key: string, limit: nat, from: int, window: int)
    ensures var l := LedgerOf(maxKeys, requests, key, limit, from, window);
      l.early + l.late == AllowedWithin(maxKeys, requests, key, limit, from, window)
  {
    if requests != [] {
      LedgerCounts(maxKeys, requests[..|requests| - 1], key, limit, from, window);
    }
  }

  // The table agrees with the ledger at clock c: the counter is that of the latest window, or that window is over.
  ghost predicate Agrees(entries: Table, l: Ledger, key: string, limit: nat, window: int, c: int) {
    && (key in entries ==>
          l.began && entries[key].expiresAt == l.start + window && entries[key].count >= 1 && l.late <= entries[key].count)
    && (key !in entries && l.began ==> c >= l.start + window)
    && (l.began ==> l.start <= c) && (!l.began ==> l.early == 0 && l.late == 0)
    && l.late <= limit
  }

  // At most one limit of the interval's requests lies before the latest window, as long as that window can still
  // take part in the interval; and never more than two limits in all.
  ghost predicate Within(l: Ledger, limit: nat, from: int, window: int, c: int) {
    && (c < from ==> l.early == 0 && l.late == 0)
    && (l.start < from ==> l.early == 0)
    && (l.start < from + window ==> l.early <= limit)
    && l.early + l.late <= 2 * limit
  }

  lemma BookKeepsAgreement(entries: Table, maxKeys: nat, l: Ledger, r: Request, key: string, limit: nat, from: int, window: int, c: int)
    requires Agrees(entries, l, key, limit, window, c) && c <= r.now && window > 0 && (r.key == key ==> r.window == window)
    ensures Agrees(After(entries, maxKeys, r), Book(l, ReplyTo(entries, maxKeys, r), r, key, limit, from, window), key, limit, window, r.now)
  {
    var after := After(entries, maxKeys, r);
    assert key in entries && key !in after ==> !Live(entries[key], r.now);
  }

  lemma BookStaysWithin(entries: Table, maxKeys: nat, l: Ledger, r: Request, key: string, limit: nat, from: int, window: int, c: int)
    requires Agrees(entries, l, key, limit, window, c) && c <= r.now && window > 0 && (r.key == key ==> r.window == window)
    requires Within(l, limit, from, window, c)
    ensures Within(Book(l, ReplyTo(entries, maxKeys, r), r, key, limit, from, window), limit, from, window, r.now)
  {
    var reply := ReplyTo(entries, maxKeys, r);
    if r.key == key && reply.Counted? && reply.count == 1 && l.began {
      assert r.now >= l.start + window;
    }
  }

  lemma ClockOfPrefix(requests: seq<Request>, key: string, window: int)
    requires requests != [] && ClockRuns(requests) && OneWindow(requests, key, window)
    ensures ClockRuns(requests[..|requests| - 1]) && OneWindow(requests[..|requests| - 1], key, window)
    ensures |requests| >= 2 ==> requests[|requests| - 2].now <= requests[|requests| - 1].now
  {
  }

  lemma {:induction false} LedgerHolds(maxKeys: nat, requests: seq<Request>, key: string, limit: nat, from: int, window: int)
    requires ClockRuns(requests) && OneWindow(requests, key, window) && window > 0 && requests != []
    ensures var l, c := LedgerOf(maxKeys, requests, key, limit, from, window), requests[|requests| - 1].now;
      Agrees(Run(maxKeys, requests), l, key, limit, window, c) && Within(l, limit, from, window, c)
  {
    var before, r := requests[..|requests| - 1], requests[|requests| - 1];
    assert r in requests;
    ClockOfPrefix(requests, key, window);
    if before == [] {
      BookKeepsAgreement(map[], maxKeys, Ledger(false, 0, 0, 0), r, key, limit, from, window, r.now);
      BookStaysWithin(map[], maxKeys, Ledger(false, 0, 0, 0), r, key, limit, from, window, r.now);
    } else {
      LedgerHolds(maxKeys, before, key, limit, from, window);
      var l, c := LedgerOf(maxKeys, before, key, limit, from, window), before[|before| - 1].now;
      BookKeepsAgreement(Run(maxKeys, before), maxKeys, l, r, key, limit, from, window, c);
      BookStaysWithin(Run(maxKeys, before), maxKeys, l, r, key, limit, from, window, c);
    }
  }

  // No interval as long as the window ever sees more than twice the limit, whatever other keys do to the table.
  lemma AtMostTwiceTheLimit(maxKeys: nat, requests: seq<Request>, key: string, limit: nat, from: int, window: int)
    requires ClockRuns(requests) && OneWindow(requests, key, window) && window > 0
    ensures AllowedWithin(maxKeys, requests, key, limit, from, window) <= 2 * limit
  {
    if requests != [] {
      LedgerHolds(maxKeys, requests, key, limit, from, window);
      LedgerCounts(maxKeys, requests, key, limit, from, window);
    }
  }

  // ---- One window ----

  // Allowed requests of a window are counted by its counter; windows still to come have none.
  ghost predicate WindowCounted(entries: Table, l: Ledger, key: string, limit: nat, window: int, end: int, allowed: nat) {
    && allowed <= limit
    && (allowed > 0 ==> l.began && end <= l.start + window)
    && (key in entries && end == l.start + window ==> allowed <= entries[key].count)
  }

  lemma WindowStep(entries: Table, maxKeys: nat, l: Ledger, r: Request, key: string, limit: nat, end: int, window: int, c: int, allowed: nat)
    requires Agrees(entries, l, key, limit, window, c) && c <= r.now && window > 0 && (r.key == key ==> r.window == window)
    requires WindowCounted(entries, l, key, limit, window, end, allowed)
    ensures var reply := ReplyTo(entries, maxKeys, r);
      WindowCounted(After(entries, maxKeys, r), Book(l, reply, r, key, limit, 0, window), key, limit, window, end,
        allowed + if r.key == key && Admitted(reply, limit) && r.now + reply.remaining == end then 1 else 0)
  {
    var reply := ReplyTo(entries, maxKeys, r);
    if r.key == key && reply.Counted? && reply.count == 1 && l.began {
      assert r.now >= l.start + window;
    }
  }

  lemma {:induction false} WindowHolds(maxKeys: nat, requests: seq<Request>, key: string, limit: nat, end: int, window: int)
    requires ClockRuns(requests) && OneWindow(requests, key, window) && window > 0 && requests != []
    ensures WindowCounted(Run(maxKeys, requests), LedgerOf(maxKeys, requests, key, limit, 0, window), key, limit, window, end,
                          AllowedInWindow(maxKeys, requests, key, limit, end))
  {
    var before, r := requests[..|requests| - 1], requests[|requests| - 1];
    assert r in requests;
    ClockOfPrefix(requests, key, window);
    if before != [] {
      WindowHolds(maxKeys, before, key, limit, end, window);
      LedgerHolds(maxKeys, before, key, limit, 0, window);
      WindowStep(Run(maxKeys, before), maxKeys, LedgerOf(maxKeys, before, key, limit, 0, window), r, key, limit, end, window,
                 before[|before| - 1].now, AllowedInWindow(maxKeys, before, key, limit, end));
    } else {
      WindowStep(map[], maxKeys, Ledger(false, 0, 0, 0), r, key, limit, end, window, r.now, 0);
    }
  }

  // A counter window never allows more than the limit.
  lemma AtMostTheLimitPerWindow(maxKeys: nat, requests: seq<Request>, key: string, limit: nat, end: int, window: int)
    requires ClockRuns(requests) && OneWindow(requests, key, window) && window > 0
    ensures AllowedInWindow(maxKeys, requests, key, limit, end) <= limit
  {
    if requests != [] {
      WindowHolds(maxKeys, requests, key, limit, end, window);
    }
  }

  // ---- Coming back ----

  // The key was denied until `until`: its counter is above the limit up to then, and is only missing afterwards.
  ghost predicate DeniedUntil(entries: Table, key: string, limit: nat, until: int, c: int) {
    if key in entries then entries[key].expiresAt == until && entries[key].count > limit else until <= c
  }

  lemma StaysDenied(entries: Table, maxKeys: nat, r: Request, key: string, limit: nat, until: int, c: int)
    requires DeniedUntil(entries, key, limit, until, c) && c <= r.now && (r.key == key ==> r.now < until)
    ensures DeniedUntil(After(entries, maxKeys, r), key, limit, until, r.now)
  {
  }

  lemma {:induction false} DenialHolds(maxKeys: nat, requests: seq<Request>, i: nat, limit: nat, until: int)
    requires i < |requests| && ClockRuns(requests)
    requires var reply := ReplyTo(Run(maxKeys, requests[..i]), maxKeys, requests[i]);
      reply.Counted? && reply.count > limit > 0 && until == requests[i].now + reply.remaining
    requires forall j :: i < j < |requests| && requests[j].key == requests[i].key ==> requests[j].now < until
    ensures DeniedUntil(Run(maxKeys, requests), requests[i].key, limit, until, requests[|requests| - 1].now)
  {
    var before, r := requests[..|requests| - 1], requests[|requests| - 1];
    if i < |before| {
      assert before[..i] == requests[..i];
      DenialHolds(maxKeys, before, i, limit, until);
      StaysDenied(Run(maxKeys, before), maxKeys, r, requests[i].key, limit, until, before[|before| - 1].now);
    } else {
      assert before == requests[..i];
    }
  }

  // A denial names the exact time to come back. Whatever other keys have done to the table since, and however often
  // the key has tried too early: until then it stays denied, and from then on it is allowed, unless its expired counter
  // has been evicted and live counters fill the table.
  lemma RetryIsExact(maxKeys: nat, requests: seq<Request>, i: nat, back: Request, limit: nat)
    requires i < |requests| && ClockRuns(requests + [back]) && back.key == requests[i].key
    requires var reply := ReplyTo(Run(maxKeys, requests[..i]), maxKeys, requests[i]);
      && reply.Counted? && reply.count > limit > 0
      && forall j :: i < j < |requests| && requests[j].key == back.key ==> requests[j].now < requests[i].now + reply.remaining
    ensures var until := requests[i].now + ReplyTo(Run(maxKeys, requests[..i]), maxKeys, requests[i]).remaining;
      var table := Run(maxKeys, requests);
      && (back.now < until ==> ReplyTo(table, maxKeys, back).Counted? && ReplyTo(table, maxKeys, back).count > limit)
      && (until <= back.now ==>
            (Admitted(ReplyTo(table, maxKeys, back), limit) <==>
              back.key in table || |table| < maxKeys || |Unexpired(table, back.now)| < maxKeys))
  {
    var until := requests[i].now + ReplyTo(Run(maxKeys, requests[..i]), maxKeys, requests[i]).remaining;
    var clock := requests + [back];
    assert forall k :: 0 <= k < |requests| ==> clock[k] == requests[k];
    assert clock[|requests| - 1].now <= clock[|requests|].now;
    DenialHolds(maxKeys, requests, i, limit, until);
  }

  // That exception happens: in a table for one key, a second key takes the place of the first.
  lemma ReturnCanFindNoRoom()
    ensures var a, b := Request("a", 10, 0), Request("b", 10, 10);
      && ReplyTo(Run(1, [a]), 1, a) == Counted(2, 10)
      && ReplyTo(Run(1, [a, a, b]), 1, a.(now := 10)) == NoCapacity
  {
    var a, b := Request("a", 10, 0), Request("b", 10, 10);
    assert [a][..0] == [] && [a, a][..1] == [a] && [a, a, b][..2] == [a, a];
    var table := Run(1, [a, a]);
    assert Run(1, [a]) == map["a" := Entry(1, 10)] && table == map["a" := Entry(2, 10)];
    assert Unexpired(table, 10) == map[] && table.Keys == {"a"};
    assert Run(1, [a, a, b]) == map["b" := Entry(1, 20)];
    assert Unexpired(map["b" := Entry(1, 20)], 10) == map["b" := Entry(1, 20)];
  }
}
