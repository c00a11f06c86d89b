/**
  The sliding-window request limiter (src/confighttp.cpp:696-752): a shared map from remote
  address to the times of its recent requests, oldest first.
 */
module RateLimiter {
  /** The entries of `times` later than `cutoff`, in order. */
  function Later(times: seq<int>, cutoff: int): (r: seq<int>)
    ensures forall t <- r :: t > cutoff
    ensures |r| <= |times|
  {
    if times == [] then []
    else (if times[0] > cutoff then [times[0]] else []) + Later(times[1..], cutoff)
  }

  predicate Sorted(times: seq<int>) {
    forall i, j | 0 <= i < j < |times| :: times[i] <= times[j]
  }

  /** The operator[] lookup: a missing address has no entries. */
  function Entry(attempts: map<string, seq<int>>, address: string): seq<int> {
    if address in attempts then attempts[address] else []
  }

  /** What the loop leaves: entries up to `cutoff` are popped while they are at the front. */
  function Pruned(entry: seq<int>, cutoff: int): seq<int> {
    if entry == [] || entry[0] > cutoff then entry else Pruned(entry[1..], cutoff)
  }

  /** One call of the limiter, with the time its clock shows. */
  datatype Call =
    | Consume(address: string, now: int)
    | Exhausted(address: string, now: int)
    | RecordFailure(address: string, now: int)
    | Clear(address: string, now: int)

  type Table = map<string, seq<int>>

  /** The table after a call, and the answer (false where the call returns nothing). */
  function Next(attempts: Table, call: Call, most: nat, window: int): (Table, bool) {
    match call
    case Consume(a, now) =>
      var entry := Pruned(Entry(attempts, a), now - window);
      if |entry| >= most then (attempts[a := entry], false) else (attempts[a := entry + [now]], true)
    case Exhausted(a, now) =>
      var entry := Pruned(Entry(attempts, a), now - window);
      (attempts[a := entry], |entry| >= most)
    case RecordFailure(a, now) => (attempts[a := Entry(attempts, a) + [now]], false)
    case Clear(a, _) => (attempts - {a}, false)
  }

  class Limiter {
    var attempts: Table

    constructor ()
      ensures attempts == map[]
    {
      attempts := map[];
    }

    /** The loop both window checks start with. */
    method Prune(address: string, cutoff: int) returns (entry: seq<int>)
      modifies this
      ensures entry == Pruned(Entry(old(attempts), address), cutoff)
      ensures attempts == old(attempts)[address := entry]
    {
      entry := Entry(attempts, address);
      while entry != [] && entry[0] <= cutoff
        invariant Pruned(entry, cutoff) == Pruned(Entry(attempts, address), cutoff)
        decreases |entry|
      {
        entry := entry[1..];
      }
      attempts := attempts[address := entry];
    }

    method ConsumeRateLimit(address: string, most: nat, window: int, now: int) returns (allowed: bool)
      modifies this
      ensures (attempts, allowed) == Next(old(attempts), Consume(address, now), most, window)
    {
      var entry := Prune(address, now - window);
      if |entry| >= most {
        return false;
      }
      attempts := attempts[address := entry + [now]];
      assert attempts == old(attempts)[address := entry + [now]];
      return true;
    }

    method RateLimitExhausted(address: string, most: nat, window: int, now: int) returns (exhausted: bool)
      modifies this
      ensures (attempts, exhausted) == Next(old(attempts), Exhausted(address, now), most, window)
    {
      var entry := Prune(address, now - window);
      return |entry| >= most;
    }

    method RecordRateLimitFailure(address: string, now: int)
      modifies this
      ensures forall most, window :: attempts == Next(old(attempts), RecordFailure(address, now), most, window).0
    {
      attempts := attempts[address := Entry(attempts, address) + [now]];
    }

    method ClearRateLimit(address: string)
      modifies this
      ensures forall now, most, window :: attempts == Next(old(attempts), Clear(address, now), most, window).0
    {
      attempts := attempts - {address};
    }
  }

  // ----- Runs, and the limiter that forgets nothing -----

  function After(calls: seq<Call>, most: nat, window: int): Table {
    if calls == [] then map[]
    else Next(After(calls[..|calls| - 1], most, window), calls[|calls| - 1], most, window).0
  }

  function Answer(calls: seq<Call>, k: nat, most: nat, window: int): bool
    requires k < |calls|
  {
    Next(After(calls[..k], most, window), calls[k], most, window).1
  }

  predicate Monotone(calls: seq<Call>) {
    forall i, j | 0 <= i < j < |calls| :: calls[i].now <= calls[j].now
  }

  /** The history of `address` after one more call. */
  function Recorded(history: seq<int>, call: Call, address: string, most: nat, window: int): seq<int> {
    if call.address != address then history
    else
      match call
      case Consume(_, now) => if |Later(history, now - window)| < most then history + [now] else history
      case Exhausted(_, _) => history
      case RecordFailure(_, now) => history + [now]
      case Clear(_, _) => []
  }

  /** Every request of `address` allowed or recorded since it was last cleared, none forgotten. */
  function History(calls: seq<Call>, address: string, most: nat, window: int): seq<int> {
    if calls == [] then []
    else Recorded(History(calls[..|calls| - 1], address, most, window), calls[|calls| - 1], address, most, window)
  }

  // ----- Pruning and filtering -----

  lemma {:induction false} LaterAppend(a: seq<int>, b: seq<int>, cutoff: int)
    ensures Later(a + b, cutoff) == Later(a, cutoff) + Later(b, cutoff)
  {
    if a == [] {
      assert a + b == b;
    } else {
      assert (a + b)[1..] == a[1..] + b;
      LaterAppend(a[1..], b, cutoff);
    }
  }

  lemma {:induction false} LaterTwice(times: seq<int>, first: int, second: int)
    requires first <= second
    ensures Later(Later(times, first), second) == Later(times, second)
  {
    if times == [] {
    } else {
      LaterTwice(times[1..], first, second);
      LaterAppend(if times[0] > first then [times[0]] else [], Later(times[1..], first), second);
    }
  }

  lemma {:induction false} AllLater(times: seq<int>, cutoff: int)
    requires forall t <- times :: t > cutoff
    ensures Later(times, cutoff) == times
  {
    if times == [] {
    } else {
      assert times[0] in times && forall t <- times[1..] :: t in times;
      AllLater(times[1..], cutoff);
    }
  }

  /** Popping from the front of a sorted entry keeps exactly the entries inside the window. */
  lemma {:induction false} PrunedIsLater(entry: seq<int>, cutoff: int)
    requires Sorted(entry)
    ensures Pruned(entry, cutoff) == Later(entry, cutoff)
    ensures Sorted(Pruned(entry, cutoff)) && forall t <- Pruned(entry, cutoff) :: t in entry
  {
    if entry == [] {
    } else {
      if entry[0] > cutoff {
        forall t | t in entry ensures t > cutoff {
          var i :| 0 <= i < |entry| && entry[i] == t;
        }
        AllLater(entry, cutoff);
      } else {
        PrunedIsLater(entry[1..], cutoff);
      }
    }
  }

  /** An entry that has forgotten some of the history shows the same windows from `now` on. */
  ghost predicate Agrees(entry: seq<int>, history: seq<int>, now: int, window: int) {
    && Sorted(entry) && (forall t <- entry :: t <= now)
    && forall cutoff | cutoff >= now - window :: Later(entry, cutoff) == Later(history, cutoff)
  }

  lemma AgreesLater(entry: seq<int>, history: seq<int>, now: int, window: int)
    requires Agrees(entry, history, now, window)
    ensures Pruned(entry, now - window) == Later(history, now - window)
    ensures Agrees(Pruned(entry, now - window), history, now, window)
  {
    hide Pruned, Later, Sorted;
    PrunedIsLater(entry, now - window);
    forall cutoff | cutoff >= now - window
      ensures Later(Pruned(entry, now - window), cutoff) == Later(history, cutoff)
    {
      LaterTwice(history, now - window, cutoff);
    }
  }

  lemma AgreesAppend(entry: seq<int>, history: seq<int>, now: int, window: int)
    requires Agrees(entry, history, now, window)
    ensures Agrees(entry + [now], history + [now], now, window)
  {
    assert Sorted(entry + [now]) by {
      assert forall t | 0 <= t < |entry| :: entry[t] in entry;
    }
    forall cutoff | cutoff >= now - window
      ensures Later(entry + [now], cutoff) == Later(history + [now], cutoff)
    {
      LaterAppend(entry, [now], cutoff);
      LaterAppend(history, [now], cutoff);
    }
  }

  lemma CallAgrees(attempts: Table, history: seq<int>, call: Call, address: string, most: nat, window: int)
    requires Agrees(Entry(attempts, address), history, call.now, window)
    ensures Agrees(Entry(Next(attempts, call, most, window).0, address),
                   Recorded(history, call, address, most, window), call.now, window)
  {
    hide Pruned, Later, Agrees;
    var entry := Entry(attempts, address);
    if call.address == address {
      match call
      case Consume(_, now) =>
        AgreesLater(entry, history, now, window);
        AgreesAppend(Pruned(entry, now - window), history, now, window);
      case Exhausted(_, now) => AgreesLater(entry, history, now, window);
      case RecordFailure(_, now) => AgreesAppend(entry, history, now, window);
      case Clear(_, now) => NothingAgrees(now, window);
    }
  }

  lemma NothingAgrees(now: int, window: int)
    ensures Agrees([], [], now, window)
  {
  }

  lemma {:induction false} TableAgrees(calls: seq<Call>, address: string, now: int, most: nat, window: int)
    requires Monotone(calls) && forall c <- calls :: c.now <= now
    ensures Agrees(Entry(After(calls, most, window), address), History(calls, address, most, window), now, window)
  {
    hide Pruned, Next, Recorded, Later;
    if calls == [] {
      NothingAgrees(now, window);
    } else {
      var n := |calls| - 1;
      var (before, last) := (calls[..n], calls[n]);
      TableAgrees(before, address, last.now, most, window);
      CallAgrees(After(before, most, window), History(before, address, most, window), last, address, most, window);
      assert last in calls;
    }
  }

  // ----- Main results -----

  lemma EarlierCalls(calls: seq<Call>, k: nat)
    requires Monotone(calls) && k < |calls|
    ensures Monotone(calls[..k]) && forall c <- calls[..k] :: c.now <= calls[k].now && c in calls
  {
  }

  lemma AfterNext(calls: seq<Call>, k: nat, most: nat, window: int)
    requires k < |calls|
    ensures Next(After(calls[..k], most, window), calls[k], most, window)
         == (After(calls[..k + 1], most, window), Answer(calls, k, most, window))
  {
    hide Next;
    assert calls[..k + 1][..k] == calls[..k];
  }

  /** A check on a table that agrees with the history answers by the history. */
  lemma CheckByHistory(attempts: Table, history: seq<int>, call: Call, most: nat, window: int)
    requires call.Consume? || call.Exhausted?
    requires Agrees(Entry(attempts, call.address), history, call.now, window)
    ensures var inside := Later(history, call.now - window);
            var (after, answer) := Next(attempts, call, most, window);
            && answer == (if call.Consume? then |inside| < most else |inside| >= most)
            && Entry(after, call.address) == if call.Consume? && answer then inside + [call.now] else inside
  {
    hide Pruned, Later, Agrees;
    AgreesLater(Entry(attempts, call.address), history, call.now, window);
  }

  lemma TableAt(calls: seq<Call>, k: nat, most: nat, window: int)
    requires Monotone(calls) && k < |calls|
    ensures Agrees(Entry(After(calls[..k], most, window), calls[k].address),
                   History(calls[..k], calls[k].address, most, window), calls[k].now, window)
  {
    hide *;
    EarlierCalls(calls, k);
    TableAgrees(calls[..k], calls[k].address, calls[k].now, most, window);
  }

  /**
    The limiter is its unforgetting counterpart: on any run under a clock that never goes
    back, a request is allowed exactly when fewer than `most` of its address's history lie
    inside the window, an address is exhausted exactly when at least `most` do, and what a
    check leaves in the table is precisely that part of the history.
   */
  lemma WindowIsExact(calls: seq<Call>, k: nat, most: nat, window: int)
    requires Monotone(calls) && k < |calls| && (calls[k].Consume? || calls[k].Exhausted?)
    ensures var call := calls[k];
            var inside := Later(History(calls[..k], call.address, most, window), call.now - window);
            var answer := Answer(calls, k, most, window);
            && answer == (if call.Consume? then |inside| < most else |inside| >= most)
            && Entry(After(calls[..k + 1], most, window), call.address)
            == if call.Consume? && answer then inside + [call.now] else inside
  {
    hide *;
    TableAt(calls, k, most, window);
    AfterNext(calls, k, most, window);
    var history := History(calls[..k], calls[k].address, most, window);
    CheckByHistory(After(calls[..k], most, window), history, calls[k], most, window);
  }

  lemma AfterOneMore(calls: seq<Call>, call: Call, most: nat, window: int)
    ensures After(calls + [call], most, window) == Next(After(calls, most, window), call, most, window).0
  {
    assert (calls + [call])[..|calls|] == calls;
  }

  lemma OneCall(attempts: Table, alone: Table, call: Call, address: string, most: nat, window: int)
    requires Entry(attempts, address) == Entry(alone, address)
    ensures Entry(Next(attempts, call, most, window).0, address)
         == Entry(if call.address == address then Next(alone, call, most, window).0 else alone, address)
  {
    hide Pruned;
  }

  /** Requests of other addresses change nothing for this one. */
  lemma {:induction false} AddressesAreIndependent(calls: seq<Call>, address: string, most: nat, window: int)
    ensures Entry(After(calls, most, window), address) == Entry(After(Own(calls, address), most, window), address)
  {
    hide Pruned, Recorded;
    if calls == [] {
    } else {
      var n := |calls| - 1;
      AddressesAreIndependent(calls[..n], address, most, window);
      var own := Own(calls[..n], address);
      AfterOneMore(own, calls[n], most, window);
      OneCall(After(calls[..n], most, window), After(own, most, window), calls[n], address, most, window);
    }
  }

  function Own(calls: seq<Call>, address: string): seq<Call> {
    if calls == [] then []
    else
      var (own, last) := (Own(calls[..|calls| - 1], address), calls[|calls| - 1]);
      if last.address == address then own + [last] else own
  }

  /** The entries of `times` in (from, to]. */
  function Between(times: seq<int>, from: int, to: int): seq<int> {
    if times == [] then []
    else
      var n := |times| - 1;
      Between(times[..n], from, to) + (if from < times[n] <= to then [times[n]] else [])
  }

  /** An interval that starts inside the window holds no more than the window does. */
  lemma {:induction false} BetweenAtMostLater(times: seq<int>, from: int, to: int, cutoff: int)
    requires cutoff <= from
    ensures |Between(times, from, to)| <= |Later(times, cutoff)|
  {
    if times == [] {
    } else {
      var n := |times| - 1;
      BetweenAtMostLater(times[..n], from, to, cutoff);
      assert times == times[..n] + [times[n]];
      LaterAppend(times[..n], [times[n]], cutoff);
    }
  }

  /** The times of the requests of `address` that were allowed: the Consume calls answered true. */
  function AllowedTimes(calls: seq<Call>, address: string, most: nat, window: int): seq<int> {
    if calls == [] then []
    else
      var n := |calls| - 1;
      var before := AllowedTimes(calls[..n], address, most, window);
      if calls[n].Consume? && calls[n].address == address && Answer(calls, n, most, window) then before + [calls[n].now]
      else before
  }

  /** `address` is never cleared. */
  predicate Uncleared(calls: seq<Call>, address: string) {
    forall c <- calls :: c.Clear? ==> c.address != address
  }

  /** `address` is limited by its requests alone: never cleared, and no failures recorded. */
  predicate OnlyConsumed(calls: seq<Call>, address: string) {
    Uncleared(calls, address) && forall c <- calls :: c.RecordFailure? ==> c.address != address
  }

  lemma AllowedBefore(calls: seq<Call>, k: nat, address: string, most: nat, window: int)
    requires k < |calls|
    ensures AllowedTimes(calls[..k + 1], address, most, window)
         == (if calls[k].Consume? && calls[k].address == address && Answer(calls, k, most, window)
             then AllowedTimes(calls[..k], address, most, window) + [calls[k].now]
             else AllowedTimes(calls[..k], address, most, window))
  {
    assert calls[..k + 1][..k] == calls[..k];
  }

  lemma HistoryBefore(calls: seq<Call>, k: nat, address: string, most: nat, window: int)
    requires k < |calls|
    ensures History(calls[..k + 1], address, most, window)
         == Recorded(History(calls[..k], address, most, window), calls[k], address, most, window)
  {
    assert calls[..k + 1][..k] == calls[..k];
  }

  /** Allowed requests are in the history, and make up all of it when nothing else is recorded. */
  lemma {:induction false} AllowedAmongHistory(
    calls: seq<Call>, k: nat, address: string, most: nat, window: int, from: int, to: int)
    requires Monotone(calls) && k <= |calls| && Uncleared(calls, address)
    ensures var allowed, history := AllowedTimes(calls[..k], address, most, window), History(calls[..k], address, most, window);
            && |Between(allowed, from, to)| <= |Between(history, from, to)|
            && (OnlyConsumed(calls, address) ==> allowed == history)
    decreases k
  {
    if k == 0 {
    } else {
      var n := k - 1;
      AllowedAmongHistory(calls, n, address, most, window, from, to);
      AllowedBefore(calls, n, address, most, window);
      HistoryBefore(calls, n, address, most, window);
      assert calls[n] in calls;
      var history := History(calls[..n], address, most, window);
      if calls[n].Consume? && calls[n].address == address {
        WindowIsExact(calls, n, most, window);
      }
      hide History, AllowedTimes, Answer, Monotone, Later;
      BetweenAppend(AllowedTimes(calls[..n], address, most, window), calls[n].now, from, to);
      BetweenAppend(history, calls[n].now, from, to);
    }
  }

  lemma BetweenAppend(times: seq<int>, t: int, from: int, to: int)
    ensures Between(times + [t], from, to) == Between(times, from, to) + (if from < t <= to then [t] else [])
  {
    assert (times + [t])[..|times|] == times;
  }

  /** What the window holds never exceeds the maximum by requests alone; a recorded failure can only refuse more. */
  lemma {:induction false} AllowedFitWindow(calls: seq<Call>, k: nat, address: string, from: int, most: nat, window: int)
    requires Monotone(calls) && k <= |calls| && Uncleared(calls, address)
    ensures |Between(AllowedTimes(calls[..k], address, most, window), from, from + window)| <= most
    decreases k
  {
    if k == 0 {
    } else {
      var n := k - 1;
      AllowedFitWindow(calls, n, address, from, most, window);
      AllowedBefore(calls, n, address, most, window);
      if calls[n].Consume? && calls[n].address == address && Answer(calls, n, most, window) {
        OneMoreFits(calls, n, from, most, window);
      }
    }
  }

  lemma OneMoreFits(calls: seq<Call>, n: nat, from: int, most: nat, window: int)
    requires Monotone(calls) && n < |calls| && calls[n].Consume? && Uncleared(calls, calls[n].address)
    requires Answer(calls, n, most, window)
    requires |Between(AllowedTimes(calls[..n], calls[n].address, most, window), from, from + window)| <= most
    ensures |Between(AllowedTimes(calls[..n], calls[n].address, most, window) + [calls[n].now], from, from + window)| <= most
  {
    hide *;
    var a, now := calls[n].address, calls[n].now;
    var allowed, history := AllowedTimes(calls[..n], a, most, window), History(calls[..n], a, most, window);
    WindowIsExact(calls, n, most, window);
    BetweenAppend(allowed, now, from, from + window);
    if from < now <= from + window {
      AllowedAmongHistory(calls, n, a, most, window, from, from + window);
      BetweenAtMostLater(history, from, from + window, now - window);
    }
  }

  /**
    No interval of the window's length, wherever it starts, holds more than `most` allowed
    requests of an address that is not cleared.
   */
  lemma NoIntervalHoldsMore(calls: seq<Call>, address: string, from: int, most: nat, window: int)
    requires Monotone(calls) && Uncleared(calls, address)
    ensures |Between(AllowedTimes(calls, address, most, window), from, from + window)| <= most
  {
    hide *;
    AllowedFitWindow(calls, |calls|, address, from, most, window);
    assert calls[..|calls|] == calls;
  }

  /** `n` requests at one instant. */
  function Requests(address: string, now: int, n: nat): seq<Call> {
    if n == 0 then [] else Requests(address, now, n - 1) + [Consume(address, now)]
  }

  lemma NoRequests(address: string, now: int, most: nat, window: int)
    ensures Requests(address, now, 0) == [] && Instants(now, 0) == []
    ensures Entry(After([], most, window), address) == [] && AllowedTimes([], address, most, window) == []
  {
  }

  lemma RequestsStep(address: string, now: int, n: nat)
    requires n > 0
    ensures Requests(address, now, n) == Requests(address, now, n - 1) + [Consume(address, now)]
    ensures Instants(now, n) == Instants(now, n - 1) + [now]
  {
  }

  function Instants(now: int, n: nat): seq<int> {
    if n == 0 then [] else Instants(now, n - 1) + [now]
  }

  /** Up to the maximum, requests at one instant are all allowed. */
  lemma {:induction false} RequestsAllowed(address: string, now: int, n: nat, most: nat, window: int)
    requires n <= most && window > 0
    ensures Entry(After(Requests(address, now, n), most, window), address) == Instants(now, n)
    ensures AllowedTimes(Requests(address, now, n), address, most, window) == Instants(now, n)
  {
    hide *;
    if n == 0 {
      NoRequests(address, now, most, window);
    } else {
      RequestsStep(address, now, n);
      RequestsAllowed(address, now, n - 1, most, window);
      InstantsStay(now, n - 1, window);
      RequestAllowed(Requests(address, now, n - 1), address, now, most, window);
    }
  }

  /** A request is allowed while fewer than the maximum are left in the entry. */
  lemma RequestAllowed(calls: seq<Call>, address: string, now: int, most: nat, window: int)
    requires var entry := Entry(After(calls, most, window), address);
             Pruned(entry, now - window) == entry && |entry| < most
    ensures var more := calls + [Consume(address, now)];
            && Entry(After(more, most, window), address) == Entry(After(calls, most, window), address) + [now]
            && AllowedTimes(more, address, most, window) == AllowedTimes(calls, address, most, window) + [now]
  {
    hide Pruned, After, AllowedTimes;
    AfterOneMore(calls, Consume(address, now), most, window);
    AllowedOneMore(calls, Consume(address, now), address, most, window);
  }

  lemma AllowedOneMore(calls: seq<Call>, call: Call, address: string, most: nat, window: int)
    ensures AllowedTimes(calls + [call], address, most, window)
         == (if call.Consume? && call.address == address && Next(After(calls, most, window), call, most, window).1
             then AllowedTimes(calls, address, most, window) + [call.now]
             else AllowedTimes(calls, address, most, window))
  {
    hide Next, After;
    assert (calls + [call])[..|calls|] == calls;
  }

  lemma {:induction false} InstantsStay(now: int, n: nat, window: int)
    requires window > 0
    ensures |Instants(now, n)| == n && Pruned(Instants(now, n), now - window) == Instants(now, n)
    ensures forall t <- Instants(now, n) :: t == now
  {
    if n == 0 {
    } else {
      InstantsStay(now, n - 1, window);
      assert Instants(now, n)[0] in Instants(now, n);
    }
  }

  lemma {:induction false} InstantsBetween(now: int, n: nat, from: int, to: int)
    requires from < now <= to
    ensures |Between(Instants(now, n), from, to)| == n
  {
    if n == 0 {
    } else {
      InstantsBetween(now, n - 1, from, to);
      BetweenAppend(Instants(now, n - 1), now, from, to);
    }
  }

  /** Clearing makes room at once: the maximum, a clear and one more request are all allowed at one instant. */
  lemma ClearForgets(address: string, now: int, most: nat, window: int)
    requires window > 0 && most > 0
    ensures var calls := Requests(address, now, most) + [Clear(address, now)] + [Consume(address, now)];
            && Monotone(calls)
            && |Between(AllowedTimes(calls, address, most, window), now - 1, now - 1 + window)| == most + 1
  {
    hide *;
    var full := Requests(address, now, most);
    RequestsAllowed(address, now, most, most, window);
    RequestsNow(address, now, most);
    ClearThenConsume(full, address, now, most, window);
    BetweenAppend(Instants(now, most), now, now - 1, now - 1 + window);
    InstantsBetween(now, most, now - 1, now - 1 + window);
    AllNow(full + [Clear(address, now)] + [Consume(address, now)], now);
  }

  lemma AllNow(calls: seq<Call>, now: int)
    requires forall i | 0 <= i < |calls| :: calls[i].now == now
    ensures Monotone(calls)
  {
  }

  lemma ClearThenConsume(full: seq<Call>, address: string, now: int, most: nat, window: int)
    requires most > 0
    ensures AllowedTimes(full + [Clear(address, now)] + [Consume(address, now)], address, most, window)
         == AllowedTimes(full, address, most, window) + [now]
  {
    var cleared := full + [Clear(address, now)];
    hide AllowedTimes, After, Pruned;
    AllowedOneMore(full, Clear(address, now), address, most, window);
    AllowedOneMore(cleared, Consume(address, now), address, most, window);
    AfterOneMore(full, Clear(address, now), most, window);
    assert Entry(After(cleared, most, window), address) == [];
    NothingToPrune(now - window);
  }

  lemma NothingToPrune(cutoff: int)
    ensures Pruned([], cutoff) == []
  {
  }

  lemma {:induction false} RequestsNow(address: string, now: int, n: nat)
    ensures |Requests(address, now, n)| == n && forall i | 0 <= i < n :: Requests(address, now, n)[i].now == now
  {
    if n == 0 {
    } else {
      RequestsNow(address, now, n - 1);
    }
  }

  /**
    An address limited by its requests alone is refused exactly when `most` allowed requests
    lie inside its window.
   */
  lemma RefusedOnlyWhenFull(calls: seq<Call>, k: nat, most: nat, window: int)
    requires Monotone(calls) && k < |calls| && calls[k].Consume? && OnlyConsumed(calls, calls[k].address)
    ensures var call := calls[k];
            var allowed := AllowedTimes(calls[..k], call.address, most, window);
            !Answer(calls, k, most, window) <==> |Between(allowed, call.now - window, call.now)| == most
  {
    hide *;
    var a, now := calls[k].address, calls[k].now;
    WindowIsExact(calls, k, most, window);
    WindowOfAllowed(calls, k, most, window);
    EarlierCalls(calls, k);
    AllowedFitWindow(calls, k, a, now - window, most, window);
  }

  /** With requests alone, what the window holds is what was allowed inside it. */
  lemma WindowOfAllowed(calls: seq<Call>, k: nat, most: nat, window: int)
    requires Monotone(calls) && k < |calls| && OnlyConsumed(calls, calls[k].address)
    ensures Uncleared(calls, calls[k].address)
    ensures Later(History(calls[..k], calls[k].address, most, window), calls[k].now - window)
         == Between(AllowedTimes(calls[..k], calls[k].address, most, window), calls[k].now - window, calls[k].now)
  {
    var a, now := calls[k].address, calls[k].now;
    AllowedAmongHistory(calls, k, a, most, window, now - window, now);
    EarlierCalls(calls, k);
    hide *;
    HistoryUpTo(calls[..k], a, now, most, window);
    BetweenIsLater(History(calls[..k], a, most, window), now - window, now);
  }

  lemma {:induction false} HistoryUpTo(calls: seq<Call>, address: string, now: int, most: nat, window: int)
    requires forall c <- calls :: c.now <= now
    ensures forall t <- History(calls, address, most, window) :: t <= now
  {
    if calls == [] {
    } else {
      HistoryUpTo(calls[..|calls| - 1], address, now, most, window);
      assert calls[|calls| - 1] in calls;
    }
  }

  lemma {:induction false} BetweenIsLater(times: seq<int>, from: int, to: int)
    requires forall t <- times :: t <= to
    ensures Between(times, from, to) == Later(times, from)
  {
    if times == [] {
    } else {
      var n := |times| - 1;
      assert forall t <- times[..n] :: t in times;
      BetweenIsLater(times[..n], from, to);
      assert times == times[..n] + [times[n]] && times[n] in times;
      LaterAppend(times[..n], [times[n]], from);
    }
  }
}
