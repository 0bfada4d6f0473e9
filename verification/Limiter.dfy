/** The sliding-window login limiter over an IP key and a user key (internal/core/limiter.go). */
module LoginLimiter {
  import opened Base

  const MINUTE: int := 60_000_000_000

  /** One accepted attempt. The specification keeps all of them; the class drops what has expired. */
  datatype Event = Event(key: gostring, time: int)

  /** Times of the accepted attempts of `key` in the half-open stretch (lo, hi]. */
  function InWindow(events: seq<Event>, key: gostring, lo: int, hi: int): seq<int> {
    if events == [] then []
    else
      var e := events[|events| - 1];
      InWindow(events[..|events| - 1], key, lo, hi) + if e.key == key && lo < e.time <= hi then [e.time] else []
  }

  function LastMinute(events: seq<Event>, key: gostring, now: int): seq<int> {
    InWindow(events, key, now - MINUTE, now)
  }

  /** The keys with an accepted attempt in the last minute. */
  function LiveKeys(events: seq<Event>, now: int): set<gostring> {
    set e | e in events && now - MINUTE < e.time <= now :: e.key
  }

  /** The rule an attempt is judged by, over the full record of accepted attempts. */
  predicate Accepts(events: seq<Event>, key: gostring, limit: int, maxKeys: int, now: int) {
    && |LastMinute(events, key, now)| < limit
    && (key in LiveKeys(events, now) || |LiveKeys(events, now)| < maxKeys)
  }

  function Charge(events: seq<Event>, key: gostring, limit: int, maxKeys: int, now: int): seq<Event> {
    if Accepts(events, key, limit, maxKeys, now) then events + [Event(key, now)] else events
  }

  /** The record with every attempt of one key forgotten. */
  function Forget(events: seq<Event>, key: gostring): seq<Event> {
    if events == [] then []
    else Forget(events[..|events| - 1], key) + if events[|events| - 1].key == key then [] else [events[|events| - 1]]
  }

  function IpKey(ip: gostring): gostring { Ascii("ip:") + ip }

  function UserKey(username: gostring): gostring { Ascii("user:") + username }

  lemma KeysDiffer(ip: gostring, username: gostring)
    ensures IpKey(ip) != UserKey(username)
  {
    assert IpKey(ip)[0] == 'i' as int && UserKey(username)[0] == 'u' as int;
  }

  ghost predicate InOrder(events: seq<Event>, now: int) {
    && (forall i, j :: 0 <= i <= j < |events| ==> events[i].time <= events[j].time)
    && (forall i :: 0 <= i < |events| ==> events[i].time <= now)
  }

  ghost predicate Sorted(times: seq<int>) {
    forall i, j :: 0 <= i <= j < |times| ==> times[i] <= times[j]
  }

  /** The times later than the cutoff. */
  function After(times: seq<int>, cutoff: int): seq<int> {
    if times == [] then [] else After(times[..|times| - 1], cutoff) + if times[|times| - 1] > cutoff then [times[|times| - 1]] else []
  }

  /** On sorted times, dropping expired ones from the front leaves exactly those after the cutoff. */
  lemma {:induction false} FrontTrimIsAfter(times: seq<int>, i: nat, cutoff: int)
    requires i <= |times|
    requires forall j :: 0 <= j < i ==> times[j] <= cutoff
    requires forall j :: i <= j < |times| ==> times[j] > cutoff
    ensures After(times, cutoff) == times[i..]
  {
    if times != [] {
      var n := |times| - 1;
      var front := times[..n];
      FrontTrimIsAfter(front, if i > n then n else i, cutoff);
      if i <= n {
        assert front[i..] + [times[n]] == times[i..];
      } else {
        assert front[n..] == [] && times[i..] == [];
      }
    }
  }

  lemma {:induction false} WindowSorted(events: seq<Event>, key: gostring, lo: int, hi: int)
    requires forall i, j :: 0 <= i <= j < |events| ==> events[i].time <= events[j].time
    ensures Sorted(InWindow(events, key, lo, hi))
    ensures forall t :: t in InWindow(events, key, lo, hi) ==> t <= events[|events| - 1].time
  {
    if events != [] {
      var n := |events| - 1;
      WindowSorted(events[..n], key, lo, hi);
      var before := InWindow(events[..n], key, lo, hi);
      forall i | 0 <= i < |before| ensures before[i] <= events[n].time {
        assert before[i] in before;
        assert before[i] <= events[..n][n - 1].time;
      }
    }
  }

  /** Time passing: the window of a later instant is the old window less what expired. */
  lemma {:induction false} WindowMoves(events: seq<Event>, key: gostring, lo: int, hi: int, lo': int, hi': int)
    requires lo <= lo' && hi <= hi'
    requires forall i :: 0 <= i < |events| ==> events[i].time <= hi
    ensures InWindow(events, key, lo', hi') == After(InWindow(events, key, lo, hi), lo')
  {
    hide InWindow, After;
    if events != [] {
      var n := |events| - 1;
      assert forall i :: 0 <= i < n ==> events[..n][i] == events[i];
      WindowMoves(events[..n], key, lo, hi, lo', hi');
      AfterStep(InWindow(events[..n], key, lo, hi), events[n].time, lo');
      WindowLast(events, key, lo, hi);
      WindowLast(events, key, lo', hi');
    } else {
      NoWindow(key, lo, hi, lo', hi');
    }
  }

  lemma WindowLast(events: seq<Event>, key: gostring, lo: int, hi: int)
    requires events != []
    ensures var e := events[|events| - 1];
            InWindow(events, key, lo, hi) ==
            InWindow(events[..|events| - 1], key, lo, hi) + if e.key == key && lo < e.time <= hi then [e.time] else []
  {
  }

  lemma NoWindow(key: gostring, lo: int, hi: int, lo': int, hi': int)
    ensures InWindow([], key, lo', hi') == After(InWindow([], key, lo, hi), lo')
  {
  }

  lemma AfterStep(times: seq<int>, t: int, cutoff: int)
    ensures After(times + [t], cutoff) == After(times, cutoff) + if t > cutoff then [t] else []
    ensures After(times + [], cutoff) == After(times, cutoff)
  {
    assert (times + [t])[..|times|] == times && times + [] == times;
  }

  lemma {:induction false} LiveIffWindow(events: seq<Event>, key: gostring, lo: int, hi: int)
    ensures InWindow(events, key, lo, hi) != [] <==> exists e :: e in events && lo < e.time <= hi && e.key == key
  {
    if events != [] {
      var n := |events| - 1;
      LiveIffWindow(events[..n], key, lo, hi);
      assert events == events[..n] + [events[n]];
    }
  }

  lemma LiveIff(events: seq<Event>, key: gostring, now: int)
    ensures key in LiveKeys(events, now) <==> LastMinute(events, key, now) != []
  {
    LiveIffWindow(events, key, now - MINUTE, now);
  }

  lemma {:induction false} ForgetWindow(events: seq<Event>, gone: gostring, key: gostring, lo: int, hi: int)
    ensures InWindow(Forget(events, gone), key, lo, hi) == if key == gone then [] else InWindow(events, key, lo, hi)
  {
    if events != [] {
      var n := |events| - 1;
      ForgetWindow(events[..n], gone, key, lo, hi);
      if events[n].key != gone {
        WindowAppend(Forget(events[..n], gone), events[n], key, lo, hi);
      } else {
        assert Forget(events, gone) == Forget(events[..n], gone);
      }
    }
  }

  lemma {:induction false} ForgetInOrder(events: seq<Event>, gone: gostring, now: int)
    requires InOrder(events, now)
    ensures InOrder(Forget(events, gone), now)
    ensures forall e :: e in Forget(events, gone) ==> e in events
  {
    if events != [] {
      var n := |events| - 1;
      var kept, last := Forget(events[..n], gone), events[n];
      ForgetInOrder(events[..n], gone, now);
      forall e | e in kept ensures e in events && e.time <= last.time {
        var j :| 0 <= j < n && events[..n][j] == e;
        assert events[j] == e;
      }
      AppendInOrder(kept, last, now);
      assert Forget(events, gone) == kept + if last.key == gone then [] else [last];
      hide Forget;
    }
  }

  lemma AppendInOrder(events: seq<Event>, e: Event, now: int)
    requires InOrder(events, now) && e.time <= now && forall x :: x in events ==> x.time <= e.time
    ensures InOrder(events + [e], now) && InOrder(events + [], now)
  {
  }

  lemma WindowAppend(events: seq<Event>, e: Event, key: gostring, lo: int, hi: int)
    ensures InWindow(events + [e], key, lo, hi) ==
            InWindow(events, key, lo, hi) + if e.key == key && lo < e.time <= hi then [e.time] else []
  {
    assert (events + [e])[..|events|] == events;
  }

  // What the rule is for: no minute ever holds more accepted attempts of a key than its limit.

  ghost predicate WithinLimit(events: seq<Event>, key: gostring, limit: int) {
    forall t: int :: |LastMinute(events, key, t)| <= limit
  }

  lemma {:induction false} FewerInNarrower(events: seq<Event>, key: gostring, lo: int, hi: int, lo': int, hi': int)
    requires lo <= lo'
    requires forall i :: 0 <= i < |events| ==> events[i].time <= hi
    ensures |InWindow(events, key, lo', hi')| <= |InWindow(events, key, lo, hi)|
  {
    if events != [] { FewerInNarrower(events[..|events| - 1], key, lo, hi, lo', hi'); }
  }

  lemma ChargeKeepsLimit(events: seq<Event>, charged: gostring, chargedLimit: int, maxKeys: int, now: int,
                         key: gostring, limit: int)
    requires InOrder(events, now)
    requires WithinLimit(events, key, limit)
    requires charged == key ==> chargedLimit == limit
    ensures WithinLimit(Charge(events, charged, chargedLimit, maxKeys, now), key, limit)
  {
    if Accepts(events, charged, chargedLimit, maxKeys, now) {
      forall t: int ensures |LastMinute(events + [Event(charged, now)], key, t)| <= limit {
        WindowAppend(events, Event(charged, now), key, t - MINUTE, t);
        assert |LastMinute(events, key, t)| <= limit;
        if charged == key && now <= t {
          FewerInNarrower(events, key, now - MINUTE, now, t - MINUTE, t);
        }
      }
    }
  }

  lemma ChargeKeepsKeyCap(events: seq<Event>, charged: gostring, limit: int, maxKeys: int, now: int)
    requires |LiveKeys(events, now)| <= maxKeys
    ensures |LiveKeys(Charge(events, charged, limit, maxKeys, now), now)| <= maxKeys
  {
    if Accepts(events, charged, limit, maxKeys, now) {
      LiveKeysAppend(events, charged, now);
    }
  }

  lemma LiveKeysAppend(events: seq<Event>, key: gostring, now: int)
    ensures LiveKeys(events + [Event(key, now)], now) == LiveKeys(events, now) + {key}
  {
    assert Event(key, now) in events + [Event(key, now)];
    assert forall e :: e in events ==> e in events + [Event(key, now)];
  }

  // A whole run of logins and resets, on the specification that never forgets an accepted attempt.

  datatype Limits = Limits(ip: int, user: int, maxKeys: int)

  datatype Request = Login(ip: gostring, username: gostring, now: int) | Reset(username: gostring)

  function Serve(events: seq<Event>, request: Request, limits: Limits): seq<Event> {
    match request
    case Reset(username) => Forget(events, UserKey(username))
    case Login(ip, username, now) =>
      if Accepts(events, IpKey(ip), limits.ip, limits.maxKeys, now) then
        Charge(events + [Event(IpKey(ip), now)], UserKey(username), limits.user, limits.maxKeys, now)
      else events
  }

  ghost predicate Bounded(events: seq<Event>, last: int, limits: Limits) {
    && InOrder(events, last)
    && (forall ip :: WithinLimit(events, IpKey(ip), limits.ip))
    && (forall username :: WithinLimit(events, UserKey(username), limits.user))
    && |LiveKeys(events, last)| <= limits.maxKeys
  }

  ghost predicate Follows(requests: seq<Request>, last: int)
    decreases |requests|
  {
    requests != [] ==>
      match requests[0]
      case Reset(_) => Follows(requests[1..], last)
      case Login(_, _, now) => last <= now && Follows(requests[1..], now)
  }

  lemma FewerKeys(a: set<gostring>, b: set<gostring>)
    requires a <= b
    ensures |a| <= |b|
  {
    assert b == a + (b - a);
  }

  lemma LaterKeysFewer(events: seq<Event>, last: int, now: int)
    requires InOrder(events, last) && last <= now
    ensures |LiveKeys(events, now)| <= |LiveKeys(events, last)|
  {
    FewerKeys(LiveKeys(events, now), LiveKeys(events, last));
  }

  lemma ServeKeepsBounded(events: seq<Event>, last: int, request: Request, limits: Limits)
    requires Bounded(events, last, limits)
    requires request.Login? ==> last <= request.now
    ensures Bounded(Serve(events, request, limits), if request.Login? then request.now else last, limits)
  {
    match request
    case Reset(username) =>
      var gone := UserKey(username);
      ForgetInOrder(events, gone, last);
      forall key, limit: int | WithinLimit(events, key, limit) ensures WithinLimit(Forget(events, gone), key, limit) {
        forall t: int ensures |LastMinute(Forget(events, gone), key, t)| <= limit {
          ForgetWindow(events, gone, key, t - MINUTE, t);
          assert |LastMinute(events, key, t)| <= limit;
        }
      }
      assert LiveKeys(events, last) == LiveKeys(Forget(events, gone), last) + (LiveKeys(events, last) - LiveKeys(Forget(events, gone), last));
    case Login(ip, username, now) =>
      LaterKeysFewer(events, last, now);
      ChargeKeepsBounded(events, IpKey(ip), limits.ip, now, limits);
      ChargeKeepsBounded(Charge(events, IpKey(ip), limits.ip, limits.maxKeys, now), UserKey(username), limits.user, now, limits);
  }

  lemma ChargeKeepsBounded(events: seq<Event>, charged: gostring, chargedLimit: int, now: int, limits: Limits)
    requires Bounded(events, now, limits)
    requires (exists ip :: charged == IpKey(ip) && chargedLimit == limits.ip) ||
             (exists username :: charged == UserKey(username) && chargedLimit == limits.user)
    ensures Bounded(Charge(events, charged, chargedLimit, limits.maxKeys, now), now, limits)
  {
    ChargeKeepsKeyCap(events, charged, chargedLimit, limits.maxKeys, now);
    forall ip ensures WithinLimit(Charge(events, charged, chargedLimit, limits.maxKeys, now), IpKey(ip), limits.ip) {
      forall username { KeysDiffer(ip, username); }
      ChargeKeepsLimit(events, charged, chargedLimit, limits.maxKeys, now, IpKey(ip), limits.ip);
    }
    forall username ensures WithinLimit(Charge(events, charged, chargedLimit, limits.maxKeys, now), UserKey(username), limits.user) {
      forall ip { KeysDiffer(ip, username); }
      ChargeKeepsLimit(events, charged, chargedLimit, limits.maxKeys, now, UserKey(username), limits.user);
    }
  }

  function ServeAll(events: seq<Event>, requests: seq<Request>, limits: Limits): seq<Event>
    decreases |requests|
  {
    if requests == [] then events else ServeAll(Serve(events, requests[0], limits), requests[1..], limits)
  }

  function LastLogin(requests: seq<Request>, last: int): int
    decreases |requests|
  {
    if requests == [] then last
    else LastLogin(requests[1..], if requests[0].Login? then requests[0].now else last)
  }

  /** Over every run in nondecreasing time, no minute holds more accepted logins of an address or of a name
      than its limit, and no more keys are live than allowed. */
  lemma {:induction false} RunBounded(events: seq<Event>, last: int, requests: seq<Request>, limits: Limits)
    requires Bounded(events, last, limits) && Follows(requests, last)
    ensures Bounded(ServeAll(events, requests, limits), LastLogin(requests, last), limits)
    decreases |requests|
  {
    if requests != [] {
      var now := if requests[0].Login? then requests[0].now else last;
      ServeKeepsBounded(events, last, requests[0], limits);
      RunBounded(Serve(events, requests[0], limits), now, requests[1..], limits);
    }
  }

  function TimesOf(windows: map<gostring, seq<int>>, key: gostring): seq<int> {
    if key in windows then windows[key] else []
  }

  /** The windows the class keeps after cleaning up at `now`: the last minute of each key, no key without one. */
  ghost predicate Mirrors(windows: map<gostring, seq<int>>, events: seq<Event>, now: int) {
    && (forall key :: TimesOf(windows, key) == LastMinute(events, key, now))
    && (forall key :: key in windows ==> windows[key] != [])
  }

  lemma KeysAreLive(windows: map<gostring, seq<int>>, events: seq<Event>, now: int)
    requires Mirrors(windows, events, now)
    ensures windows.Keys == LiveKeys(events, now)
    ensures |windows| == |LiveKeys(events, now)|
  {
    forall key ensures key in windows.Keys <==> key in LiveKeys(events, now) {
      LiveIff(events, key, now);
      assert TimesOf(windows, key) == LastMinute(events, key, now);
    }
    assert windows.Keys == LiveKeys(events, now);
  }

  ghost function Trimmed(windows: map<gostring, seq<int>>, cutoff: int): map<gostring, seq<int>> {
    map key | key in windows && After(windows[key], cutoff) != [] :: After(windows[key], cutoff)
  }

  lemma MirrorsTrimmed(windows: map<gostring, seq<int>>, events: seq<Event>, last: int, now: int)
    requires last <= now && InOrder(events, last) && Mirrors(windows, events, last)
    ensures Mirrors(Trimmed(windows, now - MINUTE), events, now)
  {
    forall key ensures TimesOf(Trimmed(windows, now - MINUTE), key) == LastMinute(events, key, now) {
      WindowMoves(events, key, last - MINUTE, last, now - MINUTE, now);
      assert TimesOf(windows, key) == LastMinute(events, key, last);
    }
  }

  lemma MirrorsCharged(windows: map<gostring, seq<int>>, events: seq<Event>, key: gostring, now: int)
    requires Mirrors(windows, events, now)
    ensures Mirrors(windows[key := TimesOf(windows, key) + [now]], events + [Event(key, now)], now)
  {
    var windows' := windows[key := TimesOf(windows, key) + [now]];
    hide InWindow;
    forall k ensures TimesOf(windows', k) == LastMinute(events + [Event(key, now)], k, now) {
      WindowAppend(events, Event(key, now), k, now - MINUTE, now);
      assert TimesOf(windows, k) == LastMinute(events, k, now);
    }
  }

  lemma MirrorsForgot(windows: map<gostring, seq<int>>, events: seq<Event>, key: gostring, now: int)
    requires Mirrors(windows, events, now)
    ensures Mirrors(windows - {key}, Forget(events, key), now)
  {
    forall k ensures TimesOf(windows - {key}, k) == LastMinute(Forget(events, key), k, now) {
      ForgetWindow(events, key, k, now - MINUTE, now);
      assert TimesOf(windows, k) == LastMinute(events, k, now);
    }
  }

  lemma MirroredSorted(windows: map<gostring, seq<int>>, events: seq<Event>, last: int)
    requires InOrder(events, last) && Mirrors(windows, events, last)
    ensures forall key :: key in windows ==> Sorted(windows[key])
  {
    forall key | key in windows ensures Sorted(windows[key]) {
      WindowSorted(events, key, last - MINUTE, last);
      assert TimesOf(windows, key) == LastMinute(events, key, last);
    }
  }

  lemma MirroredFresh(windows: map<gostring, seq<int>>, events: seq<Event>, key: gostring, now: int)
    requires InOrder(events, now) && Mirrors(windows, events, now)
    ensures After(TimesOf(windows, key), now - MINUTE) == TimesOf(windows, key) == LastMinute(events, key, now)
  {
    WindowMoves(events, key, now - MINUTE, now, now - MINUTE, now);
    assert TimesOf(windows, key) == LastMinute(events, key, now);
  }

  /** What one attempt needs to know of windows that were just cleaned up: nothing is left to expire. */
  lemma ConsumeFacts(windows: map<gostring, seq<int>>, events: seq<Event>, key: gostring, now: int)
    requires InOrder(events, now) && Mirrors(windows, events, now)
    ensures |windows| == |LiveKeys(events, now)| && (key in windows <==> key in LiveKeys(events, now))
    ensures TimesOf(windows, key) == LastMinute(events, key, now) == After(TimesOf(windows, key), now - MINUTE)
    ensures forall k :: k in windows ==> Sorted(windows[k])
    ensures Trimmed(windows, now - MINUTE) == windows
    ensures InOrder(events + [Event(key, now)], now)
    ensures Mirrors(windows[key := TimesOf(windows, key) + [now]], events + [Event(key, now)], now)
  {
    hide Mirrors, InWindow, LiveKeys, After, Sorted, Trimmed;
    KeysAreLive(windows, events, now);
    MirroredSorted(windows, events, now);
    MirroredFresh(windows, events, key, now);
    MirrorsCharged(windows, events, key, now);
    NothingToTrim(windows, events, now);
  }

  lemma NothingToTrim(windows: map<gostring, seq<int>>, events: seq<Event>, now: int)
    requires InOrder(events, now) && Mirrors(windows, events, now)
    ensures Trimmed(windows, now - MINUTE) == windows
  {
    hide InWindow, After, InOrder;
    assert forall k :: k in windows ==> windows[k] != [];
    hide Mirrors;
    forall k | k in windows ensures After(windows[k], now - MINUTE) == windows[k] && windows[k] != [] {
      MirroredFresh(windows, events, k, now);
    }
  }

  lemma InOrderLater(events: seq<Event>, last: int, now: int)
    requires InOrder(events, last) && last <= now
    ensures InOrder(events, now)
  {
  }

  lemma NothingMirrored(windows: map<gostring, seq<int>>, last: int, now: int)
    ensures InOrder([], now)
    ensures Mirrors(windows, [], last) ==> Mirrors(windows, [], now)
  {
    assert forall key, lo, hi :: InWindow([], key, lo, hi) == [];
  }

  class Limiter {
    var windows: map<gostring, seq<int>>
    ghost var events: seq<Event>
    ghost var last: int

    ghost predicate Valid()
      reads this
    {
      InOrder(events, last) && Mirrors(windows, events, last)
    }

    constructor ()
      ensures Valid() && events == []
    {
      windows := map[];
      events := [];
      last := 0;
    }

    /** Time may not run backwards; the very first attempt may be at any time. */
    ghost predicate NotBefore(now: int)
      reads this
    {
      events == [] || last <= now
    }

    method TryConsumeLoginLimit(ip: gostring, username: gostring, now: int,
                                ipLimit: int, userLimit: int, maxKeys: int)
      returns (allowed: bool)
      requires Valid() && NotBefore(now)
      requires 0 < ipLimit && 0 < userLimit && 0 < maxKeys
      modifies this
      ensures Valid() && last == now
      ensures var ipAllowed := Accepts(old(events), IpKey(ip), ipLimit, maxKeys, now);
              var charged := Charge(old(events), IpKey(ip), ipLimit, maxKeys, now);
              && allowed == (ipAllowed && Accepts(charged, UserKey(username), userLimit, maxKeys, now))
              && events == if ipAllowed then Charge(charged, UserKey(username), userLimit, maxKeys, now) else old(events)
      ensures windows.Keys == LiveKeys(events, now)
    {
      hide InOrder, Mirrors, LiveKeys, LastMinute, Accepts, Forget, Trimmed, Sorted, IpKey, UserKey;
      if events == [] {
        NothingMirrored(windows, last, now);
        last := now;
      }
      MirroredSorted(windows, events, last);
      MirrorsTrimmed(windows, events, last, now);
      RemoveExpired(now - MINUTE);
      InOrderLater(events, last, now);
      last := now;
      var ipAllowed := TryConsume(IpKey(ip), ipLimit, now, maxKeys);
      if !ipAllowed {
        KeysAreLive(windows, events, now);
        return false;
      }
      allowed := TryConsume(UserKey(username), userLimit, now, maxKeys);
      KeysAreLive(windows, events, now);
    }

    method ResetUserWindow(username: gostring)
      requires Valid()
      modifies this
      ensures Valid() && last == old(last)
      ensures events == Forget(old(events), UserKey(username))
    {
      MirrorsForgot(windows, events, UserKey(username), last);
      ForgetInOrder(events, UserKey(username), last);
      windows := windows - {UserKey(username)};
      events := Forget(events, UserKey(username));
    }

    method TryConsume(key: gostring, limit: int, now: int, maxKeys: int) returns (ok: bool)
      requires Valid() && last == now && 0 < limit
      modifies this
      ensures Valid() && last == now
      ensures ok == Accepts(old(events), key, limit, maxKeys, now)
      ensures events == Charge(old(events), key, limit, maxKeys, now)
    {
      ConsumeFacts(windows, events, key, now);
      ghost var charged := windows[key := TimesOf(windows, key) + [now]];
      if key !in windows && |windows| >= maxKeys {
        RemoveExpired(now - MINUTE);
        if |windows| >= maxKeys {
          return false;
        }
      }
      var times := if key in windows then windows[key] else [];
      times := TrimFront(times, now - MINUTE);
      if |times| >= limit {
        return false;
      }
      windows := windows[key := times + [now]];
      assert windows == charged;
      events := events + [Event(key, now)];
      ok := true;
    }

    static method TrimFront(times: seq<int>, cutoff: int) returns (rest: seq<int>)
      requires Sorted(times)
      ensures rest == After(times, cutoff)
    {
      var i := 0;
      while i < |times| && times[i] <= cutoff
        invariant i <= |times|
        invariant forall j :: 0 <= j < i ==> times[j] <= cutoff
      {
        i := i + 1;
      }
      FrontTrimIsAfter(times, i, cutoff);
      rest := times[i..];
    }

    method RemoveExpired(cutoff: int)
      requires forall key :: key in windows ==> Sorted(windows[key])
      modifies this`windows
      ensures windows == Trimmed(old(windows), cutoff)
    {
      var todo, emptyKeys := windows.Keys, {};
      while todo != {}
        invariant todo <= windows.Keys == old(windows).Keys
        invariant forall key :: key in todo ==> windows[key] == old(windows)[key]
        invariant forall key :: key in windows && key !in todo ==> windows[key] == After(old(windows)[key], cutoff)
        invariant forall key :: key in emptyKeys <==> key in windows && key !in todo && windows[key] == []
        decreases todo
      {
        var key :| key in todo;
        todo := todo - {key};
        var times := TrimFront(windows[key], cutoff);
        windows := windows[key := times];
        if times == [] {
          emptyKeys := emptyKeys + {key};
        }
      }
      windows := windows - emptyKeys;
    }
  }
}
