// The fixed-window rate limiter of internal/adapters/httpapi/httpapi.go. The keyed hash of scope
// and value is taken to be injective, so the model keys buckets by the hashed text itself.
module RateLimit {
  import opened Sets

  type Instant = int

  datatype Bucket = Bucket(count: nat, reset: Instant)

  // One call: what it is about, and when.
  datatype Call = Call(key: string, now: Instant)

  function Touched(buckets: map<string, Bucket>, c: Call, window: int): Bucket {
    var b := if c.key !in buckets || c.now > buckets[c.key].reset then Bucket(0, c.now + window) else buckets[c.key];
    b.(count := b.count + 1)
  }

  class RateLimiter {
    var buckets: map<string, Bucket>

    constructor ()
      ensures buckets == map[]
    {
      buckets := map[];
    }

    method Allow(scope: string, value: string, limit: int, window: int, now: Instant) returns (ok: bool)
      modifies this
      ensures var c := Call(scope + ":" + value, now);
              && buckets == old(buckets)[c.key := Touched(old(buckets), c, window)]
              && (ok <==> buckets[c.key].count <= limit)
    {
      var key := scope + ":" + value;
      var b := Bucket(0, 0);
      if key in buckets {
        b := buckets[key];
      }
      if key !in buckets || now > b.reset {
        b := Bucket(0, now + window);
      }
      b := b.(count := b.count + 1);
      buckets := buckets[key := b];
      ok := b.count <= limit;
    }
  }

  // ---- Histories ----

  // The buckets after the calls, where each key, by its scope, has its own window.
  function After(calls: seq<Call>, windows: string -> int): map<string, Bucket> {
    if calls == [] then map[]
    else
      var n := |calls| - 1;
      var before := After(calls[..n], windows);
      before[calls[n].key := Touched(before, calls[n], windows(calls[n].key))]
  }

  // Whether call i is allowed.
  predicate Allowed(calls: seq<Call>, windows: string -> int, limit: nat, i: nat)
    requires i < |calls|
  {
    Touched(After(calls[..i], windows), calls[i], windows(calls[i].key)).count <= limit
  }

  // The indices of the calls for one key.
  function CallsFor(calls: seq<Call>, key: string): seq<nat> {
    if calls == [] then []
    else
      var n := |calls| - 1;
      CallsFor(calls[..n], key) + if calls[n].key == key then [n] else []
  }

  predicate Ordered(calls: seq<Call>) {
    forall i, j :: 0 <= i < j < |calls| ==> calls[i].now <= calls[j].now
  }

  lemma {:induction false} CallsForShape(calls: seq<Call>, key: string)
    ensures var js := CallsFor(calls, key);
            && (forall a :: 0 <= a < |js| ==> js[a] < |calls| && calls[js[a]].key == key)
            && (forall a, b :: 0 <= a < b < |js| ==> js[a] < js[b])
            && (forall i :: 0 <= i < |calls| && calls[i].key == key ==> i in js)
  {
    if calls != [] {
      var n := |calls| - 1;
      CallsForShape(calls[..n], key);
      assert forall i :: 0 <= i < n ==> calls[i] == calls[..n][i];
    }
  }

  // The instants of the calls for one key.
  function TimesFor(calls: seq<Call>, key: string): seq<Instant> {
    if calls == [] then []
    else
      var n := |calls| - 1;
      TimesFor(calls[..n], key) + if calls[n].key == key then [calls[n].now] else []
  }

  lemma {:induction false} TimesOfCalls(calls: seq<Call>, key: string)
    ensures var js, ts := CallsFor(calls, key), TimesFor(calls, key);
            |ts| == |js| && forall a :: 0 <= a < |js| ==> js[a] < |calls| && ts[a] == calls[js[a]].now
  {
    if calls != [] {
      TimesOfCalls(calls[..|calls| - 1], key);
    }
  }

  // Which of a key's calls opened the window of its a-th call: a call opens a window if it comes
  // later than window after the call that opened the previous one.
  function WindowStart(ts: seq<Instant>, window: int, a: nat): (s: nat)
    requires a < |ts|
    ensures s <= a
  {
    if a == 0 then 0
    else
      var s := WindowStart(ts, window, a - 1);
      if ts[a] > ts[s] + window then a else s
  }

  lemma {:induction false} WindowStartIsLocal(ts: seq<Instant>, more: seq<Instant>, window: int, a: nat)
    requires a < |ts| <= |more| && more[..|ts|] == ts
    ensures WindowStart(more, window, a) == WindowStart(ts, window, a)
  {
    if a > 0 {
      WindowStartIsLocal(ts, more, window, a - 1);
    }
    assert forall b :: 0 <= b < |ts| ==> more[..|ts|][b] == more[b];
  }

  ghost predicate CountsWindow(b: Bucket, ts: seq<Instant>, window: int)
    requires ts != []
  {
    var s := WindowStart(ts, window, |ts| - 1);
    b == Bucket(|ts| - s, ts[s] + window)
  }

  lemma OneMoreInWindow(b: Bucket, ts: seq<Instant>, window: int, now: Instant)
    requires ts != [] && CountsWindow(b, ts, window)
    ensures CountsWindow(if now > b.reset then Bucket(1, now + window) else Bucket(b.count + 1, b.reset), ts + [now], window)
  {
    WindowStartIsLocal(ts, ts + [now], window, |ts| - 1);
  }

  // The bucket of a key counts the calls of its current window.
  lemma {:induction false} BucketCountsWindow(calls: seq<Call>, key: string, windows: string -> int)
    ensures key in After(calls, windows) <==> TimesFor(calls, key) != []
    ensures key in After(calls, windows) ==> CountsWindow(After(calls, windows)[key], TimesFor(calls, key), windows(key))
  {
    if calls != [] {
      var n := |calls| - 1;
      BucketCountsWindow(calls[..n], key, windows);
      var ts := TimesFor(calls[..n], key);
      hide CountsWindow;
      assert TimesFor(calls, key) == if calls[n].key == key then ts + [calls[n].now] else ts;
      if calls[n].key == key {
        assert After(calls, windows)[key] == Touched(After(calls[..n], windows), calls[n], windows(key));
        if ts != [] {
          OneMoreInWindow(After(calls[..n], windows)[key], ts, windows(key), calls[n].now);
        } else {
          OpensWindow(calls[n].now, windows(key));
        }
      }
    }
  }

  lemma OpensWindow(now: Instant, window: int)
    ensures CountsWindow(Bucket(1, now + window), [now], window) && [] + [now] == [now]
  {
  }

  // What the bucket counts at a call: the calls of its window so far.
  lemma CountAtCall(calls: seq<Call>, key: string, windows: string -> int, i: nat, ts: seq<Instant>, a: nat)
    requires i < |calls| && calls[i].key == key && a < |ts|
    requires TimesFor(calls[..i + 1], key) == ts[..a + 1]
    ensures Touched(After(calls[..i], windows), calls[i], windows(key)).count == a + 1 - WindowStart(ts, windows(key), a)
  {
    BucketCountsWindow(calls[..i + 1], key, windows);
    hide TimesFor, WindowStart;
    WindowStartIsLocal(ts[..a + 1], ts, windows(key), a);
    assert calls[..i + 1][..i] == calls[..i];
    assert After(calls[..i + 1], windows)[key] == Touched(After(calls[..i], windows), calls[i], windows(key));
  }

  // Exactly the first limit calls of each window are allowed.
  lemma FirstCallsOfWindowAreAllowed(calls: seq<Call>, key: string, windows: string -> int, limit: nat, a: nat)
    requires a < |CallsFor(calls, key)|
    ensures var js, ts := CallsFor(calls, key), TimesFor(calls, key);
            && js[a] < |calls| && a < |ts| && ts[a] == calls[js[a]].now
            && (Allowed(calls, windows, limit, js[a]) <==> a - WindowStart(ts, windows(key), a) < limit)
  {
    hide CallsFor, TimesFor, WindowStart, After, Touched;
    TimesOfCalls(calls, key);
    CallsForShape(calls, key);
    TimesUpTo(calls, key, a);
    CountAtCall(calls, key, windows, CallsFor(calls, key)[a], TimesFor(calls, key), a);
  }

  lemma TimesUpTo(calls: seq<Call>, key: string, a: nat)
    requires a < |CallsFor(calls, key)| == |TimesFor(calls, key)| && CallsFor(calls, key)[a] < |calls|
    ensures TimesFor(calls[..CallsFor(calls, key)[a] + 1], key) == TimesFor(calls, key)[..a + 1]
  {
    var upTo := calls[..CallsFor(calls, key)[a] + 1];
    PrefixCalls(calls, key, a);
    TimesOfCalls(calls, key);
    TimesOfCalls(upTo, key);
  }

  lemma CallIsPlaced(calls: seq<Call>, key: string, a: nat)
    requires a < |CallsFor(calls, key)|
    ensures CallsFor(calls, key)[a] < |calls| && calls[CallsFor(calls, key)[a]].key == key
  {
    CallsForShape(calls, key);
  }

  lemma {:induction false} PrefixCalls(calls: seq<Call>, key: string, a: nat)
    requires a < |CallsFor(calls, key)| && CallsFor(calls, key)[a] < |calls|
    ensures CallsFor(calls[..CallsFor(calls, key)[a] + 1], key) == CallsFor(calls, key)[..a + 1]
  {
    var n := |calls| - 1;
    var js, before := CallsFor(calls, key), CallsFor(calls[..n], key);
    assert js == before + if calls[n].key == key then [n] else [];
    hide CallsFor;
    if a < |before| {
      assert js[a] == before[a];
      CallIsPlaced(calls[..n], key, a);
      PrefixCalls(calls[..n], key, a);
      assert calls[..n][..js[a] + 1] == calls[..js[a] + 1];
      assert before[..a + 1] == js[..a + 1];
    } else {
      assert calls[..n + 1] == calls && js[..a + 1] == js;
    }
  }

  // ---- Any interval ----

  function Range(s: int, n: nat): (r: set<int>)
    ensures |r| == n
    ensures forall i :: i in r <==> s <= i < s + n
  {
    if n == 0 then {} else Range(s, n - 1) + {s + n - 1}
  }

  predicate Ascends(ts: seq<Instant>) {
    forall a, b :: 0 <= a <= b < |ts| ==> ts[a] <= ts[b]
  }

  lemma TimesAscend(calls: seq<Call>, key: string)
    requires Ordered(calls)
    ensures Ascends(TimesFor(calls, key))
  {
    CallsForShape(calls, key);
    TimesOfCalls(calls, key);
  }

  // A later window opens after every call of an earlier one, and later than window after it opened.
  lemma {:induction false} WindowsFollow(ts: seq<Instant>, window: int, a: nat, b: nat)
    requires Ascends(ts) && window >= 0 && a <= b < |ts|
    ensures var s, t := WindowStart(ts, window, a), WindowStart(ts, window, b);
            s <= t && (t != s ==> a < t && ts[t] > ts[s] + window)
    decreases b
  {
    if a < b {
      WindowsFollow(ts, window, a, b - 1);
      var s, r := WindowStart(ts, window, a), WindowStart(ts, window, b - 1);
      assert ts[s] <= ts[r];
    }
  }

  // The key's allowed calls in the closed interval of its window's length from x, as places in its
  // calls.
  ghost function AllowedIn(calls: seq<Call>, key: string, windows: string -> int, limit: nat, x: Instant): set<int> {
    var js := CallsFor(calls, key);
    set a | 0 <= a < |js| && js[a] < |calls| && Allowed(calls, windows, limit, js[a])
            && x <= calls[js[a]].now <= x + windows(key)
  }

  lemma AllowedInMeans(calls: seq<Call>, key: string, windows: string -> int, limit: nat, x: Instant, a: int)
    requires a in AllowedIn(calls, key, windows, limit, x)
    ensures var ts := TimesFor(calls, key);
            0 <= a < |ts| && x <= ts[a] <= x + windows(key) && a in Range(WindowStart(ts, windows(key), a), limit)
  {
    TimesOfCalls(calls, key);
    FirstCallsOfWindowAreAllowed(calls, key, windows, limit, a);
  }

  // For any sequence of calls with a clock that never goes back, any closed interval as long as
  // the key's window holds at most 2*limit allowed calls for the key.
  lemma AtMostTwiceTheLimit(calls: seq<Call>, key: string, windows: string -> int, limit: nat, x: Instant)
    requires Ordered(calls) && windows(key) >= 0
    ensures |AllowedIn(calls, key, windows, limit, x)| <= 2 * limit
  {
    var allowed := AllowedIn(calls, key, windows, limit, x);
    var ts, window := TimesFor(calls, key), windows(key);
    TimesAscend(calls, key);
    hide AllowedIn, TimesFor, Ascends;
    forall a | a in allowed
      ensures 0 <= a < |ts| && x <= ts[a] <= x + window && a in Range(WindowStart(ts, window, a), limit)
    {
      AllowedInMeans(calls, key, windows, limit, x, a);
    }
    if allowed != {} {
      TwoWindowsCover(ts, window, limit, x, allowed);
    }
  }

  lemma TwoWindowsCover(ts: seq<Instant>, window: int, limit: nat, x: Instant, allowed: set<int>)
    requires Ascends(ts) && window >= 0 && allowed != {}
    requires forall a :: a in allowed ==> 0 <= a < |ts| && x <= ts[a] <= x + window && a in Range(WindowStart(ts, window, a), limit)
    ensures |allowed| <= 2 * limit
  {
    hide WindowStart, Range, Ascends;
    var first := Least(allowed);
    var s := WindowStart(ts, window, first);
    var late := set a | a in allowed && WindowStart(ts, window, a) != s;
    var t := if late == {} then s else WindowStart(ts, window, Least(late));
    forall a | a in allowed ensures a in Range(s, limit) + Range(t, limit) {
      if a in late {
        SameSecondWindow(ts, window, x, first, Least(late), a);
      }
    }
    SubsetIsSmaller(allowed, Range(s, limit) + Range(t, limit));
  }

  // Two calls of the interval that lie outside the window of its first one share a window.
  lemma SameSecondWindow(ts: seq<Instant>, window: int, x: Instant, first: nat, a: nat, b: nat)
    requires Ascends(ts) && window >= 0 && first <= a <= b < |ts|
    requires x <= ts[first] && ts[b] <= x + window
    requires WindowStart(ts, window, a) != WindowStart(ts, window, first)
    ensures WindowStart(ts, window, a) == WindowStart(ts, window, b)
  {
    hide WindowStart;
    WindowsFollow(ts, window, first, a);
    WindowsFollow(ts, window, a, b);
    assert ts[first] <= ts[WindowStart(ts, window, a)];
    assert ts[WindowStart(ts, window, b)] <= ts[b];
  }
}
