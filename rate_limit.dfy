/** The per-IP fixed-window limiter of
    src/main/java/com/Charon/config/RateLimitFilter.java: each client address
    owns a `Window` object whose window index and counter are reset and
    incremented in place; a request passes while its counter is at most 120
    in the current minute. */
module RateLimit {

  const LimitPerMinute := 120

  const IntMin := -0x8000_0000
  const IntMax := 0x7FFF_FFFF

  /** Java's `long` division: truncates toward zero. */
  function JavaDiv(a: int, b: int): int
    requires b > 0
  {
    if a >= 0 then a / b else -((-a) / b)
  }

  /** `Instant.now().getEpochSecond() / 60`: the current minute. */
  function WindowOf(epochSecond: int): (w: int)
    ensures epochSecond >= 0 ==> 60 * w <= epochSecond < 60 * w + 60
  {
    JavaDiv(epochSecond, 60)
  }

  /** `AtomicInteger.incrementAndGet` on a 32-bit `int`: wraps at the top. */
  function Increment(c: int): (r: int)
    requires IntMin <= c <= IntMax
    ensures IntMin <= r <= IntMax
    ensures c < IntMax ==> r == c + 1
  {
    if c == IntMax then IntMin else c + 1
  }

  /** The value of one window. */
  datatype WindowState = WindowState(win: int, count: int)

  predicate InRange(w: WindowState) {
    IntMin <= w.count <= IntMax
  }

  /** The limiter's decision as a function of the per-address windows: the
      new windows and whether the request goes on down the chain. */
  function Admit(windows: map<string, WindowState>, ip: string, epochSecond: int): (r: (map<string, WindowState>, bool))
    requires ip in windows ==> InRange(windows[ip])
    ensures ip in r.0 && r.0.Keys == windows.Keys + {ip}
    ensures forall other :: other in windows && other != ip ==> r.0[other] == windows[other]
    ensures r.0[ip].win == WindowOf(epochSecond) && InRange(r.0[ip])
    ensures r.1 <==> r.0[ip].count <= LimitPerMinute
    ensures ip !in windows || windows[ip].win != WindowOf(epochSecond) ==> r.0[ip].count == 1 && r.1
    ensures ip in windows && windows[ip].win == WindowOf(epochSecond) && windows[ip].count < IntMax ==>
              r.0[ip].count == windows[ip].count + 1
  {
    var current := WindowOf(epochSecond);
    var w := if ip in windows then windows[ip] else WindowState(current, 0);
    var reset := if w.win != current then WindowState(current, 0) else w;
    var counted := reset.(count := Increment(reset.count));
    (windows[ip := counted], counted.count <= LimitPerMinute)
  }

  /** The decision for one address depends on its own window only. */
  lemma AdmitIsPerAddress(a: map<string, WindowState>, b: map<string, WindowState>, ip: string, epochSecond: int)
    requires ip in a ==> InRange(a[ip])
    requires (ip in a <==> ip in b) && (ip in a ==> a[ip] == b[ip])
    ensures Admit(a, ip, epochSecond).1 == Admit(b, ip, epochSecond).1
    ensures Admit(a, ip, epochSecond).0[ip] == Admit(b, ip, epochSecond).0[ip]
  {
  }

  /** `n` requests from one address at the same second. */
  function Burst(windows: map<string, WindowState>, ip: string, epochSecond: int, n: nat): (r: (map<string, WindowState>, seq<bool>))
    requires ip in windows ==> InRange(windows[ip])
    ensures |r.1| == n
    ensures n > 0 ==> ip in r.0 && InRange(r.0[ip])
    ensures n == 0 ==> r.0 == windows
  {
    if n == 0 then (windows, [])
    else
      var before := Burst(windows, ip, epochSecond, n - 1);
      var after := Admit(before.0, ip, epochSecond);
      (after.0, before.1 + [after.1])
  }

  /** Starting a minute afresh, the k-th request of the minute is counted
      as k and passes exactly when k is at most 120. */
  lemma {:induction false} BurstFromFreshWindow(windows: map<string, WindowState>, ip: string, epochSecond: int, n: nat)
    requires ip in windows ==> InRange(windows[ip])
    requires ip !in windows || windows[ip].win != WindowOf(epochSecond)
    requires n <= IntMax
    ensures n > 0 ==> Burst(windows, ip, epochSecond, n).0[ip] == WindowState(WindowOf(epochSecond), n)
    ensures forall k :: 0 <= k < n ==> (Burst(windows, ip, epochSecond, n).1[k] <==> k < LimitPerMinute)
  {
    if n > 0 {
      BurstFromFreshWindow(windows, ip, epochSecond, n - 1);
      var before := Burst(windows, ip, epochSecond, n - 1);
      var after := Admit(before.0, ip, epochSecond);
      assert Burst(windows, ip, epochSecond, n).1 == before.1 + [after.1];
    }
  }

  /** In one minute, 120 requests pass and the 121st is refused. */
  lemma HundredTwentyFirstRefused(ip: string, epochSecond: int)
    ensures var outcomes := Burst(map[], ip, epochSecond, 121).1;
            (forall k :: 0 <= k < 120 ==> outcomes[k]) && !outcomes[120]
  {
    BurstFromFreshWindow(map[], ip, epochSecond, 121);
  }

  /** The mutable counter of one address. */
  class Window {
    var win: int
    var count: int

    constructor (w: int)
      ensures win == w && count == 0
    {
      win := w;
      count := 0;
    }

    /** One request in minute `current`: a window of another minute is
        reset to `current` with count 0, then the count is incremented. */
    method Hit(current: int)
      requires IntMin <= count <= IntMax
      modifies this
      ensures WindowState(win, count) ==
        var reset := if old(win) != current then WindowState(current, 0) else WindowState(old(win), old(count));
        reset.(count := Increment(reset.count))
    {
      if win != current {
        win := current;
        count := 0;
      }
      count := Increment(count);
    }
  }

  class RateLimitFilter {
    /** The cache of windows, keyed by client address. */
    var windows: map<string, Window>

    /** Distinct addresses own distinct windows, and counters are 32-bit. */
    predicate Valid()
      reads this, windows.Values
    {
      && (forall a, b :: a in windows && b in windows && a != b ==> windows[a] != windows[b])
      && (forall a :: a in windows ==> IntMin <= windows[a].count <= IntMax)
    }

    function View(): (v: map<string, WindowState>)
      reads this, windows.Values
      ensures v.Keys == windows.Keys
    {
      map a | a in windows :: WindowState(windows[a].win, windows[a].count)
    }

    constructor ()
      ensures Valid() && windows == map[]
    {
      windows := map[];
    }

    /** `doFilterInternal`: answers whether the chain is called; otherwise the
        response is 429 with a RATE_LIMIT body. */
    method DoFilter(ip: string, epochSecond: int) returns (passed: bool)
      requires Valid()
      modifies this, windows.Values
      ensures Valid()
      ensures (View(), passed) == Admit(old(View()), ip, epochSecond)
    {
      var currentWin := WindowOf(epochSecond);
      var w := CacheGet(ip, currentWin);
      ghost var loaded := View();
      assert loaded[ip] == WindowState(w.win, w.count);
      w.Hit(currentWin);
      passed := w.count <= LimitPerMinute;
      ViewAfterHit(loaded, ip, w);
      assert loaded[ip := WindowState(w.win, w.count)] == old(View())[ip := WindowState(w.win, w.count)];
    }

    /** Only the window of `ip` changed since `loaded` was the view. */
    lemma ViewAfterHit(loaded: map<string, WindowState>, ip: string, w: Window)
      requires ip in windows && windows[ip] == w
      requires forall a :: a in windows && a != ip ==> windows[a] != w
      requires loaded.Keys == windows.Keys
      requires forall a :: a in windows && a != ip ==> loaded[a] == WindowState(windows[a].win, windows[a].count)
      ensures View() == loaded[ip := WindowState(w.win, w.count)]
    {
    }

    /** `cache.get(ip, k -> new Window(currentWin))`: the address's window,
        created and stored when the address has none. */
    method CacheGet(ip: string, currentWin: int) returns (w: Window)
      requires Valid()
      modifies this
      ensures Valid() && ip in windows && windows[ip] == w
      ensures w in old(windows.Values) || fresh(w)
      ensures forall a :: a in windows && a != ip ==> windows[a] != w
      ensures View() == if ip in old(View()) then old(View()) else old(View())[ip := WindowState(currentWin, 0)]
    {
      if ip in windows {
        w := windows[ip];
      } else {
        w := new Window(currentWin);
        windows := windows[ip := w];
      }
    }

    /** Expiry by the cache: the address's window is dropped. */
    method Evict(ip: string)
      requires Valid()
      modifies this
      ensures Valid()
      ensures View() == old(View()) - {ip}
    {
      windows := windows - {ip};
    }
  }
}
