/** The fixed-window limiter on connection attempts: a table of counters in
    insertion order, with the oldest key evicted when the table is full. */
module RateLimiter {
  import opened Collections

  datatype Entry = Entry(count: nat, resetAt: int)

  /** `order` lists the keys as a JavaScript map iterates them. */
  datatype Table = Table(entries: map<string, Entry>, order: seq<string>)

  datatype Config = Config(limit: int, windowMs: int, maxEntries: int)

  datatype Verdict = Verdict(allowed: bool, limit: int, remaining: int, retryAfterSeconds: int, resetAt: int)

  const EMPTY: Table := Table(map[], [])

  function AtLeast(minimum: int, option: real): int {
    if option.Floor < minimum then minimum else option.Floor
  }

  /** The options, floored and clamped from below. */
  function Configure(limit: real, windowMs: real, maxEntries: Option<real>): Config {
    Config(AtLeast(1, limit), AtLeast(1000, windowMs),
      AtLeast(100, if maxEntries.Some? then maxEntries.value else 10000.0))
  }

  predicate ConfigOk(c: Config) {
    c.limit >= 1 && c.windowMs >= 1000 && c.maxEntries >= 100
  }

  lemma ConfigureIsOk(limit: real, windowMs: real, maxEntries: Option<real>)
    ensures ConfigOk(Configure(limit, windowMs, maxEntries))
  {
  }

  ghost predicate TableOk(t: Table) {
    Distinct(t.order) && forall k :: k in t.order <==> k in t.entries
  }

  /** `Math.ceil(ms / 1000)` */
  function CeilSeconds(ms: int): int {
    -((-ms) / 1000)
  }

  /** `entries.set`: a new key goes to the end, an old key keeps its place. */
  function Set(t: Table, key: string, e: Entry): Table {
    Table(t.entries[key := e], if key in t.entries then t.order else t.order + [key])
  }

  function Bumped(c: Config, t: Table, key: string, now: int): Entry {
    var e :=
      if key !in t.entries || t.entries[key].resetAt <= now then Entry(0, now + c.windowMs)
      else t.entries[key];
    e.(count := e.count + 1)
  }

  function Evict(t: Table, maxEntries: int): Table
    decreases |t.order|
  {
    if |t.order| <= maxEntries || t.order == [] then t
    else Evict(Table(t.entries - {t.order[0]}, t.order[1..]), maxEntries)
  }

  function Answer(c: Config, e: Entry, now: int): Verdict {
    Verdict(e.count <= c.limit, c.limit, if c.limit > e.count then c.limit - e.count else 0,
      if CeilSeconds(e.resetAt - now) > 1 then CeilSeconds(e.resetAt - now) else 1, e.resetAt)
  }

  function Checked(c: Config, t: Table, key: string, now: int): Table {
    Evict(Set(t, key, Bumped(c, t, key, now)), c.maxEntries)
  }

  class FixedWindowRateLimiter {
    const config: Config
    var entries: map<string, Entry>
    var order: seq<string>

    function Contents(): Table
      reads this
    {
      Table(entries, order)
    }

    ghost predicate Valid()
      reads this
    {
      ConfigOk(config) && TableOk(Contents()) && |order| <= config.maxEntries
    }

    constructor (limit: real, windowMs: real, maxEntries: Option<real>)
      ensures Valid() && config == Configure(limit, windowMs, maxEntries) && Contents() == EMPTY
    {
      ConfigureIsOk(limit, windowMs, maxEntries);
      config := Configure(limit, windowMs, maxEntries);
      entries := map[];
      order := [];
    }

    method Check(key: string, now: int) returns (verdict: Verdict)
      requires Valid()
      modifies this`entries, this`order
      ensures Valid()
      ensures Contents() == Checked(config, old(Contents()), key, now)
      ensures verdict == Answer(config, Bumped(config, old(Contents()), key, now), now)
      ensures key in entries && entries[key] == Bumped(config, old(Contents()), key, now)
      ensures |entries| <= config.maxEntries
    {
      ghost var before := Contents();
      CheckedKeepsTable(config, before, key, now);
      var entry := if key !in entries || entries[key].resetAt <= now then Entry(0, now + config.windowMs) else entries[key];
      entry := entry.(count := entry.count + 1);
      order := if key in entries then order else order + [key];
      entries := entries[key := entry];
      while |order| > config.maxEntries
        invariant Evict(Contents(), config.maxEntries) == Checked(config, before, key, now)
        decreases |order|
      {
        if order == [] {
          break;
        }
        entries := entries - {order[0]};
        order := order[1..];
      }
      TableSize(Contents());
      verdict := Answer(config, entry, now);
    }
  }

  lemma TableSize(t: Table)
    requires TableOk(t)
    ensures |t.entries| == |t.order|
  {
    SetSizeDecidesDistinct(t.order);
    assert Elements(t.order) == t.entries.Keys;
  }

  lemma SetKeepsTable(t: Table, key: string, e: Entry)
    requires TableOk(t)
    ensures TableOk(Set(t, key, e)) && |Set(t, key, e).order| <= |t.order| + 1
    ensures key !in t.entries ==> Set(t, key, e).order == t.order + [key]
  {
  }

  lemma DropOldest(t: Table)
    requires TableOk(t) && t.order != []
    ensures TableOk(Table(t.entries - {t.order[0]}, t.order[1..]))
  {
    var rest := t.order[1..];
    assert forall i :: 0 <= i < |rest| ==> rest[i] == t.order[i + 1];
    assert forall k :: k in t.order <==> k == t.order[0] || k in rest;
  }

  /** One check evicts at most the single oldest other key. */
  lemma CheckedKeepsTable(c: Config, t: Table, key: string, now: int)
    requires ConfigOk(c) && TableOk(t) && |t.order| <= c.maxEntries
    ensures var u := Checked(c, t, key, now);
      && TableOk(u) && |u.order| <= c.maxEntries
      && key in u.entries && u.entries[key] == Bumped(c, t, key, now)
      && (forall k :: k in u.entries && k != key ==> k in t.entries && u.entries[k] == t.entries[k])
      && (forall k :: k in t.entries && k !in u.entries ==>
           k == t.order[0] && key !in t.entries && |t.order| == c.maxEntries)
  {
    var s := Set(t, key, Bumped(c, t, key, now));
    SetKeepsTable(t, key, Bumped(c, t, key, now));
    if |s.order| > c.maxEntries {
      DropOldest(s);
      assert s.order == t.order + [key];
      assert Evict(s, c.maxEntries) == Table(s.entries - {s.order[0]}, s.order[1..]);
    }
  }

  // Histories ---------------------------------------------------------------------------

  datatype Call = Call(key: string, at: int)

  /** The calls made so far, the latest outermost. */
  datatype History = Start | Then(before: History, call: Call)

  function After(c: Config, h: History): Table {
    match h
    case Start => EMPTY
    case Then(before, call) => Checked(c, After(c, before), call.key, call.at)
  }

  /** What the latest call was answered. */
  function LastVerdict(c: Config, h: History): Verdict
    requires h.Then?
  {
    Answer(c, Bumped(c, After(c, h.before), h.call.key, h.call.at), h.call.at)
  }

  /** A history seen by one key and one span of a window length from `from`: how
      many of its calls the limiter allowed there, and whether the clock never went
      back and the key was never evicted. */
  datatype Meter = Meter(table: Table, latest: Option<int>, used: nat, steady: bool)

  predicate InSpan(c: Config, call: Call, key: string, from: int) {
    call.key == key && from <= call.at < from + c.windowMs
  }

  function Metered(c: Config, m: Meter, call: Call, key: string, from: int): Meter {
    var table := Checked(c, m.table, call.key, call.at);
    var allowed := Bumped(c, m.table, call.key, call.at).count <= c.limit;
    Meter(table, Some(call.at),
      m.used + (if InSpan(c, call, key, from) && allowed then 1 else 0),
      m.steady
      && (m.latest.Some? ==> m.latest.value <= call.at)
      && (key in m.table.entries ==> key in table.entries))
  }

  function MeterOf(c: Config, h: History, key: string, from: int): Meter {
    match h
    case Start => Meter(EMPTY, None, 0, true)
    case Then(before, call) => Metered(c, MeterOf(c, before, key, from), call, key, from)
  }

  /** The meter reads the limiter: its table is the limiter's, and the calls it
      counts are those answered with `allowed`. */
  lemma {:induction false} MeterReadsTheLimiter(c: Config, h: History, key: string, from: int)
    ensures MeterOf(c, h, key, from).table == After(c, h)
    ensures h.Then? ==>
      (MeterOf(c, h, key, from).used == MeterOf(c, h.before, key, from).used
       + if InSpan(c, h.call, key, from) && LastVerdict(c, h).allowed then 1 else 0)
  {
    if h.Then? {
      MeterReadsTheLimiter(c, h.before, key, from);
    }
  }

  lemma {:induction false} TableStaysSmall(c: Config, h: History)
    requires ConfigOk(c)
    ensures TableOk(After(c, h)) && |After(c, h).entries| == |After(c, h).order| <= c.maxEntries
    ensures h.Then? ==> h.call.key in After(c, h).entries
  {
    if h.Then? {
      TableStaysSmall(c, h.before);
      CheckedKeepsTable(c, After(c, h.before), h.call.key, h.call.at);
    }
    TableSize(After(c, h));
  }

  function Repeat(h: History, call: Call, n: nat): History {
    if n == 0 then h else Then(Repeat(h, call, n - 1), call)
  }

  predicate HasEntry(t: Table, key: string, e: Entry) {
    key in t.entries && t.entries[key] == e
  }

  lemma CheckCounts(c: Config, t: Table, call: Call, e: Entry)
    requires ConfigOk(c) && TableOk(t) && |t.order| <= c.maxEntries
    requires HasEntry(t, call.key, e) && e.resetAt > call.at
    ensures HasEntry(Checked(c, t, call.key, call.at), call.key, Entry(e.count + 1, e.resetAt))
  {
    CheckedKeepsTable(c, t, call.key, call.at);
  }

  lemma {:induction false} RepeatedCallsCount(c: Config, h: History, call: Call, e: Entry, n: nat)
    requires ConfigOk(c) && HasEntry(After(c, h), call.key, e) && e.resetAt > call.at
    ensures HasEntry(After(c, Repeat(h, call, n)), call.key, Entry(e.count + n, e.resetAt))
  {
    if n > 0 {
      RepeatedCallsCount(c, h, call, e, n - 1);
      TableStaysSmall(c, Repeat(h, call, n - 1));
      CheckCounts(c, After(c, Repeat(h, call, n - 1)), call, Entry(e.count + n - 1, e.resetAt));
    }
  }

  /** `remaining` is exact: that many further checks at the same moment are allowed,
      and not one more. */
  lemma RemainingIsExact(c: Config, h: History, n: nat)
    requires ConfigOk(c) && h.Then? && LastVerdict(c, h).allowed
    ensures LastVerdict(c, Then(Repeat(h, h.call, n), h.call)).allowed <==> n < LastVerdict(c, h).remaining
  {
    var e := Bumped(c, After(c, h.before), h.call.key, h.call.at);
    TableStaysSmall(c, h.before);
    CheckedKeepsTable(c, After(c, h.before), h.call.key, h.call.at);
    RepeatedCallsCount(c, h, h.call, e, n);
  }

  /** Waiting the advised time, at least a second, is enough: the next check of the key
      is allowed. */
  lemma RetryAfterIsEnough(c: Config, h: History, later: int)
    requires ConfigOk(c) && h.Then?
    requires later >= h.call.at + 1000 * LastVerdict(c, h).retryAfterSeconds
    ensures LastVerdict(c, h).retryAfterSeconds >= 1
    ensures LastVerdict(c, Then(h, Call(h.call.key, later))).allowed
  {
    TableStaysSmall(c, h.before);
    CheckedKeepsTable(c, After(c, h.before), h.call.key, h.call.at);
    assert 1000 * LastVerdict(c, h).retryAfterSeconds >= LastVerdict(c, h).resetAt - h.call.at;
  }

  /** A key that has used up its limit is allowed again exactly from `resetAt` on. */
  lemma ResetIsExact(c: Config, h: History, later: int)
    requires ConfigOk(c) && h.Then? && LastVerdict(c, h).remaining == 0
    ensures LastVerdict(c, Then(h, Call(h.call.key, later))).allowed <==> later >= LastVerdict(c, h).resetAt
    ensures LastVerdict(c, h).limit == c.limit
  {
    TableStaysSmall(c, h.before);
    CheckedKeepsTable(c, After(c, h.before), h.call.key, h.call.at);
  }

  /** The advised wait is at least one second, and for such a key no smaller number of
      seconds is enough. */
  lemma RetryAfterIsLeast(c: Config, h: History, seconds: int)
    requires ConfigOk(c) && h.Then? && LastVerdict(c, h).remaining == 0
    requires 1 <= seconds < LastVerdict(c, h).retryAfterSeconds
    ensures !LastVerdict(c, Then(h, Call(h.call.key, h.call.at + 1000 * seconds))).allowed
  {
    ResetIsExact(c, h, h.call.at + 1000 * seconds);
    assert 1000 * seconds < LastVerdict(c, h).resetAt - h.call.at;
  }

  predicate IsFloorOf(n: int, option: real) {
    n as real <= option < n as real + 1.0
  }

  /** An option at or above its minimum is kept, up to its fraction; one below is
      raised to it. */
  lemma ConfigureMeaning(limit: real, windowMs: real, maxEntries: Option<real>)
    ensures var c := Configure(limit, windowMs, maxEntries);
      && (if limit >= 1.0 then IsFloorOf(c.limit, limit) else c.limit == 1)
      && (if windowMs >= 1000.0 then IsFloorOf(c.windowMs, windowMs) else c.windowMs == 1000)
      && (maxEntries.None? ==> c.maxEntries == 10000)
      && (maxEntries.Some? ==>
           if maxEntries.value >= 100.0 then IsFloorOf(c.maxEntries, maxEntries.value) else c.maxEntries == 100)
  {
  }

  // The bound ---------------------------------------------------------------------------------

  function Capped(c: Config, e: Entry): int {
    if e.count < c.limit then e.count else c.limit
  }

  /** How much of the span the key has used, by where its current window lies. */
  ghost predicate Usage(c: Config, m: Meter, key: string, from: int) {
    && TableOk(m.table) && |m.table.order| <= c.maxEntries
    && (m.steady ==>
      if key !in m.table.entries then m.used == 0
      else
        var e := m.table.entries[key];
        var start := e.resetAt - c.windowMs;
        && m.latest.Some? && start <= m.latest.value && e.count >= 1
        && (if e.resetAt <= from then m.used == 0
            else if start < from then m.used <= Capped(c, e) - 1
            else if start < from + c.windowMs then m.used <= c.limit - 1 + Capped(c, e)
            else m.used <= 2 * c.limit - 1))
  }

  lemma UsageStep(c: Config, m: Meter, call: Call, key: string, from: int)
    requires ConfigOk(c) && Usage(c, m, key, from)
    ensures Usage(c, Metered(c, m, call, key, from), key, from)
  {
    CheckedKeepsTable(c, m.table, call.key, call.at);
  }

  lemma {:induction false} UsageHolds(c: Config, h: History, key: string, from: int)
    requires ConfigOk(c)
    ensures Usage(c, MeterOf(c, h, key, from), key, from)
  {
    if h.Then? {
      UsageHolds(c, h.before, key, from);
      UsageStep(c, MeterOf(c, h.before, key, from), h.call, key, from);
    }
  }

  /** With a clock that never goes back and a key that is not evicted, a span of one
      window length never lets twice the limit through: a window that began before
      the span has spent its first call outside it. */
  lemma SpanAllowsLessThanTwiceTheLimit(c: Config, h: History, key: string, from: int)
    requires ConfigOk(c) && MeterOf(c, h, key, from).steady
    ensures MeterOf(c, h, key, from).used <= 2 * c.limit - 1
  {
    UsageHolds(c, h, key, from);
  }

  // The bound is reached -------------------------------------------------------------------------

  /** A table that holds one key, after calls that were steady. */
  function Single(key: string, e: Entry, used: nat, latest: int): Meter {
    Meter(Table(map[key := e], [key]), Some(latest), used, true)
  }

  lemma OneMoreCall(c: Config, h: History, key: string, e: Entry, from: int, used: nat, latest: int, at: int)
    requires ConfigOk(c) && latest <= at && from <= at < from + c.windowMs
    requires e.resetAt <= at || e.count < c.limit
    requires MeterOf(c, h, key, from) == Single(key, e, used, latest)
    ensures MeterOf(c, Then(h, Call(key, at)), key, from) ==
      Single(key, if e.resetAt <= at then Entry(1, at + c.windowMs) else Entry(e.count + 1, e.resetAt), used + 1, at)
  {
    var t := Single(key, e, used, latest).table;
    var f := Bumped(c, t, key, at);
    assert t.entries[key := f] == map[key := f];
    assert Set(t, key, f) == Table(map[key := f], [key]);
  }

  lemma {:induction false} CallsAtOnce(c: Config, h: History, key: string, e: Entry, from: int, used: nat, latest: int, at: int, n: nat)
    requires ConfigOk(c) && latest <= at && from <= at < from + c.windowMs && at < e.resetAt && e.count + n <= c.limit
    requires MeterOf(c, h, key, from) == Single(key, e, used, latest)
    ensures MeterOf(c, Repeat(h, Call(key, at), n), key, from) ==
      Single(key, Entry(e.count + n, e.resetAt), used + n, if n == 0 then latest else at)
  {
    if n > 0 {
      var k := n - 1;
      CallsAtOnce(c, h, key, e, from, used, latest, at, k);
      OneMoreCall(c, Repeat(h, Call(key, at), k), key, Entry(e.count + k, e.resetAt), from, used + k,
        if k == 0 then latest else at, at);
    }
  }

  lemma FirstCall(c: Config, key: string)
    requires ConfigOk(c)
    ensures MeterOf(c, Then(Start, Call(key, 0)), key, 1) == Single(key, Entry(1, c.windowMs), 0, 0)
  {
    assert Set(EMPTY, key, Entry(1, c.windowMs)) == Table(map[key := Entry(1, c.windowMs)], [key]);
  }

  /** One early call opens a window, and the rest of its limit is spent just before
      the window ends ... */
  function FirstWindow(c: Config, key: string): History
    requires ConfigOk(c)
  {
    Repeat(Then(Start, Call(key, 0)), Call(key, c.windowMs - 1), c.limit - 1)
  }

  /** ... with a full limit just after. */
  function Rush(c: Config, key: string): History
    requires ConfigOk(c)
  {
    Repeat(Then(FirstWindow(c, key), Call(key, c.windowMs)), Call(key, c.windowMs), c.limit - 1)
  }

  lemma FirstWindowUses(c: Config, key: string) returns (latest: int)
    requires ConfigOk(c)
    ensures latest < c.windowMs
    ensures MeterOf(c, FirstWindow(c, key), key, 1) == Single(key, Entry(c.limit, c.windowMs), c.limit - 1, latest)
  {
    var k, w := c.limit - 1, c.windowMs;
    latest := if k == 0 then 0 else w - 1;
    FirstCall(c, key);
    CallsAtOnce(c, Then(Start, Call(key, 0)), key, Entry(1, w), 1, 0, 0, w - 1, k);
  }

  /** The bound is exact: every configuration reaches it. */
  lemma TwiceTheLimitLessOneIsReached(c: Config, key: string)
    requires ConfigOk(c)
    ensures MeterOf(c, Rush(c, key), key, 1).steady
    ensures MeterOf(c, Rush(c, key), key, 1).used == 2 * c.limit - 1
  {
    var k, w := c.limit - 1, c.windowMs;
    var latest := FirstWindowUses(c, key);
    OneMoreCall(c, FirstWindow(c, key), key, Entry(c.limit, w), 1, k, latest, w);
    CallsAtOnce(c, Then(FirstWindow(c, key), Call(key, w)), key, Entry(1, w + w), 1, k + 1, w, w, k);
  }
}
