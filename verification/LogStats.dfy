/**
 * The access-log statistics: splitting the command line into log files and
 * statistic names, and the selections made over already-parsed log
 * entries (most requested page, most active client, most used browser,
 * slowest and fastest request, busiest client on one day).
 */
module LogStats {
  import opened Wrappers
  import opened Sequences
  import opened Strings

  /**
   * One parsed log line. Only the fields the statistics read are kept;
   * `processingTime` is the optional trailing number of the line. `date`
   * is read only by the per-day counting loop, which is not part of this
   * model; `MostActiveClientByDay` takes the counted activity instead.
   */
  datatype LogEntry = LogEntry(ip: Option<string>, date: Option<string>, pageName: Option<string>,
                               userAgent: Option<string>, processingTime: Option<nat>)

  // ---------------------------------------------------------------------
  // Command line: get_params
  // ---------------------------------------------------------------------

  /** `"--" == param[:2]`: a shorter `param[:2]` is `param` itself, which cannot equal "--". */
  predicate IsStatArg(p: string) {
    |p| >= 2 && p[..2] == "--"
  }

  /** The arguments that name log files, in order. */
  function FileArgs(args: seq<string>): (files: seq<string>)
    ensures forall f :: f in files ==> f in args && !IsStatArg(f)
  {
    if args == [] then []
    else (if IsStatArg(args[0]) then [] else [args[0]]) + FileArgs(args[1..])
  }

  /** The statistic names: the `--` arguments without their prefix, in order. */
  function StatArgs(args: seq<string>): (stats: seq<string>)
    ensures forall s :: s in stats ==> "--" + s in args
  {
    if args == [] then []
    else if IsStatArg(args[0]) then
      assert "--" + args[0][2..] == args[0];
      [args[0][2..]] + StatArgs(args[1..])
    else StatArgs(args[1..])
  }

  /** Each statistic name with its "--" put back. */
  function Flags(stats: seq<string>): (r: seq<string>)
    ensures |r| == |stats|
    ensures forall i :: 0 <= i < |stats| ==> r[i] == "--" + stats[i]
  {
    seq(|stats|, i requires 0 <= i < |stats| => "--" + stats[i])
  }

  lemma {:induction false} FileArgsSnoc(args: seq<string>, a: string)
    ensures FileArgs(args + [a]) == FileArgs(args) + (if IsStatArg(a) then [] else [a])
    decreases |args|
  {
    if args != [] {
      assert (args + [a])[1..] == args[1..] + [a];
      FileArgsSnoc(args[1..], a);
    }
  }

  lemma {:induction false} StatArgsSnoc(args: seq<string>, a: string)
    ensures StatArgs(args + [a]) == StatArgs(args) + (if IsStatArg(a) then [a[2..]] else [])
    decreases |args|
  {
    if args != [] {
      assert (args + [a])[1..] == args[1..] + [a];
      StatArgsSnoc(args[1..], a);
    }
  }

  /** `get_params` over `sys.argv[1:]`. */
  method GetParams(args: seq<string>) returns (files: seq<string>, stats: seq<string>)
    ensures files == FileArgs(args) && stats == StatArgs(args)
  {
    files, stats := [], [];
    for i := 0 to |args|
      invariant files == FileArgs(args[..i]) && stats == StatArgs(args[..i])
    {
      var param := args[i];
      assert args[..i + 1] == args[..i] + [param];
      FileArgsSnoc(args[..i], param);
      StatArgsSnoc(args[..i], param);
      if |param| >= 2 && param[..2] == "--" {
        stats := stats + [param[2..]];
      } else {
        files := files + [param];
      }
    }
    assert args[..|args|] == args;
  }

  /** Every argument lands in exactly one of the two lists. */
  lemma {:induction false} ParamsPartition(args: seq<string>)
    ensures |FileArgs(args)| + |StatArgs(args)| == |args|
    ensures forall a :: a in args && !IsStatArg(a) ==> a in FileArgs(args)
    ensures forall a :: a in args && IsStatArg(a) ==> a[2..] in StatArgs(args)
    decreases |args|
  {
    if args != [] {
      ParamsPartition(args[1..]);
      assert forall a :: a in args ==> a == args[0] || a in args[1..];
    }
  }

  /** The file list is the non-`--` arguments in their original order. */
  lemma {:induction false} FilesKeepOrder(args: seq<string>)
    ensures IsSubsequence(FileArgs(args), args)
    decreases |args|
  {
    if args != [] {
      FilesKeepOrder(args[1..]);
      var rest := FileArgs(args[1..]);
      if !IsStatArg(args[0]) {
        assert FileArgs(args) == [args[0]] + rest;
        assert FileArgs(args)[1..] == rest;
      } else {
        assert FileArgs(args) == rest;
        if rest != [] {
          assert rest[0] in rest && rest[0] != args[0];
        }
      }
    }
  }

  /** With "--" put back, the statistic names are the `--` arguments in their original order. */
  lemma {:induction false} StatsKeepOrder(args: seq<string>)
    ensures IsSubsequence(Flags(StatArgs(args)), args)
    decreases |args|
  {
    if args != [] {
      StatsKeepOrder(args[1..]);
      var rest := StatArgs(args[1..]);
      var flags := Flags(StatArgs(args));
      if IsStatArg(args[0]) {
        assert StatArgs(args) == [args[0][2..]] + rest;
        assert flags[0] == "--" + args[0][2..] == args[0];
        assert flags[1..] == Flags(rest);
      } else {
        assert StatArgs(args) == rest;
        if flags != [] {
          assert flags[0][..2] == "--";
          assert flags[0] != args[0];
        }
      }
    }
  }

  // ---------------------------------------------------------------------
  // Counting by key and the most frequent key
  // ---------------------------------------------------------------------

  /** How many of `keys` are `k`. */
  function Tally(keys: seq<Option<string>>, k: string): nat {
    multiset(keys)[Some(k)]
  }

  /** The keys that occur among `keys`. */
  function Present(keys: seq<Option<string>>): (r: set<string>)
    ensures forall k :: k in r <==> Some(k) in keys
  {
    set i | 0 <= i < |keys| && keys[i].Some? :: keys[i].value
  }

  /** The count of every present key, as the `defaultdict(int)` ends up. */
  function Tallies(keys: seq<Option<string>>): map<string, nat> {
    map k | k in Present(keys) :: Tally(keys, k)
  }

  /** The key with the largest count; on equal counts the smaller key in string order. */
  ghost predicate IsMostFrequent(counter: map<string, nat>, k: string) {
    k in counter
    && forall k' :: k' in counter ==>
         counter[k'] < counter[k] || (counter[k'] == counter[k] && (k' == k || LexLess(k, k')))
  }

  /** The most frequent key of the tally of `keys`. */
  ghost predicate IsTopKey(keys: seq<Option<string>>, k: string) {
    IsMostFrequent(Tallies(keys), k)
  }

  /** The top key is unique, so it does not depend on the order in which the counter is read. */
  lemma TopKeyUnique(keys: seq<Option<string>>, a: string, b: string)
    requires IsTopKey(keys, a) && IsTopKey(keys, b)
    ensures a == b
  {
    assert Tally(keys, a) == Tally(keys, b);
    LexLessTrichotomy(a, b);
  }

  /** The top key depends only on how often each key occurs, not on the order of the entries. */
  lemma TopKeyIgnoresOrder(keys: seq<Option<string>>, keys': seq<Option<string>>, k: string)
    requires multiset(keys) == multiset(keys')
    requires IsTopKey(keys, k)
    ensures IsTopKey(keys', k)
  {
    assert forall x :: x in keys <==> x in multiset(keys);
    assert forall x :: x in keys' <==> x in multiset(keys');
    assert Present(keys) == Present(keys');
    assert Tallies(keys) == Tallies(keys');
  }

  /**
   * The `defaultdict(int)` counting loop: one count per present key, and
   * the keys in the order they were first met, as the dict iterates them.
   */
  method CountKeys(keys: seq<Option<string>>) returns (counter: map<string, nat>, order: seq<string>)
    ensures counter == Tallies(keys)
    ensures NoDuplicates(order) && forall k :: k in order <==> k in counter
  {
    counter, order := map[], [];
    for i := 0 to |keys|
      invariant forall k :: k in counter <==> Some(k) in keys[..i]
      invariant forall k :: k in counter ==> counter[k] == Tally(keys[..i], k)
      invariant NoDuplicates(order) && forall k :: k in order <==> k in counter
    {
      assert keys[..i + 1] == keys[..i] + [keys[i]];
      if keys[i].Some? {
        var k := keys[i].value;
        if k in counter {
          counter := counter[k := counter[k] + 1];
        } else {
          counter := counter[k := 1];
          order := order + [k];
        }
      }
    }
    assert keys[..|keys|] == keys;
    assert forall k :: k in counter <==> k in Tallies(keys);
  }

  /**
   * The selection loop over `counter.items()`: a larger count takes over,
   * an equal count takes over when its key is smaller.
   */
  method SelectMostFrequent(counter: map<string, nat>, order: seq<string>) returns (best: Option<string>, maxCount: int)
    requires forall k :: k in order <==> k in counter
    ensures best.None? <==> forall k :: k !in counter
    ensures best.None? ==> maxCount == -1
    ensures best.Some? ==> IsMostFrequent(counter, best.value) && maxCount == counter[best.value]
  {
    best, maxCount := None, -1;
    for i := 0 to |order|
      invariant best.None? <==> i == 0
      invariant best.None? ==> maxCount == -1
      invariant best.Some? ==> best.value in order[..i] && maxCount == counter[best.value]
      invariant forall j :: 0 <= j < i ==>
                  (counter[order[j]] < maxCount
                   || (counter[order[j]] == maxCount && (order[j] == best.value || LexLess(best.value, order[j]))))
    {
      var k := order[i];
      var count := counter[k];
      if count > maxCount {
        maxCount, best := count, Some(k);
        forall j | 0 <= j < i
          ensures counter[order[j]] < maxCount
        {
        }
      } else if count == maxCount {
        if best.None? || LexLess(k, best.value) {
          forall j | 0 <= j < i && counter[order[j]] == maxCount && order[j] != best.value
            ensures LexLess(k, order[j])
          {
            LexLessTransitive(k, best.value, order[j]);
          }
          best := Some(k);
        } else {
          LexLessTrichotomy(k, best.value);
        }
      }
    }
    if best.Some? {
      forall k' | k' in counter
        ensures counter[k'] < counter[best.value] || (counter[k'] == counter[best.value] && (k' == best.value || LexLess(best.value, k')))
      {
        var j :| 0 <= j < |order| && order[j] == k';
      }
    }
  }

  /**
   * Count the present keys and pick the most frequent one: `(None, -1)`
   * when no entry carries a key.
   */
  method MostFrequent(keys: seq<Option<string>>) returns (best: Option<string>, count: int)
    ensures best.None? <==> forall i :: 0 <= i < |keys| ==> keys[i].None?
    ensures best.None? ==> count == -1
    ensures best.Some? ==> IsTopKey(keys, best.value) && count == Tally(keys, best.value)
  {
    var counter, order := CountKeys(keys);
    best, count := SelectMostFrequent(counter, order);
    forall i | 0 <= i < |keys| && keys[i].Some? ensures keys[i].value in counter {
      assert keys[i] in keys;
    }
  }

  function PageNames(data: seq<LogEntry>): (keys: seq<Option<string>>)
    ensures |keys| == |data| && forall i :: 0 <= i < |data| ==> keys[i] == data[i].pageName
  {
    seq(|data|, i requires 0 <= i < |data| => data[i].pageName)
  }

  function ClientIps(data: seq<LogEntry>): (keys: seq<Option<string>>)
    ensures |keys| == |data| && forall i :: 0 <= i < |data| ==> keys[i] == data[i].ip
  {
    seq(|data|, i requires 0 <= i < |data| => data[i].ip)
  }

  /** `user_agent.split('/')[0]`: the text before the first '/', or all of it. */
  function BrowserName(userAgent: string): (name: string)
    ensures '/' !in name && name <= userAgent
    ensures |name| < |userAgent| ==> userAgent[|name|] == '/'
  {
    var slash := Find(userAgent, "/");
    CharOccurrences(userAgent, '/');
    if slash == -1 then userAgent else userAgent[..slash]
  }

  /** A product token followed by "/" and a version gives back the product. */
  lemma BrowserOfProduct(product: string, version: string)
    requires '/' !in product
    ensures BrowserName(product + "/" + version) == product
  {
    FindAfter(product, '/', version);
    assert (product + "/" + version)[..|product|] == product;
  }

  function Browsers(data: seq<LogEntry>): (keys: seq<Option<string>>)
    ensures |keys| == |data|
    ensures forall i :: 0 <= i < |data| ==>
              keys[i] == if data[i].userAgent.Some? then Some(BrowserName(data[i].userAgent.value)) else None
  {
    seq(|data|, i requires 0 <= i < |data| =>
      if data[i].userAgent.Some? then Some(BrowserName(data[i].userAgent.value)) else None)
  }

  /** `most_popular_page`: the most requested page and its number of requests. */
  method MostPopularPage(data: seq<LogEntry>) returns (page: Option<string>, count: int)
    ensures page.None? <==> forall i :: 0 <= i < |data| ==> data[i].pageName.None?
    ensures page.None? ==> count == -1
    ensures page.Some? ==> IsTopKey(PageNames(data), page.value) && count == Tally(PageNames(data), page.value)
  {
    page, count := MostFrequent(PageNames(data));
  }

  /** `most_active_client`: the ip with the most requests and its number of requests. */
  method MostActiveClient(data: seq<LogEntry>) returns (client: Option<string>, count: int)
    ensures client.None? <==> forall i :: 0 <= i < |data| ==> data[i].ip.None?
    ensures client.None? ==> count == -1
    ensures client.Some? ==> IsTopKey(ClientIps(data), client.value) && count == Tally(ClientIps(data), client.value)
  {
    client, count := MostFrequent(ClientIps(data));
  }

  /** `__most_popular_browser`: the most frequent browser name and its number of requests. */
  method MostPopularBrowser(data: seq<LogEntry>) returns (browser: Option<string>, count: int)
    ensures browser.None? <==> forall i :: 0 <= i < |data| ==> data[i].userAgent.None?
    ensures browser.None? ==> count == -1
    ensures browser.Some? ==> IsTopKey(Browsers(data), browser.value) && count == Tally(Browsers(data), browser.value)
  {
    browser, count := MostFrequent(Browsers(data));
  }

  // ---------------------------------------------------------------------
  // Slowest and fastest request
  // ---------------------------------------------------------------------

  /** The time `__slowest_page` reads: a missing time counts as 0. */
  function TimeOrZero(e: LogEntry): nat {
    if e.processingTime.Some? then e.processingTime.value else 0
  }

  /** `data[at]` has the largest time, and every later entry a smaller one. */
  ghost predicate IsLastSlowest(data: seq<LogEntry>, at: int) {
    0 <= at < |data|
    && (forall j :: 0 <= j < |data| ==> TimeOrZero(data[j]) <= TimeOrZero(data[at]))
    && (forall j :: at < j < |data| ==> TimeOrZero(data[j]) < TimeOrZero(data[at]))
  }

  lemma LastSlowestUnique(data: seq<LogEntry>, a: int, b: int)
    requires IsLastSlowest(data, a) && IsLastSlowest(data, b)
    ensures a == b
  {
    assert TimeOrZero(data[a]) == TimeOrZero(data[b]);
  }

  /** `__slowest_page`: the last entry of largest time; `None` only for no entries. */
  method SlowestPage(data: seq<LogEntry>) returns (slowest: Option<LogEntry>, ghost at: int)
    ensures slowest.None? <==> data == []
    ensures slowest.Some? ==> IsLastSlowest(data, at) && slowest.value == data[at]
  {
    var maxTime: nat := 0;
    slowest, at := None, -1;
    for i := 0 to |data|
      invariant slowest.None? <==> i == 0
      invariant slowest.None? ==> maxTime == 0
      invariant slowest.Some? ==> 0 <= at < i && slowest.value == data[at] && maxTime == TimeOrZero(data[at])
      invariant forall j :: 0 <= j < i ==> TimeOrZero(data[j]) <= maxTime
      invariant forall j :: at < j < i ==> TimeOrZero(data[j]) < maxTime
    {
      var processingTime: nat := if data[i].processingTime.Some? then data[i].processingTime.value else 0;
      if processingTime >= maxTime {
        maxTime := processingTime;
        slowest, at := Some(data[i]), i;
      }
    }
  }

  /** The starting minimum of `__fastest_page`. */
  const TimeCeiling: nat := 9999999999999

  /** The entry has a time, and the time is within `ceiling` when there is one. */
  predicate Considered(e: LogEntry, ceiling: Option<nat>) {
    e.processingTime.Some? && (ceiling.None? || e.processingTime.value <= ceiling.value)
  }

  /** Among the considered entries, `data[at]` has the smallest time and every later one a larger time. */
  ghost predicate IsLastFastest(data: seq<LogEntry>, at: int, ceiling: Option<nat>) {
    0 <= at < |data| && Considered(data[at], ceiling)
    && (forall j :: 0 <= j < |data| && Considered(data[j], ceiling) ==>
          data[at].processingTime.value <= data[j].processingTime.value)
    && (forall j :: at < j < |data| && Considered(data[j], ceiling) ==>
          data[at].processingTime.value < data[j].processingTime.value)
  }

  lemma LastFastestUnique(data: seq<LogEntry>, a: int, b: int, ceiling: Option<nat>)
    requires IsLastFastest(data, a, ceiling) && IsLastFastest(data, b, ceiling)
    ensures a == b
  {
  }

  /**
   * `__fastest_page` as written: the running minimum starts at
   * 9999999999999, so an entry whose time exceeds it is never picked.
   */
  method FastestPage(data: seq<LogEntry>) returns (fastest: Option<LogEntry>, ghost at: int)
    ensures fastest.None? <==> forall j :: 0 <= j < |data| ==> !Considered(data[j], Some(TimeCeiling))
    ensures fastest.Some? ==> IsLastFastest(data, at, Some(TimeCeiling)) && fastest.value == data[at]
  {
    var minTime: nat := TimeCeiling;
    fastest, at := None, -1;
    for i := 0 to |data|
      invariant fastest.None? <==> forall j :: 0 <= j < i ==> !Considered(data[j], Some(TimeCeiling))
      invariant fastest.None? ==> minTime == TimeCeiling
      invariant fastest.Some? ==> 0 <= at < i && fastest.value == data[at] && Considered(data[at], Some(TimeCeiling))
                                  && minTime == data[at].processingTime.value
      invariant forall j :: 0 <= j < i && Considered(data[j], Some(TimeCeiling)) ==> minTime <= data[j].processingTime.value
      invariant forall j :: at < j < i && Considered(data[j], Some(TimeCeiling)) ==> minTime < data[j].processingTime.value
    {
      if data[i].processingTime.Some? {
        var processingTime := data[i].processingTime.value;
        if processingTime <= minTime {
          minTime := processingTime;
          fastest, at := Some(data[i]), i;
        }
      }
    }
  }

  /** A single entry slower than the ceiling: every entry has a time, yet none is considered. */
  lemma CeilingHidesSlowEntry(e: LogEntry)
    requires e.processingTime == Some(TimeCeiling + 1)
    ensures forall j :: 0 <= j < |[e]| ==> [e][j].processingTime.Some? && !Considered([e][j], Some(TimeCeiling))
    ensures IsLastFastest([e], 0, None)
  {
  }

  /** `__fastest_page` with no ceiling: the last entry of smallest time among all entries that have one. */
  method FastestPageCorrected(data: seq<LogEntry>) returns (fastest: Option<LogEntry>, ghost at: int)
    ensures fastest.None? <==> forall j :: 0 <= j < |data| ==> data[j].processingTime.None?
    ensures fastest.Some? ==> IsLastFastest(data, at, None) && fastest.value == data[at]
  {
    var minTime: nat := 0;
    fastest, at := None, -1;
    for i := 0 to |data|
      invariant fastest.None? <==> forall j :: 0 <= j < i ==> data[j].processingTime.None?
      invariant fastest.Some? ==> 0 <= at < i && fastest.value == data[at] && data[at].processingTime == Some(minTime)
      invariant fastest.Some? ==> forall j :: 0 <= j < i && data[j].processingTime.Some? ==>
                                    data[at].processingTime.value <= data[j].processingTime.value
      invariant fastest.Some? ==> forall j :: at < j < i && data[j].processingTime.Some? ==>
                                    data[at].processingTime.value < data[j].processingTime.value
    {
      if data[i].processingTime.Some? {
        var processingTime := data[i].processingTime.value;
        if fastest.None? || processingTime <= minTime {
          minTime := processingTime;
          fastest, at := Some(data[i]), i;
        }
      }
    }
  }

  // ---------------------------------------------------------------------
  // Busiest client on one day
  // ---------------------------------------------------------------------

  /**
   * The per-client, per-day request counts in dict iteration order: one
   * item per ip (the ips are distinct), each with its days and counts.
   */
  type Activity<D> = seq<(string, seq<(D, nat)>)>

  predicate DistinctClients<D>(activity: Activity<D>) {
    forall x, y :: 0 <= x < y < |activity| ==> activity[x].0 != activity[y].0
  }

  predicate ValidPair<D>(activity: Activity<D>, x: int, y: int) {
    0 <= x < |activity| && 0 <= y < |activity[x].1|
  }

  /**
   * Pair `(a, b)` wins over pair `(x, y)`: more requests, or as many and
   * either a smaller ip or the same client with the day not later.
   */
  ghost predicate Beats<D>(activity: Activity<D>, a: int, b: int, x: int, y: int)
    requires ValidPair(activity, a, b) && ValidPair(activity, x, y)
  {
    activity[x].1[y].1 < activity[a].1[b].1
    || (activity[x].1[y].1 == activity[a].1[b].1
        && (LexLess(activity[a].0, activity[x].0) || (x == a && b <= y)))
  }

  /** Pair `(a, b)` wins over every pair: the busiest client-day. */
  ghost predicate IsBusiestDay<D>(activity: Activity<D>, a: int, b: int) {
    ValidPair(activity, a, b)
    && forall x, y :: ValidPair(activity, x, y) ==> Beats(activity, a, b, x, y)
  }

  lemma BusiestDayUnique<D>(activity: Activity<D>, a: int, b: int, a': int, b': int)
    requires DistinctClients(activity)
    requires IsBusiestDay(activity, a, b) && IsBusiestDay(activity, a', b')
    ensures a == a' && b == b'
  {
    assert Beats(activity, a, b, a', b') && Beats(activity, a', b', a, b);
    LexLessTrichotomy(activity[a].0, activity[a'].0);
    LexLessIrreflexive(activity[a].0);
  }

  /** Pair `(x, y)` comes before the position `(fx, fy)` of the nested loops. */
  predicate Before(x: int, y: int, fx: int, fy: int) {
    x < fx || (x == fx && y < fy)
  }

  /** What the nested selection loops know at position `(fx, fy)`. */
  ghost predicate Selection<D>(activity: Activity<D>, fx: int, fy: int,
                               client: Option<string>, maxRequests: int, day: Option<D>, a: int, b: int) {
    && (client.None? ==> maxRequests == -1 && day.None? && fy == 0
                         && forall x :: 0 <= x < fx && x < |activity| ==> activity[x].1 == [])
    && (client.Some? ==>
          ValidPair(activity, a, b) && Before(a, b, fx, fy)
          && client == Some(activity[a].0) && day == Some(activity[a].1[b].0) && maxRequests == activity[a].1[b].1
          && forall x, y :: ValidPair(activity, x, y) && Before(x, y, fx, fy) ==> Beats(activity, a, b, x, y))
  }

  /** The pair at `(x, y)` takes over. */
  lemma TakeOver<D>(activity: Activity<D>, x: int, y: int,
                    client: Option<string>, maxRequests: int, day: Option<D>, a: int, b: int)
    requires ValidPair(activity, x, y) && Selection(activity, x, y, client, maxRequests, day, a, b)
    requires activity[x].1[y].1 > maxRequests
             || (activity[x].1[y].1 == maxRequests && (client.None? || LexLess(activity[x].0, client.value)))
    ensures Selection(activity, x, y + 1, Some(activity[x].0), activity[x].1[y].1, Some(activity[x].1[y].0), x, y)
  {
    forall x', y' | ValidPair(activity, x', y') && Before(x', y', x, y + 1)
      ensures Beats(activity, x, y, x', y')
    {
      if client.Some? && (x' != x || y' != y) && activity[x'].1[y'].1 == activity[x].1[y].1 {
        assert Beats(activity, a, b, x', y');
        LexLessIrreflexive(activity[x].0);
        if LexLess(activity[a].0, activity[x'].0) {
          LexLessTransitive(activity[x].0, activity[a].0, activity[x'].0);
          LexLessTrichotomy(activity[a].0, activity[x].0);
        }
      }
    }
  }

  /** The pair at `(x, y)` does not take over. */
  lemma KeepPick<D>(activity: Activity<D>, x: int, y: int,
                    client: Option<string>, maxRequests: int, day: Option<D>, a: int, b: int)
    requires DistinctClients(activity)
    requires ValidPair(activity, x, y) && Selection(activity, x, y, client, maxRequests, day, a, b)
    requires !(activity[x].1[y].1 > maxRequests
               || (activity[x].1[y].1 == maxRequests && (client.None? || LexLess(activity[x].0, client.value))))
    ensures Selection(activity, x, y + 1, client, maxRequests, day, a, b)
  {
    LexLessTrichotomy(activity[x].0, activity[a].0);
    assert Beats(activity, a, b, x, y);
  }

  /** `__most_active_client_by_day`, the selection over the counted activity. */
  method MostActiveClientByDay<D>(activity: Activity<D>)
    returns (client: Option<string>, maxRequests: int, day: Option<D>, ghost a: int, ghost b: int)
    requires DistinctClients(activity)
    ensures client.None? <==> forall x :: 0 <= x < |activity| ==> activity[x].1 == []
    ensures client.None? ==> maxRequests == -1 && day.None?
    ensures client.Some? ==> IsBusiestDay(activity, a, b)
    ensures client.Some? ==> client == Some(activity[a].0) && day == Some(activity[a].1[b].0)
                             && maxRequests == activity[a].1[b].1
  {
    client, maxRequests, day, a, b := None, -1, None, -1, -1;
    for x := 0 to |activity|
      invariant Selection(activity, x, 0, client, maxRequests, day, a, b)
    {
      var ip := activity[x].0;
      var dates := activity[x].1;
      for y := 0 to |dates|
        invariant Selection(activity, x, y, client, maxRequests, day, a, b)
      {
        var date := dates[y].0;
        var requests := dates[y].1;
        if requests > maxRequests || (requests == maxRequests && (client.None? || LexLess(ip, client.value))) {
          TakeOver(activity, x, y, client, maxRequests, day, a, b);
          maxRequests, client, day, a, b := requests, Some(ip), Some(date), x, y;
        } else {
          KeepPick(activity, x, y, client, maxRequests, day, a, b);
        }
      }
    }
  }
}
