/** `getJavas` (index.ts): the platform's candidates, kept when executable,
    then made unique by path with the first occurrence kept, the whole
    producer wrapped in `PromiseCache`. It neither probes the installs nor
    drops invalid ones. */
module Discovery {
  import opened Wrappers
  import opened Utils
  import opened Candidates

  /** Everything the pipeline reads from its surroundings: `process.platform`,
      the directories `allDirectories` finds under the two macOS roots
      (`None` where it rejects), the registry, and `canExecute`. */
  datatype Host = Host(
    platform: string,
    libraryVms: Option<seq<string>>,
    systemVms: Option<seq<string>>,
    registry: (string, string) -> KeyLookup,
    canExecute: string -> bool)

  /** The candidate list of the host's platform (the `switch` in `getJavas`).
      Only the macOS enumeration can reject, and the shared default `"java"`
      is a candidate on every platform. */
  function Enumerate(host: Host): (r: Option<seq<string>>)
    ensures r.None? ==> host.platform == "darwin"
    ensures r.Some? ==> DefaultJava in r.value
  {
    if host.platform == "win32" then
      assert WindowsCandidates(host.registry)[6] == DefaultJava;
      Some(WindowsCandidates(host.registry))
    else if host.platform == "darwin" then
      MacLayout(host.libraryVms, host.systemVms);
      FindJavasMac(host.libraryVms, host.systemVms)
    else if host.platform == "linux" then Some(LinuxJavas)
    else Some([DefaultJava])
  }

  /** Bluebird's `.filter`, kept in order. */
  function Filter(xs: seq<string>, keep: string -> bool): (r: seq<string>)
    ensures forall x :: x in r <==> x in xs && keep(x)
  {
    if xs == [] then []
    else if keep(xs[0]) then [xs[0]] + Filter(xs[1..], keep)
    else Filter(xs[1..], keep)
  }

  /** Underscore's `unique(xs, v => v.path)` on paths, skipping what was already `seen`. */
  function UniqueFrom(xs: seq<string>, seen: set<string>): seq<string> {
    if xs == [] then []
    else if xs[0] in seen then UniqueFrom(xs[1..], seen)
    else [xs[0]] + UniqueFrom(xs[1..], seen + {xs[0]})
  }

  function Unique(xs: seq<string>): seq<string> {
    UniqueFrom(xs, {})
  }

  /** The position of the first occurrence of `x`. */
  function FirstIndex(xs: seq<string>, x: string): (k: nat)
    requires x in xs
    ensures k < |xs| && xs[k] == x && x !in xs[..k]
  {
    if xs[0] == x then 0 else 1 + FirstIndex(xs[1..], x)
  }

  ghost predicate Distinct(xs: seq<string>) {
    forall i, j :: 0 <= i < j < |xs| ==> xs[i] != xs[j]
  }

  /** `ys` lists its elements in the order of their first occurrence in `xs`. */
  ghost predicate InFirstOccurrenceOrder(ys: seq<string>, xs: seq<string>)
    requires forall i :: 0 <= i < |ys| ==> ys[i] in xs
  {
    forall i, j :: 0 <= i < j < |ys| ==> FirstIndex(xs, ys[i]) < FirstIndex(xs, ys[j])
  }

  /** Deduplication keeps each element not yet seen exactly once, in order
      of first occurrence. */
  lemma {:induction false} UniqueFromSpec(xs: seq<string>, seen: set<string>)
    ensures forall x :: x in UniqueFrom(xs, seen) <==> x in xs && x !in seen
    ensures Distinct(UniqueFrom(xs, seen))
    ensures InFirstOccurrenceOrder(UniqueFrom(xs, seen), xs)
  {
    if xs != [] {
      var tail := xs[1..];
      if xs[0] in seen {
        UniqueFromSpec(tail, seen);
        var r := UniqueFrom(tail, seen);
        forall i | 0 <= i < |r| ensures r[i] in tail && r[i] in xs && FirstIndex(xs, r[i]) == 1 + FirstIndex(tail, r[i]) {
          assert r[i] != xs[0];
        }
      } else {
        var seen' := seen + {xs[0]};
        UniqueFromSpec(tail, seen');
        var r' := UniqueFrom(tail, seen');
        var r := [xs[0]] + r';
        forall i | 0 <= i < |r'| ensures r'[i] in tail && r'[i] in xs && FirstIndex(xs, r'[i]) == 1 + FirstIndex(tail, r'[i]) {
          assert r'[i] != xs[0];
        }
        forall i, j | 0 <= i < j < |r| ensures r[i] != r[j] && FirstIndex(xs, r[i]) < FirstIndex(xs, r[j]) {
          if i > 0 {
            assert r[i] == r'[i - 1] && r[j] == r'[j - 1];
          } else {
            assert r[j] == r'[j - 1];
          }
        }
      }
    }
  }

  /** Filtering keeps the order of first occurrences. */
  lemma {:induction false} FilterKeepsOrder(xs: seq<string>, keep: string -> bool, x: string, y: string)
    requires x in Filter(xs, keep) && y in Filter(xs, keep)
    requires FirstIndex(Filter(xs, keep), x) < FirstIndex(Filter(xs, keep), y)
    ensures FirstIndex(xs, x) < FirstIndex(xs, y)
  {
    var f := Filter(xs, keep);
    var tail := xs[1..];
    if keep(xs[0]) {
      if x != xs[0] {
        assert y != xs[0];
        assert f == [xs[0]] + Filter(tail, keep);
        FilterKeepsOrder(tail, keep, x, y);
      }
    } else {
      assert x != xs[0] && y != xs[0];
      FilterKeepsOrder(tail, keep, x, y);
    }
  }

  /** What the producer hands to `PromiseCache`: the array of installs (by
      path), or a rejection. */
  function Discover(host: Host): Option<seq<string>> {
    match Enumerate(host)
    case None => None
    case Some(candidates) => Some(Unique(Filter(candidates, host.canExecute)))
  }

  /** The producer given to `PromiseCache`, running the enumerator of the
      host's platform. It differs from `Discover` only in running the
      Windows enumeration as the loop `FindJavasWindows`, where `Discover`
      reads its specification `WindowsCandidates`. */
  method GetJavas(host: Host) returns (javas: Option<seq<string>>)
    ensures javas == Discover(host)
  {
    var found: Option<seq<string>>;
    if host.platform == "win32" {
      var windows := FindJavasWindows(host.registry);
      found := Some(windows);
    } else if host.platform == "darwin" {
      found := FindJavasMac(host.libraryVms, host.systemVms);
    } else if host.platform == "linux" {
      found := Some(LinuxJavas);
    } else {
      found := Some([DefaultJava]);
    }
    match found
    case None =>
      javas := None;
    case Some(candidates) =>
      javas := Some(Unique(Filter(candidates, host.canExecute)));
  }

  /** The result: every path executable, none twice, every executable
      candidate exactly once, in the order of first occurrence. */
  lemma GetJavasResult(host: Host)
    requires Enumerate(host).Some?
    ensures Discover(host).Some?
    ensures var candidates, paths := Enumerate(host).value, Discover(host).value;
      (forall i :: 0 <= i < |paths| ==> host.canExecute(paths[i]) && paths[i] in candidates)
      && Distinct(paths)
      && (forall x :: x in candidates && host.canExecute(x) ==> multiset(paths)[x] == 1)
      && InFirstOccurrenceOrder(paths, candidates)
  {
    var candidates := Enumerate(host).value;
    var kept := Filter(candidates, host.canExecute);
    var paths := Unique(kept);
    UniqueFromSpec(kept, {});
    forall x | x in candidates && host.canExecute(x) ensures multiset(paths)[x] == 1 {
      DistinctOnce(paths, x);
    }
    forall i, j | 0 <= i < j < |paths| ensures FirstIndex(candidates, paths[i]) < FirstIndex(candidates, paths[j]) {
      FilterKeepsOrder(candidates, host.canExecute, paths[i], paths[j]);
    }
  }

  lemma {:induction false} DistinctOnce(xs: seq<string>, x: string)
    requires Distinct(xs) && x in xs
    ensures multiset(xs)[x] == 1
  {
    if xs[0] == x {
      assert xs == [x] + xs[1..];
      assert x !in xs[1..];
    } else {
      assert xs == [xs[0]] + xs[1..];
      DistinctOnce(xs[1..], x);
    }
  }

  /** Only the macOS enumeration can reject, and only when a listing fails. */
  lemma DiscoverRejects(host: Host)
    ensures Discover(host).None? <==>
              host.platform == "darwin" && (host.libraryVms.None? || host.systemVms.None?)
  {
    MacLayout(host.libraryVms, host.systemVms);
  }

  /** The candidates of each platform. */
  lemma EnumeratePerPlatform(host: Host)
    ensures host.platform !in {"win32", "darwin", "linux"} ==> Enumerate(host) == Some(["java"])
    ensures host.platform == "linux" ==> Enumerate(host) == Some(LinuxJavas) && |LinuxJavas| == 3
    ensures host.platform == "win32" ==>
              Enumerate(host).Some? && Enumerate(host).value[..7] == WindowsJavas
  {
    if host.platform == "win32" {
      var w := WindowsCandidates(host.registry);
      assert w[..7] == WindowsJavas;
    }
  }

  /** Repeated calls of `getJavas`: the first starts discovery, which either
      fulfils (an array is never null, so it is cached) or rejects (and the
      rejection is handed out from then on); discovery never runs again. */
  method CachedGetJavas(host: Host, n: nat) returns (later: seq<Reply<seq<string>>>, invocations: nat)
    ensures invocations == 1 && |later| == n
    ensures Discover(host).Some? ==> forall i :: 0 <= i < n ==> later[i] == Cached(Discover(host).value)
    ensures Discover(host).None? ==> forall i :: 0 <= i < n ==> later[i] == Shared(1)
  {
    var cache := new PromiseCache<seq<string>>();
    var first := cache.Call();
    var result := GetJavas(host);
    match result {
      case Some(paths) => cache.Complete(Some(paths));
      case None => cache.Fail();
    }
    later := cache.CallRepeatedly(n);
    invocations := cache.invocations;
  }
}
