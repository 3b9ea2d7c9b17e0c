/**
 * The in-memory location provider (packages/boom-router-react/src/memory-location.js).
 * `memoryLocation` builds a closure over a current path, a history array
 * and an event emitter; here that closure is a `MemoryLocation` object and
 * the array is a separate `HistoryLog` object, so that "the same array, with
 * new contents" can be stated. The emitter is an append-only event log.
 */
module Memory {
  import opened Wrappers

  /** `history.splice(history.length - 1, 1, p)`: the last entry becomes `p`; on an empty array `p` is inserted. */
  function ReplacedLast(s: seq<string>, p: string): (r: seq<string>)
    ensures |s| == 0 ==> r == [p]
    ensures |s| > 0 ==> |r| == |s| && r[|s| - 1] == p
    ensures forall i :: 0 <= i < |s| - 1 ==> r[i] == s[i]
  {
    if |s| == 0 then [p] else s[..|s| - 1] + [p]
  }

  /**
   * The history after one navigation (memory-location.js lines 7-13): untouched
   * unless recording; a replace rewrites only the last entry, otherwise the
   * new path is appended.
   */
  function NextHistory(record: bool, h: seq<string>, p: string, replace: bool): (r: seq<string>)
    ensures !record ==> r == h
    ensures record && !replace ==> r == h + [p]
    ensures record && replace && |h| > 0 ==>
      |r| == |h| && r[..|h| - 1] == h[..|h| - 1] && r[|h| - 1] == p
    ensures record ==> |r| >= 1 && r[|r| - 1] == p
  {
    if !record then h
    else if replace then ReplacedLast(h, p)
    else h + [p]
  }

  /** The history after a run of non-replacing navigations to `ps`, in order, on a recording provider. */
  function PushAll(h: seq<string>, ps: seq<string>): seq<string>
    decreases |ps|
  {
    if ps == [] then h else PushAll(NextHistory(true, h, ps[0], false), ps[1..])
  }

  /** Each non-replacing navigation adds exactly one entry: the history is the start followed by the targets. */
  lemma {:induction false} PushAllAppends(h: seq<string>, ps: seq<string>)
    ensures PushAll(h, ps) == h + ps
    decreases |ps|
  {
    if ps != [] {
      PushAllAppends(h + [ps[0]], ps[1..]);
      assert h + [ps[0]] + ps[1..] == h + ps;
    }
  }

  /** The history array. Its identity is fixed for the provider's lifetime; only its contents change. */
  class HistoryLog {
    var entries: seq<string>

    /** `[currentPath]` */
    constructor (initial: string)
      ensures entries == [initial]
    {
      entries := [initial];
    }

    /** `history.push(p)` */
    method Push(p: string)
      modifies this
      ensures entries == old(entries) + [p]
    {
      entries := entries + [p];
    }

    /** `history.splice(history.length - 1, 1, p)` */
    method SpliceLast(p: string)
      modifies this
      ensures entries == ReplacedLast(old(entries), p)
    {
      entries := ReplacedLast(entries, p);
    }

    /** `history.splice(0, history.length)` */
    method Clear()
      modifies this
      ensures entries == []
    {
      entries := [];
    }
  }

  /** One `emitter.emit("navigate", path)`, with the history a listener would see at that moment. */
  datatype NavigateEvent = NavigateEvent(path: string, historySeen: seq<string>)

  class MemoryLocation {
    /** The `path` option, default "/". */
    const initialPath: string
    /** The `static` option. */
    const isStatic: bool
    /** The `record` option. */
    const record: bool
    /** The one history array, created at construction. */
    const log: HistoryLog
    /** `currentPath`: what the hook's snapshot reads. */
    var currentPath: string
    /** The `path` parameter captured by navigateImplementation, which navigate reassigns. */
    var navigatorPath: string
    /** Every event emitted so far, oldest first. */
    var events: seq<NavigateEvent>

    /** Holds at every point, also inside reset between emptying the log and navigating. */
    ghost predicate Consistent()
      reads this, log
    {
      && (!record ==> log.entries == [initialPath])
      && (isStatic ==> log.entries == [initialPath] || log.entries == [])
    }

    /** Between operations a live provider's log is never empty. */
    ghost predicate Valid()
      reads this, log
    {
      Consistent() && (!isStatic ==> |log.entries| >= 1)
    }

    /** `memoryLocation({ path, static, record })` */
    constructor (path: string := "/", isStatic: bool := false, record: bool := false)
      ensures Valid() && fresh(log)
      ensures initialPath == path && this.isStatic == isStatic && this.record == record
      ensures log.entries == [path] && currentPath == path && navigatorPath == path
      ensures events == []
    {
      initialPath := path;
      this.isStatic := isStatic;
      this.record := record;
      currentPath := path;
      log := new HistoryLog(path);
      navigatorPath := path;
      events := [];
    }

    /** The value `useSyncExternalStore` reads: `() => currentPath`. */
    function Snapshot(): string
      reads this
    {
      currentPath
    }

    /** The returned `history` field: the log itself when recording, absent otherwise. */
    function History(): (h: Option<HistoryLog>)
      reads this
      ensures h.Some? <==> record
      ensures h.Some? ==> h.value == log
    {
      if record then Some(log) else None
    }

    /** Whether the returned `reset` field is present. */
    predicate HasReset(): (present: bool)
      reads this
      ensures present <==> History().Some?
    {
      record
    }

    /** The history update of navigateImplementation (lines 7-13): gated by `record`. */
    method RecordNavigation(newPath: string, replace: bool)
      modifies log
      ensures log.entries == NextHistory(record, old(log.entries), newPath, replace)
    {
      if record {
        if replace {
          log.SpliceLast(newPath);
        } else {
          log.Push(newPath);
        }
      }
    }

    /**
     * `navigate(newPath, { replace })` as written. A static provider's
     * navigate is `() => null` and changes nothing. Otherwise the history is
     * updated, the captured `path` is reassigned and one event is emitted;
     * `currentPath`, which the snapshot reads, is never written.
     */
    method Navigate(newPath: string, replace: bool := false)
      requires Consistent()
      modifies this, log
      ensures Valid()
      ensures currentPath == old(currentPath)
      ensures isStatic ==> log.entries == old(log.entries) && events == old(events)
                           && navigatorPath == old(navigatorPath)
      ensures !isStatic ==> navigatorPath == newPath
      ensures !isStatic ==> log.entries == NextHistory(record, old(log.entries), newPath, replace)
      ensures !isStatic ==> events == old(events) + [NavigateEvent(newPath, log.entries)]
    {
      if !isStatic {
        RecordNavigation(newPath, replace);
        navigatorPath := newPath;
        events := events + [NavigateEvent(newPath, log.entries)];
      }
    }

    /**
     * `reset()` as written: empty the same array in place, then navigate back
     * to the initial path. On a static provider that navigate does nothing,
     * so the log stays empty.
     */
    method Reset()
      requires HasReset()
      modifies this, log
      ensures Valid()
      ensures currentPath == old(currentPath)
      ensures navigatorPath == if isStatic then old(navigatorPath) else initialPath
      ensures log.entries == if isStatic then [] else [initialPath]
      ensures events == old(events) + if isStatic then [] else [NavigateEvent(initialPath, [initialPath])]
    {
      log.Clear();
      Navigate(initialPath);
    }

    /** navigate as its tests expect it: the same as Navigate, and the snapshot moves to the new path too. */
    method NavigateIntended(newPath: string, replace: bool := false)
      requires Consistent()
      modifies this, log
      ensures Valid()
      ensures currentPath == if isStatic then old(currentPath) else newPath
      ensures navigatorPath == if isStatic then old(navigatorPath) else newPath
      ensures isStatic ==> log.entries == old(log.entries) && events == old(events)
      ensures !isStatic ==> log.entries == NextHistory(record, old(log.entries), newPath, replace)
      ensures !isStatic ==> events == old(events) + [NavigateEvent(newPath, log.entries)]
    {
      Navigate(newPath, replace);
      if !isStatic {
        currentPath := newPath;
      }
    }

    /** reset built on NavigateIntended: history and snapshot both return to the initial path. */
    method ResetIntended()
      requires HasReset()
      modifies this, log
      ensures Valid()
      ensures !isStatic ==> currentPath == initialPath && log.entries == [initialPath]
      ensures isStatic ==> currentPath == old(currentPath) && log.entries == []
      ensures navigatorPath == if isStatic then old(navigatorPath) else initialPath
      ensures events == old(events) + if isStatic then [] else [NavigateEvent(initialPath, [initialPath])]
    {
      log.Clear();
      NavigateIntended(initialPath);
    }
  }

  /**
   * A caller making non-replacing navigations to `ps`, in order, on a live
   * recording provider: each call adds exactly one history entry and one event.
   */
  method NavigateRun(m: MemoryLocation, ps: seq<string>)
    requires m.Valid() && m.record && !m.isStatic
    modifies m, m.log
    ensures m.Valid()
    ensures m.log.entries == PushAll(old(m.log.entries), ps) == old(m.log.entries) + ps
    ensures |m.events| == |old(m.events)| + |ps|
    ensures forall k :: 0 <= k < |ps| ==> m.events[|old(m.events)| + k].path == ps[k]
  {
    var i := 0;
    while i < |ps|
      invariant 0 <= i <= |ps|
      invariant m.Valid()
      invariant m.log.entries == old(m.log.entries) + ps[..i]
      invariant |m.events| == |old(m.events)| + i
      invariant forall k :: 0 <= k < i ==> m.events[|old(m.events)| + k].path == ps[k]
    {
      m.Navigate(ps[i]);
      assert ps[..i + 1] == ps[..i] + [ps[i]];
      i := i + 1;
    }
    assert ps[..i] == ps;
    PushAllAppends(old(m.log.entries), ps);
  }

  /** A recording provider at "/test": pushes, then two replacing navigations (memory-location.test.ts:60-85). */
  method RecordScenario() returns (afterPushes: seq<string>, afterReplaces: seq<string>, snapshot: string)
    ensures afterPushes == ["/test", "/standalone", "/location"]
    ensures afterReplaces == ["/test", "/standalone", "/location"]
    ensures snapshot == "/test"
  {
    var m := new MemoryLocation("/test", record := true);
    m.Navigate("/standalone");
    m.Navigate("/location");
    afterPushes := m.log.entries;
    m.Navigate("/standalone", replace := true);
    assert m.log.entries == ["/test", "/standalone", "/standalone"];
    m.Navigate("/location", replace := true);
    afterReplaces := m.log.entries;
    snapshot := m.Snapshot();
  }

  /** Two navigations then reset leave the same log holding only the initial path (memory-location.test.ts:94-108). */
  method ResetScenario() returns (sameLog: bool, entries: seq<string>)
    ensures sameLog && entries == ["/initial"]
  {
    var m := new MemoryLocation("/initial", record := true);
    var held := m.History();
    m.Navigate("test-1");
    m.Navigate("test-2");
    m.Reset();
    sameLog := held == Some(m.log);
    entries := m.log.entries;
  }

  /** A default provider offers neither history nor reset, and navigating leaves its internal array at ["/"]. */
  method NoRecordScenario() returns (history: Option<HistoryLog>, hasReset: bool, internal: seq<string>)
    ensures history == None && !hasReset && internal == ["/"]
  {
    var m := new MemoryLocation();
    m.Navigate("/somewhere");
    history := m.History();
    hasReset := m.HasReset();
    internal := m.log.entries;
  }

  /** A static recording provider: navigation changes nothing and emits nothing; reset empties the log. */
  method StaticScenario() returns (afterNavigate: seq<string>, eventCount: nat, afterReset: seq<string>)
    ensures afterNavigate == ["/"] && eventCount == 0 && afterReset == []
  {
    var m := new MemoryLocation(isStatic := true, record := true);
    m.Navigate("/x");
    afterNavigate := m.log.entries;
    eventCount := |m.events|;
    m.Reset();
    afterReset := m.log.entries;
  }

  /** As written, the snapshot stays at "/" after `navigate("/standalone")` (memory-location.test.ts:36-46 expects "/standalone"). */
  method StandaloneNavigateScenario() returns (snapshot: string, emitted: seq<NavigateEvent>)
    ensures snapshot == "/"
    ensures emitted == [NavigateEvent("/standalone", ["/"])]
  {
    var m := new MemoryLocation();
    m.Navigate("/standalone");
    snapshot := m.Snapshot();
    emitted := m.events;
  }

  /** With the corrected navigate, the snapshot follows navigation and reset. */
  method IntendedNavigateScenario() returns (afterNavigate: string, afterReplace: seq<string>, afterReset: string)
    ensures afterNavigate == "/b"
    ensures afterReplace == ["/test", "/b"]
    ensures afterReset == "/test"
  {
    var m := new MemoryLocation("/test", record := true);
    m.NavigateIntended("/a");
    m.NavigateIntended("/b", replace := true);
    afterNavigate := m.Snapshot();
    afterReplace := m.log.entries;
    m.ResetIntended();
    afterReset := m.Snapshot();
  }
}
