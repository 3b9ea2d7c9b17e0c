/**
 * The hash-fragment location provider
 * (packages/boom-router-react/src/use-hash-location.js): a process-wide
 * registry of callbacks that shares one global `hashchange` handler, the
 * normalisation of the fragment into a path, and a navigate that rewrites
 * only the fragment of the document's URL. The browser is an object with the
 * URL, the current entry's state and the session history length.
 */
module HashLocation {

  /** `s` is non-empty and its first character is `c`. */
  predicate Leads(s: string, c: char) {
    |s| > 0 && s[0] == c
  }

  /** A subscribed callback; two callbacks are equal when they are the same function object. */
  datatype Callback = Callback(id: nat)

  /** What a subscriber gets back: the unsubscribe closure, which remembers its callback. */
  datatype Unsubscribe = Unsubscribe(callback: Callback)

  /** A call the registry makes on the window. */
  datatype WindowCall = AddHashChangeListener | RemoveHashChangeListener

  /** `v.filter((i) => i !== c)` */
  function Without(s: seq<Callback>, c: Callback): (r: seq<Callback>)
    ensures |r| <= |s|
    ensures forall x :: x in r <==> x in s && x != c
  {
    if s == [] then [] else (if s[0] == c then [] else [s[0]]) + Without(s[1..], c)
  }

  /** Filtering a concatenation filters each part in place, so the survivors keep their order. */
  lemma {:induction false} WithoutDistributes(s: seq<Callback>, t: seq<Callback>, c: Callback)
    ensures Without(s + t, c) == Without(s, c) + Without(t, c)
  {
    if s != [] {
      var head := if s[0] == c then [] else [s[0]];
      assert (s + t)[0] == s[0] && (s + t)[1..] == s[1..] + t;
      WithoutDistributes(s[1..], t, c);
      calc {
        Without(s + t, c);
        head + Without(s[1..] + t, c);
        head + (Without(s[1..], c) + Without(t, c));
        (head + Without(s[1..], c)) + Without(t, c);
        Without(s, c) + Without(t, c);
      }
    } else {
      assert s + t == t;
    }
  }

  /** Every occurrence of `c` goes and every other callback keeps its number of occurrences. */
  lemma {:induction false} WithoutCounts(s: seq<Callback>, c: Callback, d: Callback)
    ensures multiset(Without(s, c))[c] == 0
    ensures d != c ==> multiset(Without(s, c))[d] == multiset(s)[d]
  {
    if s != [] {
      WithoutCounts(s[1..], c, d);
      assert s == [s[0]] + s[1..];
    }
  }

  /** Filtering twice by the same callback is filtering once. */
  lemma {:induction false} WithoutIdempotent(s: seq<Callback>, c: Callback)
    ensures Without(Without(s, c), c) == Without(s, c)
  {
    if s != [] {
      WithoutIdempotent(s[1..], c);
      WithoutDistributes(if s[0] == c then [] else [s[0]], Without(s[1..], c), c);
    }
  }

  /** A list without `c` is left as it is. */
  lemma {:induction false} WithoutAbsent(s: seq<Callback>, c: Callback)
    requires c !in s
    ensures Without(s, c) == s
  {
    if s != [] {
      WithoutAbsent(s[1..], c);
    }
  }

  /** `hashUpdateListeners.v` with the window's one `hashchange` handler. */
  class HashListenerRegistry {
    /** `hashUpdateListeners.v`, in registration order. */
    var listeners: seq<Callback>
    /** Whether `handleHashChange` is attached to the window. */
    var attached: bool
    /** add/removeEventListener calls made so far, oldest first. */
    var windowCalls: seq<WindowCall>
    /** Callback invocations made by `handleHashChange`, oldest first. */
    var invoked: seq<Callback>

    /** The global handler is attached exactly while someone is subscribed. */
    ghost predicate Valid()
      reads this
    {
      attached <==> |listeners| > 0
    }

    /** The module's initial state: `{ v: [] }`, nothing attached. */
    constructor ()
      ensures Valid()
      ensures listeners == [] && !attached && windowCalls == [] && invoked == []
    {
      listeners := [];
      attached := false;
      windowCalls := [];
      invoked := [];
    }

    /** `subscribeToHashUpdates(callback)`: append, and attach the handler when the list just became one long. */
    method Subscribe(callback: Callback) returns (unsubscribe: Unsubscribe)
      requires Valid()
      modifies this
      ensures Valid()
      ensures listeners == old(listeners) + [callback]
      ensures windowCalls == old(windowCalls) + if |listeners| == 1 then [AddHashChangeListener] else []
      ensures invoked == old(invoked)
      ensures unsubscribe == Unsubscribe(callback)
    {
      listeners := listeners + [callback];
      if |listeners| == 1 {
        attached := true;
        windowCalls := windowCalls + [AddHashChangeListener];
      }
      unsubscribe := Unsubscribe(callback);
    }

    /** The returned closure: drop every occurrence of its callback, detach the handler when none is left. */
    method CallUnsubscribe(unsubscribe: Unsubscribe)
      requires Valid()
      modifies this
      ensures Valid()
      ensures listeners == Without(old(listeners), unsubscribe.callback)
      ensures windowCalls == old(windowCalls) + if listeners == [] then [RemoveHashChangeListener] else []
      ensures invoked == old(invoked)
    {
      listeners := Without(listeners, unsubscribe.callback);
      if |listeners| == 0 {
        attached := false;
        windowCalls := windowCalls + [RemoveHashChangeListener];
      }
    }

    /** `handleHashChange`: call every listener once, in list order. */
    method HandleHashChange()
      modifies this`invoked
      ensures invoked == old(invoked) + listeners
    {
      var i := 0;
      while i < |listeners|
        invariant 0 <= i <= |listeners|
        invariant invoked == old(invoked) + listeners[..i]
      {
        invoked := invoked + [listeners[i]];
        i := i + 1;
      }
    }
  }

  /**
   * Two callbacks, one subscribed twice: a double unsubscribe of the first
   * removes both of its entries, is the same as a single one, and the other
   * subscriber is still notified.
   */
  method SubscriptionScenario() returns (afterOnce: seq<Callback>, afterTwice: seq<Callback>,
                                         attached: bool, notified: seq<Callback>)
    ensures afterOnce == afterTwice == [Callback(2)]
    ensures attached
    ensures notified == [Callback(2)]
  {
    var one, two := Callback(1), Callback(2);
    assert Without([one, two, one], one) == [two] by {
      WithoutDistributes([one], [two, one], one);
      WithoutDistributes([two], [one], one);
    }
    WithoutIdempotent([one, two, one], one);
    var registry := new HashListenerRegistry();
    var first := registry.Subscribe(Callback(1));
    var _ := registry.Subscribe(Callback(2));
    var _ := registry.Subscribe(Callback(1));
    registry.CallUnsubscribe(first);
    afterOnce := registry.listeners;
    registry.CallUnsubscribe(first);
    afterTwice := registry.listeners;
    attached := registry.attached;
    registry.HandleHashChange();
    notified := registry.invoked;
  }

  // ---------------------------------------------------------------------------
  // Reading and writing the fragment

  /** `s.replace(/^#?\/?/, "")`: at most one leading '#', then at most one '/'. */
  function StripHashPrefix(s: string): (r: string)
    ensures Leads(s, '#') && Leads(s[1..], '/') ==> r == s[2..]
    ensures Leads(s, '#') && !Leads(s[1..], '/') ==> r == s[1..]
    ensures Leads(s, '/') ==> r == s[1..]
    ensures !Leads(s, '#') && !Leads(s, '/') ==> r == s
  {
    var afterHash := if Leads(s, '#') then s[1..] else s;
    assert Leads(s, '#') && Leads(afterHash, '/') ==> afterHash[1..] == s[2..];
    if Leads(afterHash, '/') then afterHash[1..] else afterHash
  }

  /** getCurrentHashLocation, given the value of `location.hash`. */
  function CurrentHashLocation(hash: string): (r: string)
    ensures Leads(r, '/')
    ensures |r| >= |hash| - 1
  {
    "/" + StripHashPrefix(hash)
  }

  /** The value navigate assigns to `location.hash` for a target `to`. */
  function WrittenHash(to: string): (r: string)
    ensures Leads(r, '#') && Leads(r[1..], '/')
  {
    "#/" + StripHashPrefix(to)
  }

  /** `useHashLocation.hrefs`: prefix `#`, with no normalisation. */
  function Hrefs(href: string): (r: string)
    ensures |r| == |href| + 1 && r[0] == '#' && r[1..] == href
  {
    "#" + href
  }

  /** The spellings a fragment may take, and the one the regular expression does not collapse. */
  lemma CurrentHashLocationExamples()
    ensures CurrentHashLocation("#foo") == "/foo"
    ensures CurrentHashLocation("#/foo") == "/foo"
    ensures CurrentHashLocation("/foo") == "/foo"
    ensures CurrentHashLocation("") == "/"
    ensures CurrentHashLocation("#//foo") == "//foo"
  {
    assert "#foo"[1..] == "foo" && "#/foo"[2..] == "foo" && "/foo"[1..] == "foo" && "#//foo"[2..] == "/foo";
  }

  /** Reading back what navigate wrote gives "/" and the stripped target. */
  lemma ReadAfterWrite(to: string)
    ensures CurrentHashLocation(WrittenHash(to)) == "/" + StripHashPrefix(to)
  {
    var t := StripHashPrefix(to);
    assert ("#/" + t)[1..][0] == '/' && ("#/" + t)[2..] == t;
  }

  /** Navigating to the location just read writes the same location back. */
  lemma NavigateToCurrentIsStable(hash: string)
    ensures CurrentHashLocation(WrittenHash(CurrentHashLocation(hash))) == CurrentHashLocation(hash)
  {
    var t := StripHashPrefix(hash);
    assert ("/" + t)[1..] == t;
    ReadAfterWrite(CurrentHashLocation(hash));
  }

  /** "foo", "#foo", "/foo" and "#/foo" all navigate to "/foo". */
  lemma NavigateNormalisesTarget()
    ensures WrittenHash("foo") == WrittenHash("#foo") == WrittenHash("/foo") == WrittenHash("#/foo") == "#/foo"
  {
    assert "#foo"[1..] == "foo" && "#/foo"[2..] == "foo" && "/foo"[1..] == "foo";
  }

  /** An href built from a rooted path reads back as that path. */
  lemma HrefReadsBack(path: string)
    requires Leads(path, '/')
    ensures CurrentHashLocation(Hrefs(path)) == path
  {
    assert ("#" + path)[1..] == path;
    assert ("#" + path)[2..] == path[1..];
    assert path == "/" + path[1..];
  }

  // ---------------------------------------------------------------------------
  // The browser the provider writes to

  /** A `history.state` value: `null`, or some value the caller passed. */
  datatype HistoryState = NullState | UserState(id: nat)

  /** The parts of the document URL that navigate reads and writes. */
  datatype Url = Url(pathname: string, search: string, hash: string)

  /** What the `location.hash` getter returns after the setter is given `h`. */
  function HashAfterSet(h: string): (r: string)
    ensures r == "" || Leads(r, '#')
    ensures Leads(h, '#') && |h| > 1 ==> r == h
  {
    var fragment := if Leads(h, '#') then h[1..] else h;
    if fragment == "" then "" else "#" + fragment
  }

  class Browser {
    /** `location.pathname`, `location.search` and `location.hash` */
    var url: Url
    /** `history.state` of the current entry */
    var state: HistoryState
    /** `history.length` */
    var historyLength: nat

    constructor (url: Url, state: HistoryState, historyLength: nat)
      ensures this.url == url && this.state == state && this.historyLength == historyLength
    {
      this.url := url;
      this.state := state;
      this.historyLength := historyLength;
    }

    /**
     * `location.hash = h`: a fragment navigation. When the fragment changes a
     * new session history entry (with a null state) is pushed and a
     * `hashchange` event is queued; otherwise nothing happens.
     */
    method SetHash(h: string) returns (changed: bool)
      modifies this
      ensures changed == (HashAfterSet(h) != old(url.hash))
      ensures url == old(url).(hash := HashAfterSet(h))
      ensures historyLength == old(historyLength) + if changed then 1 else 0
      ensures state == if changed then NullState else old(state)
    {
      var newHash := HashAfterSet(h);
      changed := newHash != url.hash;
      if changed {
        url := url.(hash := newHash);
        historyLength := historyLength + 1;
        state := NullState;
      }
    }

    /** `history.replaceState(state, "", url)`: rewrites the current entry without adding one. */
    method ReplaceState(newState: HistoryState, newUrl: Url)
      modifies this
      ensures url == newUrl && state == newState && historyLength == old(historyLength)
    {
      url := newUrl;
      state := newState;
    }
  }

  /**
   * `navigate(to, { state })`: the pathname and search are kept, the hash
   * becomes "#/" + the stripped target, and the current entry gets `state`.
   * `hashChanged` tells whether the assignment queued a `hashchange` event.
   */
  method Navigate(browser: Browser, to: string, state: HistoryState := NullState) returns (hashChanged: bool)
    modifies browser
    ensures browser.url == old(browser.url).(hash := WrittenHash(to))
    ensures CurrentHashLocation(browser.url.hash) == "/" + StripHashPrefix(to)
    ensures browser.state == state
    ensures hashChanged == (old(browser.url.hash) != WrittenHash(to))
    ensures browser.historyLength == old(browser.historyLength) + if hashChanged then 1 else 0
  {
    // the arguments are evaluated left to right: pathname and search before the hash assignment
    var pathname := browser.url.pathname;
    var search := browser.url.search;
    var newHash := WrittenHash(to);
    hashChanged := browser.SetHash(newHash);
    browser.ReplaceState(state, Url(pathname, search, newHash));
    ReadAfterWrite(to);
  }

  /** Navigating twice to the same target: the second call adds no history entry and queues no event. */
  method RepeatedNavigateScenario() returns (firstChanged: bool, secondChanged: bool, length: nat, location: string)
    ensures firstChanged && !secondChanged && length == 2 && location == "/foo"
  {
    var browser := new Browser(Url("/app", "?q=1", ""), NullState, 1);
    NavigateNormalisesTarget();
    firstChanged := Navigate(browser, "foo");
    secondChanged := Navigate(browser, "#/foo", UserState(7));
    length := browser.historyLength;
    location := CurrentHashLocation(browser.url.hash);
  }
}
