/**
  One run of the watcher (`main` in monitor.py): for each configured page,
  skip empty fetches and pages without keywords, compare the page's
  fingerprint with the one stored under its marker, and on a change
  overwrite that one entry, persist the map and send one alert.

  Fetching, parsing and fingerprinting are parameters: `fetch` maps a URL
  to the body (the empty string on any failure), `parse` stands for
  BeautifulSoup, and `fp` for the content fingerprint. Dafny functions are
  deterministic, so `fp` is a deterministic fingerprint by construction.
 */
module Monitor {
  import opened Wrappers
  import opened Text
  import opened Matching
  import opened Summary

  /** A configured page: its display name and its URL. */
  datatype Source = Source(name: string, url: string)

  /** The stored fingerprints, keyed by marker (the `seen` map / seen.json). */
  type Seen = map<string, string>

  /** The outside-world actions of a run, in order. */
  datatype Effect =
    | Persist(snapshot: Seen)   // save_seen: the whole map written to disk
    | Send(alert: Alert)        // send_telegram with the rendered alert

  /** The map after a step or run, and the actions it performed. */
  datatype Outcome = Outcome(seen: Seen, effects: seq<Effect>)

  /** The configured pages, in the dictionary's insertion order. */
  const PAGES: seq<Source> := [
    Source("Ripple News", "https://ripple.com/insights/"),
    Source("XRPL Foundation Blog", "https://xrpl.org/blog/"),
    Source("Circle Blog", "https://www.circle.com/en/blog"),
    Source("Tether Blog", "https://tether.to/en/news/"),
    Source("XRPLF GitHub", "https://github.com/XRPLF")
  ]

  /** The key under which a page's fingerprint is stored: the name, a colon,
      then the URL. */
  function Marker(src: Source): string {
    src.name + ":" + src.url
  }

  /** When neither name contains a colon, two pages share a marker exactly
      when they are the same page. */
  lemma MarkerInjective(s: Source, t: Source)
    requires ':' !in s.name && ':' !in t.name
    ensures Marker(s) == Marker(t) <==> s == t
  {
    if Marker(s) == Marker(t) {
      var m := Marker(s);
      assert m[..|s.name|] == s.name && m[|s.name|] == ':' && m[|s.name| + 1..] == s.url;
      assert m[..|t.name|] == t.name && m[|t.name|] == ':' && m[|t.name| + 1..] == t.url;
    }
  }

  /** Pages whose names have no colon never collide on a marker. */
  lemma ColonFreeMarkersDetermineUrl(sources: seq<Source>)
    requires forall s :: s in sources ==> ':' !in s.name
    ensures MarkersDetermineUrl(sources)
  {
    forall s, t | s in sources && t in sources && Marker(s) == Marker(t)
      ensures s.url == t.url
    {
      MarkerInjective(s, t);
    }
  }

  /** A fetched body would be considered at all: it is non-empty and some
      keyword matches the page. */
  predicate Triggers(html: string, parse: string -> Page) {
    html != "" && FindMatches(parse(html)).matches != []
  }

  /** The stored fingerprint under the page's marker equals `h`. */
  predicate Unchanged(seen: Seen, src: Source, h: string) {
    Marker(src) in seen && seen[Marker(src)] == h
  }

  /** How many alerts a list of actions sends. */
  function SendCount(effects: seq<Effect>): nat {
    if effects == [] then 0
    else (if effects[0].Send? then 1 else 0) + SendCount(effects[1..])
  }

  /** Every send is immediately preceded by a persist. */
  ghost predicate PersistBeforeSend(effects: seq<Effect>) {
    forall i :: 0 <= i < |effects| && effects[i].Send? ==> 0 < i && effects[i - 1].Persist?
  }

  /** The map the last persist wrote, or `prior` if nothing was persisted:
      what seen.json holds after the actions. */
  function OnDisk(effects: seq<Effect>, prior: Seen): Seen {
    if effects == [] then prior
    else if effects[|effects| - 1].Persist? then effects[|effects| - 1].snapshot
    else OnDisk(effects[..|effects| - 1], prior)
  }

  /** The body of the `for name, url in PAGES.items()` loop for one page. */
  function PageStep(seen: Seen, src: Source, html: string, parse: string -> Page,
                    fp: string -> string, now: string): (r: Outcome)
    ensures r.effects != [] <==> Triggers(html, parse) && !Unchanged(seen, src, fp(html))
    ensures r.effects == [] ==> r.seen == seen
    ensures r.effects != [] ==> r.seen == seen[Marker(src) := fp(html)]
    ensures r.effects != [] ==>
      r.effects == [Persist(r.seen), Send(MakeAlert(src.name, src.url, FindMatches(parse(html)), now))]
    ensures r.seen != seen <==> SendCount(r.effects) == 1
    ensures SendCount(r.effects) <= 1
    ensures PersistBeforeSend(r.effects)
    ensures OnDisk(r.effects, seen) == r.seen
  {
    if html == "" then Outcome(seen, [])
    else
      var pm := FindMatches(parse(html));
      if pm.matches == [] then Outcome(seen, [])
      else
        var marker := Marker(src);
        var h := fp(html);
        if marker in seen && seen[marker] == h then Outcome(seen, [])
        else
          var seen' := seen[marker := h];
          assert seen' != seen by {
            assert marker !in seen || seen[marker] != seen'[marker];
          }
          var effects := [Persist(seen'), Send(MakeAlert(src.name, src.url, pm, now))];
          assert SendCount(effects) == 1 by {
            assert effects[1..][1..] == [];
            assert SendCount(effects[1..]) == 1;
          }
          Outcome(seen', effects)
  }

  /** The alert a step sends names the page, lists only keywords found in
      the page text (at least one), and quotes at most three title entries,
      each non-empty and containing a keyword. */
  lemma AlertContents(seen: Seen, src: Source, html: string, parse: string -> Page,
                      fp: string -> string, now: string)
    requires SendCount(PageStep(seen, src, html, parse, fp, now).effects) == 1
    ensures var r := PageStep(seen, src, html, parse, fp, now);
            && |r.effects| == 2 && r.effects[1].Send?
            && var a := r.effects[1].alert;
            && a.name == src.name && a.url == src.url && a.time == now
            && a.keywords != []
            && (forall k :: k in a.keywords ==> k in KEYWORDS && Contains(Lower(parse(html).text), k))
            && |a.excerpts| <= MAX_EXCERPTS
            && (forall e :: e in a.excerpts ==> e.title != "" && exists k :: k in KEYWORDS && Contains(Lower(e.title), k))
  {
    var r := PageStep(seen, src, html, parse, fp, now);
    var pm := FindMatches(parse(html));
    var a := r.effects[1].alert;
    forall e | e in a.excerpts
      ensures e.title != "" && exists k :: k in KEYWORDS && Contains(Lower(e.title), k)
    {
      assert e in pm.titles;
      TitleEntries(parse(html), e);
    }
  }

  /** The number of sends is additive over concatenation. */
  lemma {:induction false} SendCountAppend(a: seq<Effect>, b: seq<Effect>)
    ensures SendCount(a + b) == SendCount(a) + SendCount(b)
  {
    if a == [] {
      assert a + b == b;
    } else {
      SendCountAppend(a[1..], b);
      assert (a + b)[1..] == a[1..] + b;
    }
  }

  /** What is on disk after `a + b` is what `b` leaves on top of what `a` left. */
  lemma {:induction false} OnDiskAppend(a: seq<Effect>, b: seq<Effect>, prior: Seen)
    ensures OnDisk(a + b, prior) == OnDisk(b, OnDisk(a, prior))
    decreases |b|
  {
    if b == [] {
      assert a + b == a;
    } else {
      var n := |b| - 1;
      assert (a + b)[|a + b| - 1] == b[n];
      if !b[n].Persist? {
        assert (a + b)[..|a + b| - 1] == a + b[..n];
        OnDiskAppend(a, b[..n], prior);
      }
    }
  }

  /** The markers of a list of pages. */
  function Markers(sources: seq<Source>): (ms: set<string>)
    ensures forall s :: s in sources ==> Marker(s) in ms
    ensures forall m :: m in ms ==> exists s :: s in sources && Marker(s) == m
  {
    set s | s in sources :: Marker(s)
  }

  /** `main`: the steps for every page in order, each starting from the
      map the previous one left. At most one alert per page, each sent only
      after the map was persisted, and what is on disk at the end is the
      final map. */
  function Run(seen: Seen, sources: seq<Source>, fetch: string -> string, parse: string -> Page,
               fp: string -> string, now: string): (r: Outcome)
    ensures SendCount(r.effects) <= |sources|
    ensures PersistBeforeSend(r.effects)
    ensures OnDisk(r.effects, seen) == r.seen
    decreases |sources|
  {
    if sources == [] then Outcome(seen, [])
    else
      var src := sources[0];
      var step := PageStep(seen, src, fetch(src.url), parse, fp, now);
      var rest := Run(step.seen, sources[1..], fetch, parse, fp, now);
      SendCountAppend(step.effects, rest.effects);
      OnDiskAppend(step.effects, rest.effects, seen);
      PersistBeforeSendAppend(step.effects, rest.effects);
      Outcome(rest.seen, step.effects + rest.effects)
  }

  /** The page an alert is about. */
  function AlertSource(a: Alert): Source {
    Source(a.name, a.url)
  }

  /** An action, if it is a send, sends the alert at time `now` of one of
      `sources`, and that page triggers. */
  ghost predicate SentFrom(e: Effect, sources: seq<Source>, fetch: string -> string,
                           parse: string -> Page, now: string) {
    e.Send? ==>
      && AlertSource(e.alert) in sources
      && Triggers(fetch(e.alert.url), parse)
      && e.alert == MakeAlert(e.alert.name, e.alert.url, FindMatches(parse(fetch(e.alert.url))), now)
  }

  /** A list of actions every one of which is `SentFrom` the sources. */
  ghost predicate AllSentFrom(effects: seq<Effect>, sources: seq<Source>, fetch: string -> string,
                              parse: string -> Page, now: string) {
    forall i :: 0 <= i < |effects| ==> SentFrom(effects[i], sources, fetch, parse, now)
  }

  /** The alert one step sends is for its own page. */
  lemma StepSentFrom(seen: Seen, src: Source, sources: seq<Source>, fetch: string -> string,
                     parse: string -> Page, fp: string -> string, now: string)
    requires src in sources
    ensures AllSentFrom(PageStep(seen, src, fetch(src.url), parse, fp, now).effects, sources, fetch, parse, now)
  {
  }

  /** `AllSentFrom` carries over to a concatenation and to more sources. */
  lemma AllSentFromAppend(a: seq<Effect>, b: seq<Effect>, sources: seq<Source>, more: seq<Source>,
                          fetch: string -> string, parse: string -> Page, now: string)
    requires AllSentFrom(a, sources, fetch, parse, now)
    requires AllSentFrom(b, more, fetch, parse, now)
    requires forall s :: s in more ==> s in sources
    ensures AllSentFrom(a + b, sources, fetch, parse, now)
  {
    forall i | 0 <= i < |a + b|
      ensures SentFrom((a + b)[i], sources, fetch, parse, now)
    {
      if i >= |a| {
        assert (a + b)[i] == b[i - |a|];
        assert SentFrom(b[i - |a|], more, fetch, parse, now);
      }
    }
  }

  /** Every alert a run sends is the alert, at the run's time, of one of its
      pages, and that page triggers: a non-empty body with a keyword. */
  lemma {:induction false} RunSends(seen: Seen, sources: seq<Source>, fetch: string -> string,
                                    parse: string -> Page, fp: string -> string, now: string)
    ensures AllSentFrom(Run(seen, sources, fetch, parse, fp, now).effects, sources, fetch, parse, now)
    decreases |sources|
  {
    if sources != [] {
      var src := sources[0];
      var step := PageStep(seen, src, fetch(src.url), parse, fp, now);
      var rest := Run(step.seen, sources[1..], fetch, parse, fp, now);
      RunSends(step.seen, sources[1..], fetch, parse, fp, now);
      StepSentFrom(seen, src, sources, fetch, parse, fp, now);
      AllSentFromAppend(step.effects, rest.effects, sources, sources[1..], fetch, parse, now);
      assert Run(seen, sources, fetch, parse, fp, now).effects == step.effects + rest.effects;
    }
  }

  /** No two sends of the list are for the same page. */
  ghost predicate OneAlertPerPage(effects: seq<Effect>) {
    forall i, j :: 0 <= i < j < |effects| && effects[i].Send? && effects[j].Send? ==>
      AlertSource(effects[i].alert) != AlertSource(effects[j].alert)
  }

  /** Two lists each alerting at most once per page, whose pages are kept
      apart, together alert at most once per page. */
  lemma OneAlertPerPageAppend(a: seq<Effect>, b: seq<Effect>, src: Source, sources: seq<Source>,
                              fetch: string -> string, parse: string -> Page, now: string)
    requires OneAlertPerPage(a) && OneAlertPerPage(b)
    requires forall i :: 0 <= i < |a| && a[i].Send? ==> AlertSource(a[i].alert) == src
    requires AllSentFrom(b, sources, fetch, parse, now) && src !in sources
    ensures OneAlertPerPage(a + b)
  {
    forall i, j | 0 <= i < j < |a + b| && (a + b)[i].Send? && (a + b)[j].Send?
      ensures AlertSource((a + b)[i].alert) != AlertSource((a + b)[j].alert)
    {
      if j >= |a| {
        assert (a + b)[j] == b[j - |a|];
        assert SentFrom(b[j - |a|], sources, fetch, parse, now);
        if i >= |a| {
          assert (a + b)[i] == b[i - |a|];
        }
      }
    }
  }

  /** A run over distinct pages alerts at most once per page: no two alerts
      it sends are for the same page. */
  lemma {:induction false} RunOneAlertPerPage(seen: Seen, sources: seq<Source>, fetch: string -> string,
                                              parse: string -> Page, fp: string -> string, now: string)
    requires NoDuplicates(sources)
    ensures OneAlertPerPage(Run(seen, sources, fetch, parse, fp, now).effects)
    decreases |sources|
  {
    if sources != [] {
      var src := sources[0];
      var step := PageStep(seen, src, fetch(src.url), parse, fp, now);
      var rest := Run(step.seen, sources[1..], fetch, parse, fp, now);
      assert NoDuplicates(sources[1..]) by {
        forall i, j | 0 <= i < j < |sources[1..]|
          ensures sources[1..][i] != sources[1..][j]
        {
          assert sources[1..][i] == sources[i + 1] && sources[1..][j] == sources[j + 1];
        }
      }
      assert src !in sources[1..] by {
        forall k | 0 <= k < |sources[1..]|
          ensures sources[1..][k] != src
        {
          assert sources[1..][k] == sources[k + 1];
        }
      }
      RunOneAlertPerPage(step.seen, sources[1..], fetch, parse, fp, now);
      RunSends(step.seen, sources[1..], fetch, parse, fp, now);
      OneAlertPerPageAppend(step.effects, rest.effects, src, sources[1..], fetch, parse, now);
      assert Run(seen, sources, fetch, parse, fp, now).effects == step.effects + rest.effects;
    }
  }

  /** Concatenating two well-ordered action lists keeps them well ordered. */
  lemma PersistBeforeSendAppend(a: seq<Effect>, b: seq<Effect>)
    requires PersistBeforeSend(a) && PersistBeforeSend(b)
    ensures PersistBeforeSend(a + b)
  {
    forall i | 0 <= i < |a + b| && (a + b)[i].Send?
      ensures 0 < i && (a + b)[i - 1].Persist?
    {
      if i >= |a| {
        assert (a + b)[i] == b[i - |a|];
        assert (a + b)[i - 1] == b[i - 1 - |a|];
      }
    }
  }

  /** Going from `before` to `after` only added keys, touched no key outside
      the markers of `sources`, and every value it wrote under a marker is
      the fingerprint of a page with that marker. */
  ghost predicate Writes(before: Seen, after: Seen, sources: seq<Source>,
                         fetch: string -> string, fp: string -> string) {
    && before.Keys <= after.Keys <= before.Keys + Markers(sources)
    && (forall k :: k in before && k !in Markers(sources) ==> after[k] == before[k])
    && (forall k :: k in after ==>
         || (k in before && after[k] == before[k])
         || (exists s :: s in sources && Marker(s) == k && after[k] == fp(fetch(s.url))))
  }

  /** One step that left the map alone or wrote the first page's
      fingerprint, followed by writes of the other pages, writes only as the
      whole list of pages may. */
  lemma WritesCompose(seen: Seen, mid: Seen, fin: Seen, sources: seq<Source>,
                      fetch: string -> string, fp: string -> string)
    requires sources != []
    requires mid == seen || mid == seen[Marker(sources[0]) := fp(fetch(sources[0].url))]
    requires Writes(mid, fin, sources[1..], fetch, fp)
    ensures Writes(seen, fin, sources, fetch, fp)
  {
    var src := sources[0];
    assert Markers(sources) == {Marker(src)} + Markers(sources[1..]);
    forall k | k in fin
      ensures || (k in seen && fin[k] == seen[k])
              || (exists s :: s in sources && Marker(s) == k && fin[k] == fp(fetch(s.url)))
    {
      if !(k in mid && fin[k] == mid[k]) {
        var t :| t in sources[1..] && Marker(t) == k && fin[k] == fp(fetch(t.url));
        assert t in sources;
      } else if !(k in seen && mid[k] == seen[k]) {
        assert k == Marker(src) && mid[k] == fp(fetch(src.url));
        assert src in sources;
      }
    }
  }

  /** A run only adds keys, touches no key outside its pages' markers, and
      every value it writes under a marker is the fingerprint of a page with
      that marker. */
  lemma {:induction false} RunWrites(seen: Seen, sources: seq<Source>, fetch: string -> string,
                                     parse: string -> Page, fp: string -> string, now: string)
    ensures Writes(seen, Run(seen, sources, fetch, parse, fp, now).seen, sources, fetch, fp)
    decreases |sources|
  {
    if sources != [] {
      var src := sources[0];
      var step := PageStep(seen, src, fetch(src.url), parse, fp, now);
      RunWrites(step.seen, sources[1..], fetch, parse, fp, now);
      var rest := Run(step.seen, sources[1..], fetch, parse, fp, now);
      assert Run(seen, sources, fetch, parse, fp, now).seen == rest.seen;
      WritesCompose(seen, step.seen, rest.seen, sources, fetch, fp);
    }
  }

  /** A second step on the same body, with the same deterministic
      fingerprint, sends nothing and leaves the map as the first step left it:
      an unchanged page alerts at most once. */
  lemma StepIdempotent(seen: Seen, src: Source, html: string, parse: string -> Page,
                       fp: string -> string, now: string)
    ensures var r1 := PageStep(seen, src, html, parse, fp, now);
            var r2 := PageStep(r1.seen, src, html, parse, fp, now);
            r2 == Outcome(r1.seen, []) && SendCount(r1.effects + r2.effects) <= 1
  {
    var r1 := PageStep(seen, src, html, parse, fp, now);
    assert r1.effects + [] == r1.effects;
  }

  /** Pages that share a marker share a URL (so they fetch the same body). */
  ghost predicate MarkersDetermineUrl(sources: seq<Source>) {
    forall s, t :: s in sources && t in sources && Marker(s) == Marker(t) ==> s.url == t.url
  }

  /** Every page that would trigger already has its current fingerprint stored. */
  ghost predicate Settled(seen: Seen, sources: seq<Source>, fetch: string -> string,
                          parse: string -> Page, fp: string -> string) {
    forall s :: s in sources && Triggers(fetch(s.url), parse) ==> Unchanged(seen, s, fp(fetch(s.url)))
  }

  /** From a settled map a run sends nothing and changes nothing. */
  lemma {:induction false} RunFromSettled(seen: Seen, sources: seq<Source>, fetch: string -> string,
                                          parse: string -> Page, fp: string -> string, now: string)
    requires Settled(seen, sources, fetch, parse, fp)
    ensures Run(seen, sources, fetch, parse, fp, now) == Outcome(seen, [])
    decreases |sources|
  {
    if sources != [] {
      var src := sources[0];
      assert src in sources;
      assert PageStep(seen, src, fetch(src.url), parse, fp, now) == Outcome(seen, []);
      assert forall s :: s in sources[1..] ==> s in sources;
      RunFromSettled(seen, sources[1..], fetch, parse, fp, now);
    }
  }

  /** A run leaves the map settled, provided pages sharing a marker share a URL. */
  lemma {:induction false} RunSettles(seen: Seen, sources: seq<Source>, fetch: string -> string,
                                      parse: string -> Page, fp: string -> string, now: string)
    requires MarkersDetermineUrl(sources)
    ensures Settled(Run(seen, sources, fetch, parse, fp, now).seen, sources, fetch, parse, fp)
    decreases |sources|
  {
    if sources != [] {
      var src := sources[0];
      var step := PageStep(seen, src, fetch(src.url), parse, fp, now);
      var rest := Run(step.seen, sources[1..], fetch, parse, fp, now);
      assert Run(seen, sources, fetch, parse, fp, now).seen == rest.seen;
      assert forall s :: s in sources[1..] ==> s in sources;
      RunSettles(step.seen, sources[1..], fetch, parse, fp, now);
      RunWrites(step.seen, sources[1..], fetch, parse, fp, now);
      var m := Marker(src);
      var h := fp(fetch(src.url));
      if Triggers(fetch(src.url), parse) {
        assert Unchanged(step.seen, src, h);
        assert m in rest.seen;
        assert src in sources;
        assert Unchanged(rest.seen, src, h);
      }
      forall s | s in sources && Triggers(fetch(s.url), parse)
        ensures Unchanged(rest.seen, s, fp(fetch(s.url)))
      {
        if s != src {
          assert s in sources[1..];
        }
      }
    }
  }

  /** A second run over unchanged pages sends nothing and changes nothing. */
  lemma RunIdempotent(seen: Seen, sources: seq<Source>, fetch: string -> string,
                      parse: string -> Page, fp: string -> string, now: string, later: string)
    requires MarkersDetermineUrl(sources)
    ensures var r1 := Run(seen, sources, fetch, parse, fp, now);
            Run(r1.seen, sources, fetch, parse, fp, later) == Outcome(r1.seen, [])
  {
    RunSettles(seen, sources, fetch, parse, fp, now);
    RunFromSettled(Run(seen, sources, fetch, parse, fp, now).seen, sources, fetch, parse, fp, later);
  }

  /** The configured pages are pairwise distinct. */
  lemma PagesDistinct()
    ensures NoDuplicates(PAGES)
  {
    forall i, j | 0 <= i < j < |PAGES|
      ensures PAGES[i] != PAGES[j]
    {
      assert PAGES[i].name[0] != PAGES[j].name[0] || PAGES[i].name[4] != PAGES[j].name[4];
    }
  }

  /** No two configured pages share a marker. */
  lemma PagesMarkersDistinct()
    ensures MarkersDetermineUrl(PAGES)
  {
    assert forall s :: s in PAGES ==> ':' !in s.name;
    ColonFreeMarkersDetermineUrl(PAGES);
  }

  /** The step as monitor.py writes it: the fingerprint is `str(hash(html))`,
      and Python salts string hashes with a random seed chosen per process,
      modelled as `salt`. */
  function PageStepSaltedHash(seen: Seen, src: Source, html: string, parse: string -> Page,
                              hash: (int, string) -> string, salt: int, now: string): (r: Outcome)
    ensures SendCount(r.effects) == 1 <==> Triggers(html, parse) && !Unchanged(seen, src, hash(salt, html))
    ensures SendCount(r.effects) == 1 ==> Marker(src) in r.seen && r.seen[Marker(src)] == hash(salt, html)
  {
    var fp := h => hash(salt, h);
    assert fp(html) == hash(salt, html);
    PageStep(seen, src, html, parse, fp, now)
  }

  /** Two scheduled runs, each a fresh process with its own salt, on the same
      unchanged page: when the salts give different hashes, the second run
      alerts again. */
  lemma SaltedHashRealerts(seen: Seen, src: Source, html: string, parse: string -> Page,
                           hash: (int, string) -> string, salt1: int, salt2: int, now: string)
    requires Triggers(html, parse)
    requires hash(salt1, html) != hash(salt2, html)
    ensures var r1 := PageStepSaltedHash(seen, src, html, parse, hash, salt1, now);
            var r2 := PageStepSaltedHash(r1.seen, src, html, parse, hash, salt2, now);
            SendCount(r2.effects) == 1
  {
    var r1 := PageStepSaltedHash(seen, src, html, parse, hash, salt1, now);
    assert Unchanged(r1.seen, src, hash(salt1, html));
  }
}
