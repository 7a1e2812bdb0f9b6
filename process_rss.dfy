/**
  src/process_rss.py: one run of the tracker. For each configured feed the
  new entries are selected (`cleanup_feeds`), composed and buffered until
  the run-wide cap is reached, the buffer is flushed, and the results are
  reduced to one watermark per feed, which is written back to the store.

  The feed parser, the clock and the publishing service are inputs: `fetch`
  gives the parsed feed of a url, `now` stands for `datetime.now()` and
  `respond` for the publishing service's status answers.
 */
module ProcessRss {
  import opened Wrappers
  import opened PyStr
  import opened Util
  import opened DataStore
  import opened FeedConfig
  import opened TwitterPost

  /** A feed entry: the optional fields the code reads, and its publication
      time in whole seconds since the epoch when it has one. */
  datatype Entry = Entry(id: Option<string>, title: Option<string>, link: Option<string>, published: Option<int>)

  /** A parsed feed: its HTTP status when it has one, and its entries. */
  datatype Feed = Feed(status: Option<int>, entries: Option<seq<Entry>>)

  /** The key of a buffered item: the feed's service, the entry's id and its date. */
  datatype Key = Key(service: Service, id: Option<string>, date: int)

  /** `post[f] if f in post and post[f] else None`. */
  function Present(s: Option<string>): (r: Option<string>)
    ensures r.Some? <==> TruthyStr(s)
    ensures r.Some? ==> r == s
  {
    if TruthyStr(s) then s else None
  }

  /** `get_id_from_post`: the entry's id, else its link, else its title
      (each only when non-empty), else `None`. */
  function GetIdFromPost(e: Entry): (r: Option<string>)
    ensures TruthyStr(e.id) ==> r == e.id
    ensures !TruthyStr(e.id) && TruthyStr(e.link) ==> r == e.link
    ensures !TruthyStr(e.id) && !TruthyStr(e.link) && TruthyStr(e.title) ==> r == e.title
    ensures r.None? <==> !TruthyStr(e.id) && !TruthyStr(e.link) && !TruthyStr(e.title)
    ensures r.Some? ==> r.value != []
  {
    var title := Present(e.title);
    var url := if TruthyStr(e.link) then e.link else title;
    if TruthyStr(e.id) then e.id else url
  }

  // ---------------------------------------------------------------------------
  // cleanup_feeds

  /** How much of a feed of `n` entries is looked at: `num_posts` entries
      when it is set (truthy), all of them otherwise; a negative `num_posts`
      drops that many from the end, as a Python slice does. */
  function WindowLen(n: nat, numPosts: Option<int>): (w: nat)
    ensures w <= n
    ensures !TruthyInt(numPosts) ==> w == n
    ensures TruthyInt(numPosts) && numPosts.value >= 0 ==> w == Min(n, numPosts.value)
    ensures TruthyInt(numPosts) && numPosts.value < 0 ==> w == Max(0, n + numPosts.value)
  {
    SliceEnd(n, Min(n, if TruthyInt(numPosts) then numPosts.value else n))
  }

  /** The index of the first entry of `w` whose derived id is `target`, or
      `|w|` when there is none. */
  function FirstMatch(target: Option<string>, w: seq<Entry>): (i: nat)
    ensures i <= |w|
    ensures i < |w| ==> GetIdFromPost(w[i]) == target
    ensures forall j :: 0 <= j < i ==> GetIdFromPost(w[j]) != target
  {
    if w == [] then 0
    else if GetIdFromPost(w[0]) == target then 0
    else 1 + FirstMatch(target, w[1..])
  }

  /** The characterisation of `FirstMatch` determines it. */
  lemma FirstMatchUnique(target: Option<string>, w: seq<Entry>, i: nat)
    requires i <= |w|
    requires i < |w| ==> GetIdFromPost(w[i]) == target
    requires forall j :: 0 <= j < i ==> GetIdFromPost(w[j]) != target
    ensures FirstMatch(target, w) == i
  {
  }

  /** How many entries are kept: the window, cut at the first entry whose
      id is the record's last processed id when there is a record. */
  function Cutoff(record: Option<StoreRecord>, numPosts: Option<int>, es: seq<Entry>): (c: nat)
    ensures c <= WindowLen(|es|, numPosts)
  {
    var k := WindowLen(|es|, numPosts);
    if record.Some? then FirstMatch(record.value.lastProcessedId, es[..k]) else k
  }

  /** What `cleanup_feeds` returns: nothing for a missing or empty feed,
      otherwise the kept entries, oldest first. */
  function Selected(record: Option<StoreRecord>, numPosts: Option<int>, entries: Option<seq<Entry>>): seq<Entry> {
    if entries.None? || entries.value == [] then []
    else Reverse(entries.value[..Cutoff(record, numPosts, entries.value)])
  }

  /** `cleanup_feeds`: the window is scanned from the newest entry for the
      last processed id; the scan stops at the first hit. */
  method CleanupFeeds(record: Option<StoreRecord>, numPosts: Option<int>, entries: Option<seq<Entry>>)
    returns (r: seq<Entry>)
    ensures r == Selected(record, numPosts, entries)
  {
    if entries.None? || entries.value == [] {
      return [];
    }
    var es := entries.value;
    var firstPost: int := Min(|es|, if TruthyInt(numPosts) then numPosts.value else |es|);
    var window := es[..SliceEnd(|es|, firstPost)];
    if record.Some? {
      var index := 0;
      while index < |window|
        invariant 0 <= index <= |window|
        invariant firstPost == Min(|es|, if TruthyInt(numPosts) then numPosts.value else |es|)
        invariant forall j :: 0 <= j < index ==> GetIdFromPost(window[j]) != record.value.lastProcessedId
      {
        if record.value.lastProcessedId == GetIdFromPost(window[index]) {
          FirstMatchUnique(record.value.lastProcessedId, window, index);
          firstPost := index;
          break;
        }
        index := index + 1;
      }
      if index == |window| {
        FirstMatchUnique(record.value.lastProcessedId, window, index);
      }
    }
    r := Reverse(es[..SliceEnd(|es|, firstPost)]);
  }

  /** A missing or empty feed selects nothing, whatever the record and the cap. */
  lemma NothingFromEmptyFeed(record: Option<StoreRecord>, numPosts: Option<int>, entries: Option<seq<Entry>>)
    requires entries.None? || entries.value == []
    ensures Selected(record, numPosts, entries) == []
  {
  }

  /** With no record, or no hit in the window, the whole window is kept,
      oldest first. */
  lemma NoMatchKeepsWindow(record: Option<StoreRecord>, numPosts: Option<int>, es: seq<Entry>)
    requires es != []
    requires record.Some? ==>
      forall j :: 0 <= j < WindowLen(|es|, numPosts) ==> GetIdFromPost(es[j]) != record.value.lastProcessedId
    ensures Selected(record, numPosts, Some(es)) == Reverse(es[..WindowLen(|es|, numPosts)])
  {
    var k := WindowLen(|es|, numPosts);
    if record.Some? {
      FirstMatchUnique(record.value.lastProcessedId, es[..k], k);
    }
    assert Cutoff(record, numPosts, es) == k;
  }

  /** Without a cap (a falsy `num_posts`) and without a hit, every entry is
      kept, oldest first. */
  lemma NoCapKeepsAll(record: Option<StoreRecord>, numPosts: Option<int>, es: seq<Entry>)
    requires es != [] && !TruthyInt(numPosts)
    requires record.Some? ==> forall j :: 0 <= j < |es| ==> GetIdFromPost(es[j]) != record.value.lastProcessedId
    ensures Selected(record, numPosts, Some(es)) == Reverse(es)
  {
    NoMatchKeepsWindow(record, numPosts, es);
    assert es[..|es|] == es;
  }

  /** A hit at window position `i` keeps exactly the entries before it,
      oldest first; only the record's id is compared, so a record with no
      timestamp truncates just the same. */
  lemma MatchKeepsNewer(record: StoreRecord, numPosts: Option<int>, es: seq<Entry>, i: nat)
    requires i < WindowLen(|es|, numPosts)
    requires GetIdFromPost(es[i]) == record.lastProcessedId
    requires forall j :: 0 <= j < i ==> GetIdFromPost(es[j]) != record.lastProcessedId
    ensures Selected(Some(record), numPosts, Some(es)) == Reverse(es[..i])
    ensures i == 0 ==> Selected(Some(record), numPosts, Some(es)) == []
  {
    var k := WindowLen(|es|, numPosts);
    FirstMatchUnique(record.lastProcessedId, es[..k], i);
  }

  /** The selection is always the reverse of a prefix of the feed, no longer
      than the window. */
  lemma SelectedIsReversedPrefix(record: Option<StoreRecord>, numPosts: Option<int>, entries: Option<seq<Entry>>)
    ensures var r := Selected(record, numPosts, entries);
      && (entries.None? ==> r == [])
      && (entries.Some? ==> |r| <= WindowLen(|entries.value|, numPosts) && r == Reverse(entries.value[..|r|]))
  {
  }

  /** The cases of test/test_process_rss.py's `test_cleanup_feeds` with one
      entry `test1`: a record with that id (with or without a timestamp)
      selects nothing, any other record selects the entry. */
  lemma CleanupOneEntryExamples(numPosts: int, other: Option<string>, time: Option<int>)
    requires numPosts > 0 && other != Some("test1")
    ensures Selected(Some(StoreRecord(Some("t1"), Some("test1"), time)), Some(numPosts), Some([Entry(Some("test1"), None, None, None)])) == []
    ensures Selected(Some(StoreRecord(Some("t1"), other, time)), Some(numPosts), Some([Entry(Some("test1"), None, None, None)]))
      == [Entry(Some("test1"), None, None, None)]
  {
    var e := Entry(Some("test1"), None, None, None);
    MatchKeepsNewer(StoreRecord(Some("t1"), Some("test1"), time), Some(numPosts), [e], 0);
    NoMatchKeepsWindow(Some(StoreRecord(Some("t1"), other, time)), Some(numPosts), [e]);
    assert [e][..1] == [e];
  }

  // ---------------------------------------------------------------------------
  // The feeds of a run and the capped prepare loop

  /** `_not_valid`: a feed without a status, or with one other than 200, is skipped. */
  function NotValid(status: Option<int>): (r: bool)
    ensures r <==> status != Some(200)
  {
    status.None? || status.value != 200
  }

  /** The date of an entry: its publication time, or `now` when it has none. */
  function DateOf(e: Entry, now: int): (d: int)
    ensures e.published.Some? ==> d == e.published.value
    ensures e.published.None? ==> d == now
  {
    e.published.GetOr(now)
  }

  /** The key `process_posts` gives an entry. */
  function KeyOf(svc: Service, e: Entry, now: int): (k: Key)
    ensures k.service == svc && k.id == GetIdFromPost(e) && k.date == DateOf(e, now)
  {
    Key(svc, GetIdFromPost(e), DateOf(e, now))
  }

  /** The text `process_posts` composes for an entry, if any: there is none
      exactly when its title is short and blank and its link is blank. */
  function TextOf(e: Entry): (r: Option<string>)
    ensures r.Some? ==> r.value != [] && Stripped(r.value)
    ensures r.None? <==> |e.title.GetOr("")| <= MAX_TITLE && AllSpace(e.title.GetOr("")) && AllSpace(UrlText(e.link))
  {
    assert Present(e.title).GetOr("") == e.title.GetOr("");
    assert UrlText(Present(e.link)) == UrlText(e.link);
    GeneratePost(Present(e.title), Present(e.link))
  }

  /** What `process_posts` offers the buffer for each selected entry of a
      feed: its key and its text, if it has one. */
  function Offers(svc: Service, es: seq<Entry>, now: int): (r: seq<(Key, Option<string>)>)
    ensures |r| == |es|
  {
    if es == [] then [] else [(KeyOf(svc, es[0], now), TextOf(es[0]))] + Offers(svc, es[1..], now)
  }

  /** The `i`-th offer of a feed is its `i`-th selected entry's key and text. */
  lemma {:induction false} OffersOfEntries(svc: Service, es: seq<Entry>, now: int)
    ensures forall i :: 0 <= i < |es| ==> Offers(svc, es, now)[i] == (KeyOf(svc, es[i], now), TextOf(es[i]))
  {
    if es != [] {
      OffersOfEntries(svc, es[1..], now);
    }
  }

  /** The offers of one feed: none when the feed is not valid, one per
      selected entry otherwise. */
  function FeedOffers(svc: Service, stores: Stores, feed: Feed, now: int): seq<(Key, Option<string>)> {
    if NotValid(feed.status) then []
    else Offers(svc, Selected(LookupRecord(stores, svc.serviceName), svc.numPosts, feed.entries), now)
  }

  /** The offers of the configured feeds, feed by feed in configuration order. */
  function Candidates(svcs: seq<Service>, stores: Stores, fetch: string -> Feed, now: int): seq<(Key, Option<string>)> {
    if svcs == [] then []
    else FeedOffers(svcs[0], stores, fetch(svcs[0].url), now) + Candidates(svcs[1..], stores, fetch, now)
  }

  /** Every offer of a run belongs to a configured feed. */
  lemma {:induction false} CandidatesFromServices(svcs: seq<Service>, stores: Stores, fetch: string -> Feed, now: int)
    ensures forall o :: o in Candidates(svcs, stores, fetch, now) ==> o.0.service in svcs
  {
    if svcs != [] {
      var svc := svcs[0];
      var head := FeedOffers(svc, stores, fetch(svc.url), now);
      CandidatesFromServices(svcs[1..], stores, fetch, now);
      if !NotValid(fetch(svc.url).status) {
        var es := Selected(LookupRecord(stores, svc.serviceName), svc.numPosts, fetch(svc.url).entries);
        OffersOfEntries(svc, es, now);
      }
      forall o | o in Candidates(svcs, stores, fetch, now) ensures o.0.service in svcs {
        if o !in head {
          assert o in Candidates(svcs[1..], stores, fetch, now);
        }
      }
    }
  }

  /** Every offer with a text, buffered, with no cap. */
  function AllPrepared(offers: seq<(Key, Option<string>)>): (r: seq<(Key, string)>)
    ensures |r| <= |offers|
  {
    if offers == [] then []
    else if offers[0].1.Some? then [(offers[0].0, offers[0].1.value)] + AllPrepared(offers[1..])
    else AllPrepared(offers[1..])
  }

  /** The buffered items of the prepare loop: offers are tried in order
      while fewer than `cap` items have been buffered; an offer without a
      text is skipped and does not count. */
  function Prepared(offers: seq<(Key, Option<string>)>, count: int, cap: int): seq<(Key, string)> {
    if offers == [] || count >= cap then []
    else if offers[0].1.Some? then [(offers[0].0, offers[0].1.value)] + Prepared(offers[1..], count + 1, cap)
    else Prepared(offers[1..], count, cap)
  }

  /** Every buffered item was offered, with its text. */
  lemma {:induction false} AllPreparedFromOffers(offers: seq<(Key, Option<string>)>)
    ensures forall p :: p in AllPrepared(offers) ==> (p.0, Some(p.1)) in offers
  {
    if offers != [] {
      AllPreparedFromOffers(offers[1..]);
      forall p | p in AllPrepared(offers)
        ensures (p.0, Some(p.1)) in offers
      {
        if p in AllPrepared(offers[1..]) {
          assert (p.0, Some(p.1)) in offers[1..];
        }
      }
    }
  }

  /** The cap: the loop buffers the first `cap - count` items it would
      buffer without one (all of them when there are fewer), and skips
      everything after. */
  lemma {:induction false} PreparedIsCappedPrefix(offers: seq<(Key, Option<string>)>, count: int, cap: int)
    ensures var all := AllPrepared(offers);
      Prepared(offers, count, cap) == all[..Min(Max(cap - count, 0), |all|)]
    decreases |offers|
  {
    if offers != [] && count < cap {
      PreparedIsCappedPrefix(offers[1..], count, cap);
      PreparedIsCappedPrefix(offers[1..], count + 1, cap);
    }
  }

  /** At most `cap` items are buffered in a run, each of them offered; when
      fewer are, every offer with a text is. */
  lemma PreparedWithinCap(offers: seq<(Key, Option<string>)>, cap: int)
    ensures |Prepared(offers, 0, cap)| <= Max(cap, 0)
    ensures |Prepared(offers, 0, cap)| < cap ==> Prepared(offers, 0, cap) == AllPrepared(offers)
    ensures forall p :: p in Prepared(offers, 0, cap) ==> (p.0, Some(p.1)) in offers
  {
    PreparedIsCappedPrefix(offers, 0, cap);
    AllPreparedFromOffers(offers);
    var all := AllPrepared(offers);
    assert all[..|all|] == all;
    forall p | p in Prepared(offers, 0, cap) ensures (p.0, Some(p.1)) in offers {
      assert p in all;
    }
  }

  /** Buffering runs on across feeds: the items of `a + b` are those of `a`,
      then those of `b` counted from where `a` stopped. */
  lemma {:induction false} PreparedConcat(a: seq<(Key, Option<string>)>, b: seq<(Key, Option<string>)>, count: int, cap: int)
    ensures Prepared(a + b, count, cap) == Prepared(a, count, cap) + Prepared(b, count + |Prepared(a, count, cap)|, cap)
    decreases |a|
  {
    if a == [] {
      assert a + b == b;
    } else if count >= cap {
      assert Prepared(b, count, cap) == [];
    } else {
      assert (a + b)[0] == a[0];
      assert (a + b)[1..] == a[1..] + b;
      PreparedConcat(a[1..], b, count, cap);
      PreparedConcat(a[1..], b, count + 1, cap);
    }
  }

  /** Once the cap is reached nothing more is buffered. */
  lemma PreparedAtCap(offers: seq<(Key, Option<string>)>, count: int, cap: int)
    requires count >= cap
    ensures Prepared(offers, count, cap) == []
  {
  }

  /** The services of the configuration, in the order of `services()`. */
  ghost function ConfiguredServices(m: FeedConfig.Services, names: seq<Option<string>>): (r: seq<Service>)
    requires forall k :: k in names ==> k in m
    ensures |r| == |names| && forall i :: 0 <= i < |names| ==> r[i] == m[names[i]]
  {
    if names == [] then [] else [m[names[0]]] + ConfiguredServices(m, names[1..])
  }

  /** The prepare loop of `process` (lines 109-127): feed by feed, entry by
      entry, until `numToProcessAtOneTime` items are buffered. */
  method PrepareAll(config: Config, stores: Stores, fetch: string -> Feed, now: int, tp: Publisher<Key>)
    returns (count: int)
    requires config.Valid()
    requires tp.posts == []
    modifies tp
    ensures count == |tp.posts|
    ensures tp.posts == Prepared(Candidates(ConfiguredServices(config.services, config.names), stores, fetch, now),
                                 0, config.main.numToProcessAtOneTime)
  {
    var cap := config.main.numToProcessAtOneTime;
    var names := config.Services();
    ghost var svcs := ConfiguredServices(config.services, config.names);
    ghost var full := Prepared(Candidates(svcs, stores, fetch, now), 0, cap);
    assert svcs[0..] == svcs;
    count := 0;
    var i := 0;
    while i < |names|
      invariant 0 <= i <= |names|
      invariant count == |tp.posts|
      invariant tp.posts + Prepared(Candidates(svcs[i..], stores, fetch, now), count, cap) == full
    {
      ConfiguredServiceAt(config, i);
      var svc := config.Get(names[i]).value;
      assert svc == svcs[i];
      CandidatesStep(svcs, i, stores, fetch, now);
      ghost var rest := Candidates(svcs[i + 1..], stores, fetch, now);
      ghost var posts := tp.posts;
      ghost var start := count;
      count := PrepareService(svc, stores, fetch, now, cap, tp, count);
      AfterFeed(posts, FeedOffers(svc, stores, fetch(svc.url), now), rest, start, cap, full, tp.posts, count);
      if count >= cap {
        PreparedAtCap(rest, count, cap);
        assert tp.posts + [] == tp.posts;
        assert tp.posts == full;
        break;
      }
      i := i + 1;
    }
    if i == |names| {
      assert Candidates(svcs[i..], stores, fetch, now) == [];
      assert tp.posts + [] == tp.posts;
    }
  }

  /** The body of the prepare loop for one feed: its record and its parsed
      feed are fetched, an invalid feed is skipped, and its selected entries
      are offered until the cap is reached. */
  method PrepareService(svc: Service, stores: Stores, fetch: string -> Feed, now: int, cap: int, tp: Publisher<Key>, start: int)
    returns (count: int)
    requires start == |tp.posts|
    modifies tp
    ensures tp.posts == old(tp.posts) + Prepared(FeedOffers(svc, stores, fetch(svc.url), now), start, cap)
    ensures count == |tp.posts|
  {
    var record := LookupRecord(stores, svc.serviceName);
    var feed := fetch(svc.url);
    if NotValid(feed.status) {
      assert tp.posts + [] == tp.posts;
      return start;
    }
    var selected := CleanupFeeds(record, svc.numPosts, feed.entries);
    count := PrepareFeed(tp, svc, selected, now, cap, start);
  }

  /** The service `__getitem__` gives for the `i`-th configured name. */
  lemma ConfiguredServiceAt(config: Config, i: nat)
    requires config.Valid() && i < |config.names|
    ensures config.Get(config.names[i]) == Ok(ConfiguredServices(config.services, config.names)[i])
  {
    assert config.names[i] in config.names;
  }

  /** The offers of the feeds from `i` on: those of feed `i`, then the rest. */
  lemma CandidatesStep(svcs: seq<Service>, i: nat, stores: Stores, fetch: string -> Feed, now: int)
    requires i < |svcs|
    ensures Candidates(svcs[i..], stores, fetch, now)
      == FeedOffers(svcs[i], stores, fetch(svcs[i].url), now) + Candidates(svcs[i + 1..], stores, fetch, now)
  {
    assert svcs[i..][1..] == svcs[i + 1..];
  }

  /** After one feed, the items buffered so far and those still to come
      still make up the whole run. */
  lemma AfterFeed(posts: seq<(Key, string)>, offers: seq<(Key, Option<string>)>, rest: seq<(Key, Option<string>)>,
                  start: int, cap: int, full: seq<(Key, string)>, sofar: seq<(Key, string)>, count: int)
    requires posts + Prepared(offers + rest, start, cap) == full
    requires sofar == posts + Prepared(offers, start, cap)
    requires start == |posts| && count == |sofar|
    ensures sofar + Prepared(rest, count, cap) == full
  {
    var mine := Prepared(offers, start, cap);
    PreparedConcat(offers, rest, start, cap);
    ConcatAssoc(posts, mine, Prepared(rest, start + |mine|, cap));
  }

  /** The inner loop of the prepare loop: the selected entries of one feed
      are offered in order until the cap is reached. */
  method PrepareFeed(tp: Publisher<Key>, svc: Service, selected: seq<Entry>, now: int, cap: int, start: int)
    returns (count: int)
    requires start == |tp.posts|
    modifies tp
    ensures tp.posts == old(tp.posts) + Prepared(Offers(svc, selected, now), start, cap)
    ensures count == |tp.posts|
  {
    count := start;
    ghost var full := Prepared(Offers(svc, selected, now), start, cap);
    assert selected[0..] == selected;
    var j := 0;
    while j < |selected|
      invariant 0 <= j <= |selected|
      invariant count == |tp.posts|
      invariant tp.posts + Prepared(Offers(svc, selected[j..], now), count, cap) == old(tp.posts) + full
    {
      if count >= cap {
        break;
      }
      var e := selected[j];
      OffersStep(svc, selected, j, now, count, cap);
      ghost var posts := tp.posts;
      ghost var later := Prepared(Offers(svc, selected[j + 1..], now), if TextOf(e).Some? then count + 1 else count, cap);
      var ok := tp.Prepare(KeyOf(svc, e, now), Present(e.title), Present(e.link));
      if ok {
        count := count + 1;
        ConcatAssoc(posts, [(KeyOf(svc, e, now), TextOf(e).value)], later);
      }
      j := j + 1;
    }
    if count >= cap {
      PreparedAtCap(Offers(svc, selected[j..], now), count, cap);
    } else {
      assert Offers(svc, selected[j..], now) == [];
    }
  }

  /** One offer of a feed: with room left, it is buffered when it has a
      text and skipped otherwise. */
  lemma OffersStep(svc: Service, es: seq<Entry>, j: nat, now: int, count: int, cap: int)
    requires j < |es| && count < cap
    ensures var t := TextOf(es[j]);
      var after := Prepared(Offers(svc, es[j + 1..], now), if t.Some? then count + 1 else count, cap);
      Prepared(Offers(svc, es[j..], now), count, cap)
        == if t.Some? then [(KeyOf(svc, es[j], now), t.value)] + after else after
  {
    assert es[j..][1..] == es[j + 1..];
    OffersOfEntries(svc, es[j..], now);
  }

  // ---------------------------------------------------------------------------
  // The reduction to one watermark per feed

  /** Some key among `results` belongs to the feed `s`. */
  ghost predicate HasResult(results: set<Key>, s: Service) {
    exists k :: k in results && k.service == s
  }

  /** `w` is a latest result of the feed `s`: none of its results is dated later. */
  ghost predicate IsLatest(results: set<Key>, s: Service, w: Key) {
    && w in results && w.service == s
    && forall k :: k in results && k.service == s ==> k.date <= w.date
  }

  /** The fold of `process` (lines 134-139): each feed keeps the key with the
      latest date among its results, whether it was published or not. The
      source visits the keys newest first; the fold is proved for every
      visiting order. */
  method Reduce(results: map<Key, bool>) returns (winners: map<Service, Key>)
    ensures forall s :: s in winners <==> HasResult(results.Keys, s)
    ensures forall s :: s in winners ==> IsLatest(results.Keys, s, winners[s])
  {
    winners := map[];
    var remaining := results.Keys;
    ghost var done: set<Key> := {};
    while remaining != {}
      invariant done + remaining == results.Keys && done !! remaining
      invariant forall s :: s in winners <==> HasResult(done, s)
      invariant forall s :: s in winners ==> IsLatest(done, s, winners[s])
      decreases |remaining|
    {
      var key :| key in remaining;
      ghost var before := winners;
      if key.service !in winners || winners[key.service].date < key.date {
        winners := winners[key.service := key];
      }
      ReduceStep(done, before, key, winners);
      remaining := remaining - {key};
      done := done + {key};
    }
  }

  /** One step of the fold keeps each winner the latest of what has been seen. */
  lemma ReduceStep(done: set<Key>, before: map<Service, Key>, key: Key, after: map<Service, Key>)
    requires forall s :: s in before <==> HasResult(done, s)
    requires forall s :: s in before ==> IsLatest(done, s, before[s])
    requires after == if key.service !in before || before[key.service].date < key.date
      then before[key.service := key] else before
    ensures forall s :: s in after <==> HasResult(done + {key}, s)
    ensures forall s :: s in after ==> IsLatest(done + {key}, s, after[s])
  {
    forall s ensures s in after <==> HasResult(done + {key}, s) {
      if HasResult(done + {key}, s) && s != key.service {
        var k :| k in done + {key} && k.service == s;
        assert HasResult(done, s);
      }
      if s == key.service {
        assert key in done + {key};
      }
    }
  }

  /** No two winning services share a name, and every name is encoded. */
  ghost predicate NamedUniquely(winners: map<Service, Key>) {
    && (forall s1, s2 :: s1 in winners && s2 in winners && s1.serviceName == s2.serviceName ==> s1 == s2)
    && (forall s :: s in winners ==> Encode(s.serviceName) == s.serviceName)
  }

  /** Some winning service is named `name`. */
  ghost predicate Wins(winners: map<Service, Key>, name: Option<string>) {
    exists s :: s in winners && s.serviceName == name
  }

  /** The record a winner leaves for its feed. */
  function Watermark(k: Key): (r: StoreRecord)
    ensures r.serviceName == k.service.serviceName && r.lastProcessedId == k.id
    ensures r.lastProcessedUpdateTimestamp == Some(k.date)
  {
    StoreRecord(k.service.serviceName, k.id, Some(k.date))
  }

  /** The store `after` is `before` with each winner's watermark under its
      feed's name, and nothing else changed. */
  ghost predicate WrittenBack(before: Stores, after: Stores, winners: map<Service, Key>) {
    && (forall s :: s in winners ==> s.serviceName in after && after[s.serviceName] == Some(Watermark(winners[s])))
    && (forall n :: n in after <==> n in before || Wins(winners, n))
    && (forall n :: n in before && !Wins(winners, n) ==> after[n] == before[n])
  }

  /** Writing one more watermark, under a name no earlier winner has. */
  lemma WrittenBackStep(before: Stores, mid: Stores, done: map<Service, Key>, svc: Service, w: Key)
    requires WrittenBack(before, mid, done)
    requires forall s :: s in done ==> s.serviceName != svc.serviceName
    ensures WrittenBack(before, mid[svc.serviceName := Some(Watermark(w))], done[svc := w])
  {
    var after := mid[svc.serviceName := Some(Watermark(w))];
    var d := done[svc := w];
    forall n ensures n in after <==> n in before || Wins(d, n) {
      if Wins(d, n) && n != svc.serviceName {
        var s :| s in d && s.serviceName == n;
        assert Wins(done, n);
      }
      if n == svc.serviceName {
        assert svc in d;
      }
    }
    forall n | n in before && !Wins(d, n) ensures after[n] == before[n] {
      assert svc in d;
    }
  }

  lemma RestoreKey<K, V>(m: map<K, V>, removed: set<K>, k: K)
    requires k in m && k in removed
    ensures (m - removed)[k := m[k]] == m - (removed - {k})
  {
    var l, r := (m - removed)[k := m[k]], m - (removed - {k});
    assert l.Keys == r.Keys;
  }

  /** Lines 141-143: each winner's feed gets a new record with the winner's
      id and date; a feed without a name raises on the first such winner. */
  method WriteBack(store: Store, winners: map<Service, Key>) returns (err: Option<Error>)
    requires store.Valid() && NamedUniquely(winners)
    modifies store
    ensures store.Valid()
    ensures err.None? <==> forall s :: s in winners ==> TruthyStr(s.serviceName)
    ensures err.None? ==> WrittenBack(old(store.stores), store.stores, winners)
  {
    ghost var before := store.stores;
    var remaining := winners.Keys;
    while remaining != {}
      invariant remaining <= winners.Keys
      invariant store.Valid()
      invariant forall s :: s in winners.Keys - remaining ==> TruthyStr(s.serviceName)
      invariant WrittenBack(before, store.stores, winners - remaining)
      decreases |remaining|
    {
      var svc :| svc in remaining;
      ghost var mid := store.stores;
      err := store.Set(svc.serviceName, Some(Watermark(winners[svc])));
      if err.Some? {
        return;
      }
      WrittenBackStep(before, mid, winners - remaining, svc, winners[svc]);
      RestoreKey(winners, remaining, svc);
      remaining := remaining - {svc};
    }
    assert winners - remaining == winners;
    err := None;
  }

  // ---------------------------------------------------------------------------
  // A run

  /** Some key among `results` belongs to a feed named `name`. */
  ghost predicate Touches(results: set<Key>, name: Option<string>) {
    exists k :: k in results && k.service.serviceName == name
  }

  /** What a run promises the store: each feed with results now holds the
      watermark of one of its latest results; a feed without results keeps
      its record; no other name appears. */
  ghost predicate Watermarked(results: set<Key>, before: Stores, after: Stores) {
    && (forall s :: HasResult(results, s) ==>
          s.serviceName in after && exists w :: IsLatest(results, s, w) && after[s.serviceName] == Some(Watermark(w)))
    && (forall n :: n in after <==> n in before || Touches(results, n))
    && (forall n :: n in before && !Touches(results, n) ==> after[n] == before[n])
  }

  /** Reducing and then writing back leaves the store watermarked. */
  lemma ReducedAndWritten(results: set<Key>, winners: map<Service, Key>, before: Stores, after: Stores)
    requires forall s :: s in winners <==> HasResult(results, s)
    requires forall s :: s in winners ==> IsLatest(results, s, winners[s])
    requires WrittenBack(before, after, winners)
    ensures Watermarked(results, before, after)
  {
    forall n ensures Touches(results, n) <==> Wins(winners, n) {
      if Touches(results, n) {
        var k :| k in results && k.service.serviceName == n;
        assert HasResult(results, k.service);
      }
      if Wins(winners, n) {
        var s :| s in winners && s.serviceName == n;
        assert winners[s] in results;
      }
    }
    forall s | HasResult(results, s)
      ensures s.serviceName in after && exists w :: IsLatest(results, s, w) && after[s.serviceName] == Some(Watermark(w))
    {
      assert IsLatest(results, s, winners[s]);
    }
  }

  /** The feeds with results in a run come from the configuration, so their
      names are unique and encoded. */
  lemma FromConfig(config: Config, offers: seq<(Key, Option<string>)>, results: map<Key, bool>,
                   cap: int, dryRun: bool, respond: nat -> string)
    requires config.Valid()
    requires forall o :: o in offers ==> o.0.service in ConfiguredServices(config.services, config.names)
    requires results == Outcomes(Prepared(offers, 0, cap), dryRun, respond)
    ensures ResultsNamedUniquely(results.Keys)
  {
    forall k | k in results
      ensures k.service.serviceName in config.services && config.services[k.service.serviceName] == k.service
    {
      BufferedWasOffered(offers, cap, k);
      var o :| o in offers && o.0 == k;
      ConfiguredServiceNamed(config, k.service);
    }
  }

  /** No two feeds with results share a name, and every name is encoded. */
  ghost predicate ResultsNamedUniquely(results: set<Key>) {
    && (forall k1, k2 :: k1 in results && k2 in results && k1.service.serviceName == k2.service.serviceName
          ==> k1.service == k2.service)
    && (forall k :: k in results ==> Encode(k.service.serviceName) == k.service.serviceName)
  }

  /** The winners of uniquely named results are uniquely named. */
  lemma WinnersNamedUniquely(results: set<Key>, winners: map<Service, Key>)
    requires ResultsNamedUniquely(results)
    requires forall s :: s in winners ==> IsLatest(results, s, winners[s])
    ensures NamedUniquely(winners)
  {
    forall s1, s2 | s1 in winners && s2 in winners && s1.serviceName == s2.serviceName
      ensures s1 == s2
    {
      assert winners[s1] in results && winners[s2] in results;
    }
    forall s | s in winners
      ensures Encode(s.serviceName) == s.serviceName
    {
      assert winners[s] in results;
    }
  }

  /** A buffered key was offered. */
  lemma BufferedWasOffered(offers: seq<(Key, Option<string>)>, cap: int, k: Key)
    requires Buffered(Prepared(offers, 0, cap), k)
    ensures exists o :: o in offers && o.0 == k
  {
    var prepared := Prepared(offers, 0, cap);
    PreparedWithinCap(offers, cap);
    var i :| 0 <= i < |prepared| && prepared[i].0 == k;
    assert prepared[i] in prepared;
  }

  /** A configured service is found under its own name. */
  lemma ConfiguredServiceNamed(config: Config, s: Service)
    requires config.Valid()
    requires s in ConfiguredServices(config.services, config.names)
    ensures s.serviceName in config.services && config.services[s.serviceName] == s
  {
    var svcs := ConfiguredServices(config.services, config.names);
    var m :| 0 <= m < |svcs| && svcs[m] == s;
    assert config.names[m] in config.names;
  }

  /** The items a run buffers, from the configuration and the store as
      they are when the run starts. */
  ghost function RunPosts(services: FeedConfig.Services, names: seq<Option<string>>, stores: Stores,
                          fetch: string -> Feed, now: int, cap: int): seq<(Key, string)>
    requires forall k :: k in names ==> k in services
  {
    Prepared(Candidates(ConfiguredServices(services, names), stores, fetch, now), 0, cap)
  }

  /** The write-back fails exactly when some feed with results has no name. */
  lemma WinnersNamed(results: set<Key>, winners: map<Service, Key>)
    requires forall s :: s in winners <==> HasResult(results, s)
    ensures (forall s :: s in winners ==> TruthyStr(s.serviceName))
        <==> (forall k :: k in results ==> TruthyStr(k.service.serviceName))
  {
    if forall s :: s in winners ==> TruthyStr(s.serviceName) {
      forall k | k in results ensures TruthyStr(k.service.serviceName) {
        assert HasResult(results, k.service);
      }
    }
  }

  /** `process`: prepare up to the cap, flush the buffer, reduce the results
      to one watermark per feed, write them to the store and write the
      store out. */
  method Process(config: Config, store: Store, fetch: string -> Feed, now: int, respond: nat -> string)
    returns (err: Option<Error>, sent: seq<string>, written: Option<seq<string>>, ghost order: seq<Option<string>>)
    requires config.Valid() && store.Valid()
    modifies store
    ensures
      var posts := RunPosts(config.services, config.names, old(store.stores), fetch, now, config.main.numToProcessAtOneTime);
      var results := Outcomes(posts, store.dryRun, respond);
      && sent == (if store.dryRun then [] else Texts(posts))
      && (err.None? <==> forall k :: k in results ==> TruthyStr(k.service.serviceName))
      && (err.None? ==> Watermarked(results.Keys, old(store.stores), store.stores))
      && (err.Some? || store.dryRun ==> written == None)
      && (err.None? && !store.dryRun ==>
            && (forall k :: k in store.stores <==> k in order)
            && (forall i, j :: 0 <= i < j < |order| ==> order[i] != order[j])
            && written == Some(Lines(store.stores, order)))
  {
    var tp := new Publisher<Key>(store.dryRun);
    ghost var offers := Candidates(ConfiguredServices(config.services, config.names), store.stores, fetch, now);
    var count := PrepareAll(config, store.stores, fetch, now, tp);
    CandidatesFromServices(ConfiguredServices(config.services, config.names), store.stores, fetch, now);
    var results;
    results, sent := tp.Post(respond);
    FromConfig(config, offers, results, config.main.numToProcessAtOneTime, store.dryRun, respond);
    err, written, order := Record(store, results);
  }

  /** Lines 134-148 of `process`: reduce the results to one watermark per
      feed, write them to the store and write the store out. */
  method Record(store: Store, results: map<Key, bool>)
    returns (err: Option<Error>, written: Option<seq<string>>, ghost order: seq<Option<string>>)
    requires store.Valid() && ResultsNamedUniquely(results.Keys)
    modifies store
    ensures err.None? <==> forall k :: k in results ==> TruthyStr(k.service.serviceName)
    ensures err.None? ==> Watermarked(results.Keys, old(store.stores), store.stores)
    ensures err.Some? || store.dryRun ==> written == None
    ensures err.None? && !store.dryRun ==>
      && (forall k :: k in store.stores <==> k in order)
      && (forall i, j :: 0 <= i < j < |order| ==> order[i] != order[j])
      && written == Some(Lines(store.stores, order))
  {
    var winners := Reduce(results);
    WinnersNamedUniquely(results.Keys, winners);
    WinnersNamed(results.Keys, winners);
    err := WriteBack(store, winners);
    if err.Some? {
      return err, None, [];
    }
    ReducedAndWritten(results.Keys, winners, old(store.stores), store.stores);
    var n, lines;
    n, lines, order := store.WriteStore([]);
    written := lines;
  }
}
