/**
  src/processRss.py: the earlier run loop. Each feed's entries are walked
  newest first; each entry with a text is posted at once, and the first
  entry handled becomes the feed's new watermark.

  The publishing service is an input: `postOk(n)` says whether the `n`-th
  post of the walk is accepted (a refusal raises TwitterException).
 */
module ProcessRssLegacy {
  import opened Wrappers
  import opened PyStr
  import ProcessRss

  /** The most characters of a title a post keeps. */
  const TITLE_LIMIT := 120

  /** The feed record `process_posts` reads: its url, how many entries to
      look at, and the id and date it last processed. */
  datatype LegacyService = LegacyService(
    url: string,
    numPosts: Option<int>,
    lastProcessedId: Option<string>,
    lastProcessedUpdateTimestamp: Option<int>)

  /** The part of the title a post uses: its first 120 characters, or
      nothing for a missing or empty title. */
  function Head(data: Option<string>): (h: string)
    ensures |h| <= TITLE_LIMIT
    ensures TruthyStr(data) ==> h == data.value[..Min(|data.value|, TITLE_LIMIT)]
    ensures !TruthyStr(data) ==> h == []
  {
    if TruthyStr(data) then data.value[..Min(|data.value|, TITLE_LIMIT)] else []
  }

  /** The link a post uses: nothing for a missing or empty one. */
  function Link(url: Option<string>): string {
    if TruthyStr(url) then url.value else []
  }

  lemma AllSpaceConcat(a: string, b: string)
    ensures AllSpace(a + b) <==> AllSpace(a) && AllSpace(b)
  {
    assert forall i :: 0 <= i < |a| ==> (a + b)[i] == a[i];
    assert forall i :: 0 <= i < |b| ==> (a + b)[|a| + i] == b[i];
  }

  /** `generatePost`: the head of the title, a space and the link, stripped;
      `None` when that leaves nothing. */
  function GeneratePost(data: Option<string>, url: Option<string>): (r: Option<string>)
    ensures r.Some? ==> r.value != [] && Stripped(r.value)
    ensures r.None? <==> AllSpace(Head(data)) && AllSpace(Link(url))
    ensures r.Some? ==> |r.value| <= (if TruthyStr(data) then TITLE_LIMIT + 1 else 0) + |Link(url)|
  {
    var text := (if TruthyStr(data) then Head(data) + " " else "") + Link(url);
    AllSpaceConcat(if TruthyStr(data) then Head(data) + " " else "", Link(url));
    AllSpaceConcat(Head(data), " ");
    var t := Strip(text);
    if |t| == 0 then None else Some(t)
  }

  /** A title of at most 120 characters and a link, both without padding:
      the post is the title, a space and the link. */
  lemma ShortTitleWithLink(title: string, url: string)
    requires title != [] && Stripped(title) && |title| <= TITLE_LIMIT
    requires url != [] && Stripped(url)
    ensures GeneratePost(Some(title), Some(url)) == Some(title + " " + url)
  {
    assert title[..|title|] == title;
    var text := title + " " + url;
    assert text[0] == title[0] && text[|text| - 1] == url[|url| - 1];
    StrippedIsFixed(text);
  }

  /** A longer title is cut to its first 120 characters. */
  lemma LongTitleWithLink(title: string, url: string)
    requires |title| > TITLE_LIMIT && !IsSpace(title[0]) && !IsSpace(title[TITLE_LIMIT - 1])
    requires url != [] && Stripped(url)
    ensures GeneratePost(Some(title), Some(url)) == Some(title[..TITLE_LIMIT] + " " + url)
  {
    var text := title[..TITLE_LIMIT] + " " + url;
    assert text[0] == title[0] && text[|text| - 1] == url[|url| - 1];
    StrippedIsFixed(text);
  }

  /** Without a link the trailing space is stripped away. */
  lemma TitleWithoutLink(title: string)
    requires title != [] && Stripped(title) && |title| <= TITLE_LIMIT
    ensures GeneratePost(Some(title), None) == Some(title)
  {
    assert Head(Some(title)) == title by {
      assert title[..|title|] == title;
    }
    assert Head(Some(title)) + " " + Link(None) == [] + title + " ";
    StripPadded([], title, " ");
  }

  /** No title and no link: nothing to post. */
  lemma NothingToPost(data: Option<string>, url: Option<string>)
    requires !TruthyStr(data) && !TruthyStr(url)
    ensures GeneratePost(data, url) == None
  {
  }

  /** The text `process_posts` composes for an entry, if any. */
  function EntryText(e: ProcessRss.Entry): Option<string> {
    GeneratePost(ProcessRss.Present(e.title), ProcessRss.Present(e.link))
  }

  /** The composed text of each entry. */
  function EntryTexts(es: seq<ProcessRss.Entry>): (r: seq<Option<string>>)
    ensures |r| == |es| && forall i :: 0 <= i < |es| ==> r[i] == EntryText(es[i])
  {
    seq(|es|, i requires 0 <= i < |es| => EntryText(es[i]))
  }

  /** The text for one entry, as `process_posts` composes it. */
  method Compose(post: ProcessRss.Entry) returns (text: Option<string>)
    ensures text == EntryText(post)
  {
    text := GeneratePost(ProcessRss.Present(post.title), ProcessRss.Present(post.link));
  }

  /** The walk of `process_posts` from entry `i`, given each entry's
      composed text, the watermark found so far and the texts posted so
      far: its outcome and every text posted. */
  function Walk(conf: LegacyService, es: seq<ProcessRss.Entry>, texts: seq<Option<string>>, postOk: nat -> bool,
                i: nat, newest: Option<string>, date: Option<int>, sent: seq<string>)
    : (r: (Result<(Option<string>, Option<int>)>, seq<string>))
    requires |texts| == |es|
    ensures sent <= r.1
    ensures i <= |es| ==> |r.1| <= |sent| + (|es| - i)
    ensures r.0.Err? ==> r.0.error in {KeyError(Some("id")), KeyError(Some("published_parsed")), TwitterException}
    ensures r.0.Ok? && TruthyStr(newest) ==> r.0.value == (newest, date)
    decreases |es| - i
  {
    if i >= |es| then (Ok((newest, date)), sent)
    // Python 2 orders None below every number, so a missing numPosts stops at once.
    else if !(conf.numPosts.Some? && i < conf.numPosts.value) then (Ok((newest, date)), sent)
    else if TruthyStr(conf.lastProcessedId) && es[i].id.None? then (Err(KeyError(Some("id"))), sent)
    else if TruthyStr(conf.lastProcessedId) && conf.lastProcessedId == es[i].id then (Ok((newest, date)), sent)
    else
      var sent' := if texts[i].Some? then sent + [texts[i].value] else sent;
      if texts[i].Some? && !postOk(|sent|) then (Err(TwitterException), sent')
      else if TruthyStr(newest) then Walk(conf, es, texts, postOk, i + 1, newest, date, sent')
      else if es[i].id.None? then (Err(KeyError(Some("id"))), sent')
      else if es[i].published.None? then (Err(KeyError(Some("published_parsed"))), sent')
      else Walk(conf, es, texts, postOk, i + 1, es[i].id, es[i].published, sent')
  }

  /** `process_posts`: the entries are walked in feed order, stopping at
      `numPosts` entries or at the last processed one; each text is posted
      as it is composed; the first entry handled gives the new watermark. */
  method ProcessPosts(conf: LegacyService, entries: seq<ProcessRss.Entry>, postOk: nat -> bool)
    returns (r: Result<(Option<string>, Option<int>)>, sent: seq<string>)
    ensures (r, sent) == Walk(conf, entries, EntryTexts(entries), postOk, 0, None, None, [])
  {
    ghost var texts := EntryTexts(entries);
    var newest: Option<string> := None;
    var date: Option<int> := None;
    sent := [];
    var index := 0;
    while index < |entries|
      invariant 0 <= index <= |entries|
      invariant Walk(conf, entries, texts, postOk, index, newest, date, sent) == Walk(conf, entries, texts, postOk, 0, None, None, [])
    {
      var stop;
      stop, r, newest, date, sent := Visit(conf, entries, texts, postOk, index, newest, date, sent);
      if stop {
        return;
      }
      index := index + 1;
    }
    r := Ok((newest, date));
  }

  /** The body of the loop of `process_posts` for entry `index`: either the
      walk ends here with `r` and `sent'`, or it goes on from the next entry
      with the watermark and the texts posted so far. */
  method Visit(conf: LegacyService, entries: seq<ProcessRss.Entry>, ghost texts: seq<Option<string>>, postOk: nat -> bool,
               index: nat, newest: Option<string>, date: Option<int>, sent: seq<string>)
    returns (stop: bool, r: Result<(Option<string>, Option<int>)>,
             newest': Option<string>, date': Option<int>, sent': seq<string>)
    requires texts == EntryTexts(entries) && index < |entries|
    ensures stop ==> (r, sent') == Walk(conf, entries, texts, postOk, index, newest, date, sent)
    ensures !stop ==> Walk(conf, entries, texts, postOk, index, newest, date, sent)
                      == Walk(conf, entries, texts, postOk, index + 1, newest', date', sent')
  {
    newest', date', sent' := newest, date, sent;
    r := Ok((newest, date));
    var post := entries[index];
    if !(conf.numPosts.Some? && index < conf.numPosts.value) {
      return true, r, newest', date', sent';
    }
    if TruthyStr(conf.lastProcessedId) {
      if post.id.None? {
        return true, Err(KeyError(Some("id"))), newest', date', sent';
      }
      if conf.lastProcessedId == post.id {
        return true, r, newest', date', sent';
      }
    }
    var text := Compose(post);
    if text.Some? {
      var ok := postOk(|sent|);
      sent' := sent + [text.value];
      if !ok {
        return true, Err(TwitterException), newest', date', sent';
      }
    }
    if !TruthyStr(newest) {
      if post.id.None? {
        return true, Err(KeyError(Some("id"))), newest', date', sent';
      }
      if post.published.None? {
        return true, Err(KeyError(Some("published_parsed"))), newest', date', sent';
      }
      newest', date' := post.id, post.published;
    }
    WalkContinues(conf, entries, texts, postOk, index, newest, date, sent);
    stop := false;
  }

  /** One step of the walk over an entry that neither stops nor fails it. */
  lemma WalkContinues(conf: LegacyService, es: seq<ProcessRss.Entry>, texts: seq<Option<string>>, postOk: nat -> bool,
                      i: nat, newest: Option<string>, date: Option<int>, sent: seq<string>)
    requires |texts| == |es| && i < |es|
    requires conf.numPosts.Some? && i < conf.numPosts.value
    requires TruthyStr(conf.lastProcessedId) ==> es[i].id.Some? && conf.lastProcessedId != es[i].id
    requires texts[i].Some? ==> postOk(|sent|)
    requires TruthyStr(newest) || (es[i].id.Some? && es[i].published.Some?)
    ensures var sent' := if texts[i].Some? then sent + [texts[i].value] else sent;
      Walk(conf, es, texts, postOk, i, newest, date, sent)
      == if TruthyStr(newest) then Walk(conf, es, texts, postOk, i + 1, newest, date, sent')
         else Walk(conf, es, texts, postOk, i + 1, es[i].id, es[i].published, sent')
  {
  }

  /** Nothing after the last processed entry matters: the walk over the
      whole feed is the walk over the entries before it. */
  lemma {:induction false} StopsAtLastProcessed(conf: LegacyService, es: seq<ProcessRss.Entry>, texts: seq<Option<string>>,
                                                postOk: nat -> bool, j: nat, i: nat,
                                                newest: Option<string>, date: Option<int>, sent: seq<string>)
    requires |texts| == |es|
    requires TruthyStr(conf.lastProcessedId) && j < |es| && es[j].id == conf.lastProcessedId
    requires i <= j
    ensures Walk(conf, es, texts, postOk, i, newest, date, sent) == Walk(conf, es[..j], texts[..j], postOk, i, newest, date, sent)
    decreases j - i
  {
    if i < j {
      var sent' := if texts[i].Some? then sent + [texts[i].value] else sent;
      assert es[..j][i] == es[i] && texts[..j][i] == texts[i];
      if TruthyStr(newest) {
        StopsAtLastProcessed(conf, es, texts, postOk, j, i + 1, newest, date, sent');
      } else if es[i].id.Some? && es[i].published.Some? {
        StopsAtLastProcessed(conf, es, texts, postOk, j, i + 1, es[i].id, es[i].published, sent');
      }
    }
  }

  /** Entries from index `numPosts` on are never looked at. */
  lemma {:induction false} StopsAtNumPosts(conf: LegacyService, es: seq<ProcessRss.Entry>, texts: seq<Option<string>>,
                                           postOk: nat -> bool, n: nat, i: nat,
                                           newest: Option<string>, date: Option<int>, sent: seq<string>)
    requires |texts| == |es|
    requires conf.numPosts == Some(n) && n <= |es| && i <= n
    ensures Walk(conf, es, texts, postOk, i, newest, date, sent) == Walk(conf, es[..n], texts[..n], postOk, i, newest, date, sent)
    decreases n - i
  {
    if i < n {
      var sent' := if texts[i].Some? then sent + [texts[i].value] else sent;
      assert es[..n][i] == es[i] && texts[..n][i] == texts[i];
      if TruthyStr(newest) {
        StopsAtNumPosts(conf, es, texts, postOk, n, i + 1, newest, date, sent');
      } else if es[i].id.Some? && es[i].published.Some? {
        StopsAtNumPosts(conf, es, texts, postOk, n, i + 1, es[i].id, es[i].published, sent');
      }
    }
  }

  /** Posting only appends, and at most one text per entry looked at. */
  lemma {:induction false} PostsAtMostOnePerEntry(conf: LegacyService, es: seq<ProcessRss.Entry>, texts: seq<Option<string>>,
                                                  postOk: nat -> bool, i: nat,
                                                  newest: Option<string>, date: Option<int>, sent: seq<string>)
    requires |texts| == |es| && i <= |es|
    ensures var w := Walk(conf, es, texts, postOk, i, newest, date, sent);
      |sent| <= |w.1| <= |sent| + (|es| - i) && w.1[..|sent|] == sent
    decreases |es| - i
  {
    if i < |es| {
      var sent' := if texts[i].Some? then sent + [texts[i].value] else sent;
      assert sent'[..|sent|] == sent;
      if TruthyStr(newest) {
        PostsAtMostOnePerEntry(conf, es, texts, postOk, i + 1, newest, date, sent');
      } else if es[i].id.Some? && es[i].published.Some? {
        PostsAtMostOnePerEntry(conf, es, texts, postOk, i + 1, es[i].id, es[i].published, sent');
      }
    }
  }

  /** With no `numPosts`, or one below 1, nothing is handled and nothing changes. */
  lemma NothingHandled(conf: LegacyService, es: seq<ProcessRss.Entry>, texts: seq<Option<string>>, postOk: nat -> bool)
    requires |texts| == |es|
    requires conf.numPosts.None? || conf.numPosts.value <= 0
    ensures Walk(conf, es, texts, postOk, 0, None, None, []) == (Ok((None, None)), [])
  {
  }

  /** The texts there are, in order. */
  function Somes<T>(texts: seq<Option<T>>): (r: seq<T>)
    ensures |r| <= |texts|
  {
    if texts == [] then []
    else (if texts[0].Some? then [texts[0].value] else []) + Somes(texts[1..])
  }

  /** With no watermark to stop at, the first entry handled must carry an
      id and a date: without them the walk raises KeyError once its text
      is posted. */
  lemma FirstEntryUndatedRaises(conf: LegacyService, es: seq<ProcessRss.Entry>, texts: seq<Option<string>>, postOk: nat -> bool)
    requires |texts| == |es|
    requires !TruthyStr(conf.lastProcessedId)
    requires conf.numPosts.Some? && conf.numPosts.value >= 1
    requires forall n :: postOk(n)
    requires es != [] && (es[0].id.None? || es[0].published.None?)
    ensures es[0].id.None? ==> Walk(conf, es, texts, postOk, 0, None, None, []).0 == Err(KeyError(Some("id")))
    ensures es[0].id.Some? ==> Walk(conf, es, texts, postOk, 0, None, None, []).0 == Err(KeyError(Some("published_parsed")))
  {
  }

  /** With no watermark to stop at, room for every entry and every post
      accepted, every text is posted in feed order and the newest entry
      becomes the watermark. */
  lemma {:induction false} AllPostedInOrder(conf: LegacyService, es: seq<ProcessRss.Entry>, texts: seq<Option<string>>, postOk: nat -> bool)
    requires |texts| == |es|
    requires !TruthyStr(conf.lastProcessedId)
    requires conf.numPosts.Some? && conf.numPosts.value >= |es|
    requires forall n :: postOk(n)
    requires es != [] && TruthyStr(es[0].id) && es[0].published.Some?
    ensures Walk(conf, es, texts, postOk, 0, None, None, []) == (Ok((es[0].id, es[0].published)), Somes(texts))
  {
    var sent: seq<string> := if texts[0].Some? then [texts[0].value] else [];
    assert Walk(conf, es, texts, postOk, 0, None, None, []) == Walk(conf, es, texts, postOk, 1, es[0].id, es[0].published, sent) by {
      assert sent == if texts[0].Some? then [] + [texts[0].value] else [];
    }
    PostedFrom(conf, es, texts, postOk, 1, es[0].id, es[0].published, sent);
  }

  lemma {:induction false} PostedFrom(conf: LegacyService, es: seq<ProcessRss.Entry>, texts: seq<Option<string>>,
                                      postOk: nat -> bool, i: nat,
                                      newest: Option<string>, date: Option<int>, sent: seq<string>)
    requires |texts| == |es|
    requires !TruthyStr(conf.lastProcessedId)
    requires conf.numPosts.Some? && conf.numPosts.value >= |es|
    requires forall n :: postOk(n)
    requires TruthyStr(newest) && i <= |es|
    ensures Walk(conf, es, texts, postOk, i, newest, date, sent) == (Ok((newest, date)), sent + Somes(texts[i..]))
    decreases |es| - i
  {
    if i == |es| {
      assert sent + Somes(texts[i..]) == sent;
    } else {
      var head: seq<string> := if texts[i].Some? then [texts[i].value] else [];
      assert Walk(conf, es, texts, postOk, i, newest, date, sent) == Walk(conf, es, texts, postOk, i + 1, newest, date, sent + head) by {
        assert texts[i].None? ==> sent + head == sent;
      }
      PostedFrom(conf, es, texts, postOk, i + 1, newest, date, sent + head);
      assert Somes(texts[i..]) == head + Somes(texts[i + 1..]) by {
        assert texts[i..][1..] == texts[i + 1..];
      }
      ConcatAssoc(sent, head, Somes(texts[i + 1..]));
    }
  }

  /** Whenever the walk reaches an entry it handles (within `numPosts`, and
      not the last processed one) and that entry's post is refused, the walk
      stops with TwitterException, after that text was sent. */
  lemma RefusalRaises(conf: LegacyService, es: seq<ProcessRss.Entry>, texts: seq<Option<string>>, postOk: nat -> bool,
                      i: nat, newest: Option<string>, date: Option<int>, sent: seq<string>)
    requires |texts| == |es| && i < |es|
    requires conf.numPosts.Some? && i < conf.numPosts.value
    requires !TruthyStr(conf.lastProcessedId) || (es[i].id.Some? && conf.lastProcessedId != es[i].id)
    requires texts[i].Some? && !postOk(|sent|)
    ensures Walk(conf, es, texts, postOk, i, newest, date, sent) == (Err(TwitterException), sent + [texts[i].value])
  {
  }

  /** The feeds of test/test_processRss.py: two entries, newest first, each
      with a text. A feed that looks at five entries posts both, in feed
      order; one that looks at one entry posts only the newest; both take
      the newest entry as the watermark. */
  lemma TwoEntryExample(url: string, t2: string, t1: string, postOk: nat -> bool)
    requires forall n :: postOk(n)
    ensures var es := [ProcessRss.Entry(Some("post2"), None, None, Some(1500527415)),
                       ProcessRss.Entry(Some("post1"), None, None, Some(1494880615))];
      && Walk(LegacyService(url, Some(5), None, None), es, [Some(t2), Some(t1)], postOk, 0, None, None, [])
         == (Ok((Some("post2"), Some(1500527415))), [t2, t1])
      && Walk(LegacyService(url, Some(1), None, None), es, [Some(t2), Some(t1)], postOk, 0, None, None, [])
         == (Ok((Some("post2"), Some(1500527415))), [t2])
  {
    var es := [ProcessRss.Entry(Some("post2"), None, None, Some(1500527415)),
               ProcessRss.Entry(Some("post1"), None, None, Some(1494880615))];
    var texts := [Some(t2), Some(t1)];
    AllPostedInOrder(LegacyService(url, Some(5), None, None), es, texts, postOk);
    assert Somes(texts) == [t2, t1] by {
      assert texts[1..] == [Some(t1)] && texts[1..][1..] == [];
    }
    var one := LegacyService(url, Some(1), None, None);
    assert Walk(one, es, texts, postOk, 0, None, None, [])
        == Walk(one, es, texts, postOk, 1, Some("post2"), Some(1500527415), [] + [t2]);
    assert [] + [t2] == [t2];
  }

  /** processRss.py:47-48: the feed's record is replaced only when both the
      new id and the new date are set (non-empty, non-zero); its url and
      `numPosts` are kept. */
  function NextRecord(conf: LegacyService, newest: Option<string>, date: Option<int>): (r: Option<LegacyService>)
    ensures r.Some? <==> TruthyStr(newest) && TruthyInt(date)
    ensures r.Some? ==> r.value.url == conf.url && r.value.numPosts == conf.numPosts
    ensures r.Some? ==> r.value.lastProcessedId == newest && r.value.lastProcessedUpdateTimestamp == date
  {
    if TruthyStr(newest) && TruthyInt(date) then Some(LegacyService(conf.url, conf.numPosts, newest, date))
    else None
  }
}
