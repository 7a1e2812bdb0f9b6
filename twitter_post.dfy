/**
  src/twitter_post.py: the text composer (`_generatePost`) and the publish
  buffer (`prepare` fills it, `post` flushes it). The HTTP request is
  replaced by a status oracle: `respond(i)` is the status the service
  answers for the i-th buffered item of a flush.
 */
module TwitterPost {
  import opened Wrappers
  import opened PyStr

  /** The title length above which the title is cut. */
  const MAX_TITLE := 110
  /** How much further the cut moves when there is no link. */
  const NO_LINK_BONUS := 25

  /** `url if url else ''`. */
  function UrlText(url: Option<string>): string {
    if TruthyStr(url) then url.value else ""
  }

  /** Where a long title is cut, as written: the last blank in its first 110
      characters (`rfind`, so -1 when there is none), 25 further without a link. */
  function CutAsWritten(d: string, url: Option<string>): int
    requires |d| > MAX_TITLE
  {
    RFind(d[..MAX_TITLE], ' ') + (if TruthyStr(url) then 0 else NO_LINK_BONUS)
  }

  /** `_generatePost` as written: a missing title cannot be concatenated and
      raises TypeError; a title of up to 110 characters is followed by a
      blank and the link; a longer one is cut, at a negative index when it
      has no blank early enough, and followed by `... ` and the link. */
  function GeneratePostAsWritten(data: Option<string>, url: Option<string>): (r: Result<Option<string>>)
    ensures r == Err(TypeError) <==> data.None?
    ensures r.Ok? && r.value.Some? ==> r.value.value != [] && Stripped(r.value.value)
  {
    if data.None? then Err(TypeError)
    else
      var d, u := data.value, UrlText(url);
      var text := if |d| > MAX_TITLE then d[..SliceEnd(|d|, CutAsWritten(d, url))] + "... " + u else d + " " + u;
      var t := Strip(text);
      Ok(if t == [] then None else Some(t))
  }

  /** Where a long title is cut: the last blank in its first 110 characters,
      or 110 when there is none; 25 further without a link. */
  function Cut(d: string, url: Option<string>): (c: nat)
    requires |d| > MAX_TITLE
    ensures c <= MAX_TITLE + NO_LINK_BONUS
    ensures TruthyStr(url) ==> c <= MAX_TITLE
  {
    var p := RFind(d[..MAX_TITLE], ' ');
    (if p < 0 then MAX_TITLE else p) + (if TruthyStr(url) then 0 else NO_LINK_BONUS)
  }

  /** The text before stripping. */
  function Composed(d: string, url: Option<string>): string {
    if |d| > MAX_TITLE then d[..Min(Cut(d, url), |d|)] + "... " + UrlText(url) else d + " " + UrlText(url)
  }

  /** `_generatePost` with a missing title read as the empty title and a
      long title without an early blank cut hard at 110 characters. The
      text is stripped and never empty; there is no text only when a short
      title and the link are both blank; and it is bounded: 114 characters
      plus the link, or 139 without one. */
  function GeneratePost(data: Option<string>, url: Option<string>): (r: Option<string>)
    ensures r.Some? ==> r.value != [] && Stripped(r.value)
    ensures r.None? <==> |data.GetOr("")| <= MAX_TITLE && AllSpace(data.GetOr("")) && AllSpace(UrlText(url))
    ensures r.Some? ==> |r.value| <= if TruthyStr(url) then 114 + |url.value| else 139
  {
    var d := data.GetOr("");
    var text := Composed(d, url);
    var t := Strip(text);
    ComposedBlank(d, url);
    if t == [] then None else Some(t)
  }

  /** The composed text is blank exactly when a short title and the link are. */
  lemma ComposedBlank(d: string, url: Option<string>)
    ensures AllSpace(Composed(d, url)) <==> |d| <= MAX_TITLE && AllSpace(d) && AllSpace(UrlText(url))
  {
    var text := Composed(d, url);
    var u := UrlText(url);
    if |d| > MAX_TITLE {
      var k := Min(Cut(d, url), |d|);
      assert text[k] == '.';
    } else {
      assert text == d + " " + u;
      if AllSpace(text) {
        assert forall i :: 0 <= i < |d| ==> d[i] == text[i];
        assert forall i :: 0 <= i < |u| ==> u[i] == text[|d| + 1 + i];
      }
    }
  }

  // ---------------------------------------------------------------------------
  // What the composer promises

  /** A short title is posted whole, followed by a blank and the link. */
  lemma ShortTitleWithLink(d: string, url: string)
    requires 0 < |d| <= MAX_TITLE && Stripped(d)
    requires url != [] && Stripped(url)
    ensures GeneratePost(Some(d), Some(url)) == Some(d + " " + url)
  {
    var t := d + " " + url;
    assert t[0] == d[0] && t[|t| - 1] == url[|url| - 1];
    StrippedIsFixed(t);
  }

  /** Without a link a short title is posted as it is. */
  lemma ShortTitleWithoutLink(d: string)
    requires 0 < |d| <= MAX_TITLE && Stripped(d)
    ensures GeneratePost(Some(d), None) == Some(d)
  {
    assert d + " " + "" == [] + d + " ";
    StripPadded([], d, " ");
  }

  /** A long title with a link is cut at its last blank within the first 110
      characters (at 110 when there is none), and `... ` and the whole link
      follow. */
  lemma LongTitleWithLink(d: string, url: string)
    requires |d| > MAX_TITLE
    requires url != [] && Stripped(url)
    ensures
      var p := RFind(d[..MAX_TITLE], ' ');
      GeneratePost(Some(d), Some(url)) == Some(StripLeft(d[..if p < 0 then MAX_TITLE else p]) + "... " + url)
  {
    var p := RFind(d[..MAX_TITLE], ' ');
    ComposedLong(d, Some(url));
    LinkTail(d[..if p < 0 then MAX_TITLE else p], url);
    GeneratePostStrips(Some(d), Some(url));
  }

  lemma LinkTail(x: string, url: string)
    requires url != [] && Stripped(url)
    ensures Strip(x + ("... " + url)) == StripLeft(x) + "... " + url
  {
    StripKeepsVisibleParts(x, "... ", url);
  }

  /** The text is the stripped composed text, when that is not empty. */
  lemma GeneratePostStrips(data: Option<string>, url: Option<string>)
    ensures var t := Strip(Composed(data.GetOr(""), url));
      GeneratePost(data, url) == if t == [] then None else Some(t)
  {
  }

  /** How a long title is composed, with the cut written out. */
  lemma ComposedLong(d: string, url: Option<string>)
    requires |d| > MAX_TITLE
    ensures
      var p := RFind(d[..MAX_TITLE], ' ');
      var c := (if p < 0 then MAX_TITLE else p) + (if TruthyStr(url) then 0 else NO_LINK_BONUS);
      Composed(d, url) == d[..Min(c, |d|)] + ("... " + UrlText(url))
  {
  }

  /** Without a link, a long title is cut 25 characters further and ends in `...`. */
  lemma LongTitleWithoutLink(d: string)
    requires |d| > MAX_TITLE
    ensures
      var p := RFind(d[..MAX_TITLE], ' ');
      GeneratePost(Some(d), None)
        == Some(StripLeft(d[..Min((if p < 0 then MAX_TITLE else p) + NO_LINK_BONUS, |d|)]) + "...")
  {
    var p := RFind(d[..MAX_TITLE], ' ');
    var x := d[..Min((if p < 0 then MAX_TITLE else p) + NO_LINK_BONUS, |d|)];
    ComposedLong(d, None);
    assert Composed(d, None) == x + "... ";
    StripDots(x);
    GeneratePostStrips(Some(d), None);
  }

  lemma StripDots(x: string)
    ensures Strip(x + "... ") == StripLeft(x) + "..."
  {
    assert x + "... " == x + "..." + " ";
    StripKeepsVisibleMiddle(x, "...", " ");
  }

  /** An entry without a title is posted as its link alone. */
  lemma NoTitleGivesLink(url: Option<string>)
    ensures GeneratePost(None, url) == if AllSpace(UrlText(url)) then None else Some(Strip(UrlText(url)))
  {
    var u := UrlText(url);
    assert Composed("", url) == " " + u;
    assert StripLeft(" " + u) == StripLeft(u) by {
      assert (" " + u)[1..] == u;
    }
  }

  // ---------------------------------------------------------------------------
  // The composer as written

  /** A title with no blank among its first 110 characters: 200 letters. */
  function LongWord(): (w: string)
    ensures |w| == 200 && forall i :: 0 <= i < |w| ==> w[i] == 'a'
  {
    seq(200, _ => 'a')
  }

  /** As written, `rfind` finds no blank in a 200-letter title, so the title
      is cut at index -1, one character from its end: the text keeps 199
      letters and is 204 long, far over the 115 the corrected composer
      allows for this link. */
  lemma RFindMissLeavesTitleUncut()
    ensures GeneratePostAsWritten(Some(LongWord()), Some("u")).Ok?
    ensures GeneratePostAsWritten(Some(LongWord()), Some("u")).value.Some?
    ensures |GeneratePostAsWritten(Some(LongWord()), Some("u")).value.value| == 204
    ensures |GeneratePost(Some(LongWord()), Some("u")).value| <= 115
  {
    var w := LongWord();
    var p := RFind(w[..MAX_TITLE], ' ');
    assert forall j :: 0 <= j < MAX_TITLE ==> w[..MAX_TITLE][j] != ' ';
    assert p == -1;
    var text := w[..199] + "... " + "u";
    assert GeneratePostAsWritten(Some(w), Some("u")) == Ok(Some(Strip(text))) by {
      assert CutAsWritten(w, Some("u")) == -1;
    }
    assert text[0] == 'a' && text[|text| - 1] == 'u';
    StrippedIsFixed(text);
  }

  /** Without a link, as written, the missed `rfind` moves the cut from -1
      to 24, so a 200-letter title keeps 24 letters and ends in `...`: 27
      characters. The corrected composer cuts at 135 and gives 138. */
  lemma RFindMissWithoutLink()
    ensures GeneratePostAsWritten(Some(LongWord()), None) == Ok(Some(LongWord()[..24] + "..."))
    ensures GeneratePost(Some(LongWord()), None) == Some(LongWord()[..135] + "...")
    ensures |GeneratePost(Some(LongWord()), None).value| == 138
  {
    var w := LongWord();
    assert forall j :: 0 <= j < MAX_TITLE ==> w[..MAX_TITLE][j] != ' ';
    assert RFind(w[..MAX_TITLE], ' ') == -1;
    var short := w[..24] + "...";
    assert GeneratePostAsWritten(Some(w), None) == Ok(Some(Strip(w[..24] + "... " + ""))) by {
      assert CutAsWritten(w, None) == 24;
    }
    assert w[..24] + "... " + "" == [] + short + " ";
    assert short[0] == 'a' && short[|short| - 1] == '.';
    StripPadded([], short, " ");
    assert Cut(w, None) == 135;
    var long := w[..135] + "...";
    assert w[..135] + "... " + UrlText(None) == [] + long + " ";
    assert long[0] == 'a' && long[|long| - 1] == '.';
    StripPadded([], long, " ");
  }

  /** As written, an entry without a title raises instead of being posted. */
  lemma NoTitleRaises(url: Option<string>)
    ensures GeneratePostAsWritten(None, url) == Err(TypeError)
    ensures GeneratePost(None, url) == GeneratePost(Some(""), url)
  {
  }

  /** Wherever the source raises nothing and finds a blank to cut at, the
      corrected composer gives the same text. */
  lemma AgreesWhenBlankFound(d: string, url: Option<string>)
    requires |d| <= MAX_TITLE || RFind(d[..MAX_TITLE], ' ') >= 0
    ensures GeneratePostAsWritten(Some(d), url) == Ok(GeneratePost(Some(d), url))
  {
    if |d| > MAX_TITLE {
      assert SliceEnd(|d|, CutAsWritten(d, url)) == Min(Cut(d, url), |d|);
    }
  }

  // ---------------------------------------------------------------------------
  // The publish buffer

  /** Some buffered item carries the key `k`. */
  ghost predicate Buffered<K(!new)>(posts: seq<(K, string)>, k: K) {
    exists i :: 0 <= i < |posts| && posts[i].0 == k
  }

  lemma BufferedSnoc<K(!new)>(posts: seq<(K, string)>, k: K)
    requires posts != []
    ensures Buffered(posts, k) <==> Buffered(posts[..|posts| - 1], k) || posts[|posts| - 1].0 == k
  {
    var n := |posts| - 1;
    if Buffered(posts, k) {
      var i :| 0 <= i < |posts| && posts[i].0 == k;
      if i < n { assert posts[..n][i].0 == k; }
    }
    if Buffered(posts[..n], k) {
      var i :| 0 <= i < n && posts[..n][i].0 == k;
      assert posts[i].0 == k;
    }
  }

  /** What a flush reports: each buffered key maps to whether its item was
      published, `True` in a dry run and otherwise exactly when the status
      is `"200"`; a key buffered twice reports its later item. */
  function Outcomes<K(==,!new)>(posts: seq<(K, string)>, dryRun: bool, respond: nat -> string): (r: map<K, bool>)
    ensures forall k :: k in r <==> Buffered(posts, k)
  {
    if posts == [] then map[]
    else
      var n := |posts| - 1;
      var prev := Outcomes(posts[..n], dryRun, respond);
      assert forall k :: Buffered(posts, k) <==> Buffered(posts[..n], k) || posts[n].0 == k by {
        forall k
          ensures Buffered(posts, k) <==> Buffered(posts[..n], k) || posts[n].0 == k
        {
          BufferedSnoc(posts, k);
        }
      }
      prev[posts[n].0 := dryRun || respond(n) == "200"]
  }

  /** The texts sent, in buffer order. */
  function Texts<K>(posts: seq<(K, string)>): (r: seq<string>)
    ensures |r| == |posts| && forall i :: 0 <= i < |posts| ==> r[i] == posts[i].1
  {
    if posts == [] then [] else Texts(posts[..|posts| - 1]) + [posts[|posts| - 1].1]
  }

  /** The outcome of a key is decided by its last buffered item alone: a
      failure of any other item changes nothing for it. */
  lemma {:induction false} OutcomeOfLastItem<K(!new)>(posts: seq<(K, string)>, dryRun: bool, respond: nat -> string, i: nat)
    requires i < |posts|
    requires forall j :: i < j < |posts| ==> posts[j].0 != posts[i].0
    ensures Outcomes(posts, dryRun, respond)[posts[i].0] == (dryRun || respond(i) == "200")
    decreases |posts|
  {
    var n := |posts| - 1;
    if i < n {
      var prev := posts[..n];
      assert forall j :: i < j < |prev| ==> prev[j].0 != prev[i].0 by {
        forall j | i < j < |prev|
          ensures prev[j].0 != prev[i].0
        {
          assert prev[j] == posts[j] && prev[i] == posts[i];
        }
      }
      OutcomeOfLastItem(prev, dryRun, respond, i);
      assert prev[i] == posts[i];
    }
  }

  /** In a dry run every buffered key reports success. */
  lemma {:induction false} DryRunAllPublished<K(!new)>(posts: seq<(K, string)>, respond: nat -> string)
    ensures forall k :: k in Outcomes(posts, true, respond) ==> Outcomes(posts, true, respond)[k]
    decreases |posts|
  {
    if posts != [] {
      DryRunAllPublished(posts[..|posts| - 1], respond);
    }
  }

  /** `TwitterPost`: the dry-run flag and the buffer of `(key, text)` items
      waiting for the next flush. The credentials only feed the request and
      are not part of this model. */
  class Publisher<K(==,!new)> {
    const dryRun: bool
    var posts: seq<(K, string)>

    constructor (dryRun: bool)
      ensures this.dryRun == dryRun && posts == []
    {
      this.dryRun := dryRun;
      posts := [];
    }

    /** `prepare`: composes the text; when there is none nothing is buffered
        and the answer is `False`, otherwise the item goes to the end of the
        buffer and the answer is `True`. */
    method Prepare(postId: K, title: Option<string>, url: Option<string>) returns (ok: bool)
      modifies this
      ensures ok <==> GeneratePost(title, url).Some?
      ensures !ok ==> posts == old(posts)
      ensures ok ==> posts == old(posts) + [(postId, GeneratePost(title, url).value)]
    {
      var text := GeneratePost(title, url);
      if text.None? {
        return false;
      }
      posts := posts + [(postId, text.value)];
      return true;
    }

    /** `post`: every buffered item is attempted in order, whatever happened
        to the ones before; outside a dry run each text is sent; the buffer
        is empty afterwards. */
    method Post(respond: nat -> string) returns (results: map<K, bool>, sent: seq<string>)
      modifies this
      ensures results == Outcomes(old(posts), dryRun, respond)
      ensures sent == if dryRun then [] else Texts(old(posts))
      ensures posts == []
    {
      results, sent := map[], [];
      var i := 0;
      while i < |posts|
        invariant 0 <= i <= |posts|
        invariant results == Outcomes(posts[..i], dryRun, respond)
        invariant sent == if dryRun then [] else Texts(posts[..i])
      {
        var result := true;
        if !dryRun {
          sent := sent + [posts[i].1];
          if "200" != respond(i) {
            result := false;
          }
        }
        assert posts[..i + 1][..i] == posts[..i];
        results := results[posts[i].0 := result];
        i := i + 1;
      }
      assert posts[..i] == posts;
      posts := [];
    }
  }

  /** A flush of a single item reports that item alone. */
  lemma SingleItemOutcome<K(!new)>(k: K, text: string, dryRun: bool, respond: nat -> string)
    ensures Outcomes([(k, text)], dryRun, respond) == map[k := dryRun || respond(0) == "200"]
  {
    assert [(k, text)][..0] == [];
  }

  /** test/test_twitter_post.py's `test_cache_does_not_persist_between_posts`:
      a second flush reports only what was prepared after the first. */
  method SecondFlushReportsOnlyNewItems(t1: string, t2: string, respond: nat -> string)
    returns (first: map<string, bool>, second: map<string, bool>)
    requires !AllSpace(t1) && !AllSpace(t2)
    ensures first == map["1" := respond(0) == "200"]
    ensures second == map["2" := respond(0) == "200"]
  {
    var tp := new Publisher<string>(false);
    var ok := tp.Prepare("1", Some(t1), None);
    SingleItemOutcome("1", GeneratePost(Some(t1), None).value, false, respond);
    var sent;
    first, sent := tp.Post(respond);
    ok := tp.Prepare("2", Some(t2), None);
    SingleItemOutcome("2", GeneratePost(Some(t2), None).value, false, respond);
    second, sent := tp.Post(respond);
  }
}
