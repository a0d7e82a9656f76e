/** What the handler promises, proved about its specification functions. */
module RandditbotProperties {
  import opened Strings
  import opened Randditbot

  // ---------------------------------------------------------------------
  // Command classification

  /** A message whose first token merely contains `/more` is a follow-up. */
  lemma MoreMusicIsFollowUp()
    ensures FirstToken("/r/moremusic please") == "/r/moremusic"
    ensures IsFollowUp(FirstToken("/r/moremusic please"))
  {
    var text := "/r/moremusic please";
    assert text[12] == ' ' && ' ' !in text[..12];
    assert OccursAt("/r/moremusic", MORE, 2);
  }

  /** A plain subreddit path is a fresh request. */
  lemma SubredditIsFresh()
    ensures !IsFollowUp("/r/pics")
  {
    assert "/r/pics"[0..5] == "/r/pi" && "/r/pics"[1..6] == "r/pic" && "/r/pics"[2..7] == "/pics";
  }

  // ---------------------------------------------------------------------
  // Pagination

  /** The requests made: at least one and at most one per response; the
      first carries `cursor`, each later one the cursor of the page before,
      which therefore continued; and fewer than all only when the last page
      requested did not continue. */
  lemma {:induction false} CrawlRequests(url: string, responses: seq<Page>, cursor: string)
    requires |responses| > 0
    ensures var f := Crawl(url, responses, cursor);
      && 1 <= |f.urls| <= |responses|
      && f.urls[0] == url + cursor
      && (forall k :: 0 <= k < |f.urls| - 1 ==> Continues(responses[k]) && f.urls[k + 1] == url + responses[k].after.value)
      && (|f.urls| < |responses| ==> !Continues(responses[|f.urls| - 1]))
    decreases |responses|
  {
    match responses[0]
    case Failed =>
    case Crashed =>
    case Listing(children, None) =>
    case Listing(children, Some(next)) =>
      var rest := responses[1..];
      if rest != [] {
        CrawlRequests(url, rest, next);
        var f, g := Crawl(url, responses, cursor), Crawl(url, rest, next);
        assert f.urls == [url + cursor] + g.urls;
        forall k | 0 <= k < |f.urls| - 1
          ensures Continues(responses[k]) && f.urls[k + 1] == url + responses[k].after.value
        {
          if k > 0 {
            assert f.urls[k + 1] == g.urls[k] && responses[k] == rest[k - 1];
          }
        }
      }
  }

  /** All or nothing: the fetch ends with a caught exception exactly when the
      last page requested failed, with an escaping one exactly when it
      crashed, and collects posts otherwise; every earlier page was a
      listing. */
  lemma {:induction false} CrawlAllOrNothing(url: string, responses: seq<Page>, cursor: string)
    requires |responses| > 0
    ensures var f := Crawl(url, responses, cursor);
      && 1 <= |f.urls| <= |responses|
      && (f.outcome.Caught? <==> responses[|f.urls| - 1].Failed?)
      && (f.outcome.Raised? <==> responses[|f.urls| - 1].Crashed?)
    decreases |responses|
  {
    CrawlRequests(url, responses, cursor);
    match responses[0]
    case Failed =>
    case Crashed =>
    case Listing(children, None) =>
    case Listing(children, Some(next)) =>
      if |responses| > 1 {
        CrawlAllOrNothing(url, responses[1..], next);
      }
  }

  /** On success the posts are the children of every page requested, in
      order. */
  lemma {:induction false} CrawlConcatenates(url: string, responses: seq<Page>, cursor: string)
    ensures var f := Crawl(url, responses, cursor);
      |f.urls| <= |responses| && (f.outcome.Collected? ==> f.outcome.posts == Flatten(responses[..|f.urls|]))
    decreases |responses|
  {
    if responses != [] {
      match responses[0]
      case Failed =>
      case Crashed =>
      case Listing(children, None) =>
        assert responses[..1] == [responses[0]];
        assert Flatten(responses[..1][1..]) == [];
      case Listing(children, Some(next)) =>
        var rest := responses[1..];
        CrawlConcatenates(url, rest, next);
        var f, g := Crawl(url, responses, cursor), Crawl(url, rest, next);
        assert responses[..|f.urls|][1..] == rest[..|g.urls|];
    }
  }

  /** Responses after the last page requested are never consulted. */
  lemma {:induction false} CrawlIgnoresUnrequested(url: string, responses: seq<Page>, others: seq<Page>, cursor: string)
    requires |others| == |responses|
    requires var n := |Crawl(url, responses, cursor).urls|;
      n <= |responses| && others[..n] == responses[..n]
    ensures Crawl(url, others, cursor) == Crawl(url, responses, cursor)
    decreases |responses|
  {
    if responses != [] {
      assert others[0] == others[..1][0] == responses[..1][0] == responses[0];
      match responses[0]
      case Failed =>
      case Crashed =>
      case Listing(children, None) =>
      case Listing(children, Some(next)) =>
        var n := |Crawl(url, responses[1..], next).urls|;
        CrawlConcatenates(url, responses[1..], next);
        assert others[1..][..n] == others[..n + 1][1..];
        assert responses[1..][..n] == responses[..n + 1][1..];
        CrawlIgnoresUnrequested(url, responses[1..], others[1..], next);
    }
  }

  /** When upstream returns pages of at most reddit's default size of 25, a
      fetch yields at most 25 posts per page requested, so at most 100. */
  lemma {:induction false} CrawlPostCount(url: string, responses: seq<Page>, cursor: string)
    requires forall k :: 0 <= k < |responses| && responses[k].Listing? ==> |responses[k].children| <= PAGE_SIZE
    ensures var f := Crawl(url, responses, cursor);
      f.outcome.Collected? ==> |f.outcome.posts| <= PAGE_SIZE * |f.urls|
    decreases |responses|
  {
    if responses != [] {
      match responses[0]
      case Failed =>
      case Crashed =>
      case Listing(children, None) =>
      case Listing(children, Some(next)) =>
        var rest := responses[1..];
        assert forall k :: 0 <= k < |rest| && rest[k].Listing? ==> |rest[k].children| <= PAGE_SIZE by {
          forall k | 0 <= k < |rest| && rest[k].Listing? ensures |rest[k].children| <= PAGE_SIZE {
            assert rest[k] == responses[k + 1];
          }
        }
        CrawlPostCount(url, rest, next);
    }
  }

  /** A fetch for `path` makes at most PAGES requests, the first for the
      path's URL with an empty cursor, and stops at the first page whose
      cursor is `None` or that failed. */
  lemma FetchStopsAt(path: string, responses: seq<Page>, k: nat)
    requires |responses| == PAGES && k < PAGES
    requires forall j :: 0 <= j < k ==> Continues(responses[j])
    requires !Continues(responses[k])
    ensures var f := Crawl(PageUrl(path), responses, "");
      && |f.urls| == k + 1
      && f.urls[0] == PageUrl(path)
      && (f.outcome.Caught? <==> responses[k].Failed?)
      && (f.outcome.Raised? <==> responses[k].Crashed?)
  {
    CrawlRequests(PageUrl(path), responses, "");
    CrawlAllOrNothing(PageUrl(path), responses, "");
  }

  /** When every page continues, exactly PAGES pages are requested and the
      fetch succeeds. */
  lemma FetchAllPages(path: string, responses: seq<Page>)
    requires |responses| == PAGES
    requires forall j :: 0 <= j < PAGES ==> Continues(responses[j])
    ensures var f := Crawl(PageUrl(path), responses, "");
      |f.urls| == PAGES && f.outcome.Collected?
  {
    var f := Crawl(PageUrl(path), responses, "");
    CrawlRequests(PageUrl(path), responses, "");
    CrawlAllOrNothing(PageUrl(path), responses, "");
    assert Continues(responses[|f.urls| - 1]);
  }

  // ---------------------------------------------------------------------
  // Reply formatting

  /** The title before the line break and the URL after it can be read back
      from a reply, as long as the title holds no line break. */
  lemma FormatRoundTrip(p: Post)
    requires '\n' !in p.title
    ensures ParseReply(Format(p)) == p
  {
    var text := Format(p);
    var title := FieldBefore(text, '\n');
    assert text[|p.title|] == '\n';
    assert title == text[..|title|] == p.title;
    assert text[|title| + 1..] == p.url;
  }

  // ---------------------------------------------------------------------
  // The handler

  /** A follow-up from a user with nothing remembered gets the fixed reply,
      requests no page and leaves the memory as it was. */
  lemma HandleNoPriorRequest(memory: map<int, string>, user: int, text: string, responses: seq<Page>, randbelow: nat -> nat)
    requires |responses| == PAGES && IsDraw(randbelow)
    requires IsFollowUp(FirstToken(text)) && user !in memory
    ensures Handle(memory, user, text, responses, randbelow) == Step(Some(NO_PRIOR_REQUEST), [], memory)
  {
  }

  /** A fresh request (no `/more` in the first token) asks for the whole
      first token, whatever the memory holds: its first request is that
      path's page URL, and a successful fetch remembers exactly that token. */
  lemma HandleFreshRequest(memory: map<int, string>, user: int, text: string, responses: seq<Page>, randbelow: nat -> nat)
    requires |responses| == PAGES && IsDraw(randbelow)
    requires forall i :: !OccursAt(FirstToken(text), MORE, i)
    ensures RequestPath(memory, user, text) == Some(FirstToken(text))
    ensures Handle(memory, user, text, responses, randbelow).urls[0] == PageUrl(FirstToken(text))
    ensures Crawl(PageUrl(FirstToken(text)), responses, "").outcome.Collected? ==>
      Handle(memory, user, text, responses, randbelow).memory == memory[user := FirstToken(text)]
  {
  }

  /** A failure on page `k` after `k` pages that continued: the fixed reply,
      no request after page `k`, and the memory as it was. */
  lemma HandleFailureAt(memory: map<int, string>, user: int, text: string, responses: seq<Page>, randbelow: nat -> nat, k: nat)
    requires |responses| == PAGES && IsDraw(randbelow)
    requires RequestPath(memory, user, text).Some?
    requires k < PAGES && responses[k].Failed?
    requires forall j :: 0 <= j < k ==> Continues(responses[j])
    ensures var s := Handle(memory, user, text, responses, randbelow);
      s.reply == Some(FETCH_FAILED) && |s.urls| == k + 1 && s.memory == memory
  {
    FetchStopsAt(RequestPath(memory, user, text).value, responses, k);
  }

  /** An exception other than the two caught ones on page `k`, after `k`
      pages that continued: it escapes the handler, so nothing is sent, no
      request follows page `k` and the memory is as it was. */
  lemma HandleCrashAt(memory: map<int, string>, user: int, text: string, responses: seq<Page>, randbelow: nat -> nat, k: nat)
    requires |responses| == PAGES && IsDraw(randbelow)
    requires RequestPath(memory, user, text).Some?
    requires k < PAGES && responses[k].Crashed?
    requires forall j :: 0 <= j < k ==> Continues(responses[j])
    ensures var s := Handle(memory, user, text, responses, randbelow);
      s.reply.None? && |s.urls| == k + 1 && s.memory == memory
  {
    FetchStopsAt(RequestPath(memory, user, text).value, responses, k);
  }

  /** A successful fetch remembers the path for the user, before and
      whatever the selection does. */
  lemma HandleRemembers(memory: map<int, string>, user: int, text: string, responses: seq<Page>, randbelow: nat -> nat)
    requires |responses| == PAGES && IsDraw(randbelow)
    requires RequestPath(memory, user, text).Some?
    requires Crawl(PageUrl(RequestPath(memory, user, text).value), responses, "").outcome.Collected?
    ensures Handle(memory, user, text, responses, randbelow).memory == memory[user := RequestPath(memory, user, text).value]
  {
  }

  /** Only the sender's entry can change. */
  lemma HandleOtherUsersUntouched(memory: map<int, string>, user: int, text: string, responses: seq<Page>, randbelow: nat -> nat)
    requires |responses| == PAGES && IsDraw(randbelow)
    ensures var m := Handle(memory, user, text, responses, randbelow).memory;
      && m.Keys <= memory.Keys + {user}
      && forall u :: u in memory && u != user ==> u in m && m[u] == memory[u]
  {
  }

  /** A follow-up rewrites the remembered path with itself: the memory is
      unchanged whatever happens. */
  lemma HandleFollowUpKeepsMemory(memory: map<int, string>, user: int, text: string, responses: seq<Page>, randbelow: nat -> nat)
    requires |responses| == PAGES && IsDraw(randbelow)
    requires IsFollowUp(FirstToken(text))
    ensures Handle(memory, user, text, responses, randbelow).memory == memory
  {
    if user in memory {
      assert memory[user := memory[user]] == memory;
    }
  }

  /** Selection: with at most one post nothing is sent (random.choice raises
      on the empty remainder, after the memory was updated); otherwise the
      reply formats a post other than the first. */
  lemma HandleSelects(memory: map<int, string>, user: int, text: string, responses: seq<Page>, randbelow: nat -> nat)
    requires |responses| == PAGES && IsDraw(randbelow)
    requires RequestPath(memory, user, text).Some?
    requires Crawl(PageUrl(RequestPath(memory, user, text).value), responses, "").outcome.Collected?
    ensures var posts := Crawl(PageUrl(RequestPath(memory, user, text).value), responses, "").outcome.posts;
      var s := Handle(memory, user, text, responses, randbelow);
      && (s.reply.None? <==> |posts| <= 1)
      && (s.reply.Some? ==> exists i :: 1 <= i < |posts| && s.reply.value == Format(posts[i]))
  {
    var posts := Crawl(PageUrl(RequestPath(memory, user, text).value), responses, "").outcome.posts;
    if |posts| > 1 {
      var i := 1 + randbelow(|posts| - 1);
      assert DropFirst(posts)[i - 1] == posts[i];
    }
  }

  /** After a successful request, a follow-up from the same user asks for the
      same path again. */
  lemma MemoryRoundTrip(memory: map<int, string>, user: int, text: string, responses: seq<Page>, randbelow: nat -> nat,
                        more: string, again: seq<Page>)
    requires |responses| == PAGES && |again| == PAGES && IsDraw(randbelow)
    requires RequestPath(memory, user, text).Some?
    requires Crawl(PageUrl(RequestPath(memory, user, text).value), responses, "").outcome.Collected?
    requires IsFollowUp(FirstToken(more))
    ensures var next := Handle(memory, user, text, responses, randbelow).memory;
      && RequestPath(next, user, more) == RequestPath(memory, user, text)
      && Handle(next, user, more, again, randbelow).urls[0] == PageUrl(RequestPath(memory, user, text).value)
  {
    CrawlRequests(PageUrl(RequestPath(memory, user, text).value), again, "");
  }

  /** The path one call of the handler stores for its sender, if any. */
  function Stored(memory: map<int, string>, user: int, text: string, responses: seq<Page>): Option<string>
  {
    var path := RequestPath(memory, user, text);
    if path.Some? && Crawl(PageUrl(path.value), responses, "").outcome.Collected? then path else None
  }

  /** The new memory is the old one with at most the stored path written. */
  lemma HandleStores(memory: map<int, string>, user: int, text: string, responses: seq<Page>, randbelow: nat -> nat)
    requires |responses| == PAGES && IsDraw(randbelow)
    ensures var stored := Stored(memory, user, text, responses);
      Handle(memory, user, text, responses, randbelow).memory
        == if stored.Some? then memory[user := stored.value] else memory
  {
  }

  /** The handler sees the memory only through the path it resolves. */
  lemma HandleSeesOnlyPath(memory: map<int, string>, other: map<int, string>, user: int, text: string,
                           responses: seq<Page>, randbelow: nat -> nat)
    requires |responses| == PAGES && IsDraw(randbelow)
    requires RequestPath(other, user, text) == RequestPath(memory, user, text)
    ensures Handle(other, user, text, responses, randbelow).reply == Handle(memory, user, text, responses, randbelow).reply
    ensures Handle(other, user, text, responses, randbelow).urls == Handle(memory, user, text, responses, randbelow).urls
    ensures Stored(other, user, text, responses) == Stored(memory, user, text, responses)
  {
  }

  /** Requests of two different users do not interfere, for the same random
      draw: the second sees the same outcome as if the first had not happened,
      and the memory ends the same in either order. The draw is a parameter of
      each call, so the advance of the one shared generator by the first call
      is not modelled. */
  lemma DistinctUsersIndependent(memory: map<int, string>, randbelow: nat -> nat,
                                 u: int, textU: string, responsesU: seq<Page>,
                                 v: int, textV: string, responsesV: seq<Page>)
    requires |responsesU| == PAGES && |responsesV| == PAGES && IsDraw(randbelow)
    requires u != v
    ensures var afterU := Handle(memory, u, textU, responsesU, randbelow).memory;
      var afterV := Handle(memory, v, textV, responsesV, randbelow).memory;
      && Handle(afterU, v, textV, responsesV, randbelow).reply == Handle(memory, v, textV, responsesV, randbelow).reply
      && Handle(afterU, v, textV, responsesV, randbelow).urls == Handle(memory, v, textV, responsesV, randbelow).urls
      && Handle(afterU, v, textV, responsesV, randbelow).memory == Handle(afterV, u, textU, responsesU, randbelow).memory
  {
    var afterU := Handle(memory, u, textU, responsesU, randbelow).memory;
    var afterV := Handle(memory, v, textV, responsesV, randbelow).memory;
    var su, sv := Stored(memory, u, textU, responsesU), Stored(memory, v, textV, responsesV);
    HandleStores(memory, u, textU, responsesU, randbelow);
    HandleStores(memory, v, textV, responsesV, randbelow);
    assert RequestPath(afterU, v, textV) == RequestPath(memory, v, textV);
    assert RequestPath(afterV, u, textU) == RequestPath(memory, u, textU);
    HandleSeesOnlyPath(memory, afterU, v, textV, responsesV, randbelow);
    HandleSeesOnlyPath(memory, afterV, u, textU, responsesU, randbelow);
    HandleStores(afterU, v, textV, responsesV, randbelow);
    HandleStores(afterV, u, textU, responsesU, randbelow);
    if su.Some? && sv.Some? {
      assert memory[u := su.value][v := sv.value] == memory[v := sv.value][u := su.value];
    }
  }
}
