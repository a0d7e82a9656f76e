/** The `random_post` handler of the bot: classify the command, recall the
    user's last path for a follow-up, fetch up to PAGES listing pages, remember
    the path, drop the first post and reply with a randomly chosen one. */
module Randditbot {
  import opened Strings

  datatype Option<T> = None | Some(value: T)

  const BASE_URL: string := "http://www.reddit.com"
  /** The number of listing pages one request fetches at most. */
  const PAGES: nat := 4
  /** reddit's default listing page size (the URL's `count=25` is the number
      of items already seen, not a page size). */
  const PAGE_SIZE: nat := 25
  const QUERY: string := ".json?count=25&after="
  /** A token containing this is a follow-up request. */
  const MORE: string := "/more"
  const NO_PRIOR_REQUEST: string := "Failed to send more posts, please make a new request."
  const FETCH_FAILED: string := "Failed to send link, make sure the subreddit you requested exist!"

  /** One listing item, as extracted from a child's `data` object. */
  datatype Post = Post(title: string, url: string)

  /** The outcome of one page request: a `RequestException` or `KeyError`,
      which the handler catches; any other exception while reading the body
      (a `TypeError` when the JSON is not an object, say), which escapes the
      handler; or the page's children with its `after` cursor (`None` when
      JSON `null`). */
  datatype Page = Failed | Crashed | Listing(children: seq<Post>, after: Option<string>)

  /** How a sequence of page requests ended: with the aggregated posts, with
      a caught exception, or with an exception that escapes the handler. */
  datatype Outcome = Collected(posts: seq<Post>) | Caught | Raised

  /** What a sequence of page requests produced, and the URLs requested, in
      order. */
  datatype Fetched = Fetched(outcome: Outcome, urls: seq<string>)

  /** The URL prefix of every page request for `path`; the cursor is appended.
      The path sits between the fixed base and the fixed query. */
  function PageUrl(path: string): (r: string)
    ensures |r| == |BASE_URL| + |path| + |QUERY|
    ensures r[..|BASE_URL|] == BASE_URL && r[|r| - |QUERY|..] == QUERY
    ensures r[|BASE_URL|..|r| - |QUERY|] == path
  {
    BASE_URL + path + QUERY
  }

  /** A page after which another page is requested. */
  predicate Continues(p: Page)
  {
    p.Listing? && p.after.Some?
  }

  /** The children of all pages in `pages`, in order. */
  function Flatten(pages: seq<Page>): seq<Post>
  {
    if pages == [] then []
    else (if pages[0].Listing? then pages[0].children else []) + Flatten(pages[1..])
  }

  /** Request the pages answered by `responses`, the first with `cursor`, each
      later one with the cursor the previous page returned, stopping after a
      page that failed or crashed, after a `None` cursor, or when `responses`
      is used up. */
  function Crawl(url: string, responses: seq<Page>, cursor: string): (r: Fetched)
    ensures |r.urls| <= |responses|
    ensures responses != [] ==> |r.urls| >= 1 && r.urls[0] == url + cursor
    decreases |responses|
  {
    if responses == [] then Fetched(Collected([]), [])
    else
      var here := url + cursor;
      match responses[0]
      case Failed => Fetched(Caught, [here])
      case Crashed => Fetched(Raised, [here])
      case Listing(children, None) => Fetched(Collected(children), [here])
      case Listing(children, Some(next)) => Prepend(children, [here], Crawl(url, responses[1..], next))
  }

  /** `f` preceded by the posts `posts` and the requests `urls`. */
  function Prepend(posts: seq<Post>, urls: seq<string>, f: Fetched): Fetched
  {
    Fetched(if f.outcome.Collected? then Collected(posts + f.outcome.posts) else f.outcome, urls + f.urls)
  }

  lemma PrependNothing(f: Fetched)
    ensures Prepend([], [], f) == f
  {
  }

  lemma PrependTwice(posts: seq<Post>, urls: seq<string>, more: seq<Post>, moreUrls: seq<string>, f: Fetched)
    ensures Prepend(posts, urls, Prepend(more, moreUrls, f)) == Prepend(posts + more, urls + moreUrls, f)
  {
    assert urls + (moreUrls + f.urls) == (urls + moreUrls) + f.urls;
    if f.outcome.Collected? {
      assert posts + (more + f.outcome.posts) == (posts + more) + f.outcome.posts;
    }
  }

  /** The pagination loop of the handler: each response answers the request
      of the same index, so `responses` holds one answer per possible page. */
  method FetchListing(path: string, responses: seq<Page>) returns (outcome: Outcome, urls: seq<string>)
    requires |responses| == PAGES
    ensures Fetched(outcome, urls) == Crawl(PageUrl(path), responses, "")
  {
    var url := PageUrl(path);
    var collected: seq<Post> := [];
    var after := "";
    urls := [];
    PrependNothing(Crawl(url, responses, ""));
    for i := 0 to PAGES
      invariant Crawl(url, responses, "") == Prepend(collected, urls, Crawl(url, responses[i..], after))
    {
      assert responses[i..][1..] == responses[i + 1..];
      ghost var before, requested := collected, urls;
      urls := urls + [url + after];
      match responses[i]
      case Failed =>
        return Caught, urls;
      case Crashed =>
        return Raised, urls;
      case Listing(children, next) =>
        collected := collected + children;
        if next.None? {
          assert Crawl(url, responses[i..], after) == Fetched(Collected(children), [url + after]);
          break;
        }
        PrependTwice(before, requested, children, [url + after], Crawl(url, responses[i + 1..], next.value));
        after := next.value;
    }
    assert collected + [] == collected && urls + [] == urls;
    outcome := Collected(collected);
  }

  /** The reply for a chosen post: its title and its URL on two lines. */
  function Format(p: Post): (r: string)
    ensures |r| == |p.title| + 1 + |p.url|
    ensures r[..|p.title|] == p.title && r[|p.title|] == '\n' && r[|p.title| + 1..] == p.url
  {
    p.title + "\n" + p.url
  }

  /** Reads a post back from a reply: the title is the text before the first
      line break. */
  function ParseReply(text: string): Post
  {
    var title := FieldBefore(text, '\n');
    Post(title, if |title| < |text| then text[|title| + 1..] else [])
  }

  /** `posts[1:]`: the list without its first element, empty when it has none. */
  function DropFirst(posts: seq<Post>): (r: seq<Post>)
    ensures |r| == if posts == [] then 0 else |posts| - 1
    ensures forall i :: 0 <= i < |r| ==> r[i] == posts[i + 1]
  {
    if posts == [] then [] else posts[1..]
  }

  /** A draw of `random.choice`'s index source: below `n` for every `n > 0`. */
  ghost predicate IsDraw(randbelow: nat -> nat)
  {
    forall n: nat :: 0 < n ==> randbelow(n) < n
  }

  /** A token is a follow-up request when `/more` occurs anywhere in it
      (`token.find("/more") >= 0`). */
  predicate IsFollowUp(token: string): (b: bool)
    ensures b <==> exists i :: OccursAt(token, MORE, i)
  {
    Find(token, MORE) >= 0
  }

  /** The path a message asks for: its first token, or for a follow-up the
      user's remembered path; `None` for a follow-up with nothing remembered. */
  function RequestPath(memory: map<int, string>, user: int, text: string): (r: Option<string>)
    ensures r.None? ==> user !in memory
    ensures r.Some? ==> (r.value <= text && ' ' !in r.value) || (user in memory && r.value == memory[user])
  {
    var token := FirstToken(text);
    if IsFollowUp(token) then
      if user in memory then Some(memory[user]) else None
    else Some(token)
  }

  /** What one call of the handler does: the message sent (`None` when an
      exception escapes the handler and nothing is sent), the pages requested
      and the new per-user memory. */
  datatype Step = Step(reply: Option<string>, urls: seq<string>, memory: map<int, string>)

  /** The handler as a function of its inputs and the old memory. */
  function Handle(memory: map<int, string>, user: int, text: string, responses: seq<Page>,
                  randbelow: nat -> nat): (r: Step)
    requires |responses| == PAGES && IsDraw(randbelow)
    ensures |r.urls| <= PAGES
    ensures r.urls == [] <==> RequestPath(memory, user, text).None?
    ensures r.memory == memory || (RequestPath(memory, user, text).Some? && r.memory == memory[user := RequestPath(memory, user, text).value])
  {
    match RequestPath(memory, user, text)
    case None => Step(Some(NO_PRIOR_REQUEST), [], memory)
    case Some(path) =>
      var f := Crawl(PageUrl(path), responses, "");
      match f.outcome
      case Caught => Step(Some(FETCH_FAILED), f.urls, memory)
      case Raised => Step(None, f.urls, memory)
      case Collected(posts) =>
        var remaining := DropFirst(posts);
        var reply := if remaining == [] then None else Some(Format(remaining[randbelow(|remaining|)]));
        Step(reply, f.urls, memory[user := path])
  }

  /** The bot's process-wide state: the last path each user requested. */
  class Bot {
    var lastRequest: map<int, string>

    constructor ()
      ensures lastRequest == map[]
    {
      lastRequest := map[];
    }

    /** Handle one message from `user`; `responses` answers the page requests
        in order and `randbelow` is the random source of `random.choice`. */
    method RandomPost(user: int, text: string, responses: seq<Page>, randbelow: nat -> nat)
      returns (reply: Option<string>, urls: seq<string>)
      requires |responses| == PAGES && IsDraw(randbelow)
      modifies this
      ensures Step(reply, urls, lastRequest) == Handle(old(lastRequest), user, text, responses, randbelow)
      ensures lastRequest.Keys <= old(lastRequest).Keys + {user}
      ensures forall u :: u in old(lastRequest) && u != user ==> u in lastRequest && lastRequest[u] == old(lastRequest)[u]
    {
      var request := FirstToken(text);
      if IsFollowUp(request) {
        if user !in lastRequest {
          return Some(NO_PRIOR_REQUEST), [];
        }
        request := lastRequest[user];
      }
      var outcome;
      outcome, urls := FetchListing(request, responses);
      if outcome.Caught? {
        return Some(FETCH_FAILED), urls;
      }
      if outcome.Raised? {
        // the exception escapes the handler before the memory is written
        return None, urls;
      }
      lastRequest := lastRequest[user := request];
      var remaining := DropFirst(outcome.posts);
      if remaining == [] {
        // random.choice raises IndexError: the memory is already updated
        return None, urls;
      }
      var chosen := remaining[randbelow(|remaining|)];
      reply := Some(Format(chosen));
    }
  }
}
