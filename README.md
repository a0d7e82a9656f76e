# randditbot: the `random_post` handler in Dafny

randditbot is a Telegram bot that answers a subreddit path such as `/r/pics`
with a random link from that subreddit, and answers `/more` with another link
from the subreddit the same user asked for last. This project models the one
handler that does the work, `random_post`:

- **Classification.** The request is the first space-delimited token of the
  message (`text.split(" ")[0]`, `Strings.FirstToken`). The token is a
  follow-up when `/more` occurs anywhere in it (`token.find("/more") >= 0`,
  `Strings.Find`, `Randditbot.IsFollowUp`). So `/r/moremusic` is a follow-up
  too. A follow-up takes its path from the per-user memory. When the user has
  nothing remembered, the handler replies with a fixed text.
- **Pagination.** At most `PAGES = 4` pages are requested. Each URL is
  `http://www.reddit.com` + path + `.json?count=25&after=` + cursor. The first
  cursor is empty, and each later one is the `after` value of the page before.
  Requesting stops after the first page whose `after` is `None`.
  `Randditbot.Crawl` is the specification and `Randditbot.FetchListing` is the
  loop. Each page is a `Randditbot.Page`: `Failed`, `Crashed`, or its
  children and its optional cursor. A `RequestException` or `KeyError` on any
  page is `Failed`. It aborts the whole fetch with a fixed reply and leaves the
  memory unchanged. Any other exception while reading a page is `Crashed`. One
  example is a `TypeError` when the JSON body is an array, as reddit returns
  for a `/r/<sub>/comments/<id>` path. Such an exception escapes the handler:
  no reply is sent, no later page is requested and the memory is unchanged.
- **Memory and selection.** After a successful fetch the user's entry in
  `last_request` is overwritten with the path (`Randditbot.Bot.lastRequest`,
  a `map<int, string>`). Then the first post is dropped and one of the rest
  is chosen. The reply is `title + "\n" + url`.
- **The latent defect.** The memory is written before the selection. If the
  fetch yields one post or none, `random.choice` gets an empty list and raises
  `IndexError`, so no message is sent, yet the path is already remembered. The
  model keeps this behaviour: the reply is `None` and the memory is updated
  (`RandditbotProperties.HandleSelects`, `RandditbotProperties.HandleRemembers`).

Environment abstractions:
- Upstream's answers are a sequence `responses` with one entry per possible
  request. The k-th request gets the k-th answer. The URLs actually
  requested are returned as a log, so their number and their cursors can be
  stated.
- `random.choice(seq)` is modelled the way CPython computes it,
  `seq[randbelow(len(seq))]`. `randbelow` is a parameter that returns a value
  below `n` for every `n > 0` (`Randditbot.IsDraw`).
- The single outbound message is the returned `reply`. It is `None` when
  nothing is sent. The reply's recipient, the message's `chat_id`, is not
  represented: the reply is returned without one.

`Randditbot.Handle` is the whole handler as a function of the old memory and
the inputs. `Randditbot.Bot.RandomPost` is the imperative handler on the
bot's state and is proved equal to it. The properties in module
`RandditbotProperties` are proved about `Handle` and `Crawl`.

Three details follow the code exactly, although a cleaner bot would behave otherwise:
- The fetch error text is "Failed to send link, make sure the subreddit you
  requested exist!".
- Only a `None` cursor stops pagination. An empty-string cursor requests one
  more page.
- A listing too short to choose from crashes the handler and is not reported
  to the user.

## Model

| member | source | states |
|---|---|---|
| `Strings.FirstToken` | src/randditbot.py:44 | the request is a prefix of the text with no space in it, ending at the end of the text or at a space |
| `Strings.Find` | src/randditbot.py:46 | `find` returns the lowest index where the pattern occurs, or -1 exactly when it occurs nowhere |
| `Randditbot.IsFollowUp` | src/randditbot.py:46 | a token is a follow-up if and only if `/more` occurs somewhere in it |
| `RandditbotProperties.MoreMusicIsFollowUp` | src/randditbot.py:44-46 | the message `/r/moremusic please` has the token `/r/moremusic`, and that token counts as a follow-up |
| `RandditbotProperties.SubredditIsFresh` | src/randditbot.py:46 | `/r/pics` is not a follow-up |
| `Randditbot.PageUrl` | src/randditbot.py:54 | the page URL is the fixed base, then the path, then the fixed query, so the path can be read back from it; `FetchStopsAt` shows the first request uses it with an empty cursor |
| `Randditbot.Crawl` | src/randditbot.py:59-69 | the specification of the pagination loop; its own contract says it makes no more requests than there are answers, and at least one, the first with the initial cursor; `CrawlRequests`, `CrawlAllOrNothing`, `CrawlConcatenates` and `CrawlIgnoresUnrequested` prove the rest |
| `Randditbot.FetchListing` | src/randditbot.py:54-73 | the pagination loop makes exactly the requests of the specification and yields its posts or its failure |
| `RandditbotProperties.CrawlRequests` | src/randditbot.py:61-69 | between one and `len(responses)` requests are made; the first uses the initial cursor; each later one uses the previous page's `after`, and that page was a listing with a cursor; fewer than all only when the last page requested stopped |
| `RandditbotProperties.CrawlAllOrNothing` | src/randditbot.py:59-73 | the fetch ends with the caught error exactly when the last page requested failed, and with an escaping exception exactly when it crashed; otherwise it collects posts, so no partial listing survives a failure |
| `RandditbotProperties.CrawlConcatenates` | src/randditbot.py:60-66 | on success the posts are the children of every page requested, concatenated in order |
| `RandditbotProperties.CrawlIgnoresUnrequested` | src/randditbot.py:63-69 | answers after the last page requested make no difference to the result |
| `RandditbotProperties.CrawlPostCount` | src/randditbot.py:54-66 | if upstream returns at most 25 children per page, a fetch has at most 25 posts per page requested |
| `RandditbotProperties.FetchStopsAt` | src/randditbot.py:54-69 | if pages `0..k-1` continue and page `k` does not, exactly `k+1` requests are made, the first with the bare page URL; the fetch fails exactly when page `k` failed and raises exactly when page `k` crashed |
| `RandditbotProperties.FetchAllPages` | src/randditbot.py:63-69 | if every page continues, exactly `PAGES` requests are made and the fetch succeeds |
| `Randditbot.DropFirst` | src/randditbot.py:79 | `posts[1:]` has one element fewer (none for an empty list) and holds the elements after the first, in order |
| `Randditbot.Format` | src/randditbot.py:83 | the reply is the title, a line break, then the URL; `FormatRoundTrip` shows that both can be read back |
| `RandditbotProperties.FormatRoundTrip` | src/randditbot.py:82-83 | the title and URL can be read back from the reply whenever the title has no line break |
| `Randditbot.RequestPath` | src/randditbot.py:44-52 | the definition of the token and recall step; its contract says a path is either a space-free prefix of the message or the sender's remembered path, and that there is no path only when the sender has nothing remembered; `HandleFreshRequest`, `HandleNoPriorRequest`, `HandleFollowUpKeepsMemory` and `MemoryRoundTrip` prove what the handler does with it |
| `Randditbot.Handle` | src/randditbot.py:41-83 | the handler as a function; its own contract says it makes at most `PAGES` requests, none exactly when there is no path, and that the memory is unchanged or has only the sender's entry set to the path; the `Handle…` lemmas below prove each outcome |
| `RandditbotProperties.HandleFreshRequest` | src/randditbot.py:44-54 | a message whose first token has no `/more` requests that whole token as its path, whatever is remembered: the first request is its page URL, and a successful fetch stores exactly that token for the sender |
| `RandditbotProperties.HandleNoPriorRequest` | src/randditbot.py:46-52 | a follow-up from a user with nothing remembered gets the "Failed to send more posts" reply, requests no page and leaves the memory unchanged |
| `RandditbotProperties.HandleFailureAt` | src/randditbot.py:59-73 | a failure on page `k` gives the "Failed to send link" reply after exactly `k+1` requests and leaves the memory unchanged |
| `RandditbotProperties.HandleCrashAt` | src/randditbot.py:59-73 | an uncaught exception on page `k` sends nothing, makes exactly `k+1` requests and leaves the memory unchanged |
| `RandditbotProperties.HandleRemembers` | src/randditbot.py:75-76 | after a successful fetch the memory is the old one with the user's entry set to the path, whatever the selection then does |
| `RandditbotProperties.HandleOtherUsersUntouched` | src/randditbot.py:76 | no entry other than the sender's is added, changed or removed |
| `RandditbotProperties.HandleFollowUpKeepsMemory` | src/randditbot.py:46-76 | a follow-up leaves the memory exactly as it was, because it rewrites the entry with the same path |
| `RandditbotProperties.HandleSelects` | src/randditbot.py:76-83 | with one post or none, nothing is sent; otherwise the reply is `title + "\n" + url` of some post at index 1 or later, never the first |
| `RandditbotProperties.MemoryRoundTrip` | src/randditbot.py:44-76 | after a successful request, a follow-up from the same user resolves to the same path, and its first request is that path's page URL |
| `RandditbotProperties.DistinctUsersIndependent` | src/randditbot.py:41-83 | for the same random draw, a request from another user does not change what a user's request replies or requests; the memory ends the same in either order |
| `Randditbot.Bot.RandomPost` | src/randditbot.py:41-83 | the handler on the bot's state: reply, requests and new memory are those of `Handle`, and other users' entries are unchanged |
| `Randditbot.Bot.constructor` | src/randditbot.py:126 | the bot starts with an empty per-user memory |

## Left out

- `main`, the `Updater`, and the `CommandHandler`/`RegexHandler` routing (src/randditbot.py:119-158) are framework wiring. Which messages reach the handler is the library's decision, so any text is accepted here.
- `@run_async`: the handler runs on a worker thread. The model is one sequential call. Interleavings of concurrent calls on the shared dictionary are not modelled; `DistinctUsersIndependent` covers only sequential order, and gives both calls the same random draw: that one call advances the shared generator `random.choice` draws from is not modelled.
- `requests.Session`, HTTP and `r.json()` are replaced by the `Page` answers. The request header is not modelled. Which bodies raise which exception is up to the caller of the model: a body that is not JSON is `Failed` under current `requests`, where the decode error is a `RequestException`, and `Crashed` under versions where it is a bare `ValueError`.
- The k-th answer belongs to the k-th request whatever its URL. The URL log is what ties requests to paths and cursors.
- `random.choice`'s distribution is not modelled, only that the index is in range. Uniformity cannot be stated without probabilities.
- `help_command` (src/randditbot.py:86-98) only sends a constant text.
- `any_message` (Botan analytics), `error_handler` and logging (src/randditbot.py:21-25, 101-116) are fire-and-forget side channels.
- Loading `config.json` (src/randditbot.py:37-38) is file I/O.
- The user identifier is a plain integer. The chat identifier is not modelled. A message without text, where `update.message.text` is `None`, is not modelled.
