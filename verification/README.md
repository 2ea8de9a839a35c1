# Outlook Web Access scraper — a Dafny model

This project models the core of `OutlookWebScraper`, a screen-scraping client
for Microsoft Outlook Web Access. The client logs on through a web form and
pages through folder listings to collect message ids. It fetches raw messages
and deletes messages. A two-level in-memory cache stores folder name →
message ids and message id → raw message.

The browser is replaced by an oracle (`Server.Server`). It holds the logon
page's answer, one `Listing` per folder name, and the body and delete replies
per message id. A `Listing` is a first page followed by the pages that
successive "Next Page" links open. Asking past the end returns the last page
again, which is the wrap the client relies on to stop.

The repository holds two near-identical copies of the client. They differ in
two places, modelled by `Common.Variant`:

- `Packaged` is `weboutlook/scraper.py`. It strips the base href from the
  links of later listing pages and strips `?Cmd=open` from the id it deletes.
- `TopLevel` is `scraper.py`. It does neither.

The cache methods, `login`, `inbox` and `get_message` are textually identical
in the two files (lines 101-171 and 208-221). The rows below cite `weboutlook/scraper.py`
for them.

Modules:

- `Common`: `Option`, `Result`, the errors raised, and `Reply`. A `Reply`
  pairs the state after a call with the value returned or the error raised.
- `Text`: Python's `p in s` and `s.replace(p, '')`.
- `Cache`: the two maps and `add_to_cache`, `find_in_cache`,
  `remove_from_cache`, `flush_cache`.
- `Server`: the oracle, plus the link extraction the client does itself.
- `Session`: the login state machine.
- `Pagination`: the page walk of `get_folder`.
- `Scraper`: the object and its public operations.

Modelling choices:

- Python's falsy arguments (`None`, `''`) are the empty string.
- A cached empty listing or empty payload is present but falsy, so the
  callers treat it as a miss. This is `Cache.Truthy`.
- The source calls `find_in_cache`, `add_to_cache` and `remove_from_cache`
  without `self.`. The model assumes these are calls of the object's own
  methods.
- `is_logged_in` and `base_href` are always set together, so they are one
  value, `Session.Session`.
- Errors carry the state at the moment of raising, because Python mutates the
  object in place. A `KeyError` in the middle of a cascading folder removal
  keeps the deletions made so far.

The model follows the code as written:

- The repeated final page of a listing is appended, not discarded, and the
  list is not deduplicated (weboutlook/scraper.py:204).
- `delete_message` removes only the message-cache entry. Cached folder
  listings that contain the id stay as they are (weboutlook/scraper.py:234,
  `DeleteLeavesListingStale`).
- Folder keys are compared exactly, not case-insensitively
  (weboutlook/scraper.py:115).
- `login` requires the logon form. `select_form('logonForm')` raises when it
  is absent, which is `MissingElement` (weboutlook/scraper.py:150).
- A missing "Next Page" link raises `IndexError`, which is `MissingElement`
  (weboutlook/scraper.py:198). A missing first link after logon raises
  `StopIteration`, also `MissingElement` (weboutlook/scraper.py:156).

The single-page test is a substring test for `&nbsp;of&nbsp;1`. Any page
count written with two or more digits and starting with 1 also contains it:
10 to 19 pages, 100 to 199, 1000 to 1999, and so on ("1&nbsp;of&nbsp;12",
"1&nbsp;of&nbsp;150"). Such a listing takes the single-page shortcut and
returns only its first page. The model keeps this behaviour
(`Pagination.SinglePageTextMatchesTwelve` shows the case of 12 pages).

## Model

| member | source | states |
|---|---|---|
| Text.Contains | weboutlook/scraper.py:154 | Python's `p in s`: the empty pattern is in every string, and a pattern that is found is no longer than the string |
| Text.ContainsIffOccurs | weboutlook/scraper.py:191 | the substring test used for the failure text, `.EML`, "Next Page" and the page count holds exactly when the pattern occurs at some index |
| Text.RemoveAll | weboutlook/scraper.py:200 | `replace(p, '')` never lengthens a string, and shortens it whenever `p` (non-empty) occurs in it |
| Text.RemoveAllIdentityIff | weboutlook/scraper.py:228 | `replace(p, '')` returns its input unchanged if and only if `p` does not occur in it |
| Text.RemoveAllTrailing | weboutlook/scraper.py:228 | when `p`'s first character does not occur in `x`, `replace` turns `x + p` back into `x` |
| Cache.Truthy | weboutlook/scraper.py:123 | a cache miss (`None` or `False`) is never truthy, and neither is an empty listing or an empty payload, so callers treat them as misses |
| Cache.Add | weboutlook/scraper.py:101-108 | a folder name stores the listing under that name, returns it and leaves messages and other folders alone; otherwise a message id stores the payload and returns it, folders untouched; with neither nothing changes and `None` is returned |
| Cache.Find | weboutlook/scraper.py:110-118 | a cached message id gives its payload; otherwise a cached folder gives its listing, an uncached folder name gives `None`, and no folder name gives `False` |
| Cache.DeleteEach | weboutlook/scraper.py:132-133 | deleting the ids of a listing one by one succeeds if and only if each is cached and none repeats, and then removes exactly those keys; otherwise it raises `KeyError` on a listed id and only ever removes keys |
| Cache.Remove | weboutlook/scraper.py:120-138 | message-only removal deletes exactly that key and returns True when its payload was truthy, otherwise returns False and changes nothing, never touching folders; folder removal deletes the folder and every listed message (raising when one is missing); an absent or empty folder returns False with nothing changed; given both, the truthy message is deleted first and the folder branch then runs on the remaining messages |
| Cache.RemoveBothRaises | weboutlook/scraper.py:120-133 | given a truthy cached message and a folder whose listing holds it, the message is deleted first, so the cascade raises `KeyError` on it |
| Cache.Flush | weboutlook/scraper.py:140-143 | both caches are empty afterwards and True is returned |
| Cache.FindAfterAddFolder | weboutlook/scraper.py:101-104 | a stored folder listing is found again under its name |
| Cache.FindAfterAddMessage | weboutlook/scraper.py:106-108 | a stored payload is found again under its id, whatever folder name is also given |
| Cache.RemoveAfterAddMessage | weboutlook/scraper.py:120-126 | a truthy payload just stored is removed again by message-only removal, which returns True and restores the rest of the message cache |
| Cache.FindAfterFlush | weboutlook/scraper.py:140-143 | after a flush no lookup is a hit |
| Server.EmlUrls | weboutlook/scraper.py:190 | the message ids of a page are exactly the link targets that contain `.EML`, no more ids than links (order and repeats: `EmlUrlsSingle`, `EmlUrlsAppend`) |
| Server.EmlUrlsSingle | weboutlook/scraper.py:190 | one link contributes its own target exactly when that target contains `.EML`, and nothing otherwise |
| Server.EmlUrlsAppend | weboutlook/scraper.py:190 | the ids of two runs of links read one after the other are the first run's ids followed by the second's, so page order and repeats are kept |
| Server.NextPageUrl | weboutlook/scraper.py:198 | the next-page target is the url of the first link whose text contains "Next Page", and is absent exactly when no link's text contains it |
| Session.Login | weboutlook/scraper.py:145-160 | login succeeds exactly when the logon form exists, the failure text is absent, and the first link has a base URL, and then the session is logged in with that base href; the failure text raises `InvalidLogin`, a missing base URL raises `RetrievalError`, and every failure leaves the session unchanged |
| Session.EnsureLoggedIn | weboutlook/scraper.py:186-187 | a logged-in session is left alone without consulting the server; a logged-out one logs in |
| Session.RejectedLoginRetried | weboutlook/scraper.py:154-155 | after a rejected login the session is still logged out, so the next operation logs in again |
| Pagination.StripBase | weboutlook/scraper.py:200 | each id has every occurrence of the base href removed, one output per input in the same order; ids that do not contain the base href are returned unchanged |
| Pagination.LaterIds | weboutlook/scraper.py:200 | a later page's ids are its `.EML` targets in order: as served in scraper.py, with the base href removed in weboutlook/scraper.py; when no target contains the base href both copies read the same ids |
| Pagination.Paginate | weboutlook/scraper.py:195-204 | the loop ends on every wrapping listing after between 1 and (pages left + 1) next-page requests; a loop that stops at once returns the previous page, otherwise the appended ids end with the final page twice; the only error is the missing "Next Page" link |
| Pagination.PaginateFailure | weboutlook/scraper.py:198 | the walk raises only if some page it may stand on lacks "Next Page", and cannot raise when every page has one |
| Pagination.PaginateMissingNext | weboutlook/scraper.py:197-198 | the walk raises `IndexError` when it reaches a page without "Next Page" before any read has repeated its predecessor |
| Pagination.PaginateDistinct | weboutlook/scraper.py:195-204 | when every page has "Next Page" and neighbouring pages differ, the walk appends every later page and then the last page again, in one request per page |
| Pagination.PaginateStops | weboutlook/scraper.py:199-204 | a round that reads the same ids as the previous page appends them once and ends the walk after that one request |
| Pagination.PaginateFirstRepeat | weboutlook/scraper.py:195-204 | the walk stops at the first page that reads the same as the one before: it appends exactly the pages read up to and including that repeat, one request each, and reads nothing after it even when the listing goes on |
| Pagination.Collect | weboutlook/scraper.py:189-206 | with the single-page text the result is the first page's `.EML` links after no next-page request; otherwise it starts with those links and makes 1 to n+1 requests |
| Pagination.CollectFailure | weboutlook/scraper.py:198 | listing a folder raises only when some page lacks a "Next Page" link, and never when all have one |
| Pagination.CollectFirstPageNoNext | weboutlook/scraper.py:191-198 | a first page with neither the single-page text nor a "Next Page" link makes `get_folder` raise `IndexError` |
| Pagination.CollectMissingNext | weboutlook/scraper.py:189-206 | `get_folder` raises `IndexError` when the walk reaches a page without "Next Page" before any page read has repeated its predecessor |
| Pagination.CollectFirstRepeat | weboutlook/scraper.py:189-206 | without the single-page text, the folder is the first page followed by the pages read up to and including the first page equal to its predecessor, after one request per page read; every later page is dropped |
| Pagination.CollectWraps | weboutlook/scraper.py:190-206 | on a wrapping listing with "Next Page" everywhere and distinct neighbours, the folder is the pages as read, in order, then the last page once more, after exactly n requests |
| Pagination.CollectTopLevelWraps | scraper.py:195-206 | without stripping, the folder is P1 ++ P2 ++ ... ++ Pn ++ Pn of the raw `.EML` links, after n requests |
| Pagination.CollectPackagedWraps | weboutlook/scraper.py:195-206 | with stripping, the folder is the first page raw, then each later page with the base href removed, the last of them twice, after n requests |
| Pagination.CollectPackagedOnePage | weboutlook/scraper.py:195-204 | a one-page listing whose links change under stripping and lack the single-page text is read raw once and stripped twice, in two requests |
| Pagination.SinglePageTextMatchesTwelve | weboutlook/scraper.py:191-193 | a first page saying "1&nbsp;of&nbsp;12" takes the single-page shortcut: only its own links, no next-page request |
| Scraper.LoginScraper | weboutlook/scraper.py:145-160 | login never touches the caches and raises exactly what `Session.Login` raises; success leaves the object logged in with the base href of the first link after logon (a non-empty one), failure leaves it unchanged |
| Scraper.GetFolder | weboutlook/scraper.py:173-206 | a truthy cached listing is returned unchanged unless refresh is set; otherwise the client logs in if it has to (a failed login is raised with nothing changed), keeps the session that login established, and succeeds exactly when the page walk does, the only other error being the missing "Next Page" link; on success the listing read from the server is returned and cached under the folder name, with the message cache and other folders unchanged; a logged-in session is never logged in again; an error leaves the caches unchanged |
| Scraper.Inbox | weboutlook/scraper.py:162-171 | `inbox` is `get_folder('Inbox')` with the same refresh flag, so a cached inbox is served as is |
| Scraper.GetMessage | weboutlook/scraper.py:208-221 | a truthy cached payload is returned without login or fetch; on a miss the client logs in if it has to, a failed login is raised with nothing changed, and otherwise it succeeds with the session that login established, returning the server's body and storing it under the id, folders untouched; with requests that never fail, a failure can only be a failed login |
| Scraper.DeletedId | weboutlook/scraper.py:228 | weboutlook/scraper.py changes the id exactly when it contains `?Cmd=open`; scraper.py uses it unchanged |
| Scraper.DeleteMessage | weboutlook/scraper.py:223-235 | the client logs in if it has to; a failed login is raised with nothing changed, and otherwise the call succeeds with the session that login established; the delete is posted for the normalised id, whose truthy cached message is dropped; all other messages and every folder listing stay as they were |
| Scraper.FreshScraperLogsIn | weboutlook/scraper.py:91-99 | a new scraper is logged out with both caches empty, so its first `get_message` and `get_folder` log in, fail exactly as that login fails (changing nothing), and otherwise carry on with the session the login established |
| Scraper.FlushCache | weboutlook/scraper.py:140-143 | the session is kept and both caches are emptied |
| Scraper.GetFolderServedFromCache | weboutlook/scraper.py:181-184 | a non-empty listing just fetched is served by the next plain `get_folder` with no change of state, whatever the server would now answer |
| Scraper.GetMessageFetchesOnce | weboutlook/scraper.py:211-213 | a second `get_message` of an id with a non-empty payload is answered from the cache, whatever the server would now answer |
| Scraper.FlushForcesFetch | weboutlook/scraper.py:140-143 | after `flush_cache` a message and a folder listing come from the server, never from the earlier caches |
| Scraper.DeleteLeavesListingStale | weboutlook/scraper.py:234 | a cached listing containing a deleted id still returns that id from the next plain `get_folder` |
| Scraper.DeleteStripsOpenSuffix | weboutlook/scraper.py:228-234 | handed `x?Cmd=open` (with no `?` in `x`), weboutlook/scraper.py posts the delete for `x` and uncaches `x` |
| Scraper.RejectedLoginThenFetch | weboutlook/scraper.py:211-215 | a rejected login leaves the object as it was, so a following `get_message` miss logs in afresh |
| Scraper.GetFolderTopLevelWraps | scraper.py:181-206 | scraper.py, logged in, not served from the cache: the result and the cached listing are P1 ++ ... ++ Pn ++ Pn |
| Scraper.GetFolderSinglePage | weboutlook/scraper.py:189-193 | logged in, not served from the cache, single-page text present: the result and the cached listing are the first page's `.EML` links |

## Left out

- HTTP, cookies, basic authentication, form selection and submission, link parsing and request headers (the `Translate: f` header). The browser is the `Server` oracle, and a page is only its body text and its links.
- `urljoin`, `quote` and `urlencode`. URLs are never built. The oracle is indexed by folder name or message id, and the URL a "Next Page" link points to is not interpreted.
- Credentials. The oracle stands for one server answering one set of credentials, so the domain, user name and password do not appear.
- Server-side effects. Deleting a message does not change what the oracle answers afterwards.
- Logging and the process-wide socket timeout. These are plumbing, and a timed-out request is not modelled.
- The payload `get_message` returns is a browser response object in the source. Here it is a string, and its truthiness is that of the string.
- Aliasing. The list `get_folder` returns is the same object as the one cached, so a caller that mutates it would mutate the cache.
- Python truthiness of values other than strings and id lists. `message_urls=None` and `payload=None` are never passed by the callers.
- Pagination.Paginate: its contract bounds the requests and describes how the appended ids end. The exact ids are stated separately: `PaginateFirstRepeat` covers a walk that stops at a repeated page, and `PaginateDistinct` covers the wrap at the end when neighbouring pages differ.
- Scraper.GetMessage: the oracle never fails a request. In the source, `browser.open` for the message body (weboutlook/scraper.py:219) can raise `HTTPError` or `URLError`, which leaves the session logged in and the cache unchanged. The model has no such outcome, so its only failure is a failed login.
- Scraper.DeleteMessage: the oracle never fails a request. In the source, the delete `browser.open` (weboutlook/scraper.py:229) can raise `HTTPError` or `URLError` before the cache entry is removed. The model has no such outcome, so its only failure is a failed login.
- Scraper.GetFolder and Session.Login: a failing `browser.open` of a listing page or of the logon page is not modelled either. Their only errors are the ones the client raises itself.
