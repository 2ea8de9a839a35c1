/** `OutlookWebScraper`: the object's state is its session and its two
    caches; every public operation takes the state and the server oracle and
    returns the new state with the value returned or the error raised. The
    source calls `find_in_cache`, `add_to_cache` and `remove_from_cache`
    without `self.`; this model reads those calls as calls of the object's own
    cache methods. */
module Scraper {
  import opened Common
  import opened Text
  import opened Cache
  import opened Server
  import opened Session
  import opened Pagination

  datatype State = State(session: Session, cache: Store)

  /** A freshly constructed scraper: logged out, both caches empty. */
  const Initial := State(LoggedOut, Empty)

  /** The suffix weboutlook/scraper.py strips from ids before deleting. */
  const OpenSuffix := "?Cmd=open"

  const InboxName := "Inbox"

  /** `find_in_cache(folder_name=name)` is truthy, so `get_folder` serves it. */
  predicate CachedListing(s: State, name: string)
    ensures CachedListing(s, name) ==> name in s.cache.folders && s.cache.folders[name] != []
  {
    Truthy(Find(s.cache, name, ""))
  }

  /** `find_in_cache(msgid=msgid)` is truthy, so `get_message` serves it. */
  predicate CachedMessage(s: State, msgid: Id)
    ensures CachedMessage(s, msgid) ==> msgid in s.cache.messages && s.cache.messages[msgid] != ""
  {
    Truthy(Find(s.cache, "", msgid))
  }

  /** `login`: the session moves to logged in or stays as it was; the caches
      are untouched. */
  function LoginScraper(s: State, server: Server): (r: Reply<State, ()>)
    ensures r.state.cache == s.cache
    ensures r.result.Success? ==> r.state.session.LoggedIn? && r.state.session.baseHref != ""
    ensures r.result.Failure? ==> r.state == s
    ensures r.result == Login(s.session, server).result
    ensures r.result.Success? ==> r.state.session == Login(s.session, server).state
  {
    var lg := Login(s.session, server);
    Reply(s.(session := lg.state), lg.result)
  }

  /** `get_folder(name, refresh)`. Unless `refresh`, a truthy cached listing
      is returned at once. Otherwise the client logs in if it has to, reads
      the listing and caches it under `name` (an empty name is not cached,
      as `add_to_cache` ignores a falsy folder name). */
  function GetFolder(v: Variant, s: State, server: Server, name: string, refresh: bool): (r: Reply<State, seq<Id>>)
    ensures !refresh && CachedListing(s, name) ==> r == Reply(s, Success(s.cache.folders[name]))
    ensures s.session.LoggedIn? ==> r.state.session == s.session
    ensures r.result.Failure? ==> r.state.cache == s.cache
    ensures (refresh || !CachedListing(s, name)) && r.result.Success? ==>
      && r.state.session.LoggedIn?
      && Collect(v, r.state.session.baseHref, server.listing(name)).Success?
      && r.result.value == Collect(v, r.state.session.baseHref, server.listing(name)).value.ids
      && r.state.cache.messages == s.cache.messages
      && (name != "" ==> name in r.state.cache.folders && r.state.cache.folders[name] == r.result.value)
      && r.state.cache.folders - {name} == s.cache.folders - {name}
    ensures (refresh || !CachedListing(s, name)) ==>
      var lg := EnsureLoggedIn(s.session, server);
      && (lg.result.Failure? ==> r == Reply(s, Failure(lg.result.error)))
      && (lg.result.Success? ==>
            && r.state.session == lg.state
            && (r.result.Success? <==> Collect(v, lg.state.baseHref, server.listing(name)).Success?)
            && (r.result.Failure? ==> r.result.error == MissingElement))
  {
    if !refresh && CachedListing(s, name) then
      assert Find(s.cache, name, "") == Ids(s.cache.folders[name]);
      Reply(s, Success(s.cache.folders[name]))
    else
      var lg := EnsureLoggedIn(s.session, server);
      if lg.result.Failure? then Reply(s, Failure(lg.result.error))
      else
        var s1 := s.(session := lg.state);
        match Collect(v, lg.state.baseHref, server.listing(name))
        case Failure(e) => Reply(s1, Failure(e))
        case Success(w) => Reply(s1.(cache := Add(s1.cache, name, w.ids, "", "").0), Success(w.ids))
  }

  /** `inbox(refresh)`: the folder named "Inbox". */
  function Inbox(v: Variant, s: State, server: Server, refresh: bool): (r: Reply<State, seq<Id>>)
    ensures r == GetFolder(v, s, server, InboxName, refresh)
    ensures !refresh && CachedListing(s, InboxName) ==> r == Reply(s, Success(s.cache.folders[InboxName]))
  {
    GetFolder(v, s, server, InboxName, refresh)
  }

  /** `get_message(msgid)`: a truthy cached payload is returned at once;
      otherwise the client logs in if it has to, fetches the body, caches it
      under `msgid` and returns it. */
  function GetMessage(s: State, server: Server, msgid: Id): (r: Reply<State, string>)
    ensures CachedMessage(s, msgid) ==> r == Reply(s, Success(s.cache.messages[msgid]))
    ensures s.session.LoggedIn? ==> r.state.session == s.session
    ensures r.result.Failure? ==> r.state == s && !s.session.LoggedIn?
    ensures !CachedMessage(s, msgid) && r.result.Success? ==>
      && r.result.value == server.messageBody(msgid)
      && r.state.session.LoggedIn?
      && r.state.cache.folders == s.cache.folders
      && r.state.cache.messages == (if msgid != "" then s.cache.messages[msgid := r.result.value] else s.cache.messages)
    ensures !CachedMessage(s, msgid) ==>
      var lg := EnsureLoggedIn(s.session, server);
      && (lg.result.Failure? ==> r == Reply(s, Failure(lg.result.error)))
      && (lg.result.Success? ==> r.result.Success? && r.state.session == lg.state)
  {
    var hit := Find(s.cache, "", msgid);
    if Truthy(hit) then Reply(s, Success(hit.payload))
    else
      var lg := EnsureLoggedIn(s.session, server);
      if lg.result.Failure? then Reply(s, Failure(lg.result.error))
      else
        var payload := server.messageBody(msgid);
        Reply(State(lg.state, Add(s.cache, "", [], msgid, payload).0), Success(payload))
  }

  /** The id `delete_message` posts and uncaches. */
  function DeletedId(v: Variant, msgid: Id): (r: Id)
    ensures v == TopLevel ==> r == msgid
    ensures v == Packaged ==> (r == msgid <==> !Contains(msgid, OpenSuffix))
    ensures |r| <= |msgid|
  {
    if v == Packaged then
      RemoveAllIdentityIff(msgid, OpenSuffix);
      RemoveAll(msgid, OpenSuffix)
    else msgid
  }

  /** `delete_message(msgid)`: log in if needed, post the delete for the
      (normalised) id, and drop that id from the message cache. Folder
      listings are left as they are, even those that list the id. */
  function DeleteMessage(v: Variant, s: State, server: Server, msgid: Id): (r: Reply<State, string>)
    ensures s.session.LoggedIn? ==> r.state.session == s.session
    ensures r.result.Failure? ==> r.state == s && !s.session.LoggedIn?
    ensures r.result.Success? ==>
      && r.result.value == server.deleteReply(DeletedId(v, msgid))
      && r.state.session.LoggedIn?
      && r.state.cache.folders == s.cache.folders
      && r.state.cache.messages ==
           (if CachedMessage(s, DeletedId(v, msgid)) then s.cache.messages - {DeletedId(v, msgid)}
            else s.cache.messages)
    ensures var lg := EnsureLoggedIn(s.session, server);
      && (lg.result.Failure? ==> r == Reply(s, Failure(lg.result.error)))
      && (lg.result.Success? ==> r.result.Success? && r.state.session == lg.state)
  {
    var lg := EnsureLoggedIn(s.session, server);
    if lg.result.Failure? then Reply(s, Failure(lg.result.error))
    else
      var id := DeletedId(v, msgid);
      var reply := server.deleteReply(id);
      var removal := Remove(s.cache, "", id);
      Reply(State(lg.state, removal.state), Success(reply))
  }

  /** `flush_cache`: the session is kept, both caches are emptied. */
  function FlushCache(s: State): (r: (State, bool))
    ensures r.0.session == s.session
    ensures r.0.cache.folders == map[] && r.0.cache.messages == map[]
    ensures r.1
  {
    var f := Flush(s.cache);
    (s.(cache := f.0), f.1)
  }

  /** A listing fetched and cached is served again by the next call without
      a network request: the answer is the same whatever the server would
      now say. An empty listing is falsy and is fetched again instead. */
  lemma GetFolderServedFromCache(v: Variant, s: State, server: Server, later: Server, name: string, refresh: bool)
    requires name != ""
    requires GetFolder(v, s, server, name, refresh).result.Success?
    requires GetFolder(v, s, server, name, refresh).result.value != []
    ensures var r := GetFolder(v, s, server, name, refresh);
      GetFolder(v, r.state, later, name, false) == Reply(r.state, r.result)
  {
    var r := GetFolder(v, s, server, name, refresh);
    if refresh || !CachedListing(s, name) {
      assert CachedListing(r.state, name);
    }
  }

  /** Two calls of `get_message` for the same id make at most one fetch: the
      second is answered from the cache, whatever the server would now say. */
  lemma GetMessageFetchesOnce(s: State, server: Server, later: Server, msgid: Id)
    requires msgid != ""
    requires GetMessage(s, server, msgid).result.Success?
    requires GetMessage(s, server, msgid).result.value != ""
    ensures var r := GetMessage(s, server, msgid);
      GetMessage(r.state, later, msgid) == Reply(r.state, r.result)
  {
  }

  /** After `flush_cache` nothing from before is served: a message comes
      from the server, and so does a folder listing. */
  lemma FlushForcesFetch(v: Variant, s: State, server: Server, msgid: Id, name: string)
    ensures var t := FlushCache(s).0;
      GetMessage(t, server, msgid).result.Success? ==>
        GetMessage(t, server, msgid).result.value == server.messageBody(msgid)
    ensures var t := FlushCache(s).0;
      var r := GetFolder(v, t, server, name, false);
      r.result.Success? ==>
        r.result.value == Collect(v, r.state.session.baseHref, server.listing(name)).value.ids
  {
  }

  /** A cached listing survives `delete_message` of an id it lists: the next
      `get_folder` without refresh still returns that id. */
  lemma DeleteLeavesListingStale(v: Variant, s: State, server: Server, name: string, msgid: Id)
    requires CachedListing(s, name)
    requires DeletedId(v, msgid) in s.cache.folders[name]
    requires DeleteMessage(v, s, server, msgid).result.Success?
    ensures var t := DeleteMessage(v, s, server, msgid).state;
      && GetFolder(v, t, server, name, false).result.Success?
      && DeletedId(v, msgid) in GetFolder(v, t, server, name, false).result.value
  {
    var t := DeleteMessage(v, s, server, msgid).state;
    assert CachedListing(t, name);
  }

  /** weboutlook/scraper.py deletes `x` when handed `x?Cmd=open` (for an `x`
      without `?`), and uncaches `x`. */
  lemma DeleteStripsOpenSuffix(s: State, server: Server, x: Id)
    requires '?' !in x
    requires DeleteMessage(Packaged, s, server, x + OpenSuffix).result.Success?
    ensures var r := DeleteMessage(Packaged, s, server, x + OpenSuffix);
      && r.result.value == server.deleteReply(x)
      && r.state.cache.messages == (if CachedMessage(s, x) then s.cache.messages - {x} else s.cache.messages)
  {
    RemoveAllTrailing(x, OpenSuffix);
  }

  /** A rejected login leaves the scraper logged out with its caches, and the
      next operation that needs the server logs in again. */
  lemma RejectedLoginThenFetch(s: State, server: Server, later: Server, msgid: Id)
    requires s.session.LoggedOut?
    requires LoginScraper(s, server).result == Failure(InvalidLogin)
    requires !CachedMessage(s, msgid)
    ensures var t := LoginScraper(s, server).state;
      && t == s
      && GetMessage(t, later, msgid).result.Failure? == Login(LoggedOut, later).result.Failure?
  {
  }

  /** A freshly constructed scraper is logged out with both caches empty, so
      nothing is served from the cache: its first `get_message` and its first
      `get_folder` log in, fail exactly as that login fails, and otherwise
      continue with the session the login established. */
  lemma FreshScraperLogsIn(v: Variant, server: Server, name: string, msgid: Id, refresh: bool)
    ensures Initial.session.LoggedOut?
    ensures Initial.cache.folders == map[] && Initial.cache.messages == map[]
    ensures var lg := Login(LoggedOut, server);
      var m := GetMessage(Initial, server, msgid);
      && (lg.result.Failure? ==> m == Reply(Initial, Failure(lg.result.error)))
      && (lg.result.Success? ==> m.result.Success? && m.state.session == lg.state)
    ensures var lg := Login(LoggedOut, server);
      var f := GetFolder(v, Initial, server, name, refresh);
      && (lg.result.Failure? ==> f == Reply(Initial, Failure(lg.result.error)))
      && (lg.result.Success? ==> f.state.session == lg.state)
  {
    assert !CachedMessage(Initial, msgid);
    assert !CachedListing(Initial, name);
  }

  /** scraper.py, logged in: a folder not served from the cache is the raw
      links of every listing page in order, the last page twice, and that
      whole list is what gets cached. */
  lemma GetFolderTopLevelWraps(s: State, server: Server, name: string, refresh: bool)
    requires s.session.LoggedIn?
    requires refresh || !CachedListing(s, name)
    requires !Contains(server.listing(name).first.body, SinglePageText)
    requires forall k :: 0 <= k < server.listing(name).Count() ==> HasNextPage(server.listing(name).PageAt(k))
    requires NeighboursDiffer(RawPages(server.listing(name)))
    ensures var raw := RawPages(server.listing(name));
      var r := GetFolder(TopLevel, s, server, name, refresh);
      && r.result == Success(Concat(raw) + raw[|raw| - 1])
      && (name != "" ==> r.state.cache.folders[name] == Concat(raw) + raw[|raw| - 1])
  {
    CollectTopLevelWraps(s.session.baseHref, server.listing(name));
  }

  /** Either copy, logged in: a listing whose first page carries the
      single-page text is that page's `.EML` links, and is cached. */
  lemma GetFolderSinglePage(v: Variant, s: State, server: Server, name: string, refresh: bool)
    requires s.session.LoggedIn?
    requires refresh || !CachedListing(s, name)
    requires Contains(server.listing(name).first.body, SinglePageText)
    ensures var r := GetFolder(v, s, server, name, refresh);
      && r.result == Success(EmlUrls(server.listing(name).first.links))
      && (name != "" ==> r.state.cache.folders[name] == EmlUrls(server.listing(name).first.links))
  {
  }
}
