/** The client's two in-memory caches: folder name -> message ids, and
    message id -> raw message. Python's falsy arguments (`None`, `''`) are the
    empty string here; a cached empty listing or empty payload is present but
    falsy, which the callers read as a miss. */
module Cache {
  import opened Common

  type Payload = string

  datatype Store = Store(folders: map<string, seq<Id>>, messages: map<Id, Payload>)

  const Empty := Store(map[], map[])

  /** What the cache methods return: a folder listing, a message, or one of
      Python's two "not found" values, `None` and `False`. */
  datatype Value = Ids(ids: seq<Id>) | Body(payload: Payload) | NoneValue | FalseValue

  /** Python truthiness of a returned value: the two misses are falsy, and
      so are an empty id list and an empty payload. */
  predicate Truthy(v: Value)
    ensures Truthy(v) ==> v.Ids? || v.Body?
    ensures v == Ids([]) || v == Body("") ==> !Truthy(v)
  {
    match v
    case Ids(ids) => ids != []
    case Body(p) => p != ""
    case _ => false
  }

  /** `add_to_cache`: a folder name wins; otherwise a message id; otherwise
      nothing is stored and `None` comes back. */
  function Add(c: Store, folderName: string, messageUrls: seq<Id>, msgid: Id, payload: Payload): (r: (Store, Value))
    ensures folderName != "" ==>
      && r.1 == Ids(messageUrls)
      && folderName in r.0.folders && r.0.folders[folderName] == messageUrls
      && r.0.folders - {folderName} == c.folders - {folderName}
      && r.0.messages == c.messages
    ensures folderName == "" && msgid != "" ==>
      && r.1 == Body(payload)
      && msgid in r.0.messages && r.0.messages[msgid] == payload
      && r.0.messages - {msgid} == c.messages - {msgid}
      && r.0.folders == c.folders
    ensures folderName == "" && msgid == "" ==> r.0 == c && r.1 == NoneValue
  {
    if folderName != "" then
      (c.(folders := c.folders[folderName := messageUrls]), Ids(messageUrls))
    else if msgid != "" then
      (c.(messages := c.messages[msgid := payload]), Body(payload))
    else
      (c, NoneValue)
  }

  /** `find_in_cache`: a cached message is looked up first; failing that a
      folder name gives its listing or `None`; with no folder name the answer
      is `False`. */
  function Find(c: Store, folderName: string, msgid: Id): (r: Value)
    ensures r.Body? <==> msgid != "" && msgid in c.messages
    ensures r.Body? ==> r.payload == c.messages[msgid]
    ensures r.Ids? <==> !r.Body? && folderName != "" && folderName in c.folders
    ensures r.Ids? ==> r.ids == c.folders[folderName]
    ensures r.NoneValue? <==> !r.Body? && folderName != "" && folderName !in c.folders
    ensures r.FalseValue? <==> !r.Body? && folderName == ""
  {
    if msgid != "" && msgid in c.messages then Body(c.messages[msgid])
    else if folderName != "" then
      if folderName in c.folders then Ids(c.folders[folderName]) else NoneValue
    else FalseValue
  }

  /** Every id of `ids` can be deleted one after the other: each is cached and
      none repeats an earlier one. */
  ghost predicate Deletable(m: map<Id, Payload>, ids: seq<Id>)
  {
    forall i :: 0 <= i < |ids| ==> ids[i] in m && ids[i] !in ids[..i]
  }

  lemma DeletableStep(m: map<Id, Payload>, ids: seq<Id>)
    requires ids != []
    ensures Deletable(m, ids) <==> ids[0] in m && Deletable(m - {ids[0]}, ids[1..])
  {
    if Deletable(m, ids) {
      forall j | 0 <= j < |ids[1..]|
        ensures ids[1..][j] in m - {ids[0]} && ids[1..][j] !in ids[1..][..j]
      {
        assert ids[..j + 1] == [ids[0]] + ids[1..][..j];
        assert ids[j + 1] in m && ids[j + 1] !in ids[..j + 1];
      }
    }
    if ids[0] in m && Deletable(m - {ids[0]}, ids[1..]) {
      forall i | 0 <= i < |ids|
        ensures ids[i] in m && ids[i] !in ids[..i]
      {
        if i > 0 {
          assert ids[..i] == [ids[0]] + ids[1..][..i - 1];
          assert ids[1..][i - 1] in m - {ids[0]} && ids[1..][i - 1] !in ids[1..][..i - 1];
        }
      }
    }
  }

  /** The cascade of a folder removal, deleting the listed ids in order: it
      stops with `KeyError` at
      the first id that is no longer cached, keeping the deletions made so
      far. */
  function DeleteEach(m: map<Id, Payload>, ids: seq<Id>): (r: Reply<map<Id, Payload>, ()>)
    ensures r.result.Success? <==> Deletable(m, ids)
    ensures r.result.Success? ==> r.state == m - (set id | id in ids)
    ensures r.result.Failure? ==> r.result.error.MissingKey? && r.result.error.key in ids
    ensures r.state.Keys <= m.Keys
    decreases |ids|
  {
    if ids == [] then Reply(m, Success(()))
    else
      DeletableStep(m, ids);
      if ids[0] !in m then Reply(m, Failure(MissingKey(ids[0])))
      else
        var rest := DeleteEach(m - {ids[0]}, ids[1..]);
        assert (set id | id in ids) == {ids[0]} + (set id | id in ids[1..]);
        rest
  }

  /** `remove_from_cache`. A truthy cached message `msgid` is deleted first;
      with no folder name that ends the call with `True`. With a folder name
      whose listing is truthy, the folder entry and then each listed message
      are deleted (a listed id that is not cached raises `KeyError`) and the
      call returns `True`; otherwise it returns `False`. */
  function Remove(c: Store, folderName: string, msgid: Id): (r: Reply<Store, bool>)
    // removal only ever deletes keys
    ensures r.state.folders.Keys <= c.folders.Keys && r.state.messages.Keys <= c.messages.Keys
    // message-only removal: exactly that key, folders untouched, never raises
    ensures folderName == "" ==>
      && r.state.folders == c.folders
      && r.result.Success?
      && (r.result.value <==> msgid != "" && msgid in c.messages && c.messages[msgid] != "")
      && r.state.messages == (if r.result.value then c.messages - {msgid} else c.messages)
    // folder removal cascades into the message cache
    ensures folderName != "" && msgid == "" && folderName in c.folders && c.folders[folderName] != [] ==>
      && folderName !in r.state.folders
      && r.state.folders == c.folders - {folderName}
      && (r.result.Success? <==> Deletable(c.messages, c.folders[folderName]))
      && (r.result.Success? ==>
            r.result.value && r.state.messages == c.messages - (set id | id in c.folders[folderName]))
    // an absent or empty folder is reported and nothing changes
    ensures folderName != "" && msgid == "" && !(folderName in c.folders && c.folders[folderName] != []) ==>
      r == Reply(c, Success(false))
    // both given: the message goes first, then the folder cascade runs on what is left
    ensures folderName != "" && msgid != "" ==>
      var m0 := if msgid in c.messages && c.messages[msgid] != "" then c.messages - {msgid} else c.messages;
      if folderName in c.folders && c.folders[folderName] != [] then
        && r.state.folders == c.folders - {folderName}
        && (r.result.Success? <==> Deletable(m0, c.folders[folderName]))
        && (r.result.Success? ==> r.result.value && r.state.messages == m0 - (set id | id in c.folders[folderName]))
      else r == Reply(c.(messages := m0), Success(false))
  {
    var hit := Find(c, "", msgid);
    var removed := msgid != "" && Truthy(hit);
    var c1 := if removed then c.(messages := c.messages - {msgid}) else c;
    if removed && folderName == "" then Reply(c1, Success(true))
    else if folderName != "" then
      var listing := Find(c1, folderName, "");
      if Truthy(listing) then
        var c2 := c1.(folders := c1.folders - {folderName});
        var gone := DeleteEach(c2.messages, listing.ids);
        Reply(c2.(messages := gone.state), if gone.result.Success? then Success(true) else Failure(gone.result.error))
      else Reply(c1, Success(false))
    else Reply(c1, Success(false))
  }

  /** Given both a truthy cached message and a folder whose listing holds
      it, the message is deleted first, so the cascade meets it again and
      raises `KeyError` on it. */
  lemma RemoveBothRaises(c: Store, folderName: string, msgid: Id)
    requires folderName != "" && msgid != ""
    requires msgid in c.messages && c.messages[msgid] != ""
    requires folderName in c.folders && msgid in c.folders[folderName]
    ensures Remove(c, folderName, msgid).result.Failure?
    ensures msgid !in Remove(c, folderName, msgid).state.messages
  {
    var ids := c.folders[folderName];
    var m0 := c.messages - {msgid};
    var i :| 0 <= i < |ids| && ids[i] == msgid;
    assert !Deletable(m0, ids) by {
      assert ids[i] !in m0;
    }
  }

  /** `flush_cache`: both stores are emptied and `True` is returned. */
  function Flush(c: Store): (r: (Store, bool))
    ensures r.0.folders == map[] && r.0.messages == map[]
    ensures r.1
  {
    (Empty, true)
  }

  /** Storing a folder listing and looking the folder up again gives that
      listing back, whatever else is cached. */
  lemma FindAfterAddFolder(c: Store, folderName: string, urls: seq<Id>, msgid: Id, payload: Payload)
    requires folderName != ""
    requires msgid !in c.messages
    ensures Find(Add(c, folderName, urls, msgid, payload).0, folderName, msgid) == Ids(urls)
  {
  }

  /** Storing a message and looking its id up again gives that payload back. */
  lemma FindAfterAddMessage(c: Store, msgid: Id, payload: Payload, folderName: string)
    requires msgid != ""
    ensures Find(Add(c, "", [], msgid, payload).0, folderName, msgid) == Body(payload)
  {
  }

  /** A truthy message just stored is removed again by a message-only removal,
      which reports `True` and leaves the rest of the message cache as it was
      before the store. */
  lemma RemoveAfterAddMessage(c: Store, msgid: Id, payload: Payload)
    requires msgid != "" && payload != ""
    ensures var r := Remove(Add(c, "", [], msgid, payload).0, "", msgid);
      && r.result == Success(true)
      && r.state.messages == c.messages - {msgid}
      && r.state.folders == c.folders
  {
    var c1 := Add(c, "", [], msgid, payload).0;
    assert c1.messages - {msgid} == c.messages - {msgid};
  }

  /** After a flush no lookup is a hit. */
  lemma FindAfterFlush(c: Store, folderName: string, msgid: Id)
    ensures !Truthy(Find(Flush(c).0, folderName, msgid))
  {
  }
}
