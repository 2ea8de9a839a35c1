/** The web session collaborator, reduced to an oracle. The client only ever
    looks at a response's body text and at its links, so a page is that pair;
    URL construction (`urljoin`, `quote`, `urlencode`) is not modelled and the
    oracle is indexed by folder name or message id instead of by URL. */
module Server {
  import opened Common
  import opened Text

  /** A hyperlink as the browser reports it: its target, its anchor text and
      the document's base URL (`""` when there is none). */
  datatype Link = Link(url: string, text: string, baseUrl: string)

  datatype Page = Page(body: string, links: seq<Link>)

  /** A folder listing: the page the folder URL opens, then the pages each
      successive "Next Page" link opens. Asking past the end returns the last
      page again. */
  datatype Listing = Listing(first: Page, later: seq<Page>)
  {
    function Pages(): seq<Page>
    {
      [first] + later
    }

    function Count(): (n: nat)
      ensures n >= 1 && n == |Pages()|
    {
      1 + |later|
    }

    /** The page reached after `k` "Next Page" requests. */
    function PageAt(k: nat): (p: Page)
      ensures k < Count() ==> p == Pages()[k]
      ensures k >= Count() ==> p == Pages()[Count() - 1]
    {
      if k < Count() then Pages()[k] else Pages()[Count() - 1]
    }
  }

  /** Everything the server answers. `logonForm` says whether the logon page
      has a form named `logonForm`; `afterLogon` is the page after submitting
      the credentials; the three functions answer the folder, message-body
      and delete requests. The oracle is fixed: deleting a message does not
      change what the server answers afterwards. */
  datatype Server = Server(
    logonForm: bool,
    afterLogon: Page,
    listing: string -> Listing,
    messageBody: Id -> string,
    deleteReply: Id -> string)

  /** The marker that identifies a message link. */
  const EmlMarker := ".EML"

  /** The anchor text of the link to the next listing page. */
  const NextPageText := "Next Page"

  /** The targets of the links that contain `.EML`, in page order. */
  function EmlUrls(links: seq<Link>): (r: seq<Id>)
    ensures |r| <= |links|
    ensures forall i :: 0 <= i < |r| ==> Contains(r[i], EmlMarker)
    ensures forall l :: l in links && Contains(l.url, EmlMarker) ==> l.url in r
    ensures forall u :: u in r ==> exists l :: l in links && l.url == u
  {
    if links == [] then []
    else
      var rest := EmlUrls(links[1..]);
      assert forall l :: l in links[1..] ==> l in links;
      if Contains(links[0].url, EmlMarker) then [links[0].url] + rest else rest
  }

  /** One link contributes its target exactly when the target contains `.EML`. */
  lemma EmlUrlsSingle(l: Link)
    ensures EmlUrls([l]) == if Contains(l.url, EmlMarker) then [l.url] else []
  {
    assert [l][1..] == [];
  }

  /** Reading two runs of links one after the other yields the first run's
      targets followed by the second's: the order and multiplicity of the
      page are kept. */
  lemma {:induction false} EmlUrlsAppend(a: seq<Link>, b: seq<Link>)
    ensures EmlUrls(a + b) == EmlUrls(a) + EmlUrls(b)
    decreases |a|
  {
    if a != [] {
      assert (a + b)[1..] == a[1..] + b;
      assert (a + b)[0] == a[0];
      EmlUrlsAppend(a[1..], b);
    } else {
      assert a + b == b;
    }
  }

  /** `links[i]` is the first link whose text contains "Next Page". */
  ghost predicate FirstNextAt(links: seq<Link>, i: int)
  {
    && 0 <= i < |links|
    && Contains(links[i].text, NextPageText)
    && forall j :: 0 <= j < i ==> !Contains(links[j].text, NextPageText)
  }

  /** The target of the first link whose text contains "Next Page"; the
      client indexes `[0]` into the list of such targets, so `None` is where it
      raises. */
  function NextPageUrl(links: seq<Link>): (r: Option<string>)
    ensures r.None? <==> forall l :: l in links ==> !Contains(l.text, NextPageText)
    ensures r.Some? ==> exists i :: FirstNextAt(links, i) && links[i].url == r.value
  {
    if links == [] then None
    else if Contains(links[0].text, NextPageText) then
      assert FirstNextAt(links, 0);
      Some(links[0].url)
    else
      var rest := NextPageUrl(links[1..]);
      assert forall l :: l in links ==> l == links[0] || l in links[1..];
      if rest.Some? then
        assert exists k :: FirstNextAt(links, k) && links[k].url == rest.value by {
          var i :| FirstNextAt(links[1..], i) && links[1..][i].url == rest.value;
          forall j | 0 <= j < i + 1
            ensures !Contains(links[j].text, NextPageText)
          {
            if j > 0 {
              assert links[j] == links[1..][j - 1];
            }
          }
          assert FirstNextAt(links, i + 1);
        }
        rest
      else rest
  }

  predicate HasNextPage(p: Page)
  {
    NextPageUrl(p.links).Some?
  }
}
