/** The configured CloudTest servers. The registry itself (`CloudTestServer`) is not part of
    this model: it is an abstract lookup from a server ID, or from a URL, to a server. A key
    is an `Option` because the builders may ask with a `null` ID or URL; what the registry
    answers then is part of its state like any other answer. */
module CloudTestServers {
  import opened Wrappers

  /** One configured server: its ID, URL, user name and password (`null` when none is set). */
  datatype Server = Server(id: string, url: string, username: string, password: Option<string>)

  datatype Registry = Registry(byId: map<Option<string>, Server>, byUrl: map<Option<string>, Server>)

  /** `CloudTestServer.getByID(id)`; `None` is the `null` it returns for an unknown ID. */
  function GetById(reg: Registry, id: Option<string>): (r: Option<Server>)
    ensures r.Some? <==> id in reg.byId
    ensures r.Some? ==> r.value == reg.byId[id]
  {
    if id in reg.byId then Some(reg.byId[id]) else None
  }

  /** `CloudTestServer.getByURL(url)` (and `CloudTestServer.get(url)`, which looks a server
      up by its URL too). */
  function GetByUrl(reg: Registry, url: Option<string>): (r: Option<Server>)
    ensures r.Some? <==> url in reg.byUrl
    ensures r.Some? ==> r.value == reg.byUrl[url]
  {
    if url in reg.byUrl then Some(reg.byUrl[url]) else None
  }
}
