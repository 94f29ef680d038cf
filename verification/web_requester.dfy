/** `ResourceWebRequester`: one pooled fetch of a bundle or a raw file.
    The Unity request objects are reduced to what the engine observes of
    them: the strategy chosen, and the done / error / content status the
    platform reports when polled. */
module WebRequester {
  import opened Basics
  import opened Pools

  /** What the platform reports about an in-flight request when it is polled;
      an empty `error` stands for a null or empty error string. */
  datatype IoStatus = IoStatus(done: bool, error: string, content: Handle)

  const Pending: IoStatus := IoStatus(false, [], None)

  /** The two kinds of `UnityWebRequest` the requester creates. */
  datatype WebKind = BundleDownload | PlainGet

  /** A `UnityWebRequest` that has been sent. */
  datatype WebRequest = WebRequest(kind: WebKind, url: string, timeout: int, status: IoStatus)

  /** An `AssetBundleCreateRequest` from `AssetBundle.LoadFromFileAsync`. */
  datatype FileLoad = FileLoad(path: string, status: IoStatus)

  datatype Requester = Requester(
    sequence: nat,
    name: string,        // assetbundleName: the key the request is registered under
    url: string,
    noCache: bool,       // do not publish the result into the bundle cache
    ab: bool,            // the payload is an asset bundle
    onlyHeader: bool,    // load the bundle from file instead of downloading it
    timeout: int,
    uwr: Option<WebRequest>,
    abRequest: Option<FileLoad>,
    isOver: bool)

  /** The constructor `ResourceWebRequester(sequence)`: every other field
      holds its default value. */
  function New(sequence: nat): Requester {
    Requester(sequence, [], [], false, false, false, 0, None, None, false)
  }

  /** `Init`: configure a (possibly recycled) requester for a new fetch.
      The file-load handle is not reset here; `Dispose` clears it. */
  function Init(r: Requester, name: string, url: string, noCache: bool, ab: bool,
                onlyHeader: bool, timeout: int): (r': Requester)
    ensures r'.name == name && r'.url == url && r'.noCache == noCache
    ensures r'.ab == ab && r'.onlyHeader == onlyHeader && r'.timeout == timeout
    ensures !r'.isOver && r'.uwr.None?
    ensures r'.sequence == r.sequence && r'.abRequest == r.abRequest
  {
    r.(name := name, url := url, noCache := noCache, ab := ab, onlyHeader := onlyHeader,
       timeout := timeout, uwr := None, isOver := false)
  }

  /** `IsDone()`. */
  predicate IsDone(r: Requester) {
    r.isOver
  }

  /** The three fetch strategies. */
  datatype Strategy = LoadFromFile | DownloadBundle | HttpGet

  /** `Start`: bundle headers are loaded from file, full bundles downloaded,
      anything else fetched with a plain GET. `created` tells whether the
      platform call returned a request object; a requester left with neither
      kind of request is done at once. */
  function Start(r: Requester, created: bool): (r': Requester)
    ensures r.ab && r.onlyHeader ==>
              r'.uwr == r.uwr && (r'.abRequest.Some? <==> created)
    ensures r.ab && !r.onlyHeader ==>
              && r'.abRequest == r.abRequest && (r'.uwr.Some? <==> created)
              && (created ==> r'.uwr.value.kind == BundleDownload)
    ensures !r.ab ==>
              && r'.abRequest == r.abRequest && (r'.uwr.Some? <==> created)
              && (created ==> r'.uwr.value.kind == PlainGet)
    ensures r'.uwr.Some? && r'.uwr != r.uwr ==>
              r'.uwr.value.url == r.url && r'.uwr.value.timeout == r.timeout && r'.uwr.value.status == Pending
    ensures IsDone(r') <==> IsDone(r) || (r'.uwr.None? && r'.abRequest.None?)
    ensures r'.name == r.name && r'.noCache == r.noCache && r'.sequence == r.sequence
  {
    var r1 :=
      if r.ab && r.onlyHeader then
        r.(abRequest := if created then Some(FileLoad(r.url, Pending)) else None)
      else
        var kind := if r.ab then BundleDownload else PlainGet;
        r.(uwr := if created then Some(WebRequest(kind, r.url, r.timeout, Pending)) else None);
    if r1.uwr.None? && r1.abRequest.None? then r1.(isOver := true) else r1
  }

  /** The strategy `Start` picked, read back from the request it created. */
  function StrategyOf(r: Requester): Option<Strategy> {
    if r.uwr.Some? then Some(if r.uwr.value.kind == BundleDownload then DownloadBundle else HttpGet)
    else if r.abRequest.Some? then Some(LoadFromFile)
    else None
  }

  /** `Update`: poll the platform. A web request is over once it finished or
      reported an error; a file load once it finished. A finished requester
      is left alone. */
  function Update(r: Requester, st: IoStatus): (r': Requester)
    ensures IsDone(r) ==> r' == r
    ensures r.uwr.None? && r.abRequest.None? ==> r' == r
    ensures !IsDone(r) && r.uwr.Some? ==> (IsDone(r') <==> st.done || st.error != [])
    ensures !IsDone(r) && r.uwr.None? && r.abRequest.Some? ==> (IsDone(r') <==> st.done)
    ensures r'.name == r.name && r'.noCache == r.noCache && r'.sequence == r.sequence
    ensures r'.uwr.Some? == r.uwr.Some? && r'.abRequest.Some? == r.abRequest.Some?
  {
    if r.isOver then r
    else if r.uwr.Some? then
      r.(uwr := Some(r.uwr.value.(status := st)), isOver := st.done || st.error != [])
    else if r.abRequest.Some? then
      r.(abRequest := Some(r.abRequest.value.(status := st)), isOver := st.done)
    else r
  }

  /** `error`: the web request's error string, null when there is no web
      request or its error string is empty. */
  function Error(r: Requester): (e: Option<string>)
    ensures e.None? <==> r.uwr.None? || r.uwr.value.status.error == []
    ensures e.Some? ==> e.value == r.uwr.value.status.error
  {
    if r.uwr.None? || r.uwr.value.status.error == [] then None else Some(r.uwr.value.status.error)
  }

  /** `assetbundle`: the bundle of the web request if there is one, else of
      the file load, else null. `DownloadHandlerAssetBundle.GetContent`
      yields no bundle for a request that failed, so a failed download's
      content is null. */
  function Content(r: Requester): (c: Handle)
    ensures Error(r).Some? ==> c.None?
    ensures r.uwr.None? && r.abRequest.None? ==> c.None?
    ensures r.uwr.None? && r.abRequest.Some? ==> c == r.abRequest.value.status.content
    ensures r.uwr.Some? && Error(r).None? ==> c == r.uwr.value.status.content
  {
    if r.uwr.Some? then (if r.uwr.value.status.error != [] then None else r.uwr.value.status.content)
    else if r.abRequest.Some? then r.abRequest.value.status.content
    else None
  }

  /** The request handles released by `Dispose`. */
  function ClearHandles(r: Requester): Requester {
    r.(uwr := None, abRequest := None)
  }

  /** A web request that reports an error ends polling even though the
      platform has not flagged it finished; the error is visible and the
      content is null. */
  lemma ErrorEndsPolling(r: Requester, st: IoStatus)
    requires !IsDone(r) && r.uwr.Some? && st.error != []
    ensures IsDone(Update(r, st)) && Error(Update(r, st)) == Some(st.error)
    ensures Content(Update(r, st)).None?
  {
  }

  /** A requester that was started with a request object completes at the
      first poll that reports the request finished, whatever its strategy,
      and, unless the poll reports an error, its content is then what that
      poll reported. */
  lemma StartedRequestCompletes(r: Requester, st: IoStatus)
    requires !IsDone(r) && r.uwr.None? && st.done
    ensures var r' := Update(Start(r, true), st);
            IsDone(r') && (st.error == [] ==> Content(r') == st.content)
  {
  }

  /** A recycled requester, once re-initialised, is indistinguishable from a
      freshly constructed one with the same sequence number. */
  lemma RecycledInitIsFresh(r: Requester, name: string, url: string, noCache: bool, ab: bool,
                            onlyHeader: bool, timeout: int)
    ensures Init(ClearHandles(r), name, url, noCache, ab, onlyHeader, timeout)
         == Init(New(r.sequence), name, url, noCache, ab, onlyHeader, timeout)
  {
  }

  // ---------------------------------------------------------------------
  // The static pool

  type RequesterPool = Pool<Requester>

  /** `Dispose()`: release both request handles and recycle the requester. */
  function Dispose(p: RequesterPool, id: nat): (q: RequesterPool)
    requires id in p.objs
    ensures Valid(p) ==> Valid(q)
    ensures q.objs.Keys == p.objs.Keys
    ensures q.objs[id].uwr.None? && q.objs[id].abRequest.None?
    ensures q.objs[id].name == p.objs[id].name && q.objs[id].isOver == p.objs[id].isOver
    ensures forall other :: other in p.objs && other != id ==> q.objs[other] == p.objs[other]
    ensures q.free == p.free + [id] && |q.free| == |p.free| + 1
  {
    Recycle(Put(p, id, ClearHandles(p.objs[id])), id)
  }
}
