/** The node's HTTP server: a request body arriving in fragments, and the dispatch once it is complete. */
module Http {
  import opened Common
  import opened Text
  import opened FileTree
  import opened Storage
  import opened StorageNode
  import NodeRuns

  datatype Verb = POST | GET | DELETE | OtherVerb

  /** Method, url and the two headers the server looks up. */
  datatype Request = Request(verb: Verb, url: string, filename: Option<string>, chunkId: Option<string>)

  datatype Page =
    | Error(text: string)
    | ChunkSaved(chunkId: int, size: nat)
    | Deleted
    | Content(data: Bytes)
    | NullPage  // page is still NULL when the response is built

  /** Crashed: the upload pushed onto entry -1, and nothing can be said about what follows. */
  datatype Response = Response(status: int, page: Page) | Crashed

  predicate UploadsChunk(req: Request, body: Bytes) {
    && req.verb.POST? && req.url == "/new-chunk"
    && req.filename.Some? && req.chunkId.Some? && body != []
  }

  function Dispatch(n: Node, req: Request, body: Bytes, w: Write): (Node, Response) {
    match req.verb
    case POST =>
      if req.url != "/new-chunk" then (n, Response(404, Error("404 Not Found")))
      else if req.filename.None? || req.chunkId.None? then
        (n, Response(400, Error("Missing X-Filename or X-Chunk-ID")))
      else if body == [] then (n, Response(400, Error("No request body")))
      else
        var c := Atoi(req.chunkId.value);
        var (m, outcome) := Save(n, req.filename.value, c, body, w);
        (m, match outcome
            case Stored => Response(200, ChunkSaved(c, |body|))
            case Refused => Response(500, NullPage)
            case Undefined => Crashed)
    case GET =>
      if req.url != "/chunk" then (n, Response(404, Error("404 Not Found")))
      else if req.filename.None? || req.chunkId.None? then
        (n, Response(400, Error("Missing X-Filename or X-Chunk-ID")))
      else (n, match Lookup(n, req.filename.value, Atoi(req.chunkId.value))
               case None => Response(404, Error("404 Not Found"))
               case Some(data) => Response(200, Content(data)))
    case DELETE =>
      if req.url != "/remove-file" then (n, Response(404, Error("404 Not Found")))
      else if req.filename.None? then (n, Response(400, Error("Missing X-Filename ")))
      else
        var (m, ok) := Delete(n, req.filename.value);
        (m, if ok then Response(200, Deleted) else Response(500, Error("404 Not Found")))
    case OtherVerb => (n, Response(405, Error("Method Not Allowed")))
  }

  /** connection_info_t: the body received so far. */
  class ConnectionInfo {
    var data: array?<byte>
    var size: nat

    ghost predicate Valid()
      reads this
    {
      if data == null then size == 0 else size == data.Length
    }

    function Received(): Bytes
      reads this, data
    {
      if data == null then [] else data[..]
    }

    constructor ()
      ensures Valid() && Received() == []
    {
      data := null;
      size := 0;
    }

    /** realloc and memcpy of one fragment. */
    method Append(fragment: Bytes)
      requires Valid()
      modifies this
      ensures Valid() && fresh(data)
      ensures Received() == old(Received()) + fragment
    {
      var bigger := new byte[size + |fragment|];
      if data != null {
        forall i | 0 <= i < size {
          bigger[i] := data[i];
        }
      }
      forall i | 0 <= i < |fragment| {
        bigger[size + i] := fragment[i];
      }
      assert bigger[..] == Received() + fragment;
      data := bigger;
      size := size + |fragment|;
    }
  }

  /** Only the body of a post is collected; any other method answers at once, body or not. */
  predicate Collects(req: Request, upload: Bytes) {
    req.verb.POST? && upload != []
  }

  /** answer_to_connection: None means "call me again", Some is the queued response. */
  method AnswerToConnection(node: NodeState, con: ConnectionInfo?, req: Request, upload: Bytes, w: Write)
    returns (con': ConnectionInfo?, reply: Option<Response>)
    requires node.Valid() && WellFormed(node.fs.tree)
    requires con != null ==> con.Valid()
    modifies con, node, node.entries, node.fs
    ensures node.Valid() && (node.entries == old(node.entries) || fresh(node.entries))
    ensures con == null ==> con' != null && fresh(con') && con'.Valid() && con'.Received() == []
    ensures con != null ==> con' == con && con.Valid()
    ensures con == null || Collects(req, upload) ==>
      reply == None && unchanged(node) && unchanged(node.entries) && unchanged(node.fs)
    ensures con != null && Collects(req, upload) ==> con.Received() == old(con.Received()) + upload
    ensures con != null && !Collects(req, upload) ==>
      reply.Some? && (node.Value(), reply.value) == Dispatch(old(node.Value()), req, old(con.Received()), w)
  {
    con' := con;
    if con == null {
      con' := new ConnectionInfo();
      return con', None;
    }
    if Collects(req, upload) {
      con.Append(upload);
      return con, None;
    }
    var body := con.Received();
    var status, page := 200, NullPage;
    if req.verb.POST? {
      if req.url == "/new-chunk" {
        if req.filename.None? || req.chunkId.None? {
          status, page := 400, Error("Missing X-Filename or X-Chunk-ID");
        } else if con.data != null && con.size > 0 {
          var c := Atoi(req.chunkId.value);
          var outcome := node.SaveChunkToFile(req.filename.value, body, c, w);
          match outcome {
            case Stored => page := ChunkSaved(c, con.size);
            case Refused => status := 500;
            case Undefined => return con, Some(Crashed);
          }
        } else {
          status, page := 400, Error("No request body");
        }
      } else {
        status, page := 404, Error("404 Not Found");
      }
    } else if req.verb.GET? {
      if req.url == "/chunk" {
        if req.filename.None? || req.chunkId.None? {
          status, page := 400, Error("Missing X-Filename or X-Chunk-ID");
        } else {
          var fd := node.GetFileDescriptor(req.filename.value, Atoi(req.chunkId.value));
          if fd.None? {
            status, page := 404, Error("404 Not Found");
          } else {
            page := Content(fd.value);
          }
        }
      } else {
        status, page := 404, Error("404 Not Found");
      }
    } else if req.verb.DELETE? {
      if req.url == "/remove-file" {
        if req.filename.None? {
          status, page := 400, Error("Missing X-Filename ");
        } else {
          var ok := node.DeleteFile(req.filename.value);
          if ok {
            page := Deleted;
          } else {
            status, page := 500, Error("404 Not Found");
          }
        }
      } else {
        status, page := 404, Error("404 Not Found");
      }
    } else {
      status, page := 405, Error("Method Not Allowed");
    }
    return con, Some(Response(status, page));
  }

  lemma OtherBodiesAreIgnored(n: Node, req: Request, body: Bytes, other: Bytes, w: Write)
    requires !req.verb.POST?
    ensures Dispatch(n, req, body, w) == Dispatch(n, req, other, w)
  {
  }

  /**
   One request as the daemon plays it: a first call without state, one call per body fragment until a
   response is queued, and a last call without data. However the body was split, the dispatch sees its
   concatenation.
   */
  method ServeRequest(node: NodeState, req: Request, fragments: seq<Bytes>, w: Write) returns (response: Response)
    requires node.Valid() && WellFormed(node.fs.tree)
    requires forall i :: 0 <= i < |fragments| ==> fragments[i] != []
    modifies node, node.entries, node.fs
    ensures node.Valid() && (node.entries == old(node.entries) || fresh(node.entries))
    ensures (node.Value(), response) == Dispatch(old(node.Value()), req, Concat(fragments), w)
  {
    hide Dispatch;
    var con: ConnectionInfo?, reply := AnswerToConnection(node, null, req, [], w);
    for i := 0 to |fragments|
      invariant con != null && fresh(con) && con.Valid()
      invariant con.Received() == Concat(fragments[..i])
      invariant unchanged(node) && unchanged(node.entries) && unchanged(node.fs)
    {
      assert fragments[..i + 1][..i] == fragments[..i];
      con, reply := AnswerToConnection(node, con, req, fragments[i], w);
      if reply.Some? {
        OtherBodiesAreIgnored(old(node.Value()), req, Concat(fragments[..i]), Concat(fragments), w);
        return reply.value;
      }
    }
    assert fragments[..|fragments|] == fragments;
    con, reply := AnswerToConnection(node, con, req, [], w);
    return reply.value;
  }

  // Whole runs of requests against a fresh node

  datatype Exchange = Exchange(req: Request, fragments: seq<Bytes>, write: Write)

  /** The operation on the node that a request stands for, if any. */
  function OpOf(x: Exchange): Option<NodeRuns.NodeOp> {
    var body := Concat(x.fragments);
    if UploadsChunk(x.req, body) then
      Some(NodeRuns.Put(x.req.filename.value, Atoi(x.req.chunkId.value), body, x.write))
    else if x.req.verb.DELETE? && x.req.url == "/remove-file" && x.req.filename.Some? then
      Some(NodeRuns.Del(x.req.filename.value))
    else None
  }

  function OpsOf(xs: seq<Exchange>): seq<NodeRuns.NodeOp> {
    if xs == [] then []
    else
      var before := OpsOf(xs[..|xs| - 1]);
      match OpOf(xs[|xs| - 1])
      case None => before
      case Some(op) => before + [op]
  }

  /** The daemon never delivers an empty fragment. */
  ghost predicate Delivered(xs: seq<Exchange>) {
    forall i, j :: 0 <= i < |xs| && 0 <= j < |xs[i].fragments| ==> xs[i].fragments[j] != []
  }

  lemma DispatchIsOp(n: Node, x: Exchange)
    ensures var (m, response) := Dispatch(n, x.req, Concat(x.fragments), x.write);
      && m == (if OpOf(x).None? then n else NodeRuns.Apply(n, OpOf(x).value))
      && (response.Crashed? <==> OpOf(x).Some? && !NodeRuns.Defined(n, OpOf(x).value))
  {
  }

  /** The response to request number i of a run from the empty node. */
  ghost function Expected(xs: seq<Exchange>, i: nat): Response
    requires i < |xs|
  {
    Dispatch(NodeRuns.After(OpsOf(xs[..i])), xs[i].req, Concat(xs[i].fragments), xs[i].write).1
  }

  lemma NextOp(xs: seq<Exchange>, i: nat)
    requires i < |xs|
    ensures var n := NodeRuns.After(OpsOf(xs[..i]));
      && NodeRuns.After(OpsOf(xs[..i + 1])) == (if OpOf(xs[i]).None? then n else NodeRuns.Apply(n, OpOf(xs[i]).value))
      && (NodeRuns.DefinedRun(OpsOf(xs[..i + 1])) <==>
            NodeRuns.DefinedRun(OpsOf(xs[..i])) && !Expected(xs, i).Crashed?)
  {
    hide Dispatch, NodeRuns.After, NodeRuns.Defined, NodeRuns.DefinedRun;
    var ops := OpsOf(xs[..i]);
    assert xs[..i + 1][..i] == xs[..i];
    DispatchIsOp(NodeRuns.After(ops), xs[i]);
    if OpOf(xs[i]).Some? {
      NodeRuns.AfterOneMore(ops, OpOf(xs[i]).value);
      NodeRuns.DefinedOneMore(ops, OpOf(xs[i]).value);
    }
  }

  /** As many requests as there are responses were served as specified, from the empty node to n. */
  ghost predicate Served(xs: seq<Exchange>, n: Node, responses: seq<Response>) {
    && |responses| <= |xs| && n == NodeRuns.After(OpsOf(xs[..|responses|]))
    && forall i :: 0 <= i < |responses| ==> responses[i] == Expected(xs, i)
  }

  ghost predicate NoCrash(responses: seq<Response>) {
    forall r :: r in responses ==> !r.Crashed?
  }

  lemma ServedOneMore(xs: seq<Exchange>, n: Node, m: Node, responses: seq<Response>, response: Response)
    requires Served(xs, n, responses) && NoCrash(responses) && |responses| < |xs|
    requires var x := xs[|responses|]; (m, response) == Dispatch(n, x.req, Concat(x.fragments), x.write)
    requires NodeRuns.DefinedRun(OpsOf(xs[..|responses|]))
    ensures Served(xs, m, responses + [response])
    ensures NodeRuns.DefinedRun(OpsOf(xs[..|responses| + 1])) <==> !response.Crashed?
    ensures NoCrash(responses + [response]) <==> !response.Crashed?
  {
    hide Dispatch, NodeRuns.After, NodeRuns.Defined, NodeRuns.DefinedRun, NodeRuns.Apply, Expected, OpsOf, OpOf;
    var k := |responses|;
    ExpectedIs(xs, k);
    DispatchIsOp(n, xs[k]);
    NextOp(xs, k);
    assert (responses + [response])[k] == response;
  }

  lemma NothingServed(xs: seq<Exchange>)
    ensures Served(xs, EMPTY_NODE, []) && NodeRuns.DefinedRun(OpsOf(xs[..0])) && NoCrash([])
  {
  }

  lemma SoundWhileServing(xs: seq<Exchange>, n: Node, responses: seq<Response>)
    requires Served(xs, n, responses) && NodeRuns.DefinedRun(OpsOf(xs[..|responses|]))
    ensures Sound(n) && WellFormed(n.tree)
  {
    NodeRuns.DefinedRunsAreSound(OpsOf(xs[..|responses|]));
    FlatIsWellFormed(n.tree);
  }

  /**
   A fresh node serving any sequence of requests, whatever its writes do: up to the first request without
   defined behaviour, where it stops, its index array and file system are at all times the specified run of
   saves and deletes and it answers as specified, so everything proved of defined runs holds of it.
   */
  method ServeRequests(xs: seq<Exchange>) returns (node: NodeState, responses: seq<Response>)
    requires Delivered(xs)
    ensures fresh(node) && fresh(node.entries) && fresh(node.fs) && node.Valid()
    ensures Served(xs, node.Value(), responses)
    ensures NoCrash(responses) <==> NodeRuns.DefinedRun(OpsOf(xs))
    ensures NoCrash(responses) ==> |responses| == |xs| && Sound(node.Value())
    ensures !NoCrash(responses) ==> responses[|responses| - 1].Crashed? && NoCrash(responses[..|responses| - 1])
  {
    hide Sound, Dispatch, OpsOf, NodeRuns.DefinedRun, Served, NoCrash;
    node := new NodeState();
    responses := [];
    NothingServed(xs);
    for k := 0 to |xs|
      invariant fresh(node) && fresh(node.entries) && fresh(node.fs) && node.Valid()
      invariant |responses| == k && Served(xs, node.Value(), responses) && NoCrash(responses)
      invariant NodeRuns.DefinedRun(OpsOf(xs[..k]))
    {
      ghost var before := node.Value();
      SoundWhileServing(xs, before, responses);
      var response := ServeRequest(node, xs[k].req, xs[k].fragments, xs[k].write);
      ServedOneMore(xs, before, node.Value(), responses, response);
      responses := responses + [response];
      if response.Crashed? {
        DefinedUpTo(xs, k + 1);
        assert responses[..k] == responses[..|responses| - 1];
        return;
      }
    }
    assert xs[..|xs|] == xs;
    SoundWhileServing(xs, node.Value(), responses);
  }

  lemma ExpectedIs(xs: seq<Exchange>, k: nat)
    requires k < |xs|
    ensures Expected(xs, k)
         == Dispatch(NodeRuns.After(OpsOf(xs[..k])), xs[k].req, Concat(xs[k].fragments), xs[k].write).1
  {
  }

  /** A run with an undefined prefix is not defined. */
  lemma {:induction false} DefinedUpTo(xs: seq<Exchange>, k: nat)
    requires k <= |xs|
    ensures NodeRuns.DefinedRun(OpsOf(xs)) ==> NodeRuns.DefinedRun(OpsOf(xs[..k]))
    decreases |xs|
  {
    hide NodeRuns.DefinedRun, Expected;
    if k < |xs| {
      var last := |xs| - 1;
      NextOp(xs, last);
      assert xs[..|xs|] == xs && xs[..last][..k] == xs[..k];
      DefinedUpTo(xs[..last], k);
    } else {
      assert xs[..k] == xs;
    }
  }

  // The client's requests

  /** The client's upload and download requests. */
  function PostChunk(f: string, c: int): Request {
    Request(POST, "/new-chunk", Some(f), Some(Decimal(c)))
  }

  function GetChunk(f: string, c: int): Request {
    Request(GET, "/chunk", Some(f), Some(Decimal(c)))
  }

  predicate Ok(response: Response) {
    response.Response? && response.status == 200
  }

  /** A client's post of a non-empty chunk is exactly a save; 200 means the chunk was there or is now. */
  lemma PostIsSave(n: Node, f: string, c: int, data: Bytes, w: Write)
    requires data != []
    ensures Atoi(PostChunk(f, c).chunkId.value) == c
    ensures var ((m, response), (saved, outcome)) := (Dispatch(n, PostChunk(f, c), data, w), Save(n, f, c, data, w));
      && m == saved
      && (Ok(response) <==> outcome == Stored) && (response.Crashed? <==> outcome == Undefined)
      && (Ok(response) <==>
            OnDisk(n.tree, f, c) || (w.Wrote? && w.count >= |data| && (HasFiles(n.tree, f) ==> n.index != [])))
  {
    AtoiInvertsDecimal(c);
  }

  /** A client's get answers 200 with the chunk's bytes exactly when the guarded lookup finds it. */
  lemma GetIsLookup(n: Node, f: string, c: int, w: Write)
    ensures var (m, response) := Dispatch(n, GetChunk(f, c), [], w);
      && m == n
      && (Ok(response) <==> Lookup(n, f, c).Some?)
      && (Ok(response) ==> response.page == Content(Lookup(n, f, c).value))
  {
    AtoiInvertsDecimal(c);
  }

  /** A delete request is exactly delete_file: 200 when the file had a directory, else 500 and no change. */
  lemma DeleteRequestIsDelete(n: Node, f: string, w: Write)
    requires Sound(n)
    ensures var (m, response) := Dispatch(n, Request(DELETE, "/remove-file", Some(f), None), [], w);
      && response.Response? && response.status == (if [f] in n.tree then 200 else 500)
      && (response.status != 200 ==> m == n)
      && (forall c :: !OnDisk(m.tree, f, c) && !Indexed(m.index, f, c))
  {
    hide Sound, Consistent;
    NodeRuns.DeleteEffect(n, f);
    var m := Delete(n, f).0;
    forall c ensures !Indexed(m.index, f, c) {
      assert !Named(m.index, f);
    }
  }

  /** The only replies without a page are uploads whose write failed. */
  lemma NullPageIff(n: Node, req: Request, body: Bytes, w: Write)
    ensures var response := Dispatch(n, req, body, w).1;
      response.Response? && response.page.NullPage? <==>
        && UploadsChunk(req, body)
        && !OnDisk(n.tree, req.filename.value, Atoi(req.chunkId.value))
        && (w.OpenFails? || w.count < |body|)
  {
  }

  /** The only requests without defined behaviour: a complete upload of a missing chunk into a lost directory. */
  lemma CrashIff(n: Node, req: Request, body: Bytes, w: Write)
    ensures Dispatch(n, req, body, w).1.Crashed? <==>
      && UploadsChunk(req, body)
      && !OnDisk(n.tree, req.filename.value, Atoi(req.chunkId.value))
      && w.Wrote? && w.count >= |body|
      && HasFiles(n.tree, req.filename.value) && n.index == []
  {
  }

  // Every reply

  predicate RightPath(req: Request) {
    match req.verb
    case POST => req.url == "/new-chunk"
    case GET => req.url == "/chunk"
    case DELETE => req.url == "/remove-file"
    case OtherVerb => false
  }

  predicate HeadersPresent(req: Request) {
    req.filename.Some? && (req.verb.DELETE? || req.chunkId.Some?)
  }

  /** The request gets as far as the node. */
  predicate ReachesNode(req: Request, body: Bytes) {
    RightPath(req) && HeadersPresent(req) && (req.verb.POST? ==> body != [])
  }

  /** Which status answers which request, and what the page says. */
  lemma RepliesAre(n: Node, req: Request, body: Bytes, w: Write)
    ensures var (m, r) := Dispatch(n, req, body, w);
      var known := req.verb != OtherVerb;
      && (!ReachesNode(req, body) ==> r.Response? && m == n)
      && (r == Response(405, Error("Method Not Allowed")) <==> !known)
      && (known && !RightPath(req) ==> r == Response(404, Error("404 Not Found")))
      && (RightPath(req) && !HeadersPresent(req) && req.verb.DELETE? ==>
            r == Response(400, Error("Missing X-Filename ")))
      && (RightPath(req) && !HeadersPresent(req) && !req.verb.DELETE? ==>
            r == Response(400, Error("Missing X-Filename or X-Chunk-ID")))
      && (RightPath(req) && HeadersPresent(req) && req.verb.POST? && body == [] ==>
            r == Response(400, Error("No request body")))
      && (r.Response? && r.status == 405 ==> !known)
      && (r.Response? && r.status == 400 ==> known && RightPath(req) && !ReachesNode(req, body))
      && (r.Response? && r.status == 404 ==> known && (!RightPath(req) || req.verb.GET?))
  {
  }

  /** What the node's answer turns into once the request reaches it. */
  lemma ServedRepliesAre(n: Node, req: Request, body: Bytes, w: Write)
    requires ReachesNode(req, body)
    ensures var (m, r) := Dispatch(n, req, body, w);
      match req.verb
      case POST =>
        var c := Atoi(req.chunkId.value);
        var (saved, outcome) := Save(n, req.filename.value, c, body, w);
        && m == saved
        && r == (match outcome
                 case Stored => Response(200, ChunkSaved(c, |body|))
                 case Refused => Response(500, NullPage)
                 case Undefined => Crashed)
      case GET =>
        && m == n
        && r == (match Lookup(n, req.filename.value, Atoi(req.chunkId.value))
                 case Some(data) => Response(200, Content(data))
                 case None => Response(404, Error("404 Not Found")))
      case DELETE =>
        && m == Delete(n, req.filename.value).0
        && r == (if Delete(n, req.filename.value).1 then Response(200, Deleted)
                 else Response(500, Error("404 Not Found")))
      case OtherVerb => false
  {
  }

  /** After a delete request the file's directory is gone, and a second one answers 500 and changes nothing. */
  lemma SecondDeleteFails(n: Node, f: string, w: Write)
    requires Flat(n.tree)
    ensures var delete := Request(DELETE, "/remove-file", Some(f), None);
      var m := Dispatch(n, delete, [], w).0;
      && (forall p :: p in m.tree <==> p in n.tree && p[0] != f)
      && Dispatch(m, delete, [], w) == (m, Response(500, Error("404 Not Found")))
  {
    DeleteIs(n, f);
    var m := Delete(n, f).0;
    assert Flat(m.tree) by {
      if [f] in n.tree {
        NodeRuns.WithoutStaysFlat(n.tree, f);
      }
    }
    DeleteIs(m, f);
  }
}
