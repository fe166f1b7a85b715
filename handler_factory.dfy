/**
 * Handler resolution (src/handler_factory.cpp). A registered handler is a
 * descriptor naming one of the five handler classes: its predicate is that
 * class's can_handle, and its product (`create()`) is a new handler of the
 * same class.
 */
module Handlers {
  import opened Wrappers
  import opened Requests
  import GetTasksHandler
  import GetTaskHandler
  import PostTaskHandler
  import PutTaskHandler
  import DeleteTaskHandler

  datatype RequestHandler = GetTasks | GetTask | PostTask | PutTask | DeleteTask

  /** RequestHandler::can_handle, dispatched on the handler's class. */
  predicate CanHandle(h: RequestHandler, req: Request) {
    match h
    case GetTasks => GetTasksHandler.CanHandle(req)
    case GetTask => GetTaskHandler.CanHandle(req)
    case PostTask => PostTaskHandler.CanHandle(req)
    case PutTask => PutTaskHandler.CanHandle(req)
    case DeleteTask => DeleteTaskHandler.CanHandle(req)
  }

  /** k is the lowest index whose handler accepts the request. */
  predicate IsFirstMatch(hs: seq<RequestHandler>, req: Request, k: int) {
    0 <= k < |hs| && CanHandle(hs[k], req) && forall i :: 0 <= i < k ==> !CanHandle(hs[i], req)
  }

  /** The handler a scan of the registry in order produces, None standing for nullptr. */
  function Resolve(hs: seq<RequestHandler>, req: Request): (r: Option<RequestHandler>)
    ensures r.Some? ==> r.value in hs && CanHandle(r.value, req)
  {
    if hs == [] then None
    else if CanHandle(hs[0], req) then Some(hs[0])
    else Resolve(hs[1..], req)
  }

  /** First match wins: the product is that of the lowest-index accepting handler. */
  lemma {:induction false} ResolveFirstMatch(hs: seq<RequestHandler>, req: Request, k: int)
    requires IsFirstMatch(hs, req, k)
    ensures Resolve(hs, req) == Some(hs[k])
  {
    if k > 0 {
      assert !CanHandle(hs[0], req);
      ResolveFirstMatch(hs[1..], req, k - 1);
    }
  }

  /** The result is null exactly when no registered handler accepts the request. */
  lemma {:induction false} ResolveNoneIff(hs: seq<RequestHandler>, req: Request)
    ensures Resolve(hs, req).None? <==> forall i :: 0 <= i < |hs| ==> !CanHandle(hs[i], req)
  {
    if hs != [] && !CanHandle(hs[0], req) {
      ResolveNoneIff(hs[1..], req);
      assert forall i :: 1 <= i < |hs| ==> hs[i] == hs[1..][i - 1];
    }
  }

  /** No handler after the first match is consulted: what follows it can be anything. */
  lemma {:induction false} ResolveIgnoresLaterHandlers(hs: seq<RequestHandler>, rest: seq<RequestHandler>, req: Request)
    requires Resolve(hs, req).Some?
    ensures Resolve(hs + rest, req) == Resolve(hs, req)
  {
    if !CanHandle(hs[0], req) {
      assert (hs + rest)[1..] == hs[1..] + rest;
      ResolveIgnoresLaterHandlers(hs[1..], rest, req);
    }
  }

  /**
   * handlers::HandlerFactory. The registry never changes after construction:
   * create_handler is const.
   */
  class HandlerFactory {
    var handlers: seq<RequestHandler>

    /** The constructor registers no handler at all. */
    constructor ()
      ensures handlers == []
    {
      handlers := [];
    }

    /** HandlerFactory::create_handler: scans the registry in order and returns at the first match. */
    method CreateHandler(req: Request) returns (r: Option<RequestHandler>)
      ensures r == Resolve(handlers, req)
      ensures r.None? <==> forall i :: 0 <= i < |handlers| ==> !CanHandle(handlers[i], req)
      ensures r.Some? ==> exists k :: IsFirstMatch(handlers, req, k) && r.value == handlers[k]
    {
      var i := 0;
      while i != |handlers|
        invariant 0 <= i <= |handlers|
        invariant forall j :: 0 <= j < i ==> !CanHandle(handlers[j], req)
      {
        if CanHandle(handlers[i], req) {
          ResolveFirstMatch(handlers, req, i);
          return Some(handlers[i]);
        }
        i := i + 1;
      }
      ResolveNoneIff(handlers, req);
      return None;
    }
  }

  /** As written, a factory resolves every request to null. */
  method ResolveWithNewFactory(req: Request) returns (r: Option<RequestHandler>)
    ensures r == None
  {
    var factory := new HandlerFactory();
    r := factory.CreateHandler(req);
  }

  /**
   * Every request GetTasksHandler accepts, GetTaskHandler accepts too (its
   * prefix /task is a prefix of /tasks), so with both registered the one
   * registered first wins GET /tasks.
   */
  lemma GetTasksOverlapsGetTask(req: Request, body: string)
    ensures GetTasksHandler.CanHandle(req) ==> GetTaskHandler.CanHandle(req)
    ensures Resolve([GetTask, GetTasks], Request(Get, "/tasks", body)) == Some(GetTask)
    ensures Resolve([GetTasks, GetTask], Request(Get, "/tasks", body)) == Some(GetTasks)
  {
    if GetTasksHandler.CanHandle(req) {
      StartsWithTransitive(req.target, "/task", "/tasks");
    }
    GetTasksHandler.Examples(body);
  }

  /** POST and PUT both accept /task and its extensions, each only with its own method. */
  lemma PostAndPutShareTargets(target: string, body: string)
    ensures PostTaskHandler.CanHandle(Request(Post, target, body)) == PutTaskHandler.CanHandle(Request(Put, target, body))
  {
  }

  /** The methods differ, so no request PostTaskHandler accepts is accepted by a PUT, GET or DELETE handler. */
  lemma PostExcludesOthers(req: Request)
    requires PostTaskHandler.CanHandle(req)
    ensures !PutTaskHandler.CanHandle(req)
    ensures !GetTaskHandler.CanHandle(req) && !GetTasksHandler.CanHandle(req)
    ensures !DeleteTaskHandler.CanHandle(req)
  {
  }

  /** DeleteTaskHandler wants /delete: DELETE /task/5 matches no handler in any registry. */
  lemma DeleteOfTaskPathMatchesNothing(hs: seq<RequestHandler>, body: string)
    ensures Resolve(hs, Request(Delete, "/task/5", body)) == None
  {
    DeleteTaskHandler.Examples(body);
    ResolveNoneIff(hs, Request(Delete, "/task/5", body));
  }
}
