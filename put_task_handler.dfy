/** handlers::PutTaskHandler::can_handle of src/handlers/put_task_handler.cpp. */
module PutTaskHandler {
  import opened Requests

  /** PUT with a target starting with /task. */
  predicate CanHandle(req: Request) {
    req.verb == Put && StartsWith(req.target, "/task")
  }

  /** Any other method is refused, whatever the target. */
  lemma AcceptsOnlyPut(req: Request)
    requires req.verb != Put
    ensures !CanHandle(req)
  {
  }

  /** The test is a prefix test: whatever follows an accepted target is accepted too. */
  lemma AcceptsExtensions(req: Request, suffix: string)
    requires CanHandle(req)
    ensures CanHandle(req.(target := req.target + suffix))
  {
    StartsWithExtend(req.target, "/task", suffix);
  }

  /** Only the method and the target matter; the body does not. */
  lemma IgnoresBody(req: Request, body: string)
    ensures CanHandle(req.(body := body)) == CanHandle(req)
  {
  }

  /** PUT /task is accepted, and so are /tasks and /task/7; PUT / is not. */
  lemma Examples(body: string)
    ensures CanHandle(Request(Put, "/task", body))
    ensures CanHandle(Request(Put, "/tasks", body))
    ensures CanHandle(Request(Put, "/task/7", body))
    ensures !CanHandle(Request(Put, "/", body))
  {
    AcceptsExtensions(Request(Put, "/task", body), "s");
    AcceptsExtensions(Request(Put, "/task", body), "/7");
  }
}
