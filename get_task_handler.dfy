/** handlers::GetTaskHandler::can_handle of src/handlers/get_task_handler.cpp. */
module GetTaskHandler {
  import opened Requests

  /** GET with a target starting with /task. */
  predicate CanHandle(req: Request) {
    req.verb == Get && StartsWith(req.target, "/task")
  }

  /** Any other method is refused, whatever the target. */
  lemma AcceptsOnlyGet(req: Request)
    requires req.verb != Get
    ensures !CanHandle(req)
  {
  }

  /** The test is a prefix test: whatever follows an accepted target is accepted too. */
  lemma AcceptsExtensions(req: Request, suffix: string)
    requires CanHandle(req)
    ensures CanHandle(req.(target := req.target + suffix))
  {
    StartsWithExtend(req.target, "/task", suffix);
  }

  /** Only the method and the target matter; the body does not. */
  lemma IgnoresBody(req: Request, body: string)
    ensures CanHandle(req.(body := body)) == CanHandle(req)
  {
  }

  /** GET /task, /task/42 and also /tasks are accepted; GET / and /delete/1 are not. */
  lemma Examples(body: string)
    ensures CanHandle(Request(Get, "/task", body))
    ensures CanHandle(Request(Get, "/task/42", body))
    ensures CanHandle(Request(Get, "/tasks", body))
    ensures !CanHandle(Request(Get, "/", body))
    ensures !CanHandle(Request(Get, "/delete/1", body))
  {
    AcceptsExtensions(Request(Get, "/task", body), "/42");
    AcceptsExtensions(Request(Get, "/task", body), "s");
    assert "/delete/1"[..5][1] == 'd' != "/task"[1];
  }
}
