/** handlers::GetTasksHandler::can_handle of src/handlers/get_tasks_handler.cpp. */
module GetTasksHandler {
  import opened Requests

  /** GET with a target starting with /tasks. */
  predicate CanHandle(req: Request) {
    req.verb == Get && StartsWith(req.target, "/tasks")
  }

  /** Any other method is refused, whatever the target. */
  lemma AcceptsOnlyGet(req: Request)
    requires req.verb != Get
    ensures !CanHandle(req)
  {
  }

  /** The test is a prefix test: whatever follows an accepted target is accepted too. */
  lemma AcceptsExtensions(req: Request, suffix: string)
    requires CanHandle(req)
    ensures CanHandle(req.(target := req.target + suffix))
  {
    StartsWithExtend(req.target, "/tasks", suffix);
  }

  /** Only the method and the target matter; the body does not. */
  lemma IgnoresBody(req: Request, body: string)
    ensures CanHandle(req.(body := body)) == CanHandle(req)
  {
  }

  /** GET /tasks is accepted, and so are /tasks/1 and /tasksX; GET /task and GET / are not. */
  lemma Examples(body: string)
    ensures CanHandle(Request(Get, "/tasks", body))
    ensures CanHandle(Request(Get, "/tasks/1", body))
    ensures CanHandle(Request(Get, "/tasksX", body))
    ensures !CanHandle(Request(Get, "/task", body))
    ensures !CanHandle(Request(Get, "/", body))
  {
    AcceptsExtensions(Request(Get, "/tasks", body), "/1");
    AcceptsExtensions(Request(Get, "/tasks", body), "X");
  }
}
