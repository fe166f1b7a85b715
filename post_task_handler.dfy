/** handlers::PostTaskHandler::can_handle of src/handlers/post_task_handler.cpp. */
module PostTaskHandler {
  import opened Requests

  /** POST with a target starting with /task. */
  predicate CanHandle(req: Request) {
    req.verb == Post && StartsWith(req.target, "/task")
  }

  /** Any other method is refused, whatever the target. */
  lemma AcceptsOnlyPost(req: Request)
    requires req.verb != Post
    ensures !CanHandle(req)
  {
  }

  /** The test is a prefix test: whatever follows an accepted target is accepted too. */
  lemma AcceptsExtensions(req: Request, suffix: string)
    requires CanHandle(req)
    ensures CanHandle(req.(target := req.target + suffix))
  {
    StartsWithExtend(req.target, "/task", suffix);
  }

  /** Only the method and the target matter; the body does not. */
  lemma IgnoresBody(req: Request, body: string)
    ensures CanHandle(req.(body := body)) == CanHandle(req)
  {
  }

  /** POST /task is accepted, and so are /tasks and /task/1. */
  lemma Examples(body: string)
    ensures CanHandle(Request(Post, "/task", body))
    ensures CanHandle(Request(Post, "/tasks", body))
    ensures CanHandle(Request(Post, "/task/1", body))
  {
    AcceptsExtensions(Request(Post, "/task", body), "s");
    AcceptsExtensions(Request(Post, "/task", body), "/1");
  }
}
