/** handlers::DeleteTaskHandler::can_handle of src/handlers/delete_task_handler.cpp. */
module DeleteTaskHandler {
  import opened Requests

  /** DELETE with a target starting with /delete. */
  predicate CanHandle(req: Request) {
    req.verb == Delete && StartsWith(req.target, "/delete")
  }

  /** Any other method is refused, whatever the target. */
  lemma AcceptsOnlyDelete(req: Request)
    requires req.verb != Delete
    ensures !CanHandle(req)
  {
  }

  /** The test is a prefix test: whatever follows an accepted target is accepted too. */
  lemma AcceptsExtensions(req: Request, suffix: string)
    requires CanHandle(req)
    ensures CanHandle(req.(target := req.target + suffix))
  {
    StartsWithExtend(req.target, "/delete", suffix);
  }

  /** Only the method and the target matter; the body does not. */
  lemma IgnoresBody(req: Request, body: string)
    ensures CanHandle(req.(body := body)) == CanHandle(req)
  {
  }

  /** DELETE /delete, /delete/5 and /deleteall are accepted; DELETE /task/5 is not. */
  lemma Examples(body: string)
    ensures CanHandle(Request(Delete, "/delete", body))
    ensures CanHandle(Request(Delete, "/delete/5", body))
    ensures CanHandle(Request(Delete, "/deleteall", body))
    ensures !CanHandle(Request(Delete, "/task/5", body))
  {
    AcceptsExtensions(Request(Delete, "/delete", body), "/5");
    AcceptsExtensions(Request(Delete, "/delete", body), "all");
    assert "/task/5"[..7][1] == 't' != "/delete"[1];
  }
}
