/**
 * The view of an HTTP request the handlers look at: boost::beast's
 * request method (http::verb), its request target and its body.
 */
module Requests {

  /** The http::verb values the handlers distinguish; Beast's other verbs behave like Unknown here. */
  datatype Verb = Delete | Get | Head | Post | Put | Connect | Options | Trace | Patch | Unknown

  datatype Request = Request(verb: Verb, target: string, body: string)

  /** string_view::starts_with */
  predicate StartsWith(s: string, prefix: string) {
    |prefix| <= |s| && s[..|prefix|] == prefix
  }

  /** Appending to a string keeps every prefix it had. */
  lemma StartsWithExtend(s: string, prefix: string, suffix: string)
    requires StartsWith(s, prefix)
    ensures StartsWith(s + suffix, prefix)
  {
    assert (s + suffix)[..|prefix|] == s[..|prefix|];
  }

  /** A prefix of a prefix is a prefix. */
  lemma StartsWithTransitive(s: string, p: string, q: string)
    requires StartsWith(s, q) && StartsWith(q, p)
    ensures StartsWith(s, p)
  {
    assert s[..|p|] == s[..|q|][..|p|];
  }
}
