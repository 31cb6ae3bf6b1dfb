/** Notions of the Python runtime that the crawler and the pipeline rely on:
    an optional value, the exceptions that end a call, and the two standard-library
    helpers whose behaviour at the edges matters (`os.path.join`, `urllib.parse.urljoin`). */
module Py {

  datatype Option<+T> = None | Some(value: T)

  /** The exceptions that the modelled code lets escape. None of them is caught by the
      caller, so each one ends the whole run. */
  datatype PyError =
    | AttributeError    // an attribute looked up on None (a missing element)
    | ValueError        // max() of an empty list, or unpacking a bare list into two names
    | TimeoutException  // a bounded browser wait that expired

  /** What a call did: returned a value or raised. */
  datatype Outcome<+T> = Returned(value: T) | Raised(error: PyError)

  /** `os.path.join(a, b)` with the POSIX rules: an absolute `b` replaces `a`,
      otherwise a separator is inserted unless `a` is empty or already ends in one. */
  function PathJoin(a: string, b: string): (p: string)
    ensures |b| > 0 && b[0] == '/' ==> p == b
    ensures (|b| == 0 || b[0] != '/') ==> a <= p && |b| <= |p| && p[|p| - |b|..] == b
    ensures (|b| == 0 || b[0] != '/') && a != [] && a[|a| - 1] != '/' ==> p == a + "/" + b
    ensures (|b| == 0 || b[0] != '/') && (a == [] || a[|a| - 1] == '/') ==> p == a + b
  {
    if |b| > 0 && b[0] == '/' then b
    else if a == [] || a[|a| - 1] == '/' then a + b
    else a + "/" + b
  }

  /** `urllib.parse.urljoin(base, ref)`. The two guards at the head of the library function
      are modelled exactly (an empty base gives the reference back, an empty reference
      gives the base); the reference resolution itself (section 5.2 of RFC 3986) is the
      opaque `resolve`. */
  function UrlJoin(resolve: (string, string) -> string, base: string, ref: string): (r: string)
    ensures base == "" ==> r == ref
    ensures base != "" && ref == "" ==> r == base
    ensures base != "" && ref != "" ==> r == resolve(base, ref)
  {
    if base == "" then ref else if ref == "" then base else resolve(base, ref)
  }

  /** `urljoin(base, ref)` where `ref` may be `None` (an attribute that is absent):
      `None` counts as an empty reference, and comes back unchanged when the base is empty. */
  function UrlJoinOpt(resolve: (string, string) -> string, base: string, ref: Option<string>): (r: Option<string>)
    ensures base == "" ==> r == ref
    ensures base != "" ==> r == Some(UrlJoin(resolve, base, if ref.Some? then ref.value else ""))
  {
    if base == "" then ref
    else if ref == None then Some(base)
    else Some(UrlJoin(resolve, base, ref.value))
  }
}
