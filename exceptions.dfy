/** The exceptions the theme script can raise, and how a call ends. */
module Exceptions {

  /** Message of the TypeError built by RecentlyPosts.handleEvent when the
      transport did not deliver a usable response. */
  const NO_RESPONSE_MESSAGE: string := "Don't get response."

  datatype Error =
    /** `new TypeError("Don't get response.")`, built by handleEvent itself. */
    | NoResponse(message: string)
    /** `responseXML` was null, so reading its `documentElement` throws. */
    | NoDocument
    /** `getElementsByTagName(tagName)[0]` was undefined inside an item, so
        reading its `textContent` throws. */
    | MissingElement(tagName: string)
    /** A value that is not a function was called: a handler that is not a
        function (`.call`), or `forEach` on a value that has none. */
    | NotAFunction(callee: string)
    /** `querySelector` found no headline, so `Range.setStartAfter(null)` throws. */
    | NoHeadline

  /** How a call ended: it returned, or an exception escaped from it. */
  datatype Completion = Returned | Threw(error: Error)
}
