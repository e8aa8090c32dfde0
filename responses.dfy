/**
 The outcomes a handler can send, in place of Express status codes, and the
 catch-all middleware that answers 405 for an unsupported HTTP method.
 */
module Responses {

  /** A JavaScript value that may be `undefined`/`null` (or, for a parsed id, NaN). */
  datatype Option<+T> = None | Some(value: T) {
    function GetOr(default: T): (r: T) {
      if Some? then value else default
    }
  }

  /** 400, 404 and 405 respectively. */
  datatype Error = BadRequest | NotFound | MethodNotAllowed

  /** A 2xx answer carrying a body, or an error status. */
  datatype Result<+T> = Ok(value: T) | Err(error: Error)

  /** The HTTP methods the application declares routes for. */
  const RoutedMethods: seq<string> := ["GET", "POST", "PUT", "DELETE"]

  /** The last middleware: a request that no route answered is refused with
      405 when its method is not one the application routes, and otherwise
      handed on (`next()`), to Express's own fallback. */
  function MethodFilter(verb: string): (r: Result<()>)
    ensures r.Ok? <==> verb in RoutedMethods
    ensures r.Err? ==> r.error == MethodNotAllowed
  {
    if verb in RoutedMethods then Ok(()) else Err(MethodNotAllowed)
  }
}
