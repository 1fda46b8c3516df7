/** Small value types shared by the dashboard and the scraper models. */
module Common {

  /** A Python value that may be None. */
  datatype Option<+T> = None | Some(value: T) {
    /** `x or default` / `getattr(obj, name, default)`: the value, or the default when absent. */
    function GetOr(default: T): T {
      match this
      case Some(v) => v
      case None => default
    }
  }

  /** What one request to a paginated upstream produced: the page's items, or an exception
      (timeout, unreachable host, malformed answer, a browser error). */
  datatype PageResult<+T> = Ok(items: seq<T>) | Fail

  /** The page oracle: `pages[k]` answers the k-th request (counting from 0); every request
      past the end of the oracle fails, so every walk over it is finite. */
  function PageAt<T>(pages: seq<PageResult<T>>, k: nat): (r: PageResult<T>)
    ensures k >= |pages| ==> r == Fail
  {
    if k < |pages| then pages[k] else Fail
  }

  /** The items of a sequence as a set (Python's `set(xs)`). */
  function SetOf<T>(xs: seq<T>): set<T> {
    set x | x in xs
  }
}
