/** The library routines and the network the scripts call, given to the
    model as function values: what they compute is not part of the model,
    only the facts stated in their types. */
module Externals {
  import opened Wrappers

  /** A similarity score as `rapidfuzz.fuzz.ratio` returns it. */
  type Ratio = r: real | 0.0 <= r <= 100.0

  datatype Env = Env(
    /** The text an HTTP GET of a URL yields; None when the request fails
        the way the calling script treats as failure. */
    fetch: string -> Option<string>,
    /** `f"{p.scheme}://{p.netloc}"` for `p = urlparse(url)`. */
    origin: string -> string,
    /** `urllib.parse.urljoin(base, url)`, taken as total: the
        `ValueError` it raises on a network location with an unbalanced
        `[` is not part of this model. */
    urljoin: (string, string) -> string,
    /** `html.unescape`. */
    unescape: string -> string,
    /** `base64.b64decode(s).decode('utf-8', errors='ignore')`; None when
        the literal is not valid base64 and the decoder raises. */
    b64decode: string -> Option<string>,
    /** `rapidfuzz.fuzz.ratio(a, b)`. */
    ratio: (string, string) -> Ratio)
}
