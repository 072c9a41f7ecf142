/** Small shared datatypes: optional values, results, fingerprints and timestamps. */
module Basics {

  datatype Option<+T> = None | Some(value: T)

  /** A raised `ValueError` is an `Err` that carries the reason. */
  datatype Result<+T> = Ok(value: T) | Err(error: string)

  /** A SHA-256 fingerprint of `payload`. Wrapping the payload makes equal fingerprints mean
      equal payloads, which is the collision-freedom every fingerprint check relies on. */
  datatype Digest<+P> = Digest(payload: P)

  /** A timezone-aware timestamp: the text that was written and the instant it parses to.
      Comparisons use the instant, sort keys and equality use the text as well. */
  datatype Timestamp = Timestamp(text: string, instant: int)

  /** Python's `str.isspace` for one character. */
  predicate IsSpace(c: char) {
    || '\U{09}' <= c <= '\U{0D}' || '\U{1C}' <= c <= '\U{20}' || c == '\U{85}' || c == '\U{A0}' || c == '\U{1680}'
    || '\U{2000}' <= c <= '\U{200A}' || c == '\U{2028}' || c == '\U{2029}' || c == '\U{202F}' || c == '\U{205F}'
    || c == '\U{3000}'
  }

  /** What `strip` leaves empty. */
  predicate Blank(s: string) {
    forall i | 0 <= i < |s| :: IsSpace(s[i])
  }
}
