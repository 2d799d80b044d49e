/** Source spans: a half-open range of character offsets (src/span.rs). */
module Spans {
  datatype Span = Span(start: nat, end: nat)

  /** `Span::new`. */
  function NewSpan(start: nat, end: nat): (s: Span)
    ensures s.start == start && s.end == end
  {
    Span(start, end)
  }

  /** `From<(usize, usize)>`: the pair's components become start and end. */
  function FromPair(pair: (nat, nat)): (s: Span)
    ensures s.start == pair.0 && s.end == pair.1
    ensures s == NewSpan(pair.0, pair.1)
  {
    NewSpan(pair.0, pair.1)
  }

  /**
   * Conversion to a diagnostic (offset, length) pair. The length is
   * `end - start` on usize, which underflows when end < start; the
   * precondition excludes that.
   */
  function ToSourceSpan(s: Span): (r: (nat, nat))
    requires s.start <= s.end
    ensures r.0 == s.start
    ensures r.0 + r.1 == s.end
  {
    (s.start, s.end - s.start)
  }

  /** The conversion loses nothing: the span is recovered from (offset, length). */
  lemma SourceSpanRoundTrip(s: Span)
    requires s.start <= s.end
    ensures FromPair((ToSourceSpan(s).0, ToSourceSpan(s).0 + ToSourceSpan(s).1)) == s
  {
  }
}
