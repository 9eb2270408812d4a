/** The strategy used at compression level None: the text is left alone. */
module NoCompressionStrategy {

  /** Total, path-independent, and the identity on every text, the empty one included. */
  function Process(content: string, filePath: string): (r: string)
    ensures r == content
    ensures |r| == |content|
  {
    content
  }

  /** Applying the strategy twice is applying it once, whatever the paths. */
  lemma ProcessIdempotent(content: string, p1: string, p2: string)
    ensures Process(Process(content, p1), p2) == Process(content, p2)
  {
  }
}
