/** What a check can conclude, and why an analysis run can stop early. */
module Outcomes {

  /**
   The colour a console line is printed in: green (`OK`), yellow (`WARNING`),
   red (`FAIL`), or no colour at all.
   */
  datatype Severity = Ok | Warning | Fail | Neutral

  /**
   The ways a run stops before the report is complete, in the order the
   script would reach them.
   */
  datatype Error =
    | MissingField(name: string)  // a front-matter field is absent or has no value
    | UnboundTitle                // no title from front matter, option or first `h1`
    | NoParagraph                 // the document has no `p` element
    | ZeroWordCount               // the density divides by a word count of zero
    | MissingAlt                  // an `img` without an `alt` attribute
    | MissingHref                 // an `a` without an `href` attribute
}
