/** The part of Python's `re` the engine relies on, kept abstract: what a
    pattern's syntax means is a parameter, and so is the bank-comment pattern. */
module Regex {
  import opened Values

  type Pattern = string

  /** The currency-exchange groups of a bank comment; the enclosing group
      and its three subgroups take part together or not at all. */
  datatype Exchange = Exchange(whole: string, amount: string, currency: string, rate: string)

  /** The named groups of a successful match of the bank-comment pattern.
      `id` and `exchange` are optional groups. */
  datatype CommentGroups = CommentGroups(
    card: string,
    id: Option<string>,
    place: string,
    date: string,
    time: string,
    exchange: Option<Exchange>)

  /** The regular-expression behaviour the model depends on.
      `matchAt(p, s)` holds when Python's `re.match(p, s)` finds a match,
      that is, when pattern `p` matches starting at the beginning of `s`
      (with whatever `p` itself says about the end of the text);
      `comment(s)` is `comment_re.match(s)`. */
  datatype Engine = Engine(
    matchAt: (Pattern, string) -> bool,
    comment: string -> Option<CommentGroups>)
}
