/** The "value or nothing" result that a GraphQL resolver returns: a JavaScript
    `undefined` (what `Array.prototype.find` yields when nothing matches, and what
    an omitted nullable argument reads as) is modelled as `None`. */
module Wrappers {

  datatype Option<+T> = None | Some(value: T)
}
