/** The domain tags a transformation declares: where its forward map lands. */
module Domains {
  datatype Domain = Positive | Negative | Bounded
}
