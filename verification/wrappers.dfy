/** The optional-value datatype used throughout the model: a regex that did not
    match, a section that does not exist and a result field that is left out of
    the response body are all `None`.
 */
module Wrappers {

  datatype Option<+T> = None | Some(value: T)
}
