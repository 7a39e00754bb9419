/** The one optional-value datatype the model needs: an absent attribute, a
    missing `<img>` under the pointer, a node that is not an image. */
module Wrappers {

  datatype Option<+T> = None | Some(value: T)
}
