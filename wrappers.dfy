/** Option and Result, the failure-carrying values used throughout the model. */
module Wrappers {

  datatype Option<+T> = None | Some(value: T)

  datatype Result<+T, +E> = Ok(value: T) | Err(error: E)
}

/** The Python exceptions the motion client can raise, one constructor per kind. */
module Exceptions {

  datatype Exception =
    | MalformedCoordinate   // NameError("Malformed coordinate!") from check_coordinates
    | TypeError             // len() of a number, arithmetic on a list
    | IndexError            // a reply with too few tokens
    | ValueError            // float() of a token that is not a number
    | KeyError              // an unknown unit name in set_units
    | ClearBufferFailed     // NameError("clear_buffer failed!")
    | SocketClosed          // any send after close()
}
