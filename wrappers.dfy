/** Optional values, and results that carry either a value or the Python
    exception the operation would have raised. */
module Wrappers {

  datatype Option<+T> = None | Some(value: T)

  /** The exceptions the modelled code can raise. */
  datatype Error =
    | KeyError(key: string)           // a dictionary lookup with a missing key
    | IndexError                      // an index past the end of a list
    | ValueError(message: string)     // an argument the code rejects explicitly
    | TypeError                       // lxml refusing a None attribute name or value
    | AttributeError(name: string)    // a property object that is None or was never set
    | UnboundLocalError(name: string) // a local variable read before any branch assigned it
    | XmlSyntaxError                  // a part that is not XML (or is empty) handed to the parser
    | IOError(path: string)           // a file the image library cannot open

  datatype Result<+T> = Ok(value: T) | Err(error: Error)
}
